/** The benchmark replayer turns JSON attributes back into OTLP values; the receiver turns them into JSON again. */
module Replay {
  import opened Json
  import opened Options
  import opened Otlp
  import opened Strings

  /** The replayer's `any_value`: null becomes a string, an integer above the signed range becomes a float. */
  ghost function ToOtlp(value: Value): AnyValue
    decreases value, 1
  {
    match value
    case Null => AnyValue(Some(StringValue("null")))
    case Bool(b) => AnyValue(Some(BoolValue(b)))
    case Number(Integer(n)) =>
      AnyValue(Some(if n <= I64_MAX then IntValue(n) else DoubleValue(Finite(n as real))))
    case Number(Float(x)) => AnyValue(Some(DoubleValue(Finite(x))))
    case Str(text) => AnyValue(Some(StringValue(text)))
    case Array(items) =>
      AnyValue(Some(ArrayValue(seq(|items|, i requires 0 <= i < |items| => ToOtlp(items[i])))))
    case Object(fields) => AnyValue(Some(KvlistValue(SortedEntries(value, fields.Keys))))
  }

  /** The fields of an object in key order. */
  ghost function SortedEntries(object_: Value, keys: set<string>): seq<KeyValue>
    requires object_.Object? && keys <= object_.fields.Keys
    decreases object_, 0, keys
  {
    if keys == {} then []
    else
      var k := Least(keys);
      [KeyValue(k, Some(ToOtlp(object_.fields[k])))] + SortedEntries(object_, keys - {k})
  }

  /** What is left of a value after the trip: nulls read "null", integers above the signed range are floats. */
  function Degraded(value: Value): Value {
    match value
    case Null => Str("null")
    case Number(Integer(n)) => Number(if n <= I64_MAX then Integer(n) else Float(n as real))
    case Array(items) => Array(seq(|items|, i requires 0 <= i < |items| => Degraded(items[i])))
    case Object(fields) => Object(map k | k in fields :: Degraded(fields[k]))
    case _ => value
  }

  /** No null and no integer above the signed 64-bit range, at any depth. */
  predicate Lossless(value: Value) {
    match value
    case Null => false
    case Number(Integer(n)) => n <= I64_MAX
    case Array(items) => forall i :: 0 <= i < |items| ==> Lossless(items[i])
    case Object(fields) => forall k :: k in fields ==> Lossless(fields[k])
    case _ => true
  }

  lemma MapExtends(fields: map<string, Value>, keys: set<string>, k: string)
    requires keys <= fields.Keys && k in keys
    ensures map[k := Degraded(fields[k])] + (map x | x in keys - {k} :: Degraded(fields[x]))
         == map x | x in keys :: Degraded(fields[x])
  {}

  lemma {:induction false} EntriesComeBack(object_: Value, keys: set<string>)
    requires object_.Object? && keys <= object_.fields.Keys
    requires forall k :: k in keys ==> ValueToJson(ToOtlp(object_.fields[k])) == Degraded(object_.fields[k])
    ensures CollectFromFront(Pairs(SortedEntries(object_, keys)))
         == map k | k in keys :: Degraded(object_.fields[k])
    decreases keys
  {
    if keys != {} {
      var k := Least(keys);
      var rest := SortedEntries(object_, keys - {k});
      var entries := SortedEntries(object_, keys);
      EntriesComeBack(object_, keys - {k});
      assert Pairs(entries)[1..] == Pairs(rest);
      assert Pairs(entries)[0] == (k, Degraded(object_.fields[k]));
      MapExtends(object_.fields, keys, k);
    }
  }

  /** Every value comes back as its degraded form, whatever its nesting. */
  lemma {:induction false} RoundTrip(value: Value)
    ensures ToJson(Some(ToOtlp(value))) == Degraded(value)
  {
    match value
    case Array(items) =>
      forall i | 0 <= i < |items| ensures ValueToJson(ToOtlp(items[i])) == Degraded(items[i]) {
        RoundTrip(items[i]);
      }
    case Object(fields) =>
      forall k | k in fields ensures ValueToJson(ToOtlp(fields[k])) == Degraded(fields[k]) {
        RoundTrip(fields[k]);
      }
      EntriesComeBack(value, fields.Keys);
      CollectEitherWay(Pairs(SortedEntries(value, fields.Keys)));
    case _ =>
  }

  lemma {:induction false} UnchangedIffLossless(value: Value)
    ensures Degraded(value) == value <==> Lossless(value)
  {
    match value
    case Array(items) =>
      var back := Degraded(value).items;
      forall i | 0 <= i < |items| ensures back[i] == items[i] <==> Lossless(items[i]) {
        UnchangedIffLossless(items[i]);
      }
      assert back == items <==> forall i :: 0 <= i < |items| ==> back[i] == items[i];
    case Object(fields) =>
      var back := Degraded(value).fields;
      forall k | k in fields ensures back[k] == fields[k] <==> Lossless(fields[k]) {
        UnchangedIffLossless(fields[k]);
      }
      assert back == fields <==> forall k :: k in fields ==> back[k] == fields[k];
    case _ =>
  }

  /** A value survives replay and receipt unchanged exactly when it has no null and no integer above the signed range. */
  lemma SurvivesIffLossless(value: Value)
    ensures ToJson(Some(ToOtlp(value))) == value <==> Lossless(value)
  {
    RoundTrip(value);
    UnchangedIffLossless(value);
  }
}
