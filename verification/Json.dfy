/** JSON values as `serde_json` holds them: integers of either 64-bit range, finite floats, and objects with unique keys. */
module Json {
  import opened Options

  datatype Number = Integer(int_: int) | Float(float_: real)

  datatype Value =
    | Null
    | Bool(bool_: bool)
    | Number(number: Number)
    | Str(text: string)
    | Array(items: seq<Value>)
    | Object(fields: map<string, Value>)

  /** One step from a value to a value inside it. */
  datatype Step = Item(index: nat) | Field(key: string)

  function Enter(v: Value, step: Step): Option<Value> {
    match step
    case Item(i) => if v.Array? && i < |v.items| then Some(v.items[i]) else None
    case Field(k) => if v.Object? && k in v.fields then Some(v.fields[k]) else None
  }

  /** The value a path leads to, if there is one. */
  function At(v: Value, path: seq<Step>): Option<Value> {
    if path == [] then Some(v)
    else
      var inner := Enter(v, path[0]);
      if inner.Some? then At(inner.value, path[1..]) else None
  }

  /** Collecting key-value pairs into a map: a later pair replaces an earlier one with the same key. */
  function Collect<T>(pairs: seq<(string, T)>): map<string, T> {
    if pairs == [] then map[]
    else Collect(pairs[..|pairs| - 1])[pairs[|pairs| - 1].0 := pairs[|pairs| - 1].1]
  }

  /** The same map, read from the front: the first pair counts only if no later one has its key. */
  function CollectFromFront<T>(pairs: seq<(string, T)>): map<string, T> {
    if pairs == [] then map[]
    else map[pairs[0].0 := pairs[0].1] + CollectFromFront(pairs[1..])
  }

  lemma {:induction false} CollectConcat<T>(a: seq<(string, T)>, b: seq<(string, T)>)
    ensures Collect(a + b) == Collect(a) + Collect(b)
  {
    if b == [] {
      assert a + b == a;
    } else {
      assert (a + b)[..|a + b| - 1] == a + b[..|b| - 1];
      CollectConcat(a, b[..|b| - 1]);
    }
  }

  lemma {:induction false} CollectEitherWay<T>(pairs: seq<(string, T)>)
    ensures Collect(pairs) == CollectFromFront(pairs)
  {
    if pairs != [] {
      assert pairs == [pairs[0]] + pairs[1..];
      CollectConcat([pairs[0]], pairs[1..]);
      assert [pairs[0]][..0] == [];
      CollectEitherWay(pairs[1..]);
    }
  }
}
