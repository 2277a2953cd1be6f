/**
 The label-leak guard: it walks a JSON document, counts the facts it sees and stops at the first key
 that names a held-out target, or at a disclosure key without its required value.
 */
module Guard {
  import opened Json
  import opened Options

  const DISCLOSURE_KEY := "benchmark.label_visibility"
  const WITHHELD := "withheld-sidecar"
  const FORBIDDEN: seq<string> := [
    "resolved", "label", "ground_truth", "groundtruth", "target", "reward", "success_label",
    "failure_label", "outcome_label"]

  /** ASCII lower case, with dashes and blanks read as underscores. */
  function FoldChar(c: char): char {
    if 'A' <= c <= 'Z' then (c as int + 32) as char
    else if c == '-' || c == ' ' then '_'
    else c
  }

  function Normalized(key: string): (r: string)
    ensures |r| == |key| && forall i :: 0 <= i < |r| ==> r[i] == FoldChar(key[i])
  {
    seq(|key|, i requires 0 <= i < |key| => FoldChar(key[i]))
  }

  /** `str::split('.')`: never empty. */
  function Split(s: string): (parts: seq<string>)
    ensures parts != []
  {
    if s == [] then [""]
    else
      var rest := Split(s[1..]);
      if s[0] == '.' then [""] + rest else [[s[0]] + rest[0]] + rest[1..]
  }

  predicate ForbiddenKey(key: string) {
    exists i :: 0 <= i < |Split(Normalized(key))| && Split(Normalized(key))[i] in FORBIDDEN
  }

  // ---------------------------------------------------------------- the key rule

  function Joined(parts: seq<string>): string {
    if parts == [] then ""
    else if |parts| == 1 then parts[0]
    else parts[0] + "." + Joined(parts[1..])
  }

  ghost predicate DotFree(parts: seq<string>) {
    forall i :: 0 <= i < |parts| ==> '.' !in parts[i]
  }

  /** Splitting undoes joining and leaves no dot inside a part. */
  lemma {:induction false} SplitThenJoin(s: string)
    ensures DotFree(Split(s)) && Joined(Split(s)) == s
  {
    if s != [] {
      var rest := Split(s[1..]);
      SplitThenJoin(s[1..]);
      if s[0] == '.' {
        assert ([""] + rest)[1..] == rest;
        assert s == "." + s[1..];
      } else {
        var parts := [[s[0]] + rest[0]] + rest[1..];
        assert parts[1..] == rest[1..];
        assert Joined(parts) == [s[0]] + Joined(rest);
      }
    }
  }

  /** Joining undoes splitting: dot-free parts are recovered exactly. */
  lemma {:induction false} JoinThenSplit(parts: seq<string>)
    requires parts != [] && DotFree(parts)
    ensures Split(Joined(parts)) == parts
    decreases |Joined(parts)|
  {
    var first, rest := parts[0], parts[1..];
    if first == "" {
      if rest != [] {
        assert Joined(parts)[1..] == Joined(rest);
        JoinThenSplit(rest);
      }
    } else {
      var shorter := [first[1..]] + rest;
      assert shorter[1..] == rest;
      assert Joined(parts) == [first[0]] + Joined(shorter);
      assert Joined(parts)[1..] == Joined(shorter);
      assert forall c :: c in first[1..] ==> c in first;
      JoinThenSplit(shorter);
      assert first == [first[0]] + first[1..] && first[0] in first;
      assert parts == [first] + shorter[1..];
    }
  }

  /** The same letter in either case, or two of dash, blank and underscore, or the same character. */
  predicate Alike(c: char, d: char) {
    || c == d
    || SameLetter(c, d) || SameLetter(d, c)
    || (c in {'-', ' ', '_'} && d in {'-', ' ', '_'})
  }

  predicate SameLetter(upper: char, lower: char) {
    'A' <= upper <= 'Z' && 'a' <= lower <= 'z' && upper - 'A' == lower - 'a'
  }

  predicate SameKey(a: string, b: string) {
    |a| == |b| && forall i :: 0 <= i < |a| ==> Alike(a[i], b[i])
  }

  lemma AlikeMeansFoldedAlike(c: char, d: char)
    ensures Alike(c, d) <==> FoldChar(c) == FoldChar(d)
  {
  }

  lemma SameKeyMeansFoldedSame(a: string, b: string)
    ensures SameKey(a, b) <==> Normalized(a) == Normalized(b)
  {
    hide Alike, FoldChar;
    forall c, d ensures Alike(c, d) <==> FoldChar(c) == FoldChar(d) { AlikeMeansFoldedAlike(c, d); }
    if Normalized(a) == Normalized(b) {
      assert forall i :: 0 <= i < |a| ==> Normalized(a)[i] == Normalized(b)[i];
    }
  }

  lemma WordsAreFolded()
    ensures forall word :: word in FORBIDDEN ==> Normalized(word) == word && '.' !in word
  {
    forall i | 0 <= i < |FORBIDDEN| ensures Normalized(FORBIDDEN[i]) == FORBIDDEN[i] && '.' !in FORBIDDEN[i] {
      assert forall j :: 0 <= j < |FORBIDDEN[i]| ==> 'a' <= FORBIDDEN[i][j] <= 'z' || FORBIDDEN[i][j] == '_';
    }
  }

  lemma OnlyDotsFoldToDots(c: char)
    ensures FoldChar(c) == '.' <==> c == '.'
  {
  }

  lemma FoldsFromTheFront(c: char, rest: string)
    ensures Normalized([c] + rest) == [FoldChar(c)] + Normalized(rest)
  {
  }

  /** Folding neither makes nor removes a dot. */
  lemma {:induction false} SplitFolds(key: string)
    ensures |Split(Normalized(key))| == |Split(key)|
    ensures forall i :: 0 <= i < |Split(key)| ==> Split(Normalized(key))[i] == Normalized(Split(key)[i])
  {
    hide FoldChar;
    if key != "" {
      hide Normalized;
      var c, tail := key[0], key[1..];
      assert key == [c] + tail;
      FoldsFromTheFront(c, tail);
      assert Normalized(key)[1..] == Normalized(tail);
      OnlyDotsFoldToDots(c);
      SplitFolds(tail);
      FoldsFromTheFront(c, Split(tail)[0]);
    }
  }

  /** A held-out word, in any case and with any of dash, blank and underscore between its parts. */
  predicate Spells(segment: string) {
    exists i :: 0 <= i < |FORBIDDEN| && SameKey(segment, FORBIDDEN[i])
  }

  lemma SpellsMeansFoldsToAWord(segment: string)
    ensures Spells(segment) <==> Normalized(segment) in FORBIDDEN
  {
    WordsAreFolded();
    forall i | 0 <= i < |FORBIDDEN| ensures SameKey(segment, FORBIDDEN[i]) <==> Normalized(segment) == FORBIDDEN[i] {
      assert FORBIDDEN[i] in FORBIDDEN;
      SameKeyMeansFoldedSame(segment, FORBIDDEN[i]);
    }
  }

  /**
   A key is forbidden exactly when it is a dotted path one of whose segments spells a held-out word: a word
   inside a longer segment does not count.
   */
  lemma ForbiddenMeansASegment(key: string)
    ensures ForbiddenKey(key) <==>
      exists parts :: parts != [] && DotFree(parts) && Joined(parts) == key
                      && exists i :: 0 <= i < |parts| && Spells(parts[i])
  {
    var split := Split(key);
    SplitThenJoin(key);
    SplitFolds(key);
    forall i | 0 <= i < |split| ensures Spells(split[i]) <==> Split(Normalized(key))[i] in FORBIDDEN {
      SpellsMeansFoldsToAWord(split[i]);
    }
    forall parts | parts != [] && DotFree(parts) && Joined(parts) == key ensures parts == split {
      JoinThenSplit(parts);
    }
  }

  /** Keys that read the same are forbidden alike. */
  lemma SameKeysAreForbiddenAlike(a: string, b: string)
    requires SameKey(a, b)
    ensures ForbiddenKey(a) <==> ForbiddenKey(b)
  {
    SameKeyMeansFoldedSame(a, b);
  }

  /** A key without a dot is one segment, and is forbidden exactly when it spells a held-out word. */
  lemma UndottedKey(key: string)
    requires '.' !in key
    ensures ForbiddenKey(key) <==> Spells(key)
  {
    SplitFolds(key);
    SpellsMeansFoldsToAWord(key);
    assert Joined([key]) == key;
    JoinThenSplit([key]);
  }

  // ------------------------------------------------------------ what is accepted

  /** What the guard asks of one fact by itself. */
  predicate Allowed(key: string, value: Value) {
    if key == DISCLOSURE_KEY then value == Str(WITHHELD) else !ForbiddenKey(key)
  }

  /** The disclosure key must be withheld, and no other key may hold a segment that spells a held-out word. */
  lemma AllowedIff(key: string, value: Value)
    ensures Allowed(key, value) <==>
      && (key == DISCLOSURE_KEY ==> value == Str(WITHHELD))
      && (key != DISCLOSURE_KEY ==>
            forall parts, i :: parts != [] && DotFree(parts) && Joined(parts) == key && 0 <= i < |parts| ==>
              !Spells(parts[i]))
  {
    ForbiddenMeansASegment(key);
  }

  predicate Clean(value: Value)
    decreases value, 0
  {
    match value
    case Array(items) => forall i :: 0 <= i < |items| ==> Clean(items[i])
    case Object(fields) => forall k :: k in fields ==> FactClean(k, fields[k])
    case _ => true
  }

  predicate FactClean(key: string, value: Value)
    decreases value, 1
  {
    Allowed(key, value) && Clean(value)
  }

  predicate MapClean(facts: map<string, Value>) {
    forall k :: k in facts ==> FactClean(k, facts[k])
  }

  /** Every fact that any path reaches is allowed. */
  ghost predicate EveryReachableFactAllowed(value: Value) {
    forall path: seq<Step>, key: string ::
      At(value, path + [Field(key)]).Some? ==> Allowed(key, At(value, path + [Field(key)]).value)
  }

  lemma {:induction false} CleanReaches(value: Value, path: seq<Step>, key: string)
    requires Clean(value) && At(value, path + [Field(key)]).Some?
    ensures Allowed(key, At(value, path + [Field(key)]).value)
    decreases |path|
  {
    var whole := path + [Field(key)];
    if path == [] {
      assert whole[1..] == [];
    } else {
      assert whole[0] == path[0] && whole[1..] == path[1..] + [Field(key)];
      CleanReaches(Enter(value, path[0]).value, path[1..], key);
    }
  }

  lemma {:induction false} ReachableAllowedIsClean(value: Value)
    requires EveryReachableFactAllowed(value)
    ensures Clean(value)
  {
    match value
    case Array(items) =>
      forall i | 0 <= i < |items| ensures Clean(items[i]) {
        InsideIsAllowedToo(value, Item(i));
        ReachableAllowedIsClean(items[i]);
      }
    case Object(fields) =>
      forall k | k in fields ensures FactClean(k, fields[k]) {
        assert ([] + [Field(k)])[1..] == [];
        assert At(value, [] + [Field(k)]) == Some(fields[k]);
        InsideIsAllowedToo(value, Field(k));
        ReachableAllowedIsClean(fields[k]);
      }
    case _ =>
  }

  lemma InsideIsAllowedToo(value: Value, step: Step)
    requires EveryReachableFactAllowed(value) && Enter(value, step).Some?
    ensures EveryReachableFactAllowed(Enter(value, step).value)
  {
    var inner := Enter(value, step).value;
    forall path: seq<Step>, key: string | At(inner, path + [Field(key)]).Some?
      ensures Allowed(key, At(inner, path + [Field(key)]).value)
    {
      var longer := ([step] + path) + [Field(key)];
      assert longer[0] == step && longer[1..] == path + [Field(key)];
      assert At(value, longer) == At(inner, path + [Field(key)]);
    }
  }

  /** The guard accepts exactly the documents whose every reachable fact is allowed. */
  lemma CleanIffEveryReachableFactAllowed(value: Value)
    ensures Clean(value) <==> EveryReachableFactAllowed(value)
  {
    if Clean(value) {
      forall path: seq<Step>, key: string | At(value, path + [Field(key)]).Some?
        ensures Allowed(key, At(value, path + [Field(key)]).value)
      {
        CleanReaches(value, path, key);
      }
    }
    if EveryReachableFactAllowed(value) {
      ReachableAllowedIsClean(value);
    }
  }

  // -------------------------------------------------------------------- counting

  /** The facts the guard counts in a clean document: every key once, and nothing below a disclosure. */
  ghost function Facts(value: Value): nat
    decreases value, 1
  {
    match value
    case Array(items) => FactsInItems(items)
    case Object(fields) => FactsInFields(value, fields.Keys)
    case _ => 0
  }

  ghost function FactsInItems(items: seq<Value>): nat
    decreases items, 0
  {
    if items == [] then 0
    else FactsInItems(items[..|items| - 1]) + Facts(items[|items| - 1])
  }

  ghost function FactsInFields(object_: Value, keys: set<string>): nat
    requires object_.Object? && keys <= object_.fields.Keys
    decreases object_, 0, keys
  {
    if keys == {} then 0
    else
      var k :| k in keys;
      1 + Facts(object_.fields[k]) + FactsInFields(object_, keys - {k})
  }

  /** The count does not depend on the order in which the fields are visited. */
  lemma {:induction false} FactsInAnyOrder(object_: Value, keys: set<string>, k: string)
    requires object_.Object? && keys <= object_.fields.Keys && k in keys
    ensures FactsInFields(object_, keys) == 1 + Facts(object_.fields[k]) + FactsInFields(object_, keys - {k})
    decreases |keys|
  {
    var first :| first in keys && FactsInFields(object_, keys)
      == 1 + Facts(object_.fields[first]) + FactsInFields(object_, keys - {first});
    if first != k {
      FactsInAnyOrder(object_, keys - {first}, k);
      FactsInAnyOrder(object_, keys - {k}, first);
      assert keys - {first} - {k} == keys - {k} - {first};
    }
  }

  class GuardSummary {
    var traces: nat
    var spans: nat
    var inspectedFacts: nat

    constructor ()
      ensures traces == spans == inspectedFacts == 0
    {
      traces, spans, inspectedFacts := 0, 0, 0;
    }
  }

  /** Accepts exactly a clean fact, and counts every fact it saw. */
  method InspectFact(key: string, value: Value, summary: GuardSummary) returns (ok: bool)
    modifies summary`inspectedFacts
    ensures ok <==> FactClean(key, value)
    ensures ok ==> summary.inspectedFacts == old(summary.inspectedFacts) + 1 + Facts(value)
    ensures summary.inspectedFacts > old(summary.inspectedFacts)
    decreases value, 1
  {
    summary.inspectedFacts := summary.inspectedFacts + 1;
    if key == DISCLOSURE_KEY {
      return value == Str(WITHHELD);
    }
    if ForbiddenKey(key) {
      return false;
    }
    ok := InspectNestedValue(value, summary);
  }

  method InspectNestedValue(value: Value, summary: GuardSummary) returns (ok: bool)
    modifies summary`inspectedFacts
    ensures ok <==> Clean(value)
    ensures ok ==> summary.inspectedFacts == old(summary.inspectedFacts) + Facts(value)
    ensures summary.inspectedFacts >= old(summary.inspectedFacts)
    decreases value, 0
  {
    match value {
      case Array(items) =>
        for i := 0 to |items|
          invariant forall j :: 0 <= j < i ==> Clean(items[j])
          invariant summary.inspectedFacts == old(summary.inspectedFacts) + FactsInItems(items[..i])
        {
          var itemOk := InspectNestedValue(items[i], summary);
          if !itemOk {
            return false;
          }
          assert items[..i + 1][..i] == items[..i];
        }
        assert items[..|items|] == items;
      case Object(fields) =>
        var left := fields.Keys;
        while left != {}
          invariant left <= fields.Keys
          invariant forall k :: k in fields && k !in left ==> FactClean(k, fields[k])
          invariant summary.inspectedFacts + FactsInFields(value, left)
                 == old(summary.inspectedFacts) + FactsInFields(value, fields.Keys)
          invariant summary.inspectedFacts >= old(summary.inspectedFacts)
          decreases left
        {
          var k :| k in left;
          var fieldOk := InspectFact(k, fields[k], summary);
          if !fieldOk {
            return false;
          }
          FactsInAnyOrder(value, left, k);
          left := left - {k};
        }
      case _ =>
    }
    ok := true;
  }

  method InspectFactMap(facts: map<string, Value>, summary: GuardSummary) returns (ok: bool)
    modifies summary`inspectedFacts
    ensures ok <==> MapClean(facts)
    ensures ok ==> summary.inspectedFacts == old(summary.inspectedFacts) + FactsInFields(Object(facts), facts.Keys)
    ensures summary.inspectedFacts >= old(summary.inspectedFacts)
  {
    var left := facts.Keys;
    while left != {}
      invariant left <= facts.Keys
      invariant forall k :: k in facts && k !in left ==> FactClean(k, facts[k])
      invariant summary.inspectedFacts + FactsInFields(Object(facts), left)
             == old(summary.inspectedFacts) + FactsInFields(Object(facts), facts.Keys)
      invariant summary.inspectedFacts >= old(summary.inspectedFacts)
      decreases left
    {
      var k :| k in left;
      var fieldOk := InspectFact(k, facts[k], summary);
      if !fieldOk {
        return false;
      }
      FactsInAnyOrder(Object(facts), left, k);
      left := left - {k};
    }
    ok := true;
  }

  method InspectJsonDocument(value: Value, summary: GuardSummary) returns (ok: bool)
    modifies summary`inspectedFacts
    ensures ok <==> EveryReachableFactAllowed(value)
  {
    CleanIffEveryReachableFactAllowed(value);
    ok := InspectNestedValue(value, summary);
  }
}
