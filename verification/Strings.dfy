/** The order of strings by code point, as maps and sorts use it, and the least element of a set under it. */
module Strings {

  predicate Leq(a: string, b: string) {
    a == "" || (b != "" && (a[0] < b[0] || (a[0] == b[0] && Leq(a[1..], b[1..]))))
  }

  lemma {:induction false} LeqTotal(a: string, b: string)
    ensures Leq(a, b) || Leq(b, a)
  {
    if a != "" && b != "" { LeqTotal(a[1..], b[1..]); }
  }

  lemma {:induction false} LeqAntisymmetric(a: string, b: string)
    requires Leq(a, b) && Leq(b, a)
    ensures a == b
  {
    if a != "" && b != "" {
      LeqAntisymmetric(a[1..], b[1..]);
      assert a == [a[0]] + a[1..] && b == [b[0]] + b[1..];
    }
  }

  lemma {:induction false} LeqTransitive(a: string, b: string, c: string)
    requires Leq(a, b) && Leq(b, c)
    ensures Leq(a, c)
  {
    if a != "" && a[0] == b[0] == c[0] { LeqTransitive(a[1..], b[1..], c[1..]); }
  }

  /** `str::to_ascii_lowercase`. */
  function AsciiLower(text: string): string {
    seq(|text|, i requires 0 <= i < |text| =>
      if 'A' <= text[i] <= 'Z' then (text[i] as int + 32) as char else text[i])
  }

  ghost predicate IsLeast(keys: set<string>, k: string) {
    k in keys && forall other :: other in keys ==> Leq(k, other)
  }

  lemma {:induction false} LeastExists(keys: set<string>)
    requires keys != {}
    ensures exists k :: IsLeast(keys, k)
    decreases keys
  {
    var k :| k in keys;
    var rest := keys - {k};
    LeqTotal(k, k);
    assert keys == rest + {k};
    if rest == {} {
      assert IsLeast(keys, k);
    } else {
      LeastExists(rest);
      var least :| IsLeast(rest, least);
      LeqTotal(k, least);
      if Leq(k, least) {
        forall other | other in keys ensures Leq(k, other) {
          if other in rest { LeqTransitive(k, least, other); }
        }
        assert IsLeast(keys, k);
      } else {
        assert IsLeast(keys, least);
      }
    }
  }

  ghost function Least(keys: set<string>): (k: string)
    requires keys != {}
    ensures IsLeast(keys, k)
  {
    LeastExists(keys);
    var k :| IsLeast(keys, k);
    k
  }
}
