/** Sums of a non-negative measure over a sequence, and how one update, append or removal moves them. */
module SeqSums {

  function Sum<T>(s: seq<T>, f: T -> nat): nat
  {
    if s == [] then 0 else f(s[0]) + Sum(s[1..], f)
  }

  lemma {:induction false} SumConcat<T>(a: seq<T>, b: seq<T>, f: T -> nat)
    ensures Sum(a + b, f) == Sum(a, f) + Sum(b, f)
  {
    if a == [] {
      assert a + b == b;
    } else {
      assert (a + b)[1..] == a[1..] + b;
      SumConcat(a[1..], b, f);
    }
  }

  lemma SumAppend<T>(s: seq<T>, x: T, f: T -> nat)
    ensures Sum(s + [x], f) == Sum(s, f) + f(x)
  {
    SumConcat(s, [x], f);
    assert [x][1..] == [];
  }

  /** Replacing one element moves the sum by exactly that element's change. */
  lemma SumUpdate<T>(s: seq<T>, i: nat, x: T, f: T -> nat)
    requires i < |s|
    ensures Sum(s[i := x], f) + f(s[i]) == Sum(s, f) + f(x)
    ensures f(s[i]) <= Sum(s, f)
  {
    var rest := s[i + 1..];
    assert s == s[..i] + [s[i]] + rest;
    assert s[i := x] == s[..i] + [x] + rest;
    SumAppend(s[..i], s[i], f);
    SumAppend(s[..i], x, f);
    SumConcat(s[..i] + [s[i]], rest, f);
    SumConcat(s[..i] + [x], rest, f);
  }
}
