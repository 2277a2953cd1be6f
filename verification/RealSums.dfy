/** Sums of a real-valued function over a list. */
module RealSums {

  function Sum<T>(list: seq<T>, f: T -> real): real {
    if list == [] then 0.0 else Sum(list[..|list| - 1], f) + f(list[|list| - 1])
  }

  lemma {:induction false} SumConcat<T>(a: seq<T>, b: seq<T>, f: T -> real)
    ensures Sum(a + b, f) == Sum(a, f) + Sum(b, f)
  {
    if b == [] {
      assert a + b == a;
    } else {
      assert (a + b)[..|a + b| - 1] == a + b[..|b| - 1];
      SumConcat(a, b[..|b| - 1], f);
    }
  }

  function RemoveAt<T>(list: seq<T>, i: nat): seq<T>
    requires i < |list|
  {
    list[..i] + list[i + 1..]
  }

  lemma RemovedMember<T>(list: seq<T>, i: nat)
    requires i < |list|
    ensures multiset(RemoveAt(list, i)) == multiset(list) - multiset{list[i]}
  {
    assert list == list[..i] + [list[i]] + list[i + 1..];
  }

  lemma RemovedTerm<T>(list: seq<T>, i: nat, f: T -> real)
    requires i < |list|
    ensures Sum(list, f) == Sum(RemoveAt(list, i), f) + f(list[i])
  {
    hide Sum;
    assert list == list[..i] + [list[i]] + list[i + 1..];
    SumAround(list[..i], list[i], list[i + 1..], f);
  }

  lemma SumAround<T>(before: seq<T>, x: T, after: seq<T>, f: T -> real)
    ensures Sum(before + [x] + after, f) == Sum(before + after, f) + f(x)
  {
    SumOfOne(x, f);
    hide Sum;
    SumConcat(before, after, f);
    SumConcat(before + [x], after, f);
    SumConcat(before, [x], f);
  }

  lemma SumOfOne<T>(x: T, f: T -> real)
    ensures Sum([x], f) == f(x)
  {
    assert [x][..0] == [];
  }

  /** The order of the list does not matter. */
  lemma {:induction false} SumPermutation<T>(a: seq<T>, b: seq<T>, f: T -> real)
    requires multiset(a) == multiset(b)
    ensures Sum(a, f) == Sum(b, f)
    decreases |a|
  {
    hide Sum, RemoveAt;
    if a == [] {
      assert |b| == |multiset(b)| == |multiset(a)| == 0;
    } else {
      assert a[0] in multiset(b);
      var i :| 0 <= i < |b| && b[i] == a[0];
      RemovedMember(a, 0);
      RemovedMember(b, i);
      RemovedTerm(a, 0, f);
      RemovedTerm(b, i, f);
      assert |RemoveAt(a, 0)| == |multiset(RemoveAt(a, 0))| < |multiset(a)| == |a|;
      SumPermutation(RemoveAt(a, 0), RemoveAt(b, i), f);
    }
  }

  /** Term by term, and exactly equal only if every term is. */
  lemma {:induction false} SumCompare<T>(list: seq<T>, f: T -> real, g: T -> real)
    requires forall x :: x in list ==> f(x) <= g(x)
    ensures Sum(list, f) <= Sum(list, g)
    ensures Sum(list, f) == Sum(list, g) <==> forall x :: x in list ==> f(x) == g(x)
  {
    if list != [] {
      var front, last := list[..|list| - 1], list[|list| - 1];
      assert list == front + [last];
      SumCompare(front, f, g);
      assert forall x :: x in list <==> x in front || x == last;
    }
  }

  lemma {:induction false} SumAdd<T>(list: seq<T>, f: T -> real, g: T -> real, h: T -> real)
    requires forall x :: x in list ==> f(x) == g(x) + h(x)
    ensures Sum(list, f) == Sum(list, g) + Sum(list, h)
  {
    if list != [] {
      var front, last := list[..|list| - 1], list[|list| - 1];
      assert list == front + [last];
      SumAdd(front, f, g, h);
    }
  }

  lemma {:induction false} SumScale<T>(list: seq<T>, f: T -> real, k: real, g: T -> real)
    requires forall x :: x in list ==> f(x) == k * g(x)
    ensures Sum(list, f) == k * Sum(list, g)
  {
    if list != [] {
      var front, last := list[..|list| - 1], list[|list| - 1];
      assert list == front + [last];
      SumScale(front, f, k, g);
    }
  }

  lemma {:induction false} SumConstant<T>(list: seq<T>, f: T -> real, k: real)
    requires forall x :: x in list ==> f(x) == k
    ensures Sum(list, f) == k * |list| as real
  {
    if list != [] {
      var front, last := list[..|list| - 1], list[|list| - 1];
      assert last in list && forall x :: x in front ==> x in list;
      SumConstant(front, f, k);
      assert |list| as real == |front| as real + 1.0;
    }
  }

  lemma SumZero<T>(list: seq<T>, f: T -> real)
    requires forall x :: x in list ==> f(x) == 0.0
    ensures Sum(list, f) == 0.0
  {
  }
}
