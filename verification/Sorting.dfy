/** Stable sorting by a strict order, as `slice::sort_by` does. */
module Sorting {
  import opened Lists

  /** `before` orders any two members, up to ties. */
  ghost predicate StrictOrder<T(!new)>(before: (T, T) -> bool) {
    && (forall a, b :: before(a, b) ==> !before(b, a))
    && (forall a, b, c :: !before(b, a) && !before(c, b) ==> !before(c, a))
  }

  ghost predicate Sorted<T(!new)>(list: seq<T>, before: (T, T) -> bool) {
    forall i, j :: 0 <= i < j < |list| ==> !before(list[j], list[i])
  }

  function Insert<T>(x: T, sorted: seq<T>, before: (T, T) -> bool): seq<T> {
    if sorted != [] && before(x, sorted[|sorted| - 1])
    then Insert(x, sorted[..|sorted| - 1], before) + [sorted[|sorted| - 1]]
    else sorted + [x]
  }

  function Sort<T>(list: seq<T>, before: (T, T) -> bool): seq<T> {
    if list == [] then [] else Insert(list[|list| - 1], Sort(list[..|list| - 1], before), before)
  }

  lemma {:induction false} InsertKeepsMembers<T>(x: T, sorted: seq<T>, before: (T, T) -> bool)
    ensures multiset(Insert(x, sorted, before)) == multiset(sorted) + multiset{x}
  {
    if sorted != [] && before(x, sorted[|sorted| - 1]) {
      assert sorted == sorted[..|sorted| - 1] + [sorted[|sorted| - 1]];
      InsertKeepsMembers(x, sorted[..|sorted| - 1], before);
    }
  }

  lemma {:induction false} InsertKeepsOrder<T(!new)>(x: T, sorted: seq<T>, before: (T, T) -> bool)
    requires StrictOrder(before) && Sorted(sorted, before)
    ensures Sorted(Insert(x, sorted, before), before)
    ensures forall y :: y in Insert(x, sorted, before) ==> y == x || y in sorted
  {
    if sorted != [] {
      var front, last := sorted[..|sorted| - 1], sorted[|sorted| - 1];
      if before(x, last) {
        InsertKeepsOrder(x, front, before);
        assert forall y :: y in front ==> !before(last, y);
        assert forall y :: y in Insert(x, front, before) ==> !before(last, y);
      } else {
        assert !before(x, last) && forall y :: y in front ==> !before(last, y);
        assert forall y :: y in sorted ==> !before(x, y);
      }
    }
  }

  function TiedWith<T>(x: T, before: (T, T) -> bool): T -> bool {
    y => !before(x, y) && !before(y, x)
  }

  /** Members that tie stand in both lists in the same order. */
  ghost predicate KeepsTies<T(!new)>(list: seq<T>, sorted: seq<T>, before: (T, T) -> bool) {
    forall x :: Filter(sorted, TiedWith(x, before)) == Filter(list, TiedWith(x, before))
  }

  lemma FilterNext<T>(list: seq<T>, last: T, keep: T -> bool)
    ensures Filter(list + [last], keep) == Filter(list, keep) + if keep(last) then [last] else []
  {
    assert (list + [last])[..|list|] == list;
  }

  /** A member is inserted behind those it ties with. */
  lemma {:induction false} InsertKeepsTies<T(!new)>(x: T, sorted: seq<T>, before: (T, T) -> bool, z: T)
    requires StrictOrder(before)
    ensures Filter(Insert(x, sorted, before), TiedWith(z, before)) == Filter(sorted + [x], TiedWith(z, before))
  {
    if sorted != [] && before(x, sorted[|sorted| - 1]) {
      var front, last, tied := sorted[..|sorted| - 1], sorted[|sorted| - 1], TiedWith(z, before);
      InsertKeepsTies(x, front, before, z);
      FilterNext(Insert(x, front, before), last, tied);
      FilterNext(front, x, tied);
      FilterNext(front, last, tied);
      FilterNext(sorted, x, tied);
      assert sorted == front + [last];
      assert !(tied(x) && tied(last));
    }
  }

  /** The sorted list is in order, has the same members, and keeps ties in place. */
  lemma {:induction false} SortSorts<T(!new)>(list: seq<T>, before: (T, T) -> bool)
    requires StrictOrder(before)
    ensures Sorted(Sort(list, before), before) && multiset(Sort(list, before)) == multiset(list)
    ensures |Sort(list, before)| == |list|
    ensures KeepsTies(list, Sort(list, before), before)
  {
    if list != [] {
      var front, last := list[..|list| - 1], list[|list| - 1];
      assert list == front + [last];
      SortSorts(front, before);
      InsertKeepsMembers(last, Sort(front, before), before);
      InsertKeepsOrder(last, Sort(front, before), before);
      assert |multiset(Sort(list, before))| == |list|;
      forall x ensures Filter(Sort(list, before), TiedWith(x, before)) == Filter(list, TiedWith(x, before)) {
        InsertKeepsTies(last, Sort(front, before), before, x);
        FilterNext(Sort(front, before), last, TiedWith(x, before));
        FilterNext(front, last, TiedWith(x, before));
      }
    }
  }
}
