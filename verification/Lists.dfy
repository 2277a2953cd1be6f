/** Searching and filtering lists, as `Iterator::find` and `Vec::retain` do. */
module Lists {
  import opened Options

  function FirstIndex<T>(list: seq<T>, wanted: T -> bool): (at: Option<nat>)
    ensures at.Some? ==>
      at.value < |list| && wanted(list[at.value]) && forall i :: 0 <= i < at.value ==> !wanted(list[i])
    ensures at.None? ==> forall i :: 0 <= i < |list| ==> !wanted(list[i])
  {
    if list == [] then None
    else if wanted(list[0]) then Some(0)
    else
      match FirstIndex(list[1..], wanted)
      case None => None
      case Some(i) => Some(i + 1)
  }

  method Find<T>(list: seq<T>, wanted: T -> bool) returns (at: Option<nat>)
    ensures at == FirstIndex(list, wanted)
  {
    for i := 0 to |list|
      invariant forall j :: 0 <= j < i ==> !wanted(list[j])
    {
      if wanted(list[i]) {
        return Some(i);
      }
    }
    at := None;
  }

  function Filter<T>(list: seq<T>, keep: T -> bool): seq<T> {
    if list == [] then []
    else
      var last := |list| - 1;
      if keep(list[last]) then Filter(list[..last], keep) + [list[last]] else Filter(list[..last], keep)
  }

  method Retain<T>(list: seq<T>, keep: T -> bool) returns (kept: seq<T>)
    ensures kept == Filter(list, keep)
  {
    kept := [];
    for i := 0 to |list|
      invariant kept == Filter(list[..i], keep)
    {
      assert list[..i + 1][..i] == list[..i];
      if keep(list[i]) {
        kept := kept + [list[i]];
      }
    }
    assert list[..|list|] == list;
  }

  lemma {:induction false} InFilter<T>(list: seq<T>, keep: T -> bool, x: T)
    ensures x in Filter(list, keep) <==> x in list && keep(x)
  {
    if list != [] {
      var last := |list| - 1;
      InFilter(list[..last], keep, x);
      assert list == list[..last] + [list[last]];
    }
  }

  /** Every two members of the list, in order, are related. */
  ghost predicate Pairwise<T(!new)>(list: seq<T>, related: (T, T) -> bool) {
    forall i, j :: 0 <= i < j < |list| ==> related(list[i], list[j])
  }

  lemma {:induction false} FilterKeepsPairs<T(!new)>(list: seq<T>, keep: T -> bool, related: (T, T) -> bool)
    requires Pairwise(list, related)
    ensures Pairwise(Filter(list, keep), related)
  {
    if list != [] {
      var last := |list| - 1;
      FilterKeepsPairs(list[..last], keep, related);
      var before := Filter(list[..last], keep);
      forall i | 0 <= i < |before| ensures related(before[i], list[last]) {
        InFilter(list[..last], keep, before[i]);
      }
    }
  }

  ghost predicate Distinct<T(!new)>(list: seq<T>) {
    forall i, j :: 0 <= i < j < |list| ==> list[i] != list[j]
  }

  lemma DropFirst<T(!new)>(list: seq<T>)
    requires list != [] && Distinct(list)
    ensures Distinct(list[1..]) && |list[1..]| == |list| - 1
    ensures forall x :: x in list[1..] <==> x in list && x != list[0]
  {
  }
}
