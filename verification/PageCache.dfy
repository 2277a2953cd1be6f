/** The bounded page cache: least-recently-used eviction over a map and a queue of keys. */
module PageCache {
  import opened Lists
  import opened Options

  datatype Cache<K, V> = Cache(capacity: nat, pages: map<K, V>, recency: seq<K>)

  datatype Operation<K, V> = Insert(key: K, value: V) | Get(key: K) | Clear

  function Without<K(==)>(s: seq<K>, k: K): seq<K> {
    if s == [] then []
    else Without(s[..|s| - 1], k) + (if s[|s| - 1] == k then [] else [s[|s| - 1]])
  }

  lemma {:induction false} WithoutMembers<K(!new)>(s: seq<K>, k: K)
    ensures forall x :: x in Without(s, k) <==> x in s && x != k
    ensures k !in s ==> Without(s, k) == s
  {
    if s != [] {
      WithoutMembers(s[..|s| - 1], k);
      assert s == s[..|s| - 1] + [s[|s| - 1]];
    }
  }

  function Touched<K(==)>(recency: seq<K>, k: K): seq<K> {
    Without(recency, k) + [k]
  }

  function Inserted<K(==), V>(c: Cache<K, V>, k: K, v: V): (Cache<K, V>, Option<(K, V)>) {
    var pages, recency := c.pages[k := v], Touched(c.recency, k);
    if |pages| <= c.capacity then (c.(pages := pages, recency := recency), None)
    else
      var oldest := recency[0];
      (c.(pages := pages - {oldest}, recency := recency[1..]),
       if oldest in pages then Some((oldest, pages[oldest])) else None)
  }

  function Fetched<K(==), V>(c: Cache<K, V>, k: K): Cache<K, V> {
    if k in c.pages then c.(recency := Touched(c.recency, k)) else c
  }

  function Cleared<K, V>(c: Cache<K, V>): Cache<K, V> {
    c.(pages := map[], recency := [])
  }

  /** `ops` is history: what the cache was asked since it was made. */
  class BoundedPageCache<K(==,!new), V> {
    const capacity: nat
    var pages: map<K, V>
    var recency: seq<K>
    ghost var ops: seq<Operation<K, V>>

    ghost predicate Valid()
      reads this
    {
      1 <= capacity && State() == Run(capacity, ops)
    }

    function State(): Cache<K, V>
      reads this
    {
      Cache(capacity, pages, recency)
    }

    constructor (capacity: nat)
      ensures State() == Cache(if capacity == 0 then 1 else capacity, map[], [])
      ensures Valid() && ops == []
    {
      this.capacity := if capacity == 0 then 1 else capacity;
      pages := map[];
      recency := [];
      ops := [];
    }

    method Insert(key: K, value: V) returns (evicted: Option<(K, V)>)
      requires Valid()
      modifies this
      ensures Valid() && ops == old(ops) + [Operation.Insert(key, value)]
      ensures (State(), evicted) == Inserted(old(State()), key, value)
    {
      RunOneMore(capacity, ops, Operation.Insert(key, value));
      ops := ops + [Operation.Insert(key, value)];
      Touch(key);
      pages := pages[key := value];
      if |pages| <= capacity {
        return None;
      }
      var oldest := recency[0];
      recency := recency[1..];
      evicted := if oldest in pages then Some((oldest, pages[oldest])) else None;
      pages := pages - {oldest};
    }

    /** The value last stored under the key, unless `capacity` other keys were used since the key was. */
    method Get(key: K) returns (page: Option<V>)
      requires Valid()
      modifies this
      ensures Valid() && ops == old(ops) + [Operation.Get(key)]
      ensures State() == Fetched(old(State()), key)
      ensures pages == old(pages) && page == if key in old(pages) then Some(old(pages)[key]) else None
      ensures var h := HistoryOf(capacity, old(ops));
        && (page.Some? <==> Remembered(h.touches, capacity, key))
        && (page.Some? ==> key in h.latest && page.value == h.latest[key])
    {
      AnswersAgreeWithHistory(capacity, ops, key);
      RunOneMore(capacity, ops, Operation.Get(key));
      ops := ops + [Operation.Get(key)];
      if key !in pages {
        return None;
      }
      Touch(key);
      page := Some(pages[key]);
    }

    method Clear()
      requires Valid()
      modifies this
      ensures Valid() && ops == old(ops) + [Operation.Clear]
      ensures pages == map[] && recency == []
    {
      RunOneMore(capacity, ops, Operation.Clear);
      ops := ops + [Operation.Clear];
      pages := map[];
      recency := [];
    }

    method Touch(key: K)
      modifies this`recency
      ensures recency == Touched(old(recency), key)
    {
      var kept: seq<K> := [];
      for i := 0 to |recency|
        invariant recency == old(recency)
        invariant kept == Without(recency[..i], key)
      {
        assert recency[..i + 1][..i] == recency[..i];
        if recency[i] != key {
          kept := kept + [recency[i]];
        }
      }
      assert recency[..|recency|] == recency;
      recency := kept + [key];
    }
  }

  // ------------------------------------------------------------------- runs

  function Next<K(==), V>(c: Cache<K, V>, op: Operation<K, V>): Cache<K, V> {
    match op
    case Insert(k, v) => Inserted(c, k, v).0
    case Get(k) => Fetched(c, k)
    case Clear => Cleared(c)
  }

  function Run<K(==), V>(capacity: nat, ops: seq<Operation<K, V>>): Cache<K, V> {
    if ops == [] then Cache(capacity, map[], [])
    else Next(Run(capacity, ops[..|ops| - 1]), ops[|ops| - 1])
  }

  lemma RunOneMore<K, V>(capacity: nat, ops: seq<Operation<K, V>>, op: Operation<K, V>)
    ensures Run(capacity, ops + [op]) == Next(Run(capacity, ops), op)
  {
    assert (ops + [op])[..|ops|] == ops;
  }

  /** What happened since the last clear: every key inserted or found, in order, and each key's last value. */
  datatype History<K, V> = History(touches: seq<K>, latest: map<K, V>)

  ghost function HistoryOf<K(!new), V>(capacity: nat, ops: seq<Operation<K, V>>): History<K, V> {
    if ops == [] then History([], map[])
    else
      var h := HistoryOf(capacity, ops[..|ops| - 1]);
      match ops[|ops| - 1]
      case Insert(k, v) => History(h.touches + [k], h.latest[k := v])
      case Get(k) => if Remembered(h.touches, capacity, k) then h.(touches := h.touches + [k]) else h
      case Clear => History([], map[])
  }

  /** The position of the last occurrence of a key. */
  function LastUse<K(==)>(s: seq<K>, k: K): (i: nat)
    requires k in s
    ensures i < |s| && s[i] == k && forall j :: i < j < |s| ==> s[j] != k
  {
    if s[|s| - 1] == k then |s| - 1 else LastUse(s[..|s| - 1], k)
  }

  function Members<K>(s: seq<K>): set<K> {
    set x | x in s
  }

  /** The keys used after the last use of `k`. */
  ghost function UsedSince<K(!new)>(touches: seq<K>, k: K): set<K>
    requires k in touches
  {
    Members(touches[LastUse(touches, k) + 1..])
  }

  /** Fewer than `n` other keys were used since `k` was. */
  ghost predicate Remembered<K(!new)>(touches: seq<K>, n: nat, k: K) {
    k in touches && |UsedSince(touches, k)| < n
  }

  /** `r` lists some of the keys of `order`, each once, in the order of their last occurrence there. */
  ghost predicate OrderedLike<K(!new)>(order: seq<K>, r: seq<K>) {
    && (forall k :: k in r ==> k in order)
    && (forall i, j :: 0 <= i < j < |r| ==> LastUse(order, r[i]) < LastUse(order, r[j]))
  }

  /**
   `r` lists the last `n` distinct keys of `touches`, oldest use first: a key that was left out was used
   before all of them, and was left out only because `r` is full.
   */
  ghost predicate IsLastDistinct<K(!new)>(touches: seq<K>, n: nat, r: seq<K>) {
    && |r| <= n
    && OrderedLike(touches, r)
    && (forall k :: k in touches && k !in r ==>
          |r| == n && forall i :: 0 <= i < |r| ==> LastUse(touches, k) < LastUse(touches, r[i]))
  }

  /** There is only one such list, so the predicate is a definition and not merely a constraint. */
  lemma LastDistinctIsUnique<K(!new)>(touches: seq<K>, n: nat, r: seq<K>, q: seq<K>)
    requires IsLastDistinct(touches, n, r) && IsLastDistinct(touches, n, q)
    ensures r == q
  {
    var m := if |r| < |q| then |r| else |q|;
    SameFromTheEnd(touches, n, r, q, m);
    if |r| <= |q| {
      NotShorter(touches, n, r, q);
    } else {
      NotShorter(touches, n, q, r);
    }
  }

  lemma FirstOnlyInFullTail<K(!new)>(order: seq<K>, q: seq<K>, d: nat)
    requires OrderedLike(order, q) && d <= |q| && q != []
    ensures q[0] in q[d..] ==> d == 0
  {
  }

  lemma ShortIsComplete<K(!new)>(touches: seq<K>, n: nat, r: seq<K>, k: K)
    requires IsLastDistinct(touches, n, r) && k in touches
    ensures |r| < n ==> k in r
  {}

  lemma NotShorter<K(!new)>(touches: seq<K>, n: nat, r: seq<K>, q: seq<K>)
    requires IsLastDistinct(touches, n, r) && IsLastDistinct(touches, n, q)
    requires |r| <= |q| && r == q[|q| - |r|..]
    ensures |r| == |q|
  {
    if q != [] {
      FirstOnlyInFullTail(touches, q, |q| - |r|);
      assert q[0] in q;
      ShortIsComplete(touches, n, r, q[0]);
    }
  }

  lemma {:induction false} SameFromTheEnd<K(!new)>(touches: seq<K>, n: nat, r: seq<K>, q: seq<K>, m: nat)
    requires IsLastDistinct(touches, n, r) && IsLastDistinct(touches, n, q)
    requires m <= |r| && m <= |q|
    ensures r[|r| - m..] == q[|q| - m..]
  {
    if m > 0 {
      SameFromTheEnd(touches, n, r, q, m - 1);
      NotAfter(touches, n, r, q, m);
      NotAfter(touches, n, q, r, m);
      SameUseSameKey(touches, r[|r| - m], q[|q| - m]);
      TailCons(r, m);
      TailCons(q, m);
    }
  }

  lemma TailCons<K(!new)>(s: seq<K>, m: nat)
    requires 1 <= m <= |s|
    ensures s[|s| - m..] == [s[|s| - m]] + s[|s| - (m - 1)..]
  {}

  lemma SameUseSameKey<K(!new)>(s: seq<K>, x: K, y: K)
    requires x in s && y in s && LastUse(s, x) == LastUse(s, y)
    ensures x == y
  {}

  /** If the two lists agree on their last `m - 1` keys, the next key of one is not more recent than the other's. */
  lemma NotAfter<K(!new)>(touches: seq<K>, n: nat, r: seq<K>, q: seq<K>, m: nat)
    requires IsLastDistinct(touches, n, r) && IsLastDistinct(touches, n, q)
    requires 1 <= m <= |r| && m <= |q|
    requires r[|r| - (m - 1)..] == q[|q| - (m - 1)..]
    ensures r[|r| - m] in touches && q[|q| - m] in touches
    ensures LastUse(touches, r[|r| - m]) <= LastUse(touches, q[|q| - m])
  {
  }

  lemma {:induction false} LastUseWithout<K(!new)>(s: seq<K>, gone: K, x: K, y: K)
    requires x in s && y in s && x != gone && y != gone
    ensures x in Without(s, gone) && y in Without(s, gone)
    ensures LastUse(s, x) < LastUse(s, y) <==> LastUse(Without(s, gone), x) < LastUse(Without(s, gone), y)
  {
    var last := s[|s| - 1];
    var rest := s[..|s| - 1];
    var w := Without(s, gone);
    WithoutMembers(s, gone);
    assert w == Without(rest, gone) + (if last == gone then [] else [last]);
    if last == gone {
      assert w == Without(rest, gone);
      assert x in rest && y in rest;
      LastUseWithout(rest, gone, x, y);
    } else {
      assert w[..|w| - 1] == Without(rest, gone) && w[|w| - 1] == last;
      if last != x && last != y {
        assert x in rest && y in rest;
        LastUseWithout(rest, gone, x, y);
      }
    }
  }

  lemma {:induction false} WithoutKeepsOrder<K(!new)>(order: seq<K>, r: seq<K>, k: K)
    requires OrderedLike(order, r)
    ensures OrderedLike(order, Without(r, k))
  {
    if r != [] {
      var rest, last := r[..|r| - 1], r[|r| - 1];
      assert forall i :: 0 <= i < |rest| ==> rest[i] == r[i];
      WithoutKeepsOrder(order, rest, k);
      WithoutMembers(rest, k);
      forall x | x in Without(rest, k) ensures LastUse(order, x) < LastUse(order, last) {
        var i :| 0 <= i < |rest| && rest[i] == x;
        assert r[i] == x;
      }
    }
  }

  lemma OrderWithout<K(!new)>(order: seq<K>, r: seq<K>, k: K)
    requires OrderedLike(order, r) && k !in r
    ensures OrderedLike(Without(order, k), r)
  {
    WithoutMembers(order, k);
    forall i, j | 0 <= i < j < |r|
      ensures LastUse(Without(order, k), r[i]) < LastUse(Without(order, k), r[j])
    {
      LastUseWithout(order, k, r[i], r[j]);
    }
  }

  lemma OrderAppend<K(!new)>(order: seq<K>, r: seq<K>, k: K)
    requires OrderedLike(order, r) && k !in r
    ensures OrderedLike(order + [k], r) && OrderedLike(order + [k], r + [k])
  {
  }

  // ---------------------------------------------------- agreement with history

  /** The map and the queue describe the same keys. */
  ghost predicate Valid<K(!new), V>(c: Cache<K, V>) {
    && 1 <= c.capacity
    && |c.recency| == |c.pages| <= c.capacity
    && Distinct(c.recency)
    && (forall k :: k in c.recency <==> k in c.pages)
  }

  lemma {:induction false} WithoutOnce<K(!new)>(s: seq<K>, k: K)
    requires Distinct(s)
    ensures Distinct(Without(s, k))
    ensures |Without(s, k)| == if k in s then |s| - 1 else |s|
  {
    if s != [] {
      var rest, last := s[..|s| - 1], s[|s| - 1];
      WithoutOnce(rest, k);
      WithoutMembers(rest, k);
      assert s == rest + [last];
      forall i | 0 <= i < |Without(rest, k)| ensures Without(rest, k)[i] != last {
        assert Without(rest, k)[i] in rest;
      }
    }
  }

  lemma TouchedOnce<K(!new)>(s: seq<K>, k: K)
    requires Distinct(s)
    ensures Distinct(Touched(s, k))
    ensures |Touched(s, k)| == if k in s then |s| else |s| + 1
    ensures forall x :: x in Touched(s, k) <==> x in s || x == k
  {
    WithoutOnce(s, k);
    WithoutMembers(s, k);
    assert forall i :: 0 <= i < |Without(s, k)| ==> Without(s, k)[i] in Without(s, k);
  }

  lemma SameKeys<K(!new), V>(pages: map<K, V>, recency: seq<K>)
    requires Distinct(recency) && forall k :: k in recency <==> k in pages
    ensures |recency| == |pages|
    decreases |recency|
  {
    if recency == [] {
      assert pages.Keys == {};
    } else {
      DropFirst(recency);
      assert (pages - {recency[0]}).Keys == pages.Keys - {recency[0]};
      SameKeys(pages - {recency[0]}, recency[1..]);
    }
  }

  lemma OldestLeaves<K(!new), V>(pages: map<K, V>, recency: seq<K>)
    requires recency != [] && Distinct(recency) && forall k :: k in recency <==> k in pages
    ensures |recency| == |pages|
    ensures Distinct(recency[1..]) && |recency[1..]| == |pages - {recency[0]}| == |pages| - 1
    ensures forall k :: k in recency[1..] <==> k in pages - {recency[0]}
  {
    SameKeys(pages, recency);
    DropFirst(recency);
    SameKeys(pages - {recency[0]}, recency[1..]);
  }

  lemma InsertKeepsValid<K(!new), V>(c: Cache<K, V>, k: K, v: V)
    requires Valid(c)
    ensures Valid(Inserted(c, k, v).0)
  {
    TouchedOnce(c.recency, k);
    assert |Touched(c.recency, k)| <= c.capacity + 1;
    hide Touched, Distinct;
    OldestLeaves(c.pages[k := v], Touched(c.recency, k));
  }

  /** An insert gives back exactly the entry that left, and never the one it was asked to store. */
  lemma EvictionIsReported<K(!new), V>(c: Cache<K, V>, k: K, v: V)
    requires Valid(c)
    ensures var (c', evicted) := Inserted(c, k, v);
      match evicted
      case None => c'.pages == c.pages[k := v]
      case Some((oldest, value)) =>
        && oldest != k && oldest in c.pages && value == c.pages[oldest] && oldest == c.recency[0]
        && c'.pages == c.pages[k := v] - {oldest}
  {
    TouchedOnce(c.recency, k);
    WithoutMembers(c.recency, k);
    assert |c.pages[k := v]| == |Touched(c.recency, k)|;
  }

  lemma StepKeepsValid<K(!new), V>(c: Cache<K, V>, op: Operation<K, V>)
    requires Valid(c)
    ensures Valid(Next(c, op)) && Next(c, op).capacity == c.capacity
  {
    match op
    case Insert(k, v) => InsertKeepsValid(c, k, v);
    case Get(k) => TouchedOnce(c.recency, k);
    case Clear =>
  }

  lemma {:induction false} RunIsValid<K(!new), V>(capacity: nat, ops: seq<Operation<K, V>>)
    requires 1 <= capacity
    ensures Valid(Run(capacity, ops)) && Run(capacity, ops).capacity == capacity
    decreases |ops|
  {
    if ops != [] {
      RunIsValid(capacity, ops[..|ops| - 1]);
      StepKeepsValid(Run(capacity, ops[..|ops| - 1]), ops[|ops| - 1]);
    }
  }

  lemma {:induction false} AsManyAsDistinct<K(!new)>(s: seq<K>)
    requires Distinct(s)
    ensures |Members(s)| == |s|
  {
    if s != [] {
      var front, last := s[..|s| - 1], s[|s| - 1];
      AsManyAsDistinct(front);
      assert s == front + [last] && Members(s) == Members(front) + {last};
    }
  }

  /** The last `n` distinct keys are those since whose use fewer than `n` others were used. */
  lemma RememberedIffListed<K(!new)>(touches: seq<K>, n: nat, r: seq<K>, k: K)
    requires IsLastDistinct(touches, n, r) && Distinct(r)
    ensures Remembered(touches, n, k) <==> k in r
  {
    if k in r {
      var i :| 0 <= i < |r| && r[i] == k;
      AsManyAsDistinct(r[i + 1..]);
      forall x | x in UsedSince(touches, k) ensures x in r[i + 1..] {
        LaterIsListedLater(touches, n, r, i, x);
      }
      SubsetIsNoLarger(UsedSince(touches, k), Members(r[i + 1..]));
    } else if k in touches {
      AsManyAsDistinct(r);
      forall x | x in r ensures x in UsedSince(touches, k) {
        var i :| 0 <= i < |r| && r[i] == x;
        assert LastUse(touches, k) < LastUse(touches, x);
      }
      SubsetIsNoLarger(Members(r), UsedSince(touches, k));
    }
  }

  lemma LaterIsListedLater<K(!new)>(touches: seq<K>, n: nat, r: seq<K>, i: nat, x: K)
    requires IsLastDistinct(touches, n, r) && i < |r|
    requires r[i] in touches && x in touches[LastUse(touches, r[i]) + 1..]
    ensures x in r[i + 1..]
  {
    assert x in touches && LastUse(touches, r[i]) < LastUse(touches, x);
    if x in r {
      var j :| 0 <= j < |r| && r[j] == x;
      assert r[i + 1..][j - i - 1] == x;
    }
  }

  lemma SubsetIsNoLarger<K>(a: set<K>, b: set<K>)
    requires a <= b
    ensures |a| <= |b|
  {
    if a != {} {
      var x :| x in a;
      SubsetIsNoLarger(a - {x}, b - {x});
    }
  }

  /** A key left out before a use of `k` is still older than everything listed after it. */
  lemma LeftOutStaysOlder<K(!new)>(touches: seq<K>, n: nat, r: seq<K>, k: K, x: K, y: K)
    requires IsLastDistinct(touches, n, r)
    requires x in touches && x != k && x !in r
    requires y == k || y in r
    ensures LastUse(touches + [k], x) < LastUse(touches + [k], y)
  {
  }

  lemma OrderedTail<K(!new)>(order: seq<K>, r: seq<K>)
    requires OrderedLike(order, r) && r != []
    ensures OrderedLike(order, r[1..])
  {
  }

  lemma TouchedStaysOrdered<K(!new)>(touches: seq<K>, r: seq<K>, k: K)
    requires OrderedLike(touches, r)
    ensures OrderedLike(touches + [k], Touched(r, k))
    ensures OrderedLike(touches + [k], Touched(r, k)[1..])
  {
    WithoutMembers(r, k);
    WithoutKeepsOrder(touches, r, k);
    OrderAppend(touches, Without(r, k), k);
    OrderedTail(touches + [k], Touched(r, k));
  }

  /** The list that `Insert` or a hit leaves for a cache of capacity `n`. */
  function KeptAfter<K(==)>(r: seq<K>, k: K, n: nat): seq<K> {
    if |Touched(r, k)| <= n then Touched(r, k) else Touched(r, k)[1..]
  }

  lemma KeptAfterOrdered<K(!new)>(touches: seq<K>, n: nat, r: seq<K>, k: K)
    requires OrderedLike(touches, r) && Distinct(r) && |r| <= n && 1 <= n
    ensures OrderedLike(touches + [k], KeptAfter(r, k, n)) && |KeptAfter(r, k, n)| <= n
  {
    TouchedOnce(r, k);
    TouchedStaysOrdered(touches, r, k);
  }

  lemma LeftOutIsOlder<K(!new)>(touches: seq<K>, n: nat, r: seq<K>, k: K, x: K)
    requires IsLastDistinct(touches, n, r) && Distinct(r) && 1 <= n
    requires OrderedLike(touches + [k], KeptAfter(r, k, n))
    requires x in touches + [k] && x !in KeptAfter(r, k, n)
    ensures |KeptAfter(r, k, n)| == n
    ensures forall i :: 0 <= i < n ==> LastUse(touches + [k], x) < LastUse(touches + [k], KeptAfter(r, k, n)[i])
  {
    var r' := Touched(r, k);
    var kept := KeptAfter(r, k, n);
    TouchedOnce(r, k);
    DropFirst(r');
    assert kept[|kept| - 1] == k;
    forall i | 0 <= i < |kept| ensures LastUse(touches + [k], x) < LastUse(touches + [k], kept[i]) {
      assert kept[i] in kept;
      if x in r {
        assert x == r'[0];
        TouchedStaysOrdered(touches, r, k);
      } else {
        LeftOutStaysOlder(touches, n, r, k, x, kept[i]);
      }
    }
  }

  /** One more use moves a key to the end, keeps the order of the others and pushes out at most the oldest. */
  lemma TouchExtendsLastDistinct<K(!new)>(touches: seq<K>, n: nat, r: seq<K>, k: K)
    requires IsLastDistinct(touches, n, r) && Distinct(r) && 1 <= n
    ensures IsLastDistinct(touches + [k], n, KeptAfter(r, k, n))
  {
    KeptAfterOrdered(touches, n, r, k);
    forall x | x in touches + [k] && x !in KeptAfter(r, k, n)
      ensures |KeptAfter(r, k, n)| == n
      ensures forall i :: 0 <= i < n ==> LastUse(touches + [k], x) < LastUse(touches + [k], KeptAfter(r, k, n)[i])
    {
      LeftOutIsOlder(touches, n, r, k, x);
    }
  }

  ghost predicate Agrees<K(!new), V>(c: Cache<K, V>, h: History<K, V>) {
    && IsLastDistinct(h.touches, c.capacity, c.recency)
    && (forall k :: k in c.pages ==> k in h.latest && c.pages[k] == h.latest[k])
  }

  lemma InsertedParts<K(!new), V>(c: Cache<K, V>, k: K, v: V)
    requires Valid(c)
    ensures Inserted(c, k, v).0.recency == KeptAfter(c.recency, k, c.capacity)
    ensures Inserted(c, k, v).0.capacity == c.capacity
    ensures Inserted(c, k, v).0.pages.Keys <= c.pages.Keys + {k}
    ensures forall x :: x in Inserted(c, k, v).0.pages ==> Inserted(c, k, v).0.pages[x] == if x == k then v else c.pages[x]
  {
    TouchedOnce(c.recency, k);
    assert |c.pages[k := v]| == |Touched(c.recency, k)|;
  }

  lemma InsertAgrees<K(!new), V>(c: Cache<K, V>, h: History<K, V>, k: K, v: V)
    requires Valid(c) && Agrees(c, h)
    ensures Agrees(Inserted(c, k, v).0, History(h.touches + [k], h.latest[k := v]))
  {
    InsertedParts(c, k, v);
    TouchExtendsLastDistinct(h.touches, c.capacity, c.recency, k);
    var c' := Inserted(c, k, v).0;
    assert forall x :: x in c'.pages ==> x in h.latest[k := v] && c'.pages[x] == h.latest[k := v][x];
  }

  lemma HitAgrees<K(!new), V>(c: Cache<K, V>, h: History<K, V>, k: K)
    requires Valid(c) && Agrees(c, h) && k in c.pages
    ensures Agrees(Fetched(c, k), h.(touches := h.touches + [k]))
  {
    TouchedOnce(c.recency, k);
    TouchExtendsLastDistinct(h.touches, c.capacity, c.recency, k);
    assert Fetched(c, k).recency == KeptAfter(c.recency, k, c.capacity);
  }

  /**
   After any sequence of operations the cache holds exactly the last `capacity` distinct keys used since
   the last clear, in order of last use, each with the value it was last given.
   */
  lemma {:induction false} CacheAgreesWithHistory<K(!new), V>(capacity: nat, ops: seq<Operation<K, V>>)
    requires 1 <= capacity
    ensures var c := Run(capacity, ops);
      var h := HistoryOf(capacity, ops);
      && IsLastDistinct(h.touches, capacity, c.recency)
      && (forall k :: k in c.pages <==> k in c.recency)
      && (forall k :: k in c.pages ==> k in h.latest && c.pages[k] == h.latest[k])
    decreases |ops|
  {
    RunIsValid(capacity, ops);
    if ops != [] {
      var before := ops[..|ops| - 1];
      var c, h := Run(capacity, before), HistoryOf(capacity, before);
      CacheAgreesWithHistory(capacity, before);
      RunIsValid(capacity, before);
      assert Agrees(Run(capacity, ops), HistoryOf(capacity, ops)) by {
        match ops[|ops| - 1]
        case Insert(k, v) => InsertAgrees(c, h, k, v);
        case Get(k) =>
          RememberedIffListed(h.touches, capacity, c.recency, k);
          if k in c.pages { HitAgrees(c, h, k); }
        case Clear =>
      }
    }
  }

  /** A lookup finds the last value of exactly the keys since whose use fewer than `capacity` others were used. */
  lemma AnswersAgreeWithHistory<K(!new), V>(capacity: nat, ops: seq<Operation<K, V>>, k: K)
    requires 1 <= capacity
    ensures var c, h := Run(capacity, ops), HistoryOf(capacity, ops);
      && (k in c.pages <==> Remembered(h.touches, capacity, k))
      && (k in c.pages ==> k in h.latest && c.pages[k] == h.latest[k])
  {
    CacheAgreesWithHistory(capacity, ops);
    RunIsValid(capacity, ops);
    RememberedIffListed(HistoryOf(capacity, ops).touches, capacity, Run(capacity, ops).recency, k);
  }

  // --------------------------------------------------------------- inclusion

  /** What relates a smaller cache to a larger one on the same operations. */
  ghost predicate Included<K(!new), V>(small: Cache<K, V>, large: Cache<K, V>) {
    && OrderedLike(large.recency, small.recency)
    && (|small.recency| == small.capacity || small.recency == large.recency)
    && (forall k :: k in small.pages ==> k in large.pages && small.pages[k] == large.pages[k])
  }

  lemma TouchKeepsOrder<K(!new)>(order: seq<K>, r: seq<K>, k: K)
    requires OrderedLike(order, r)
    ensures OrderedLike(Touched(order, k), Touched(r, k))
    ensures k !in r ==> OrderedLike(Touched(order, k), r)
  {
    WithoutMembers(order, k);
    WithoutMembers(r, k);
    WithoutKeepsOrder(order, r, k);
    OrderWithout(order, Without(r, k), k);
    OrderAppend(Without(order, k), Without(r, k), k);
  }

  /** Dropping the oldest key of both lists, or of the smaller alone. */
  lemma DropOldestKeepsOrder<K(!new)>(order: seq<K>, r: seq<K>)
    requires OrderedLike(order, r) && Distinct(order) && r != [] && order != []
    ensures OrderedLike(order, r[1..]) && OrderedLike(order[1..], r[1..])
  {
    assert forall i :: 0 <= i < |r[1..]| ==> r[1..][i] == r[i + 1];
    assert order == [order[0]] + order[1..];
    forall i | 1 <= i < |r| ensures LastUse(order, r[i]) > 0 && r[i] in order[1..] {
      assert LastUse(order, r[0]) < LastUse(order, r[i]);
    }
    forall x | x in order[1..] ensures LastUse(order[1..], x) == LastUse(order, x) - 1 {
      assert order[LastUse(order[1..], x) + 1] == x;
    }
  }

  /** When the larger cache evicts, so does the smaller one, and the keys keep their relative order. */
  lemma InsertKeepsOrder<K(!new), V>(small: Cache<K, V>, large: Cache<K, V>, k: K, v: V)
    requires Valid(small) && Valid(large) && small.capacity <= large.capacity && Included(small, large)
    ensures var small', large' := Inserted(small, k, v).0, Inserted(large, k, v).0;
      && OrderedLike(large'.recency, small'.recency)
      && (|small'.recency| == small.capacity || small'.recency == large'.recency)
  {
    var a, b := Touched(small.recency, k), Touched(large.recency, k);
    InsertedParts(small, k, v);
    InsertedParts(large, k, v);
    TouchedOnce(small.recency, k);
    TouchedOnce(large.recency, k);
    TouchKeepsOrder(large.recency, small.recency, k);
    DropOldestKeepsOrder(b, a);
    assert k in small.recency ==> k in large.recency;
  }

  lemma InsertKeepsValues<K(!new), V>(small: Cache<K, V>, large: Cache<K, V>, k: K, v: V, x: K)
    requires Included(small, large)
    requires Valid(Inserted(small, k, v).0) && Valid(Inserted(large, k, v).0)
    requires OrderedLike(Inserted(large, k, v).0.recency, Inserted(small, k, v).0.recency)
    requires x in Inserted(small, k, v).0.pages
    ensures x in Inserted(large, k, v).0.pages
    ensures Inserted(small, k, v).0.pages[x] == Inserted(large, k, v).0.pages[x]
  {
    assert x in Inserted(small, k, v).0.recency;
    assert x in Inserted(large, k, v).0.recency;
    assert x == k || (x in small.pages && x in large.pages);
  }

  lemma InsertKeepsIncluded<K(!new), V>(small: Cache<K, V>, large: Cache<K, V>, k: K, v: V)
    requires Valid(small) && Valid(large) && small.capacity <= large.capacity && Included(small, large)
    ensures Included(Inserted(small, k, v).0, Inserted(large, k, v).0)
  {
    var small', large' := Inserted(small, k, v).0, Inserted(large, k, v).0;
    InsertKeepsValid(small, k, v);
    InsertKeepsValid(large, k, v);
    InsertKeepsOrder(small, large, k, v);
    forall x | x in small'.pages ensures x in large'.pages && small'.pages[x] == large'.pages[x] {
      InsertKeepsValues(small, large, k, v, x);
    }
  }

  lemma StepKeepsIncluded<K(!new), V>(small: Cache<K, V>, large: Cache<K, V>, op: Operation<K, V>)
    requires Valid(small) && Valid(large) && small.capacity <= large.capacity && Included(small, large)
    ensures Included(Next(small, op), Next(large, op))
  {
    match op
    case Insert(k, v) => InsertKeepsIncluded(small, large, k, v);
    case Get(k) =>
      TouchKeepsOrder(large.recency, small.recency, k);
      TouchedOnce(small.recency, k);
    case Clear =>
  }

  /** On the same operations a larger cache always holds everything a smaller one holds, with the same values. */
  lemma {:induction false} LargerCacheHoldsMore<K(!new), V>(small: nat, large: nat, ops: seq<Operation<K, V>>)
    requires 1 <= small <= large
    ensures Included(Run(small, ops), Run(large, ops))
    ensures Run(small, ops).pages.Keys <= Run(large, ops).pages.Keys
    decreases |ops|
  {
    if ops != [] {
      var before := ops[..|ops| - 1];
      LargerCacheHoldsMore(small, large, before);
      RunIsValid(small, before);
      RunIsValid(large, before);
      StepKeepsIncluded(Run(small, before), Run(large, before), ops[|ops| - 1]);
    }
  }
}
