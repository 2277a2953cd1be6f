/**
 The feature cache of the cohort worker, first in first out, and the batch that projects and embeds
 findings through it.

 The projector, the embedder and the key digest are parameters: pure functions, of which only one thing
 is asked, that findings with equal keys have equal features (`Faithful`), as a digest of the whole
 finding and of every version does.
 */
module FeatureCache {
  import opened Lists
  import opened Options

  datatype Entry<P, V> = Entry(projection: P, embedding: V)

  datatype Cache<K, E> = Cache(entries: map<K, E>, order: seq<K>, capacity: nat)

  /** The digest, the projector and the embedder a batch runs with. */
  datatype Features<!F, !K, !P, !V> = Features(key: F -> K, project: F -> P, embed: P -> V)
  {
    function Of(finding: F): Entry<P, V> {
      var projection := project(finding);
      Entry(projection, embed(projection))
    }
  }

  ghost predicate Faithful<F(!new), K, P, V>(features: Features<F, K, P, V>) {
    forall f, g: F :: features.key(f) == features.key(g) ==> features.Of(f) == features.Of(g)
  }

  /** Dropping the oldest entries until there is room for one more; an empty queue ends it. */
  function Evicted<K(==), E>(c: Cache<K, E>): Cache<K, E>
    decreases |c.order|
  {
    if |c.entries| >= c.capacity && c.order != []
    then Evicted(Cache(c.entries - {c.order[0]}, c.order[1..], c.capacity))
    else c
  }

  function Inserted<K(==), E>(c: Cache<K, E>, key: K, entry: E): Cache<K, E> {
    if key in c.entries then c.(entries := c.entries[key := entry])
    else
      var room := Evicted(c);
      Cache(room.entries[key := entry], room.order + [key], c.capacity)
  }

  /** The queue lists the keys of the map, each once, and the cache is within its capacity (at least one). */
  ghost predicate Valid<K(!new), E>(c: Cache<K, E>) {
    && Distinct(c.order)
    && (forall k :: k in c.order <==> k in c.entries)
    && |c.order| == |c.entries| <= (if c.capacity == 0 then 1 else c.capacity)
  }

  /** Whatever is cached is what computing afresh would give. */
  ghost predicate Coherent<F(!new), K(!new), P, V>(c: Cache<K, Entry<P, V>>, features: Features<F, K, P, V>) {
    forall f: F :: features.key(f) in c.entries ==> c.entries[features.key(f)] == features.Of(f)
  }

  class CohortFeatureCache<K(==), E> {
    var entries: map<K, E>
    var insertionOrder: seq<K>
    const capacity: nat

    function State(): Cache<K, E>
      reads this
    {
      Cache(entries, insertionOrder, capacity)
    }

    constructor (capacity: nat)
      ensures State() == Cache(map[], [], capacity)
    {
      this.capacity := capacity;
      entries := map[];
      insertionOrder := [];
    }

    function Get(key: K): Option<E>
      reads this
    {
      if key in entries then Some(entries[key]) else None
    }

    method Insert(key: K, entry: E)
      modifies this
      ensures State() == Inserted(old(State()), key, entry)
    {
      if key in entries {
        entries := entries[key := entry];
        return;
      }
      while |entries| >= capacity && insertionOrder != []
        invariant Evicted(State()) == Evicted(old(State()))
        decreases |insertionOrder|
      {
        entries := entries - {insertionOrder[0]};
        insertionOrder := insertionOrder[1..];
      }
      insertionOrder := insertionOrder + [key];
      entries := entries[key := entry];
    }
  }

  /** Evicting keeps the bookkeeping, makes room and no more, and forgets the oldest keys only. */
  lemma {:induction false} EvictedKeepsValid<K(!new), E>(c: Cache<K, E>)
    requires Valid(c)
    ensures var r := Evicted(c);
      && Valid(r) && r.capacity == c.capacity
      && (|r.entries| < c.capacity || (c.capacity == 0 && r.entries == map[]))
      && (forall k :: k in r.entries ==> k in c.entries && r.entries[k] == c.entries[k])
      && r.order == c.order[|c.order| - |r.order|..]
      && |r.order| == (if |c.order| < c.capacity then |c.order| else if c.capacity == 0 then 0 else c.capacity - 1)
    decreases |c.order|
  {
    if |c.entries| >= c.capacity && c.order != [] {
      DropFirst(c.order);
      EvictedKeepsValid(Cache(c.entries - {c.order[0]}, c.order[1..], c.capacity));
    }
  }

  /** An insert keeps the bookkeeping and the bound, stores its entry, and otherwise only forgets. */
  lemma InsertKeepsValid<K(!new), E>(c: Cache<K, E>, key: K, entry: E)
    requires Valid(c)
    ensures var r := Inserted(c, key, entry);
      && Valid(r) && r.capacity == c.capacity
      && key in r.entries && r.entries[key] == entry
      && (forall k :: k in r.entries && k != key ==> k in c.entries && r.entries[k] == c.entries[k])
  {
    if key in c.entries {
      assert c.entries[key := entry].Keys == c.entries.Keys;
    } else {
      EvictedKeepsValid(c);
      AppendKeepsValid(Evicted(c), key, entry);
    }
  }

  /**
   It forgets nothing for a known key.  A new one comes last, and only the oldest are forgotten for it, and
   only as many as there is no room for.
   */
  lemma InsertForgetsTheOldest<K(!new), E>(c: Cache<K, E>, key: K, entry: E)
    requires Valid(c)
    ensures var order := Inserted(c, key, entry).order;
      var bound := if c.capacity == 0 then 1 else c.capacity;
      if key in c.entries then order == c.order
      else
        && |order| == (if |c.order| < bound then |c.order| + 1 else bound)
        && order == c.order[|c.order| + 1 - |order|..] + [key]
  {
    hide Evicted, Valid;
    if key !in c.entries {
      RoomForOne(c);
      assert Inserted(c, key, entry).order == Evicted(c).order + [key];
    }
  }

  lemma RoomForOne<K(!new), E>(c: Cache<K, E>)
    requires Valid(c)
    ensures var kept := Evicted(c).order;
      var bound := if c.capacity == 0 then 1 else c.capacity;
      && |kept| + 1 == (if |c.order| < bound then |c.order| + 1 else bound)
      && |kept| <= |c.order| && kept == c.order[|c.order| - |kept|..]
  {
    EvictedKeepsValid(c);
  }

  lemma AppendKeepsValid<K(!new), E>(c: Cache<K, E>, key: K, entry: E)
    requires Valid(c) && key !in c.entries
    requires |c.order| < (if c.capacity == 0 then 1 else c.capacity)
    ensures Valid(Cache(c.entries[key := entry], c.order + [key], c.capacity))
    ensures (c.order + [key])[..|c.order|] == c.order
  {
  }

  /**
   The stated bound is exact: the size stays within the capacity after every insert into a valid cache
   if and only if the capacity is not zero.
   */
  lemma InsertStaysWithinCapacityUnlessZero<K(!new), E>(c: Cache<K, E>, key: K, entry: E)
    requires Valid(c)
    ensures |Inserted(c, key, entry).entries| <= c.capacity <==> c.capacity > 0
  {
    InsertKeepsValid(c, key, entry);
  }

  lemma InsertKeepsCoherent<F(!new), K(!new), P, V>(
    c: Cache<K, Entry<P, V>>, features: Features<F, K, P, V>, finding: F)
    requires Valid(c) && Faithful(features) && Coherent(c, features)
    ensures Coherent(Inserted(c, features.key(finding), features.Of(finding)), features)
  {
    InsertKeepsValid(c, features.key(finding), features.Of(finding));
    var r := Inserted(c, features.key(finding), features.Of(finding));
    forall f: F | features.key(f) in r.entries ensures r.entries[features.key(f)] == features.Of(f) {
      if features.key(f) != features.key(finding) {
        assert features.key(f) in c.entries;
      }
    }
  }

  /** The positions of the findings that the cache does not know when the batch starts, in order. */
  function Missing<F, K(==), E>(findings: seq<F>, key: F -> K, entries: map<K, E>): seq<nat> {
    if findings == [] then []
    else
      var last := |findings| - 1;
      Missing(findings[..last], key, entries) + (if key(findings[last]) in entries then [] else [last])
  }

  datatype Batch<P, V> = Computed(projections: seq<P>, embeddings: seq<V>, misses: nat) | Cancelled

  /** A finding the cache did not know: its position, its key and its projection. */
  datatype Pending<K, P> = Pending(index: nat, key: K, projection: P)

  /** Every position below `n` either holds its fresh entry or is named by a pending item from `from` on. */
  ghost predicate FilledOrPending<F, K, P, V>(
    entries: seq<Option<Entry<P, V>>>, pending: seq<Pending<K, P>>, from: nat,
    findings: seq<F>, features: Features<F, K, P, V>, n: nat)
    requires n <= |entries| == |findings|
  {
    forall j :: 0 <= j < n ==>
      entries[j] == Some(features.Of(findings[j])) || NamedFrom(pending, from, j)
  }

  ghost predicate NamedFrom<K, P>(pending: seq<Pending<K, P>>, from: nat, j: nat) {
    exists m :: from <= m < |pending| && pending[m].index == j
  }

  function Positions<K, P>(pending: seq<Pending<K, P>>): (positions: seq<nat>)
    ensures |positions| == |pending|
  {
    if pending == [] then []
    else Positions(pending[..|pending| - 1]) + [pending[|pending| - 1].index]
  }

  ghost predicate PendingMatches<F, K, P, V>(
    pending: seq<Pending<K, P>>, findings: seq<F>, features: Features<F, K, P, V>)
  {
    forall m :: 0 <= m < |pending| ==>
      && pending[m].index < |findings|
      && pending[m].key == features.key(findings[pending[m].index])
      && pending[m].projection == features.project(findings[pending[m].index])
  }

  lemma NothingPending<F, K, E, P>(pending: seq<Pending<K, P>>, findings: seq<F>, key: F -> K, entries: map<K, E>)
    requires pending == [] && findings == []
    ensures Positions(pending) == Missing(findings, key, entries)
  {
  }

  lemma MissingNext<F, K, E>(findings: seq<F>, key: F -> K, entries: map<K, E>, i: nat)
    requires i < |findings|
    ensures Missing(findings[..i + 1], key, entries)
      == Missing(findings[..i], key, entries) + if key(findings[i]) in entries then [] else [i]
  {
    assert findings[..i + 1][..i] == findings[..i];
  }

  lemma PendingNext<K, P>(pending: seq<Pending<K, P>>, item: Pending<K, P>)
    ensures Positions(pending + [item]) == Positions(pending) + [item.index]
    ensures forall j: nat :: NamedFrom(pending, 0, j) ==> NamedFrom(pending + [item], 0, j)
    ensures NamedFrom(pending + [item], 0, item.index)
  {
    assert (pending + [item])[|pending|] == item;
    assert (pending + [item])[..|pending|] == pending;
    forall j: nat | NamedFrom(pending, 0, j) ensures NamedFrom(pending + [item], 0, j) {
      var m :| 0 <= m < |pending| && pending[m].index == j;
      assert (pending + [item])[m].index == j;
    }
  }

  /** The first loop: hits are filled in, misses are projected and kept for later, in input order. */
  method LookUp<F(!new), K(==,!new), P, V>(
    findings: seq<F>, features: Features<F, K, P, V>, cache: CohortFeatureCache<K, Entry<P, V>>,
    entries: array<Option<Entry<P, V>>>, cancelledAt: Option<nat>)
    returns (cancelled: bool, pending: seq<Pending<K, P>>)
    requires entries.Length == |findings| && Coherent(cache.State(), features)
    modifies entries
    ensures cancelled <==> cancelledAt.Some? && cancelledAt.value < |findings|
    ensures !cancelled ==>
      && Positions(pending) == Missing(findings, features.key, cache.entries)
      && PendingMatches(pending, findings, features)
      && FilledOrPending(entries[..], pending, 0, findings, features, |findings|)
  {
    hide Missing, Positions, NamedFrom;
    ghost var known := cache.entries;
    pending := [];
    NothingPending(pending, findings[..0], features.key, known);
    for i := 0 to |findings|
      invariant cancelledAt.Some? ==> i <= cancelledAt.value
      invariant cache.entries == known
      invariant Positions(pending) == Missing(findings[..i], features.key, known)
      invariant PendingMatches(pending, findings, features)
      invariant FilledOrPending(entries[..], pending, 0, findings, features, i)
    {
      if cancelledAt == Some(i) {
        return true, pending;
      }
      MissingNext(findings, features.key, known, i);
      var finding := findings[i];
      var key := features.key(finding);
      var cached := cache.Get(key);
      if cached.Some? {
        entries[i] := cached;
      } else {
        var item := Pending(i, key, features.project(finding));
        PendingNext(pending, item);
        pending := pending + [item];
      }
    }
    assert findings[..|findings|] == findings;
    cancelled := false;
  }

  lemma NamedLater<K, P>(pending: seq<Pending<K, P>>, n: nat, j: nat)
    requires n < |pending| && NamedFrom(pending, n, j) && pending[n].index != j
    ensures NamedFrom(pending, n + 1, j)
  {
  }

  /** The second loop: every pending finding is embedded, cached and filled in. */
  method EmbedPending<F(!new), K(==,!new), P, V>(
    findings: seq<F>, features: Features<F, K, P, V>, cache: CohortFeatureCache<K, Entry<P, V>>,
    entries: array<Option<Entry<P, V>>>, pending: seq<Pending<K, P>>)
    requires Faithful(features) && Valid(cache.State()) && Coherent(cache.State(), features)
    requires entries.Length == |findings| && PendingMatches(pending, findings, features)
    requires FilledOrPending(entries[..], pending, 0, findings, features, |findings|)
    modifies cache, entries
    ensures Valid(cache.State()) && Coherent(cache.State(), features)
    ensures forall j :: 0 <= j < |findings| ==> entries[j] == Some(features.Of(findings[j]))
  {
    hide Inserted, Evicted;
    for n := 0 to |pending|
      invariant Valid(cache.State()) && Coherent(cache.State(), features)
      invariant FilledOrPending(entries[..], pending, n, findings, features, |findings|)
    {
      var Pending(index, key, projection) := pending[n];
      var entry := Entry(projection, features.embed(projection));
      assert entry == features.Of(findings[index]);
      InsertKeepsValid(cache.State(), key, entry);
      InsertKeepsCoherent(cache.State(), features, findings[index]);
      cache.Insert(key, entry);
      ghost var before := entries[..];
      entries[index] := Some(entry);
      forall j | 0 <= j < |findings| && entries[j] != Some(features.Of(findings[j]))
        ensures NamedFrom(pending, n + 1, j)
      {
        assert before[j] == entries[j];
        NamedLater(pending, n, j);
      }
    }
    forall j | 0 <= j < |findings| ensures entries[j] == Some(features.Of(findings[j])) {
      assert !NamedFrom(pending, |pending|, j);
      assert entries[..][j] == entries[j];
    }
  }

  /**
   `project_and_embed_findings` with local embeddings.  `cancelledAt` is the finding before which the
   shutdown flag is seen set, if it is.  The result lists, in input order, exactly what computing every
   finding afresh would give, whatever coherent contents the cache had and whatever was evicted or was
   pending twice; the cache stays coherent and bounded, and a cancelled batch does not touch it.
   */
  method ProjectAndEmbed<F(!new), K(==,!new), P, V>(
    findings: seq<F>, features: Features<F, K, P, V>, cache: CohortFeatureCache<K, Entry<P, V>>,
    cancelledAt: Option<nat>)
    returns (batch: Batch<P, V>)
    requires Faithful(features) && Valid(cache.State()) && Coherent(cache.State(), features)
    modifies cache
    ensures Valid(cache.State()) && Coherent(cache.State(), features)
    ensures batch.Cancelled? <==> cancelledAt.Some? && cancelledAt.value < |findings|
    ensures batch.Cancelled? ==> cache.State() == old(cache.State())
    ensures batch.Computed? ==>
      && |batch.projections| == |batch.embeddings| == |findings|
      && (forall i :: 0 <= i < |findings| ==>
            Entry(batch.projections[i], batch.embeddings[i]) == features.Of(findings[i]))
      && batch.misses == |Missing(findings, features.key, old(cache.entries))|
  {
    var entries := new Option<Entry<P, V>>[|findings|](_ => None);
    var cancelled, pending := LookUp(findings, features, cache, entries, cancelledAt);
    if cancelled {
      return Cancelled;
    }
    EmbedPending(findings, features, cache, entries, pending);
    var projections, embeddings := [], [];
    for i := 0 to |findings|
      invariant |projections| == |embeddings| == i
      invariant forall j :: 0 <= j < i ==> Entry(projections[j], embeddings[j]) == features.Of(findings[j])
    {
      projections := projections + [entries[i].value.projection];
      embeddings := embeddings + [entries[i].value.embedding];
    }
    batch := Computed(projections, embeddings, |pending|);
  }
}
