/**
 The objects of the live-update path: the bounded channel between the hub and one subscriber, the hub
 that fans commits out, the batched receive, and the tracker that classifies what arrives.
 */
module LiveUpdates {
  import opened MachineWords
  import opened Options

  // ---------------------------------------------------------------- channel

  datatype Queue<T> = Queue(buffer: seq<T>, capacity: nat, closed: bool)

  datatype SendOutcome = Sent | Full | Closed

  datatype ReceiveOutcome<T> = Received(item: T) | Empty | Drained

  function TrySend<T>(q: Queue<T>, item: T): (Queue<T>, SendOutcome) {
    if q.closed then (q, Closed)
    else if |q.buffer| >= q.capacity then (q, Full)
    else (q.(buffer := q.buffer + [item]), Sent)
  }

  /** A closed channel still hands out what it holds; only then does it report that it is closed. */
  function TryReceive<T>(q: Queue<T>): (Queue<T>, ReceiveOutcome<T>) {
    if q.buffer != [] then (q.(buffer := q.buffer[1..]), Received(q.buffer[0]))
    else if q.closed then (q, Drained)
    else (q, Empty)
  }

  /** What one `publish` does to one subscriber's channel: append, or close it because it is full. */
  function Published<T>(q: Queue<T>, item: T): Queue<T> {
    var (q', outcome) := TrySend(q, item);
    if outcome.Full? then q.(closed := true) else q'
  }

  predicate StaysSubscribed<T>(q: Queue<T>, item: T) {
    TrySend(q, item).1.Sent?
  }

  class Channel<T> {
    var queue: Queue<T>

    constructor (capacity: nat)
      ensures queue == Queue([], capacity, false)
    {
      queue := Queue([], capacity, false);
    }

    method Send(item: T) returns (outcome: SendOutcome)
      modifies this
      ensures (queue, outcome) == TrySend(old(queue), item)
    {
      if queue.closed {
        outcome := Closed;
      } else if |queue.buffer| >= queue.capacity {
        outcome := Full;
      } else {
        queue := queue.(buffer := queue.buffer + [item]);
        outcome := Sent;
      }
    }

    method Receive() returns (outcome: ReceiveOutcome<T>)
      modifies this
      ensures (queue, outcome) == TryReceive(old(queue))
    {
      if queue.buffer != [] {
        outcome := Received(queue.buffer[0]);
        queue := queue.(buffer := queue.buffer[1..]);
      } else {
        outcome := if queue.closed then Drained else Empty;
      }
    }

    method Close()
      modifies this
      ensures queue == old(queue).(closed := true)
    {
      queue := queue.(closed := true);
    }
  }

  // -------------------------------------------------------------------- hub

  class DeltaHub<T> {
    var subscribers: seq<Channel<T>>

    ghost predicate Valid()
      reads this
    {
      forall i, j :: 0 <= i < j < |subscribers| ==> subscribers[i] != subscribers[j]
    }

    ghost function Queues(): (qs: seq<Queue<T>>)
      reads this, subscribers
      ensures |qs| == |subscribers|
    {
      QueuesOf(subscribers)
    }

    constructor ()
      ensures Valid() && subscribers == []
    {
      subscribers := [];
    }

    method Subscribe(capacity: nat) returns (receiver: Channel<T>)
      requires Valid()
      modifies this
      ensures Valid() && fresh(receiver)
      ensures subscribers == old(subscribers) + [receiver]
      ensures receiver.queue == Queue([], capacity, false)
    {
      receiver := new Channel(capacity);
      subscribers := subscribers + [receiver];
    }

    /** The closure that `publish` hands to `retain`. */
    static method Offer(sender: Channel<T>, delta: T) returns (stays: bool)
      modifies sender
      ensures sender.queue == Published(old(sender.queue), delta)
      ensures stays == StaysSubscribed(old(sender.queue), delta)
      ensures var q := old(sender.queue);
        && (stays <==> !q.closed && |q.buffer| < q.capacity)
        && sender.queue == if stays then q.(buffer := q.buffer + [delta]) else q.(closed := true)
    {
      var outcome := sender.Send(delta);
      if outcome.Full? {
        sender.Close();
      }
      stays := outcome.Sent?;
    }

    /** Every listed channel gets the delta or is closed, and exactly the ones that got it stay listed, in order. */
    method Publish(delta: T)
      requires Valid()
      modifies this, subscribers
      ensures Valid()
      ensures subscribers == Kept(old(subscribers), old(Queues()), delta)
      ensures forall c :: c in old(subscribers) ==> c.queue == Published(old(c.queue), delta)
    {
      hide Kept, Published, StaysSubscribed, QueuesOf;
      var kept: seq<Channel<T>> := [];
      KeptOfNone(subscribers[..0], old(Queues())[..0], delta);
      for i := 0 to |subscribers|
        invariant subscribers == old(subscribers) && Valid()
        invariant forall j :: 0 <= j < i ==> subscribers[j].queue == Published(old(subscribers[j].queue), delta)
        invariant forall j :: i <= j < |subscribers| ==> subscribers[j].queue == old(subscribers[j].queue)
        invariant kept == Kept(subscribers[..i], old(Queues())[..i], delta)
      {
        var sender := subscribers[i];
        var stays := Offer(sender, delta);
        if stays {
          kept := kept + [sender];
        }
        KeptNext(subscribers, old(Queues()), delta, i);
      }
      assert subscribers[..|subscribers|] == subscribers;
      assert old(Queues())[..|subscribers|] == old(Queues());
      KeptIsSublist(subscribers, old(Queues()), delta);
      subscribers := kept;
    }
  }

  ghost function QueuesOf<T>(channels: seq<Channel<T>>): (qs: seq<Queue<T>>)
    reads channels
    ensures |qs| == |channels|
    ensures forall i :: 0 <= i < |qs| ==> qs[i] == channels[i].queue
  {
    if channels == [] then [] else QueuesOf(channels[..|channels| - 1]) + [channels[|channels| - 1].queue]
  }

  /** The channels that `Vec::retain` keeps. */
  ghost function Kept<T>(channels: seq<Channel<T>>, queues: seq<Queue<T>>, delta: T): seq<Channel<T>>
    requires |channels| == |queues|
  {
    if channels == [] then []
    else
      var last := |channels| - 1;
      Kept(channels[..last], queues[..last], delta)
      + (if StaysSubscribed(queues[last], delta) then [channels[last]] else [])
  }

  lemma KeptOfNone<T>(channels: seq<Channel<T>>, queues: seq<Queue<T>>, delta: T)
    requires channels == [] && queues == []
    ensures Kept(channels, queues, delta) == []
  {
  }

  lemma KeptNext<T>(channels: seq<Channel<T>>, queues: seq<Queue<T>>, delta: T, i: nat)
    requires i < |channels| == |queues|
    ensures Kept(channels[..i + 1], queues[..i + 1], delta)
         == Kept(channels[..i], queues[..i], delta)
            + (if StaysSubscribed(queues[i], delta) then [channels[i]] else [])
  {
    assert channels[..i + 1][..i] == channels[..i];
    assert queues[..i + 1][..i] == queues[..i];
  }

  /** Retaining drops senders but neither duplicates nor reorders them. */
  lemma {:induction false} KeptIsSublist<T>(channels: seq<Channel<T>>, queues: seq<Queue<T>>, delta: T)
    requires |channels| == |queues|
    requires forall i, j :: 0 <= i < j < |channels| ==> channels[i] != channels[j]
    ensures var kept := Kept(channels, queues, delta);
      && (forall i, j :: 0 <= i < j < |kept| ==> kept[i] != kept[j])
      && (forall i :: 0 <= i < |channels| ==> (channels[i] in kept <==> StaysSubscribed(queues[i], delta)))
      && (forall c :: c in kept ==> c in channels)
  {
    if channels != [] {
      var last := |channels| - 1;
      KeptIsSublist(channels[..last], queues[..last], delta);
      var kept := Kept(channels[..last], queues[..last], delta);
      forall i | 0 <= i < |channels|
        ensures channels[i] in Kept(channels, queues, delta) <==> StaysSubscribed(queues[i], delta)
      {
        if i < last {
          assert channels[..last][i] == channels[i] && queues[..last][i] == queues[i];
        } else {
          assert channels[last] !in channels[..last];
        }
      }
      assert channels[last] !in kept;
    }
  }

  // --------------------------------------------------------------- receiver

  datatype BatchResult<T> = Batch(deltas: seq<T>) | ResyncRequired | Waiting

  /**
   `recv_batch` as one step: at most `maximum` deltas (at least one).  Meeting the end of a closed channel
   before it has that many, it discards what it gathered; on an empty open channel it waits.
   */
  function Batched<T>(q: Queue<T>, maximum: nat): (Queue<T>, BatchResult<T>) {
    var wanted := if maximum == 0 then 1 else maximum;
    if wanted <= |q.buffer| then (q.(buffer := q.buffer[wanted..]), Batch(q.buffer[..wanted]))
    else if q.closed then (q.(buffer := []), ResyncRequired)
    else if q.buffer == [] then (q, Waiting)
    else (q.(buffer := []), Batch(q.buffer))
  }

  class TraceSubscription<T> {
    const receiver: Channel<T>

    constructor (receiver: Channel<T>)
      ensures this.receiver == receiver
    {
      this.receiver := receiver;
    }

    /** Receives one delta at a time; `Waiting` stands for the suspended call, which has changed nothing. */
    method RecvBatch(maximum: nat) returns (result: BatchResult<T>)
      modifies receiver
      ensures (receiver.queue, result) == Batched(old(receiver.queue), maximum)
    {
      ghost var q := receiver.queue;
      var first := receiver.Receive();
      if !first.Received? {
        return if first.Drained? then ResyncRequired else Waiting;
      }
      var deltas := [first.item];
      while |deltas| < maximum
        invariant 1 <= |deltas| <= |q.buffer|
        invariant |deltas| <= maximum || |deltas| == 1
        invariant deltas == q.buffer[..|deltas|]
        invariant receiver.queue == q.(buffer := q.buffer[|deltas|..])
        decreases maximum - |deltas|
      {
        var next := receiver.Receive();
        match next {
          case Received(delta) => deltas := deltas + [delta];
          case Empty => break;
          case Drained => return ResyncRequired;
        }
      }
      assert q.buffer[..|q.buffer|] == q.buffer && q.buffer[|q.buffer|..] == [];
      return Batch(deltas);
    }
  }

  // ---------------------------------------------------------------- tracker

  datatype SequenceStatus = InOrder | Duplicate | Gap(expected: u64, received: u64)

  class SequenceTracker {
    var lastCommitted: u64

    constructor FromSnapshot(sequence: u64)
      ensures lastCommitted == sequence
    {
      lastCommitted := sequence;
    }

    /** The tracker advances to the largest number seen, and reports a gap exactly when it skips one. */
    method Observe(sequence: u64) returns (status: SequenceStatus)
      modifies this
      ensures lastCommitted == if sequence > old(lastCommitted) then sequence else old(lastCommitted)
      ensures status == Classify(old(lastCommitted), sequence)
      ensures status.Duplicate? <==> sequence <= old(lastCommitted)
      ensures status.InOrder? <==> sequence == old(lastCommitted) + 1
      ensures status.Gap? ==> status.expected == old(lastCommitted) + 1 && status.received == sequence
    {
      if sequence <= lastCommitted {
        return Duplicate;
      }
      var expected := SaturatingAdd(lastCommitted, 1);
      lastCommitted := sequence;
      if sequence == expected {
        status := InOrder;
      } else {
        status := Gap(expected, sequence);
      }
    }

    method Resync(sequence: u64)
      modifies this
      ensures lastCommitted == sequence
    {
      lastCommitted := sequence;
    }
  }

  function Classify(last: nat, sequence: u64): SequenceStatus
    requires last < WORD
  {
    if sequence <= last then Duplicate
    else if sequence == last + 1 then InOrder
    else Gap(last + 1, sequence)
  }

  /** Numbers without a hole, starting at `first`. */
  ghost predicate Consecutive(s: seq<u64>, first: nat) {
    forall i :: 0 <= i < |s| ==> s[i] == first + i
  }

  /** What observing a whole batch leaves in the tracker, and whether any observation was a gap. */
  function ObserveAll(last: u64, batch: seq<u64>): (u64, bool)
    decreases |batch|
  {
    if batch == [] then (last, false)
    else
      var next: u64 := if batch[0] > last then batch[0] else last;
      var (final, gapped) := ObserveAll(next, batch[1..]);
      (final, gapped || Classify(last, batch[0]).Gap?)
  }

  /** A hole-free batch that starts no later than the next expected number is absorbed without a gap. */
  lemma {:induction false} NoGapInConsecutiveBatch(last: u64, batch: seq<u64>, first: nat)
    requires Consecutive(batch, first) && first <= last + 1
    ensures var (final, gapped) := ObserveAll(last, batch);
      !gapped && final == if first + |batch| > last + 1 then first + |batch| - 1 else last
    decreases |batch|
  {
    if batch != [] {
      assert forall i :: 0 <= i < |batch[1..]| ==> batch[1..][i] == batch[i + 1];
      var next: u64 := if batch[0] > last then batch[0] else last;
      NoGapInConsecutiveBatch(next, batch[1..], first + 1);
    }
  }

  /** And only such batches are: a gap-free observation of an increasing batch means nothing was skipped. */
  lemma {:induction false} GapFreeMeansNothingSkipped(last: u64, batch: seq<u64>)
    requires forall i, j :: 0 <= i < j < |batch| ==> batch[i] < batch[j]
    requires !ObserveAll(last, batch).1
    ensures forall n :: last < n <= ObserveAll(last, batch).0 ==> n in batch
    decreases |batch|
  {
    if batch != [] {
      var next: u64 := if batch[0] > last then batch[0] else last;
      GapFreeMeansNothingSkipped(next, batch[1..]);
      forall n | last < n <= ObserveAll(last, batch).0 ensures n in batch {
        if n > next {
          assert n in batch[1..];
        } else {
          assert n == batch[0];
        }
      }
    }
  }
}
