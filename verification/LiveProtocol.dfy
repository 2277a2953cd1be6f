/**
 The live-update protocol as interleaved atomic steps: the writer commits and publishes, subscribers
 subscribe, read the commit sequence, drain their channel in batches, and may go away at any moment.

 Two facts about the writer are taken as given: commits are numbered consecutively, and each is
 published once, in that order.  A publication holds the subscriber lock from its first send to its
 last, but every send, every close and every receive is a step of its own.
 */
module LiveProtocol {
  import opened LiveUpdates
  import opened MachineWords
  import opened Options
  import opened Runs

  datatype Phase =
    | Joining                                  // subscribed, has not read the commit sequence yet
    | Tracking(snapshot: u64, last: u64)       // the tracker was seeded with `snapshot` and holds `last`
    | MustResync
    | Gone

  /** One subscriber.  The fields after `gathered` only record history. */
  datatype Subscriber = Subscriber(
    queue: Queue<u64>,
    listed: bool,
    phase: Phase,
    gathered: seq<u64>,
    joinedAt: nat,
    popped: seq<u64>,
    observed: seq<u64>,
    sawGap: bool,
    dropped: Option<nat>)

  datatype Publication = Idle | Sending(cursor: nat) | Closing(cursor: nat)

  /** `published` is the last commit whose publication has finished; the one in flight is the next. */
  datatype State = State(committed: u64, published: nat, publication: Publication, subscribers: seq<Subscriber>)

  datatype Action =
    | Commit
    | StartPublication
    | SendToNext
    | CloseFullChannel
    | FinishPublication
    | Subscribe(capacity: nat)
    | ReadSequence(i: nat)
    | ReceiveOne(i: nat)
    | DeliverBatch(i: nat)
    | Drop(i: nat)

  function Initial(sequence: u64): State {
    State(sequence, sequence, Idle, [])
  }

  function Next(s: State, a: Action): State {
    match a
    case Commit =>
      if s.committed < WORD - 1 then s.(committed := s.committed + 1) else s
    case StartPublication =>
      if s.publication.Idle? && s.published < s.committed then s.(publication := Sending(0)) else s
    case SendToNext =>
      if s.publication.Sending? && s.publication.cursor < |s.subscribers| && s.published < s.committed
      then SendStep(s) else s
    case CloseFullChannel =>
      if s.publication.Closing? && s.publication.cursor < |s.subscribers| then
        var i := s.publication.cursor;
        var c := s.subscribers[i];
        s.(publication := Sending(i + 1),
           subscribers := s.subscribers[i := c.(queue := c.queue.(closed := true), listed := false)])
      else s
    case FinishPublication =>
      if s.publication.Sending? && s.publication.cursor >= |s.subscribers| then
        s.(publication := Idle, published := s.published + 1)
      else s
    case Subscribe(capacity) =>
      if s.publication.Idle? && capacity > 0 then
        s.(subscribers := s.subscribers + [
          Subscriber(Queue([], capacity, false), true, Joining, [], s.published, [], [], false, None)])
      else s
    case ReadSequence(i) =>
      if i < |s.subscribers| && s.subscribers[i].phase.Joining? then
        Update(s, i, s.subscribers[i].(phase := Tracking(s.committed, s.committed)))
      else s
    case ReceiveOne(i) =>
      if i < |s.subscribers| && s.subscribers[i].phase.Tracking?
      then Update(s, i, ReceiveStep(s.subscribers[i])) else s
    case DeliverBatch(i) =>
      if i < |s.subscribers| && s.subscribers[i].phase.Tracking? && s.subscribers[i].gathered != []
      then Update(s, i, DeliverStep(s.subscribers[i])) else s
    case Drop(i) =>
      if i < |s.subscribers| then
        var c := s.subscribers[i];
        Update(s, i, c.(queue := c.queue.(closed := true), phase := Gone))
      else s
  }

  function Update(s: State, i: nat, c: Subscriber): State
    requires i < |s.subscribers|
  {
    s.(subscribers := s.subscribers[i := c])
  }

  /** One `try_send` of the publication in flight; a full channel is closed in a later step. */
  function SendStep(s: State): State
    requires s.publication.Sending? && s.publication.cursor < |s.subscribers| && s.published < s.committed
  {
    var i := s.publication.cursor;
    var c := s.subscribers[i];
    if !c.listed then s.(publication := Sending(i + 1))
    else
      var (queue, outcome) := TrySend(c.queue, s.published + 1);
      match outcome
      case Sent => Update(s, i, c.(queue := queue)).(publication := Sending(i + 1))
      case Full => Update(s, i, c.(dropped := Some(s.published + 1))).(publication := Closing(i))
      case Closed => Update(s, i, c.(listed := false)).(publication := Sending(i + 1))
  }

  /** One receive of `recv_batch`: the end of a closed channel discards what the batch had gathered. */
  function ReceiveStep(c: Subscriber): Subscriber {
    var (queue, outcome) := TryReceive(c.queue);
    match outcome
    case Received(sequence) =>
      c.(queue := queue, gathered := c.gathered + [sequence], popped := c.popped + [sequence])
    case Empty => c
    case Drained => c.(gathered := [], phase := MustResync)
  }

  /** The batch is handed to the tracker, delta by delta. */
  function DeliverStep(c: Subscriber): Subscriber
    requires c.phase.Tracking?
  {
    var (last, gapped) := ObserveAll(c.phase.last, c.gathered);
    c.(phase := c.phase.(last := last), gathered := [], observed := c.observed + c.gathered,
       sawGap := c.sawGap || gapped)
  }

  // -------------------------------------------------------------- invariant

  /** The last commit that has been sent to subscriber `i`, were it still listed. */
  function SentTo(s: State, i: nat): nat {
    if !s.publication.Idle? && i < s.publication.cursor then s.published + 1 else s.published
  }

  /** What a subscriber has been given so far: what it took and what still waits in its channel. */
  function Stream(c: Subscriber): seq<u64> {
    c.popped + c.queue.buffer
  }

  /** A subscriber on its own: a hole-free stream from its first commit on, and a tracker that follows it. */
  ghost predicate Coherent(c: Subscriber) {
    && Consecutive(Stream(c), c.joinedAt + 1)
    && |c.queue.buffer| <= c.queue.capacity
    && c.observed <= c.popped
    && !c.sawGap
    && (c.phase.Joining? ==> c.popped == [] && c.gathered == [])
    && (c.phase.Tracking? ==>
          && c.popped == c.observed + c.gathered
          && c.joinedAt <= c.phase.snapshot <= c.phase.last
          && c.phase.last == if c.joinedAt + |c.observed| > c.phase.snapshot
                             then c.joinedAt + |c.observed| else c.phase.snapshot)
    && (c.queue.closed && !c.phase.Gone? ==> c.dropped.Some?)
    && (c.phase.MustResync? ==> c.dropped.Some?)
    && (c.dropped.Some? ==> c.joinedAt + |Stream(c)| + 1 == c.dropped.value)
  }

  /** A subscriber against the publication: as long as it is listed and open it has been sent everything. */
  ghost predicate UpToDate(s: State, i: nat)
    requires i < |s.subscribers|
  {
    var c := s.subscribers[i];
    var beingClosed := s.publication == Closing(i);
    && c.joinedAt + |Stream(c)| <= SentTo(s, i)
    && (c.listed && !c.queue.closed ==> c.joinedAt + |Stream(c)| == SentTo(s, i))
    && (c.listed && c.dropped.Some? ==> beingClosed)
    && (beingClosed ==> c.dropped == Some(s.published + 1))
    && (c.dropped.Some? ==> c.queue.closed || beingClosed)
    && (c.phase.Tracking? ==> c.phase.snapshot <= s.committed)
  }

  ghost predicate Invariant(s: State) {
    && s.published <= s.committed
    && (!s.publication.Idle? ==> s.published < s.committed)
    && (s.publication.Closing? ==> s.publication.cursor < |s.subscribers|)
    && (forall i :: 0 <= i < |s.subscribers| ==> Coherent(s.subscribers[i]) && UpToDate(s, i))
  }

  lemma SendKeepsInvariant(s: State)
    requires Invariant(s)
    requires s.publication.Sending? && s.publication.cursor < |s.subscribers|
    ensures Invariant(Next(s, SendToNext))
  {
    var s' := Next(s, SendToNext);
    var i := s.publication.cursor;
    var c, c' := s.subscribers[i], s'.subscribers[i];
    assert Coherent(c) && UpToDate(s, i);
    if c.listed && TrySend(c.queue, s.published + 1).1.Sent? {
      assert Stream(c') == Stream(c) + [s.published + 1];
    }
    assert Coherent(c');
    hide Coherent, Stream;
    forall j | 0 <= j < |s'.subscribers| ensures Coherent(s'.subscribers[j]) && UpToDate(s', j) {
      assert Coherent(s.subscribers[j]) && UpToDate(s, j);
    }
  }

  lemma ReceiveKeepsCoherent(c: Subscriber)
    requires Coherent(c) && c.phase.Tracking?
    ensures Coherent(ReceiveStep(c))
    ensures Stream(ReceiveStep(c)) == Stream(c)
  {
    var c' := ReceiveStep(c);
    if c.queue.buffer != [] {
      assert c.queue.buffer == [c.queue.buffer[0]] + c.queue.buffer[1..];
      assert Stream(c') == Stream(c);
      assert c'.popped == c.observed + c'.gathered;
    }
  }

  lemma DeliverKeepsCoherent(c: Subscriber)
    requires Coherent(c) && c.phase.Tracking?
    ensures Coherent(DeliverStep(c))
    ensures Stream(DeliverStep(c)) == Stream(c)
  {
    var first := c.joinedAt + |c.observed| + 1;
    forall k | 0 <= k < |c.gathered| ensures c.gathered[k] == first + k {
      assert c.gathered[k] == c.popped[|c.observed| + k] == Stream(c)[|c.observed| + k];
    }
    NoGapInConsecutiveBatch(c.phase.last, c.gathered, first);
  }

  /** A step inside one subscriber that keeps its stream, its listing and its channel open or closed. */
  lemma LocalStepKeepsInvariant(s: State, i: nat, c: Subscriber)
    requires Invariant(s) && i < |s.subscribers| && Coherent(c)
    requires var before := s.subscribers[i];
      && Stream(c) == Stream(before) && c.joinedAt == before.joinedAt && c.listed == before.listed
      && c.dropped == before.dropped && (before.queue.closed ==> c.queue.closed)
    requires c.phase.Tracking? ==> c.phase.snapshot <= s.committed
    ensures Invariant(Update(s, i, c))
  {
    hide Coherent, Stream;
  }

  lemma WriterStepKeepsInvariant(s: State, a: Action)
    requires Invariant(s)
    requires a.Commit? || a.StartPublication? || a.CloseFullChannel? || a.FinishPublication?
    ensures Invariant(Next(s, a))
  {
    var s' := Next(s, a);
    forall j | 0 <= j < |s'.subscribers| ensures Coherent(s'.subscribers[j]) && UpToDate(s', j) {
      assert Coherent(s.subscribers[j]) && UpToDate(s, j);
    }
  }

  lemma JoiningKeepsInvariant(s: State, capacity: nat)
    requires Invariant(s)
    ensures Invariant(Next(s, Subscribe(capacity)))
  {
  }

  lemma ReceivingKeepsInvariant(s: State, i: nat)
    requires Invariant(s)
    ensures Invariant(Next(s, ReceiveOne(i)))
    ensures Invariant(Next(s, DeliverBatch(i)))
  {
    if i < |s.subscribers| && s.subscribers[i].phase.Tracking? {
      var c := s.subscribers[i];
      assert Coherent(c) && UpToDate(s, i);
      ReceiveKeepsCoherent(c);
      LocalStepKeepsInvariant(s, i, ReceiveStep(c));
      DeliverKeepsCoherent(c);
      LocalStepKeepsInvariant(s, i, DeliverStep(c));
    }
  }

  lemma SeedingAndLeavingKeepInvariant(s: State, i: nat)
    requires Invariant(s)
    ensures Invariant(Next(s, ReadSequence(i)))
    ensures Invariant(Next(s, Drop(i)))
  {
    if i < |s.subscribers| {
      var c := s.subscribers[i];
      assert Coherent(c) && UpToDate(s, i);
      if c.phase.Joining? {
        LocalStepKeepsInvariant(s, i, c.(phase := Tracking(s.committed, s.committed)));
      }
      LocalStepKeepsInvariant(s, i, c.(queue := c.queue.(closed := true), phase := Gone));
    }
  }

  lemma StepKeepsInvariant(s: State, a: Action)
    requires Invariant(s)
    ensures Invariant(Next(s, a))
  {
    match a
    case SendToNext =>
      if Next(s, a) != s { SendKeepsInvariant(s); }
    case Commit | StartPublication | CloseFullChannel | FinishPublication => WriterStepKeepsInvariant(s, a);
    case Subscribe(capacity) => JoiningKeepsInvariant(s, capacity);
    case ReceiveOne(i) => ReceivingKeepsInvariant(s, i);
    case DeliverBatch(i) => ReceivingKeepsInvariant(s, i);
    case ReadSequence(i) => SeedingAndLeavingKeepInvariant(s, i);
    case Drop(i) => SeedingAndLeavingKeepInvariant(s, i);
  }

  lemma {:induction false} EveryRunKeepsInvariant(sequence: u64, actions: seq<Action>)
    ensures Invariant(After(Next, Initial(sequence), actions))
    decreases |actions|
  {
    if actions != [] {
      EveryRunKeepsInvariant(sequence, actions[..|actions| - 1]);
      StepKeepsInvariant(After(Next, Initial(sequence), actions[..|actions| - 1]), actions[|actions| - 1]);
    }
  }

  // --------------------------------------------------------------- theorems

  /**
   The send and close steps of one subscriber together do what `DeltaHub.Publish` does to its channel
   and to its place in the list, and touch no other subscriber.
   */
  lemma StepsOfOnePublicationMatchTheHub(s: State)
    requires s.publication.Sending? && s.publication.cursor < |s.subscribers| && s.published < s.committed
    ensures var i := s.publication.cursor;
      var sent := Next(s, SendToNext);
      var s' := if sent.publication.Closing? then Next(sent, CloseFullChannel) else sent;
      var c := s.subscribers[i];
      && s'.publication == Sending(i + 1)
      && |s'.subscribers| == |s.subscribers|
      && (forall j :: 0 <= j < |s.subscribers| && j != i ==> s'.subscribers[j] == s.subscribers[j])
      && (c.listed ==> s'.subscribers[i].queue == Published(c.queue, s.published + 1))
      && (!c.listed ==> s'.subscribers[i].queue == c.queue)
      && (s'.subscribers[i].listed <==> c.listed && StaysSubscribed(c.queue, s.published + 1))
  {
  }

  /** What one `recv_batch` leaves of a subscriber, its batch handed to the tracker. */
  function BatchStep(c: Subscriber, maximum: nat): Subscriber
    requires c.phase.Tracking?
  {
    var (queue, result) := Batched(c.queue, maximum);
    match result
    case Batch(deltas) => DeliverStep(c.(queue := queue, gathered := deltas, popped := c.popped + deltas))
    case ResyncRequired => c.(queue := queue, popped := c.popped + c.queue.buffer, phase := MustResync)
    case Waiting => c
  }

  function Receives(i: nat, n: nat): (actions: seq<Action>)
    ensures |actions| == n
  {
    if n == 0 then [] else Receives(i, n - 1) + [ReceiveOne(i)]
  }

  function Gathered(c: Subscriber, n: nat): (r: Subscriber)
    requires n <= |c.queue.buffer|
    ensures r.phase == c.phase
  {
    var taken := c.queue.buffer[..n];
    c.(queue := c.queue.(buffer := c.queue.buffer[n..]), gathered := c.gathered + taken, popped := c.popped + taken)
  }

  lemma ReceiveGathersOne(c: Subscriber, n: nat)
    requires n < |c.queue.buffer|
    ensures ReceiveStep(Gathered(c, n)) == Gathered(c, n + 1)
  {
    var buffer := c.queue.buffer;
    assert buffer[..n + 1] == buffer[..n] + [buffer[n]];
    assert buffer[n..][0] == buffer[n] && buffer[n..][1..] == buffer[n + 1..];
  }

  /** A receive step changes its subscriber only. */
  lemma StepsOfOneSubscriber(s: State, i: nat, c: Subscriber)
    requires i < |s.subscribers| && c.phase.Tracking?
    ensures Next(Update(s, i, c), ReceiveOne(i)) == Update(s, i, ReceiveStep(c))
    ensures Next(Update(s, i, c), DeliverBatch(i))
      == Update(s, i, if c.gathered == [] then c else DeliverStep(c))
  {
  }

  lemma {:induction false} ReceivesGather(s: State, i: nat, n: nat)
    requires i < |s.subscribers| && s.subscribers[i].phase.Tracking? && n <= |s.subscribers[i].queue.buffer|
    ensures After(Next, s, Receives(i, n)) == Update(s, i, Gathered(s.subscribers[i], n))
  {
    hide Next, ReceiveStep, DeliverStep;
    var c := s.subscribers[i];
    if n == 0 {
      assert Gathered(c, 0) == c;
    } else {
      hide Gathered, Update;
      ReceivesGather(s, i, n - 1);
      assert Receives(i, n)[..n - 1] == Receives(i, n - 1);
      StepsOfOneSubscriber(s, i, Gathered(c, n - 1));
      ReceiveGathersOne(c, n - 1);
    }
  }

  /**
   One `RecvBatch` is a run of receive steps and the delivery of the batch: as many receives as the batch
   wants, or one more than is waiting when that is fewer.
   */
  lemma StepsOfOneBatchMatchTheReceiver(s: State, i: nat, maximum: nat)
    requires i < |s.subscribers| && s.subscribers[i].phase.Tracking? && s.subscribers[i].gathered == []
    ensures var c := s.subscribers[i];
      var wanted := if maximum == 0 then 1 else maximum;
      var receives := if wanted <= |c.queue.buffer| then wanted else |c.queue.buffer| + 1;
      After(Next, s, Receives(i, receives) + [DeliverBatch(i)]) == Update(s, i, BatchStep(c, maximum))
  {
    hide Next, DeliverStep, ReceiveStep, Gathered, BatchStep, Update;
    var c := s.subscribers[i];
    var wanted := if maximum == 0 then 1 else maximum;
    var waiting := |c.queue.buffer|;
    BatchIsGathered(c, maximum);
    if wanted <= waiting {
      ReceivesGather(s, i, wanted);
      DeliveryLast(s, i, wanted);
      StepsOfOneSubscriber(s, i, Gathered(c, wanted));
    } else {
      var all := Gathered(c, waiting);
      ReceivesGather(s, i, waiting);
      DeliveryLast(s, i, waiting + 1);
      assert Receives(i, waiting + 1)[..waiting] == Receives(i, waiting);
      StepsOfOneSubscriber(s, i, all);
      if c.queue.closed {
        ResyncIgnoresDelivery(s, i, ReceiveStep(all));
      }
    }
  }

  /** The batch is what the receives gathered, unless the last of them met the end of a closed channel. */
  lemma BatchIsGathered(c: Subscriber, maximum: nat)
    requires c.phase.Tracking? && c.gathered == []
    ensures var wanted := if maximum == 0 then 1 else maximum;
      && (wanted <= |c.queue.buffer| ==>
        Gathered(c, wanted).gathered != [] && BatchStep(c, maximum) == DeliverStep(Gathered(c, wanted)))
      && (|c.queue.buffer| < wanted ==>
        var all := Gathered(c, |c.queue.buffer|);
        if c.queue.closed then ReceiveStep(all).phase.MustResync? && BatchStep(c, maximum) == ReceiveStep(all)
        else ReceiveStep(all) == all && BatchStep(c, maximum) == if all.gathered == [] then all else DeliverStep(all))
  {
    hide DeliverStep;
    var buffer := c.queue.buffer;
    var wanted := if maximum == 0 then 1 else maximum;
    if wanted <= |buffer| {
      assert c.gathered + buffer[..wanted] == buffer[..wanted];
    } else {
      assert buffer[..|buffer|] == buffer && buffer[|buffer|..] == [] && c.gathered + buffer == buffer;
      assert c.popped + [] == c.popped;
    }
  }

  lemma ResyncIgnoresDelivery(s: State, i: nat, c: Subscriber)
    requires i < |s.subscribers| && c.phase.MustResync?
    ensures Next(Update(s, i, c), DeliverBatch(i)) == Update(s, i, c)
  {
  }

  lemma DeliveryLast(s: State, i: nat, n: nat)
    ensures After(Next, s, Receives(i, n) + [DeliverBatch(i)]) == Next(After(Next, s, Receives(i, n)), DeliverBatch(i))
  {
    assert (Receives(i, n) + [DeliverBatch(i)])[..n] == Receives(i, n);
  }

  /** In no run does a tracker seeded by `snapshot_and_subscribe` report a gap. */
  lemma NoGapIsEverReported(sequence: u64, actions: seq<Action>, i: nat)
    requires i < |After(Next, Initial(sequence), actions).subscribers|
    ensures !After(Next, Initial(sequence), actions).subscribers[i].sawGap
  {
    EveryRunKeepsInvariant(sequence, actions);
  }

  /**
   In every run a subscriber that is tracking has seen, through its snapshot and its observed deltas,
   every commit up to the number its tracker holds, and its run of deltas starts no later than
   snapshot + 1 and has no hole.
   */
  lemma NothingIsSkipped(sequence: u64, actions: seq<Action>, i: nat)
    requires i < |After(Next, Initial(sequence), actions).subscribers|
    requires After(Next, Initial(sequence), actions).subscribers[i].phase.Tracking?
    ensures var c := After(Next, Initial(sequence), actions).subscribers[i];
      && Consecutive(c.observed, c.joinedAt + 1) && c.joinedAt <= c.phase.snapshot
      && (forall n :: c.phase.snapshot < n <= c.phase.last ==> n in c.observed)
      && (forall n :: n in c.observed ==> n <= c.phase.last)
  {
    EveryRunKeepsInvariant(sequence, actions);
    var c := After(Next, Initial(sequence), actions).subscribers[i];
    assert Coherent(c);
    forall k | 0 <= k < |c.observed| ensures c.observed[k] == c.joinedAt + 1 + k {
      assert c.observed[k] == c.popped[k] == Stream(c)[k];
    }
    forall n | c.phase.snapshot < n <= c.phase.last ensures n in c.observed {
      assert c.observed[n - c.joinedAt - 1] == n;
    }
  }

  /**
   No delta is lost silently: between publications, a subscriber that is tracking and has had no delta
   dropped holds every published commit after it joined, in what it observed, gathered or has waiting.
   */
  lemma OpenSubscribersMissNothing(sequence: u64, actions: seq<Action>, i: nat)
    requires var s := After(Next, Initial(sequence), actions);
      i < |s.subscribers| && s.publication.Idle? && s.subscribers[i].listed && !s.subscribers[i].queue.closed
    ensures var s := After(Next, Initial(sequence), actions);
      var c := s.subscribers[i];
      forall n :: c.joinedAt < n <= s.published ==> n in c.popped + c.queue.buffer
  {
    EveryRunKeepsInvariant(sequence, actions);
    var s := After(Next, Initial(sequence), actions);
    var c := s.subscribers[i];
    assert Coherent(c) && UpToDate(s, i);
    forall n | c.joinedAt < n <= s.published ensures n in Stream(c) {
      assert Stream(c)[n - c.joinedAt - 1] == n;
    }
  }

  /** A resync is asked for only after a delta was dropped, and never without one. */
  lemma ResyncOnlyAfterADrop(sequence: u64, actions: seq<Action>, i: nat)
    requires i < |After(Next, Initial(sequence), actions).subscribers|
    requires After(Next, Initial(sequence), actions).subscribers[i].phase.MustResync?
    ensures After(Next, Initial(sequence), actions).subscribers[i].dropped.Some?
  {
    EveryRunKeepsInvariant(sequence, actions);
    assert Coherent(After(Next, Initial(sequence), actions).subscribers[i]);
  }

  // ------------------------------------------------------------------ progress

  /** What the writer does next; it is done when everything committed is published. */
  function WriterAction(s: State): Action {
    match s.publication
    case Idle => StartPublication
    case Sending(cursor) => if cursor < |s.subscribers| then SendToNext else FinishPublication
    case Closing(_) => CloseFullChannel
  }

  /** Steps until the publication in flight is over. */
  function PublicationLeft(s: State): nat {
    match s.publication
    case Idle => 2 * |s.subscribers| + 2
    case Sending(cursor) => if cursor <= |s.subscribers| then 2 * (|s.subscribers| - cursor) + 1 else 1
    case Closing(cursor) => if cursor < |s.subscribers| then 2 * (|s.subscribers| - cursor) else 0
  }

  lemma WriterGetsOn(s: State)
    requires Invariant(s) && (s.publication.Idle? ==> s.published < s.committed)
    ensures var s' := Next(s, WriterAction(s));
      && s'.committed == s.committed && s.published <= s'.published
      && (s.published < s'.published || PublicationLeft(s') < PublicationLeft(s))
      && (s'.published != s.published ==> s'.publication.Idle?)
  {
    hide Coherent, UpToDate;
  }

  /** Steps of the writer alone after which everything that was committed is published. */
  ghost predicate Publishes(s: State, actions: seq<Action>) {
    var s' := After(Next, s, actions);
    && (forall a :: a in actions ==>
          a.StartPublication? || a.SendToNext? || a.CloseFullChannel? || a.FinishPublication?)
    && s'.publication.Idle? && s'.published == s'.committed == s.committed && Invariant(s')
  }

  /**
   The writer never gets stuck: from every state of a run a run of its own steps publishes everything that
   is committed, whatever the subscribers' channels hold.
   */
  lemma {:induction false} EverythingCanBePublished(s: State)
    requires Invariant(s)
    ensures exists actions :: Publishes(s, actions)
    decreases s.committed - s.published, PublicationLeft(s)
  {
    if s.publication.Idle? && s.published == s.committed {
      assert Publishes(s, []);
      return;
    }
    hide Next, Coherent, UpToDate, PublicationLeft;
    var a := WriterAction(s);
    WriterGetsOn(s);
    StepKeepsInvariant(s, a);
    EverythingCanBePublished(Next(s, a));
    var rest :| Publishes(Next(s, a), rest);
    AfterConcat(Next, s, [a], rest);
    AfterOne(Next, s, a);
    assert Publishes(s, [a] + rest);
  }

  /** A subscriber's own steps: read the sequence if it has not, take all that waits, hand it to the tracker. */
  function CatchUp(i: nat, waiting: nat): seq<Action> {
    [ReadSequence(i)] + (Receives(i, waiting) + [DeliverBatch(i)])
  }

  /**
   Once everything is published, a subscriber that is still listed catches up by its own steps alone: its
   channel is empty and its tracker holds the last commit.
   */
  lemma SubscribersCanCatchUp(s: State, i: nat)
    requires Invariant(s) && s.publication.Idle? && s.published == s.committed && i < |s.subscribers|
    requires var c := s.subscribers[i]; c.listed && !c.queue.closed && (c.phase.Joining? || c.phase.Tracking?)
    ensures var s' := After(Next, s, CatchUp(i, |s.subscribers[i].queue.buffer|));
      && i < |s'.subscribers| && s' == Update(s, i, s'.subscribers[i])
      && s'.subscribers[i].phase.Tracking? && s'.subscribers[i].phase.last == s.committed
      && s'.subscribers[i].queue == s.subscribers[i].queue.(buffer := [])
      && s'.subscribers[i].gathered == []
  {
    var waiting := |s.subscribers[i].queue.buffer|;
    var seeded := Next(s, ReadSequence(i));
    StepKeepsInvariant(s, ReadSequence(i));
    SeedingOnlyTracks(s, i);
    AfterConcat(Next, s, [ReadSequence(i)], Receives(i, waiting) + [DeliverBatch(i)]);
    AfterOne(Next, s, ReadSequence(i));
    DeliveryLast(seeded, i, waiting);
    ReceivesGather(seeded, i, waiting);
    TrackingCatchesUp(s, seeded, i);
  }

  lemma SeedingOnlyTracks(s: State, i: nat)
    requires i < |s.subscribers| && (s.subscribers[i].phase.Joining? || s.subscribers[i].phase.Tracking?)
    ensures var c := Next(s, ReadSequence(i)).subscribers[i];
      && Next(s, ReadSequence(i)) == Update(s, i, c) && c.phase.Tracking?
      && c == s.subscribers[i].(phase := c.phase)
  {
    assert s.subscribers[i := s.subscribers[i]] == s.subscribers;
  }

  lemma TrackingCatchesUp(s: State, seeded: State, i: nat)
    requires Invariant(seeded) && s.publication.Idle? && s.published == s.committed && i < |s.subscribers|
    requires i < |seeded.subscribers| && seeded == Update(s, i, seeded.subscribers[i])
    requires var c := seeded.subscribers[i]; c.listed && !c.queue.closed && c.phase.Tracking?
    ensures var c := seeded.subscribers[i];
      var all := Gathered(c, |c.queue.buffer|);
      var s' := Next(Update(seeded, i, all), DeliverBatch(i));
      && i < |s'.subscribers| && s' == Update(s, i, s'.subscribers[i])
      && s'.subscribers[i].phase.Tracking? && s'.subscribers[i].phase.last == s.committed
      && s'.subscribers[i].queue == c.queue.(buffer := []) && s'.subscribers[i].gathered == []
  {
    hide Next, Coherent, UpToDate;
    var c := seeded.subscribers[i];
    var all := Gathered(c, |c.queue.buffer|);
    assert Coherent(c) && UpToDate(seeded, i);
    AllIsGathered(c);
    StepsOfOneSubscriber(seeded, i, all);
    var done := if all.gathered == [] then all else DeliverStep(all);
    DeliveredIsCaughtUp(seeded, i, done);
    assert Update(Update(seeded, i, all), i, done) == Update(s, i, done);
  }

  lemma AllIsGathered(c: Subscriber)
    requires Coherent(c) && c.phase.Tracking?
    ensures var all := Gathered(c, |c.queue.buffer|);
      var done := if all.gathered == [] then all else DeliverStep(all);
      && Coherent(done) && Stream(done) == Stream(c) && done.phase.Tracking?
      && done.queue == c.queue.(buffer := []) && done.gathered == []
      && done.joinedAt == c.joinedAt && done.phase.snapshot == c.phase.snapshot
  {
    hide LiveUpdates.Consecutive;
    var all := Gathered(c, |c.queue.buffer|);
    assert c.queue.buffer[..|c.queue.buffer|] == c.queue.buffer;
    assert Stream(all) == Stream(c);
    assert all.popped == all.observed + all.gathered;
    assert Coherent(all);
    DeliverKeepsCoherent(all);
  }

  lemma DeliveredIsCaughtUp(s: State, i: nat, done: Subscriber)
    requires i < |s.subscribers| && UpToDate(s, i) && s.publication.Idle? && s.published == s.committed
    requires var c := s.subscribers[i];
      && c.listed && !c.queue.closed && c.phase.Tracking?
      && Coherent(done) && Stream(done) == Stream(c) && done.phase.Tracking? && done.queue.buffer == []
      && done.gathered == [] && done.joinedAt == c.joinedAt && done.phase.snapshot == c.phase.snapshot
    ensures done.phase.last == s.committed
  {
    assert Stream(done) == done.observed;
  }

  // --------------------------------------------------------------------- drops

  /** A closed channel only empties: after `n` more receives it holds `n` fewer deltas, or the end was met. */
  ghost predicate Draining(c: Subscriber, before: Subscriber, n: nat) {
    || c.phase.MustResync?
    || (c.phase.Tracking? && c.queue.closed && |c.queue.buffer| + n <= |before.queue.buffer|)
  }

  lemma {:induction false} ClosedChannelsDrain(s: State, later: seq<Action>, i: nat)
    requires i < |s.subscribers| && s.subscribers[i].phase.Tracking? && s.subscribers[i].queue.closed
    requires Drop(i) !in later
    ensures i < |After(Next, s, later).subscribers|
    ensures Draining(After(Next, s, later).subscribers[i], s.subscribers[i], multiset(later)[ReceiveOne(i)])
    decreases |later|
  {
    if later != [] {
      var front, last := later[..|later| - 1], later[|later| - 1];
      assert later == front + [last];
      ClosedChannelsDrain(s, front, i);
      DrainingStep(After(Next, s, front), last, i, s.subscribers[i], multiset(front)[ReceiveOne(i)]);
    }
  }

  lemma DrainingStep(s: State, a: Action, i: nat, before: Subscriber, n: nat)
    requires i < |s.subscribers| && a != Drop(i) && Draining(s.subscribers[i], before, n)
    ensures i < |Next(s, a).subscribers|
    ensures Draining(Next(s, a).subscribers[i], before, if a == ReceiveOne(i) then n + 1 else n)
  {
  }

  /**
   No drop goes unreported: however the steps interleave, a tracking subscriber that had a delta dropped
   and stays is told to resync at the latest by the receive after the last delta that was waiting.
   */
  lemma EveryDropIsReported(sequence: u64, actions: seq<Action>, later: seq<Action>, i: nat)
    requires var s := After(Next, Initial(sequence), actions);
      && i < |s.subscribers| && s.subscribers[i].phase.Tracking? && s.subscribers[i].dropped.Some?
      && s.publication != Closing(i)
      && Drop(i) !in later && |s.subscribers[i].queue.buffer| < multiset(later)[ReceiveOne(i)]
    ensures var s' := After(Next, Initial(sequence), actions + later);
      i < |s'.subscribers| && s'.subscribers[i].phase.MustResync?
  {
    EveryRunKeepsInvariant(sequence, actions);
    var s := After(Next, Initial(sequence), actions);
    assert UpToDate(s, i);
    AfterConcat(Next, Initial(sequence), actions, later);
    ClosedChannelsDrain(s, later, i);
  }

  /** A delta is dropped only by a send that finds as many waiting as the channel can hold, and never more wait. */
  lemma OnlyFullChannelsDrop(sequence: u64, actions: seq<Action>, a: Action, i: nat)
    requires i < |After(Next, Initial(sequence), actions).subscribers|
    ensures var s := After(Next, Initial(sequence), actions);
      var c := s.subscribers[i];
      && i < |Next(s, a).subscribers|
      && |c.queue.buffer| <= c.queue.capacity
      && (c.dropped.None? && Next(s, a).subscribers[i].dropped.Some? ==>
            a.SendToNext? && |c.queue.buffer| == c.queue.capacity)
  {
    EveryRunKeepsInvariant(sequence, actions);
    var s := After(Next, Initial(sequence), actions);
    assert Coherent(s.subscribers[i]);
    StepDropsOnlyWhenFull(s, a, i);
  }

  lemma StepDropsOnlyWhenFull(s: State, a: Action, i: nat)
    requires i < |s.subscribers|
    ensures i < |Next(s, a).subscribers|
    ensures var c := s.subscribers[i];
      c.dropped.None? && Next(s, a).subscribers[i].dropped.Some? ==>
        a.SendToNext? && c.queue.capacity <= |c.queue.buffer|
  {
  }

  lemma StepRemembersDrop(s: State, a: Action, i: nat)
    requires i < |s.subscribers| && UpToDate(s, i)
    requires s.subscribers[i].dropped.Some?
    ensures i < |Next(s, a).subscribers|
    ensures Next(s, a).subscribers[i].dropped == s.subscribers[i].dropped
    ensures Next(s, a).subscribers[i].joinedAt == s.subscribers[i].joinedAt
  {
  }

  lemma {:induction false} DropIsRemembered(s: State, actions: seq<Action>, i: nat)
    requires Invariant(s) && i < |s.subscribers| && s.subscribers[i].dropped.Some?
    ensures var s' := After(Next, s, actions);
      && Invariant(s') && i < |s'.subscribers|
      && s'.subscribers[i].dropped == s.subscribers[i].dropped
      && s'.subscribers[i].joinedAt == s.subscribers[i].joinedAt
    decreases |actions|
  {
    if actions != [] {
      DropIsRemembered(s, actions[..|actions| - 1], i);
      var middle := After(Next, s, actions[..|actions| - 1]);
      StepKeepsInvariant(middle, actions[|actions| - 1]);
      StepRemembersDrop(middle, actions[|actions| - 1], i);
    }
  }

  /** Once one delta has been dropped, neither it nor any later one is ever given to that subscriber. */
  lemma NothingIsDeliveredAfterADrop(sequence: u64, actions: seq<Action>, later: seq<Action>, i: nat)
    requires var s := After(Next, Initial(sequence), actions);
      i < |s.subscribers| && s.subscribers[i].dropped.Some?
    ensures var s := After(Next, Initial(sequence), actions);
      var s' := After(Next, Initial(sequence), actions + later);
      && i < |s'.subscribers|
      && forall n :: n in s'.subscribers[i].popped + s'.subscribers[i].queue.buffer
                     ==> n < s.subscribers[i].dropped.value
  {
    EveryRunKeepsInvariant(sequence, actions);
    var s := After(Next, Initial(sequence), actions);
    AfterConcat(Next, Initial(sequence), actions, later);
    DropIsRemembered(s, later, i);
    var c := After(Next, s, later).subscribers[i];
    assert Coherent(c);
  }
}
