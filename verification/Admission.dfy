/**
 Byte admission of the live writer: any number of submitters reserve bytes with a compare-and-swap
 loop, count their batch, try to enqueue and roll both counters back when the queue refuses; the
 writer takes commands and gives both counters back, one atomic operation at a time.

 Every action below is one atomic operation, and a run is any sequence of actions; an action that is
 not enabled leaves the state alone.  The counters wrap around like a 64-bit `usize`, so an underflow
 would show as a wrong value rather than be excluded by the type.
 */
module Admission {
  import opened MachineWords
  import opened Runs
  import opened SeqSums

  datatype Command = Ingest(admittedBytes: nat) | Other

  /** Where one call of `submit_blocking` stands. */
  datatype Submitter =
    | Resting
    | Loaded(bytes: nat, current: nat)   // inside the loop, holding the last observed value
    | Reserved(bytes: nat)               // the swap succeeded, the batch is not counted yet
    | Counted(bytes: nat)                // counted, `try_send` comes next
    | Refused(bytes: nat)                // the queue refused: bytes go back next
    | BytesReturned                      // the batch counter goes back next

  datatype Writer =
    | Waiting
    | Holding(bytes: nat)                // took an Ingest command, its bytes go back next
    | HoldingBatch                       // the batch counter goes back next
    | Stopped

  datatype State = State(
    byteCapacity: nat,
    batchCapacity: nat,
    queuedBytes: nat,
    queuedBatches: nat,
    submitters: seq<Submitter>,
    queue: seq<Command>,
    writer: Writer)

  datatype Action =
    | Load(t: nat, bytes: nat)
    | CompareExchange(t: nat, spurious: bool)
    | CountBatch(t: nat)
    | TrySend(t: nat)
    | ReturnBytes(t: nat)
    | ReturnBatch(t: nat)
    | EnqueueOther
    | WriterTakes
    | WriterReturnsBytes
    | WriterReturnsBatch
    | WriterStops

  function Initial(byteCapacity: nat, batchCapacity: nat, submitters: nat): State {
    State(byteCapacity, batchCapacity, 0, 0, seq(submitters, _ => Resting), [], Waiting)
  }

  function Next(s: State, a: Action): State {
    match a
    case Load(t, bytes) =>
      if t < |s.submitters| && s.submitters[t].Resting? && bytes < WORD then
        s.(submitters := s.submitters[t := Loaded(bytes, s.queuedBytes)])
      else s
    case CompareExchange(t, spurious) =>
      if t < |s.submitters| && s.submitters[t].Loaded? then CompareExchangeStep(s, t, spurious) else s
    case CountBatch(t) =>
      if t < |s.submitters| && s.submitters[t].Reserved? then
        s.(queuedBatches := WrappingAdd(s.queuedBatches, 1),
           submitters := s.submitters[t := Counted(s.submitters[t].bytes)])
      else s
    case TrySend(t) =>
      if t < |s.submitters| && s.submitters[t].Counted? then
        var bytes := s.submitters[t].bytes;
        if s.writer.Stopped? || |s.queue| >= s.batchCapacity then
          s.(submitters := s.submitters[t := Refused(bytes)])
        else
          s.(queue := s.queue + [Ingest(bytes)], submitters := s.submitters[t := Resting])
      else s
    case ReturnBytes(t) =>
      if t < |s.submitters| && s.submitters[t].Refused? then
        s.(queuedBytes := WrappingSub(s.queuedBytes, s.submitters[t].bytes),
           submitters := s.submitters[t := BytesReturned])
      else s
    case ReturnBatch(t) =>
      if t < |s.submitters| && s.submitters[t].BytesReturned? then
        s.(queuedBatches := WrappingSub(s.queuedBatches, 1),
           submitters := s.submitters[t := Resting])
      else s
    case EnqueueOther =>
      if !s.writer.Stopped? && |s.queue| < s.batchCapacity then s.(queue := s.queue + [Other]) else s
    case WriterTakes =>
      if s.writer.Waiting? && s.queue != [] then
        s.(queue := s.queue[1..],
           writer := if s.queue[0].Ingest? then Holding(s.queue[0].admittedBytes) else Waiting)
      else s
    case WriterReturnsBytes =>
      if s.writer.Holding? then
        s.(queuedBytes := WrappingSub(s.queuedBytes, s.writer.bytes), writer := HoldingBatch)
      else s
    case WriterReturnsBatch =>
      if s.writer.HoldingBatch? then
        s.(queuedBatches := WrappingSub(s.queuedBatches, 1), writer := Waiting)
      else s
    case WriterStops =>
      if s.writer.Waiting? then s.(writer := Stopped) else s
  }

  /** One turn of the loop in `reserve_bytes`: overflow and capacity checks, then the weak swap. */
  function CompareExchangeStep(s: State, t: nat, spurious: bool): State
    requires t < |s.submitters| && s.submitters[t].Loaded?
  {
    var Loaded(bytes, current) := s.submitters[t];
    var next := current + bytes;
    if next >= WORD || next > s.byteCapacity then
      s.(submitters := s.submitters[t := Resting])
    else if !spurious && s.queuedBytes == current then
      s.(queuedBytes := next, submitters := s.submitters[t := Reserved(bytes)])
    else
      s.(submitters := s.submitters[t := Loaded(bytes, s.queuedBytes)])
  }

  /** Bytes a submitter, a queued command or the writer has reserved and not yet given back. */
  function SubmitterBytes(p: Submitter): nat {
    if p.Reserved? || p.Counted? || p.Refused? then p.bytes else 0
  }

  function CommandBytes(c: Command): nat {
    if c.Ingest? then c.admittedBytes else 0
  }

  function OutstandingBytes(s: State): nat {
    Sum(s.submitters, SubmitterBytes) + Sum(s.queue, CommandBytes)
    + (if s.writer.Holding? then s.writer.bytes else 0)
  }

  function SubmitterBatches(p: Submitter): nat {
    if p.Counted? || p.Refused? || p.BytesReturned? then 1 else 0
  }

  function CommandBatches(c: Command): nat {
    if c.Ingest? then 1 else 0
  }

  function OutstandingBatches(s: State): nat {
    Sum(s.submitters, SubmitterBatches) + Sum(s.queue, CommandBatches)
    + (if s.writer.Holding? || s.writer.HoldingBatch? then 1 else 0)
  }

  lemma {:induction false} BatchesBoundedByThreads(s: seq<Submitter>)
    ensures Sum(s, SubmitterBatches) <= |s|
  {
    if s != [] { BatchesBoundedByThreads(s[1..]); }
  }

  lemma {:induction false} BatchesBoundedByQueue(s: seq<Command>)
    ensures Sum(s, CommandBatches) <= |s|
  {
    if s != [] { BatchesBoundedByQueue(s[1..]); }
  }

  /** The machine has room to count its own threads and queue slots. */
  ghost predicate Sized(s: State) {
    s.byteCapacity < WORD && |s.submitters| + s.batchCapacity + 1 < WORD && |s.queue| <= s.batchCapacity
  }

  ghost predicate Accounted(s: State) {
    && Sized(s)
    && s.queuedBytes == OutstandingBytes(s) <= s.byteCapacity
    && s.queuedBatches == OutstandingBatches(s)
  }

  lemma SubmitterMoves(s: State, t: nat, p: Submitter)
    requires t < |s.submitters|
    ensures Sum(s.submitters[t := p], SubmitterBytes) + SubmitterBytes(s.submitters[t])
         == Sum(s.submitters, SubmitterBytes) + SubmitterBytes(p)
    ensures Sum(s.submitters[t := p], SubmitterBatches) + SubmitterBatches(s.submitters[t])
         == Sum(s.submitters, SubmitterBatches) + SubmitterBatches(p)
    ensures SubmitterBytes(s.submitters[t]) <= Sum(s.submitters, SubmitterBytes)
    ensures SubmitterBatches(s.submitters[t]) <= Sum(s.submitters, SubmitterBatches)
  {
    SumUpdate(s.submitters, t, p, SubmitterBytes);
    SumUpdate(s.submitters, t, p, SubmitterBatches);
  }

  lemma ReservingKeepsAccounts(s: State, a: Action)
    requires Accounted(s)
    requires a.Load? || a.CompareExchange?
    ensures Accounted(Next(s, a))
  {
    var s' := Next(s, a);
    if s' != s {
      SubmitterMoves(s, a.t, s'.submitters[a.t]);
    }
  }

  lemma CountingKeepsAccounts(s: State, t: nat)
    requires Accounted(s)
    ensures Accounted(Next(s, CountBatch(t)))
  {
    var s' := Next(s, CountBatch(t));
    if s' != s {
      SubmitterMoves(s, t, s'.submitters[t]);
      BatchesBoundedByThreads(s'.submitters);
      BatchesBoundedByQueue(s.queue);
    }
  }

  lemma SendingKeepsAccounts(s: State, a: Action)
    requires Accounted(s)
    requires a.TrySend? || a.EnqueueOther?
    ensures Accounted(Next(s, a))
  {
    var s' := Next(s, a);
    if s' != s {
      if a.TrySend? {
        SubmitterMoves(s, a.t, s'.submitters[a.t]);
      }
      if |s'.queue| > |s.queue| {
        var command := s'.queue[|s.queue|];
        SumAppend(s.queue, command, CommandBytes);
        SumAppend(s.queue, command, CommandBatches);
      }
    }
  }

  lemma RollingBackKeepsAccounts(s: State, a: Action)
    requires Accounted(s)
    requires a.ReturnBytes? || a.ReturnBatch?
    ensures Accounted(Next(s, a))
  {
    var s' := Next(s, a);
    if s' != s {
      SubmitterMoves(s, a.t, s'.submitters[a.t]);
      BatchesBoundedByThreads(s.submitters);
      BatchesBoundedByQueue(s.queue);
    }
  }

  lemma WritingKeepsAccounts(s: State, a: Action)
    requires Accounted(s)
    requires a.WriterTakes? || a.WriterReturnsBytes? || a.WriterReturnsBatch? || a.WriterStops?
    ensures Accounted(Next(s, a))
  {
    BatchesBoundedByThreads(s.submitters);
    BatchesBoundedByQueue(s.queue);
  }

  lemma StepKeepsAccounts(s: State, a: Action)
    requires Accounted(s)
    ensures Accounted(Next(s, a))
  {
    match a
    case Load(_, _) | CompareExchange(_, _) => ReservingKeepsAccounts(s, a);
    case CountBatch(t) => CountingKeepsAccounts(s, t);
    case TrySend(_) | EnqueueOther => SendingKeepsAccounts(s, a);
    case ReturnBytes(_) | ReturnBatch(_) => RollingBackKeepsAccounts(s, a);
    case WriterTakes | WriterReturnsBytes | WriterReturnsBatch | WriterStops => WritingKeepsAccounts(s, a);
  }

  lemma {:induction false} NothingOutstanding(n: nat)
    ensures Sum(seq(n, _ => Resting), SubmitterBytes) == 0
    ensures Sum(seq(n, _ => Resting), SubmitterBatches) == 0
  {
    if n > 0 {
      assert seq(n, _ => Resting)[1..] == seq(n - 1, _ => Resting);
      NothingOutstanding(n - 1);
    }
  }

  /**
   In every run, for any number of submitters, `queued_bytes` is exactly the bytes reserved and not
   yet released, it never exceeds the capacity, and `queued_batches` is exactly the batches counted
   and not yet released.
   */
  lemma {:induction false} EveryRunIsAccounted(byteCapacity: nat, batchCapacity: nat, n: nat, actions: seq<Action>)
    requires byteCapacity < WORD && n + batchCapacity + 1 < WORD
    ensures Accounted(After(Next, Initial(byteCapacity, batchCapacity, n), actions))
    decreases |actions|
  {
    if actions == [] {
      NothingOutstanding(n);
    } else {
      EveryRunIsAccounted(byteCapacity, batchCapacity, n, actions[..|actions| - 1]);
      StepKeepsAccounts(After(Next, Initial(byteCapacity, batchCapacity, n), actions[..|actions| - 1]),
                        actions[|actions| - 1]);
    }
  }

  /** Whenever bytes or a batch are about to be given back, the counter is large enough: neither wraps. */
  lemma NoCounterUnderflows(byteCapacity: nat, batchCapacity: nat, n: nat, actions: seq<Action>)
    requires byteCapacity < WORD && n + batchCapacity + 1 < WORD
    ensures var s := After(Next, Initial(byteCapacity, batchCapacity, n), actions);
      && (forall t: nat :: t < |s.submitters| && s.submitters[t].Refused?
            ==> s.submitters[t].bytes <= s.queuedBytes && 1 <= s.queuedBatches)
      && (forall t: nat :: t < |s.submitters| && s.submitters[t].BytesReturned? ==> 1 <= s.queuedBatches)
      && (s.writer.Holding? ==> s.writer.bytes <= s.queuedBytes && 1 <= s.queuedBatches)
      && (s.writer.HoldingBatch? ==> 1 <= s.queuedBatches)
  {
    var s := After(Next, Initial(byteCapacity, batchCapacity, n), actions);
    EveryRunIsAccounted(byteCapacity, batchCapacity, n, actions);
    forall t: nat | t < |s.submitters|
      ensures SubmitterBytes(s.submitters[t]) <= s.queuedBytes
      ensures SubmitterBatches(s.submitters[t]) <= s.queuedBatches
    {
      SubmitterMoves(s, t, s.submitters[t]);
    }
  }

  /** Nothing is lost: once every submitter rests, the queue is drained and the writer waits, both counters are zero. */
  lemma {:induction false} QuietMeansZero(s: State)
    requires Accounted(s)
    requires forall t: nat :: t < |s.submitters| ==> s.submitters[t].Resting? || s.submitters[t].Loaded?
    requires forall k: nat :: k < |s.queue| ==> s.queue[k].Other?
    requires s.writer.Waiting? || s.writer.Stopped?
    ensures s.queuedBytes == 0 && s.queuedBatches == 0
  {
    AllZero(s.submitters, SubmitterBytes);
    AllZero(s.submitters, SubmitterBatches);
    AllZero(s.queue, CommandBytes);
    AllZero(s.queue, CommandBatches);
  }

  lemma {:induction false} AllZero<T>(s: seq<T>, f: T -> nat)
    requires forall k: nat :: k < |s| ==> f(s[k]) == 0
    ensures Sum(s, f) == 0
  {
    if s != [] { AllZero(s[1..], f); }
  }

  /** What the writer does next with what is queued. */
  function WriterAction(s: State): Action {
    match s.writer
    case Waiting => WriterTakes
    case Holding(_) => WriterReturnsBytes
    case HoldingBatch => WriterReturnsBatch
    case Stopped => WriterStops
  }

  function WriterLeft(s: State): nat {
    3 * |s.queue| + match s.writer case Holding(_) => 2 case HoldingBatch => 1 case _ => 0
  }

  /** Steps of the writer alone after which nothing is queued, and only what submitters hold is counted. */
  ghost predicate WriterEmpties(s: State, actions: seq<Action>) {
    var s' := After(Next, s, actions);
    && (forall a :: a in actions ==> a.WriterTakes? || a.WriterReturnsBytes? || a.WriterReturnsBatch?)
    && s'.queue == [] && s'.writer.Waiting? && s'.submitters == s.submitters && Accounted(s')
    && s'.queuedBytes == Sum(s.submitters, SubmitterBytes)
    && s'.queuedBatches == Sum(s.submitters, SubmitterBatches)
  }

  /**
   From every accounted state whose writer runs, its own steps empty the queue; what is then outstanding is
   what submitters hold, so with all of them resting both counters are back at zero.
   */
  lemma {:induction false} EverythingQueuedCanBeWritten(s: State)
    requires Accounted(s) && !s.writer.Stopped?
    ensures exists actions :: WriterEmpties(s, actions)
    decreases WriterLeft(s)
  {
    if s.queue == [] && s.writer.Waiting? {
      assert WriterEmpties(s, []);
      return;
    }
    var a := WriterAction(s);
    StepKeepsAccounts(s, a);
    assert WriterLeft(Next(s, a)) < WriterLeft(s);
    assert !Next(s, a).writer.Stopped? && Next(s, a).submitters == s.submitters;
    hide Next, Accounted, WriterLeft;
    EverythingQueuedCanBeWritten(Next(s, a));
    var rest :| WriterEmpties(Next(s, a), rest);
    AfterConcat(Next, s, [a], rest);
    AfterOne(Next, s, a);
    assert WriterEmpties(s, [a] + rest);
  }

  /**
   A reservation is given up only when the value last seen leaves no room for the bytes, and succeeds only
   by adding them to the value it saw; a swap that fails, spuriously or not, has it try again with the
   value it finds.
   */
  lemma ReservationEnds(s: State, a: Action, t: nat)
    requires t < |s.submitters| && s.submitters[t].Loaded?
    ensures var p, p' := s.submitters[t], Next(s, a).submitters[t];
      && (p'.Resting? ==> s.byteCapacity < p.current + p.bytes || WORD <= p.current + p.bytes)
      && (p'.Reserved? ==> p'.bytes == p.bytes && Next(s, a).queuedBytes == s.queuedBytes + p.bytes <= s.byteCapacity)
      && (a.CompareExchange? && a.t == t && p'.Loaded? ==> p' == Loaded(p.bytes, s.queuedBytes))
      && (p'.Resting? || p'.Reserved? || p'.Loaded?)
      && (a == CompareExchange(t, false) && p.current == s.queuedBytes ==> !p'.Loaded?)
  {
  }

  function Retries(t: nat, failures: nat): (actions: seq<Action>)
    ensures |actions| == failures
  {
    if failures == 0 then [] else Retries(t, failures - 1) + [CompareExchange(t, true)]
  }

  /**
   One call of `submit_blocking` that no other thread interrupts, without and with the roll-back; its swap
   fails spuriously any number of times.
   */
  function SubmitAlone(t: nat, bytes: nat, failures: nat): seq<Action> {
    [Load(t, bytes)] + Retries(t, failures) + [CompareExchange(t, false), CountBatch(t), TrySend(t)]
  }

  function SubmitAndRollBack(t: nat, bytes: nat, failures: nat): seq<Action> {
    SubmitAlone(t, bytes, failures) + [ReturnBytes(t), ReturnBatch(t)]
  }

  lemma {:induction false} RetriesChangeNothing(s: State, t: nat, failures: nat)
    requires Next(s, CompareExchange(t, true)) == s
    ensures After(Next, s, Retries(t, failures)) == s
  {
    if failures > 0 {
      RetriesChangeNothing(s, t, failures - 1);
      assert Retries(t, failures)[..failures - 1] == Retries(t, failures - 1);
    }
  }

  lemma AfterSubmitAlone(s: State, t: nat, bytes: nat, failures: nat)
    ensures After(Next, s, SubmitAlone(t, bytes, failures)) ==
      var tried := After(Next, Next(s, Load(t, bytes)), Retries(t, failures));
      Next(Next(Next(tried, CompareExchange(t, false)), CountBatch(t)), TrySend(t))
  {
    hide Next;
    var last := [CompareExchange(t, false), CountBatch(t), TrySend(t)];
    AfterConcat(Next, s, [Load(t, bytes)] + Retries(t, failures), last);
    AfterConcat(Next, s, [Load(t, bytes)], Retries(t, failures));
    AfterOne(Next, s, Load(t, bytes));
    var tried := After(Next, Next(s, Load(t, bytes)), Retries(t, failures));
    AfterThree(Next, tried, CompareExchange(t, false), CountBatch(t), TrySend(t));
  }

  lemma FailedSwapTriesAgain(s: State, t: nat, bytes: nat)
    requires Accounted(s) && t < |s.submitters| && s.submitters[t] == Resting
    requires s.queuedBytes + bytes <= s.byteCapacity
    ensures Next(Next(s, Load(t, bytes)), CompareExchange(t, true)) == Next(s, Load(t, bytes))
  {
    var loaded := s.submitters[t := Loaded(bytes, s.queuedBytes)];
    assert loaded[t := Loaded(bytes, s.queuedBytes)] == loaded;
  }

  lemma SwapReservesAndCounts(s: State, t: nat, bytes: nat)
    requires Accounted(s) && t < |s.submitters| && s.submitters[t] == Resting
    requires s.queuedBytes + bytes <= s.byteCapacity
    ensures Next(Next(Next(s, Load(t, bytes)), CompareExchange(t, false)), CountBatch(t))
         == s.(queuedBytes := s.queuedBytes + bytes, queuedBatches := s.queuedBatches + 1,
               submitters := s.submitters[t := Counted(bytes)])
  {
    SubmitterMoves(s, t, Counted(bytes));
    BatchesBoundedByThreads(s.submitters[t := Counted(bytes)]);
    BatchesBoundedByQueue(s.queue);
    var s1 := Next(s, Load(t, bytes));
    assert s1 == s.(submitters := s.submitters[t := Loaded(bytes, s.queuedBytes)]);
    var s2 := Next(s1, CompareExchange(t, false));
    assert s2 == s.(queuedBytes := s.queuedBytes + bytes, submitters := s.submitters[t := Reserved(bytes)]);
  }

  /** Reserving and counting a submission that fits. */
  lemma ReservedAndCounted(s: State, t: nat, bytes: nat, failures: nat)
    requires Accounted(s) && t < |s.submitters| && s.submitters[t] == Resting
    requires s.queuedBytes + bytes <= s.byteCapacity
    ensures var tried := After(Next, Next(s, Load(t, bytes)), Retries(t, failures));
      Next(Next(tried, CompareExchange(t, false)), CountBatch(t))
         == s.(queuedBytes := s.queuedBytes + bytes, queuedBatches := s.queuedBatches + 1,
               submitters := s.submitters[t := Counted(bytes)])
  {
    hide Next, Accounted;
    FailedSwapTriesAgain(s, t, bytes);
    RetriesChangeNothing(Next(s, Load(t, bytes)), t, failures);
    SwapReservesAndCounts(s, t, bytes);
  }

  /** A submission that fits the byte and the batch capacity is enqueued and accounted. */
  lemma FittingSubmissionIsAdmitted(s: State, t: nat, bytes: nat, failures: nat)
    requires Accounted(s) && t < |s.submitters| && s.submitters[t] == Resting
    requires s.queuedBytes + bytes <= s.byteCapacity && !s.writer.Stopped? && |s.queue| < s.batchCapacity
    ensures After(Next, s, SubmitAlone(t, bytes, failures))
         == s.(queue := s.queue + [Ingest(bytes)], queuedBytes := s.queuedBytes + bytes,
               queuedBatches := s.queuedBatches + 1)
  {
    hide Accounted, CompareExchangeStep;
    var counted := s.(queuedBytes := s.queuedBytes + bytes, queuedBatches := s.queuedBatches + 1,
                      submitters := s.submitters[t := Counted(bytes)]);
    calc {
      After(Next, s, SubmitAlone(t, bytes, failures));
    == { AfterSubmitAlone(s, t, bytes, failures); ReservedAndCounted(s, t, bytes, failures); }
      Next(counted, TrySend(t));
    == { assert s.submitters[t := Counted(bytes)][t := Resting] == s.submitters; }
      s.(queue := s.queue + [Ingest(bytes)], queuedBytes := s.queuedBytes + bytes,
         queuedBatches := s.queuedBatches + 1);
    }
  }

  /** Rolling back after the queue refused. */
  lemma RolledBack(s: State, t: nat, bytes: nat)
    requires Accounted(s) && t < |s.submitters| && s.submitters[t] == Resting
    ensures Next(Next(RefusedState(s, t, bytes), ReturnBytes(t)), ReturnBatch(t)) == s
  {
    BatchesBoundedByThreads(s.submitters);
    BatchesBoundedByQueue(s.queue);
    assert s.submitters[t := Refused(bytes)][t := BytesReturned][t := Resting] == s.submitters;
  }

  lemma {:induction false} TooManyBytesChangeNothing(s: State, t: nat, bytes: nat, failures: nat)
    requires Accounted(s) && t < |s.submitters| && s.submitters[t] == Resting
    requires s.queuedBytes + bytes > s.byteCapacity
    ensures var tried := After(Next, Next(s, Load(t, bytes)), Retries(t, failures));
      (failures == 0 || tried == s) && Next(tried, CompareExchange(t, false)) == s
  {
    if failures > 0 {
      TooManyBytesChangeNothing(s, t, bytes, failures - 1);
      assert Retries(t, failures)[..failures - 1] == Retries(t, failures - 1);
    }
  }

  lemma AfterSubmitAndRollBack(s: State, t: nat, bytes: nat, failures: nat)
    ensures After(Next, s, SubmitAndRollBack(t, bytes, failures))
         == Next(Next(After(Next, s, SubmitAlone(t, bytes, failures)), ReturnBytes(t)), ReturnBatch(t))
  {
    AfterConcat(Next, s, SubmitAlone(t, bytes, failures), [ReturnBytes(t), ReturnBatch(t)]);
    AfterTwo(Next, After(Next, s, SubmitAlone(t, bytes, failures)), ReturnBytes(t), ReturnBatch(t));
  }

  /** A submission over the byte capacity is turned away in the loop, without a trace. */
  lemma OversizedSubmissionLeavesNoTrace(s: State, t: nat, bytes: nat, failures: nat)
    requires Accounted(s) && t < |s.submitters| && s.submitters[t] == Resting
    requires s.queuedBytes + bytes > s.byteCapacity
    ensures After(Next, s, SubmitAlone(t, bytes, failures)) == s
  {
    AfterSubmitAlone(s, t, bytes, failures);
    TooManyBytesChangeNothing(s, t, bytes, failures);
  }

  function RefusedState(s: State, t: nat, bytes: nat): State
    requires t < |s.submitters|
  {
    s.(queuedBytes := s.queuedBytes + bytes, queuedBatches := s.queuedBatches + 1,
       submitters := s.submitters[t := Refused(bytes)])
  }

  lemma SubmissionIsRefused(s: State, t: nat, bytes: nat, failures: nat)
    requires Accounted(s) && t < |s.submitters| && s.submitters[t] == Resting
    requires s.queuedBytes + bytes <= s.byteCapacity
    requires s.writer.Stopped? || |s.queue| == s.batchCapacity
    ensures After(Next, s, SubmitAlone(t, bytes, failures)) == RefusedState(s, t, bytes)
  {
    hide Accounted, CompareExchangeStep;
    AfterSubmitAlone(s, t, bytes, failures);
    ReservedAndCounted(s, t, bytes, failures);
    assert s.submitters[t := Counted(bytes)][t := Refused(bytes)] == s.submitters[t := Refused(bytes)];
  }

  /** A submission that fits but that the queue refuses is rolled back, without a trace. */
  lemma RefusedSubmissionLeavesNoTrace(s: State, t: nat, bytes: nat, failures: nat)
    requires Accounted(s) && t < |s.submitters| && s.submitters[t] == Resting
    requires s.queuedBytes + bytes <= s.byteCapacity
    requires s.writer.Stopped? || |s.queue| == s.batchCapacity
    ensures After(Next, s, SubmitAndRollBack(t, bytes, failures)) == s
  {
    calc {
      After(Next, s, SubmitAndRollBack(t, bytes, failures));
    == { AfterSubmitAndRollBack(s, t, bytes, failures); }
      Next(Next(After(Next, s, SubmitAlone(t, bytes, failures)), ReturnBytes(t)), ReturnBatch(t));
    == { SubmissionIsRefused(s, t, bytes, failures); }
      Next(Next(RefusedState(s, t, bytes), ReturnBytes(t)), ReturnBatch(t));
    == { RolledBack(s, t, bytes); }
      s;
    }
  }
}
