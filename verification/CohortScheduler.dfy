/**
 The feature-cohort scheduler: any number of submitters push jobs into a bounded queue and fall back
 to a rebuild-everything flag when it is full; one worker drains the queue, collects dirty projects
 and refreshes them when the queue has been quiet.

 Every action is one atomic operation and a run is any sequence of actions.  Timers only delay steps,
 so debounce and retry deadlines are left to the choice of the next action.  Counters wrap around like
 a 64-bit `usize`.  What the machine owes is recorded beside it, from what can be seen of its steps.
 */
module CohortScheduler {
  import opened MachineWords
  import opened Options
  import opened Runs
  import opened SeqSums

  type Project = string

  datatype Job = Assignment(trace: string) | Rebuild(project: Option<Project>)

  /** Where one call of `CohortControlHandle::submit` stands. */
  datatype Submitter =
    | Resting
    | Counted(job: Job)          // the counter was raised, `try_send` comes next
    | Overflowed(job: Job)       // the queue was full: the counter goes back next
    | Refused(job: Job)          // the worker is gone: the counter goes back next and the call fails
    | Flagging(job: Job)         // the rebuild-everything flag is raised next

  datatype Worker =
    | LoopTop
    | ReadingAll                 // took the flag, reads the active projects next
    | Receiving
    | GotRebuild(project: Option<Project>)     // holds a job, its counter goes down next
    | ReadingFor(project: Option<Project>)     // reads the active projects for it next
    | GotAssignment(trace: string)
    | Assigning(trace: string)
    | Refreshing(pending: set<Project>, current: Option<Project>, failed: bool)
    | Stopped

  /** `active` is fixed: the projects that have active findings throughout the run. */
  datatype State = State(
    active: set<Project>,
    queueCapacity: nat,
    queue: seq<Job>,
    queuedAssignments: nat,
    queuedRebuilds: nat,
    rebuildAll: bool,
    submitters: seq<Submitter>,
    worker: Worker,
    dirty: set<Project>)

  datatype AssignmentOutcome = MarkDirty(project: Project) | NothingToDo | StoreFailed

  datatype RefreshOutcome = NotSettled | Failed | Succeeded

  datatype Action =
    | RaiseCounter(t: nat, job: Job)
    | TrySend(t: nat)
    | LowerCounter(t: nat)
    | RaiseFlag(t: nat)
    | TakeFlag
    | ReadProjects(read: Option<set<Project>>)   // None: the store read failed
    | Receive
    | LowerForJob
    | Assign(found: AssignmentOutcome)
    | StartRefreshing
    | BeginRefresh(project: Project)
    | EndRefresh(outcome: RefreshOutcome)
    | FinishRefreshing
    | TimeOut
    | Stop

  function Initial(active: set<Project>, queueCapacity: nat, submitters: nat): State {
    State(active, queueCapacity, [], 0, 0, false, seq(submitters, _ => Resting), LoopTop, {})
  }

  function SetSubmitter(s: State, t: nat, p: Submitter): State
    requires t < |s.submitters|
  {
    s.(submitters := s.submitters[t := p])
  }

  function Next(s: State, a: Action): State {
    match a
    case RaiseCounter(t, job) =>
      if t < |s.submitters| && s.submitters[t].Resting? then
        var s1 := SetSubmitter(s, t, Counted(job));
        if job.Assignment? then s1.(queuedAssignments := WrappingAdd(s.queuedAssignments, 1))
        else s1.(queuedRebuilds := WrappingAdd(s.queuedRebuilds, 1))
      else s
    case TrySend(t) =>
      if t < |s.submitters| && s.submitters[t].Counted? then
        var job := s.submitters[t].job;
        if s.worker.Stopped? then SetSubmitter(s, t, Refused(job))
        else if |s.queue| < s.queueCapacity then
          SetSubmitter(s, t, Resting).(queue := s.queue + [job])
        else SetSubmitter(s, t, Overflowed(job))
      else s
    case LowerCounter(t) =>
      if t < |s.submitters| && (s.submitters[t].Overflowed? || s.submitters[t].Refused?) then
        var job := s.submitters[t].job;
        var s1 := SetSubmitter(s, t, if s.submitters[t].Overflowed? then Flagging(job) else Resting);
        if job.Assignment? then s1.(queuedAssignments := WrappingSub(s.queuedAssignments, 1))
        else s1.(queuedRebuilds := WrappingSub(s.queuedRebuilds, 1))
      else s
    case RaiseFlag(t) =>
      if t < |s.submitters| && s.submitters[t].Flagging? then
        SetSubmitter(s, t, Resting).(rebuildAll := true)
      else s
    case TakeFlag =>
      if s.worker.LoopTop? then
        s.(rebuildAll := false, worker := if s.rebuildAll then ReadingAll else Receiving)
      else s
    case ReadProjects(read) =>
      if s.worker.ReadingAll? then
        s.(dirty := if read.Some? then s.dirty + read.value else s.dirty, worker := Receiving)
      else if s.worker.ReadingFor? then
        var named := if s.worker.project.Some? then {s.worker.project.value}
                     else if read.Some? then read.value else {};
        s.(dirty := s.dirty + named, worker := LoopTop)
      else s
    case Receive =>
      if s.worker.Receiving? && s.queue != [] then
        s.(queue := s.queue[1..],
           worker := match s.queue[0]
                     case Assignment(trace) => GotAssignment(trace)
                     case Rebuild(project) => GotRebuild(project))
      else s
    case LowerForJob =>
      if s.worker.GotRebuild? then
        s.(queuedRebuilds := WrappingSub(s.queuedRebuilds, 1), worker := ReadingFor(s.worker.project))
      else if s.worker.GotAssignment? then
        s.(queuedAssignments := WrappingSub(s.queuedAssignments, 1), worker := Assigning(s.worker.trace))
      else s
    case Assign(found) =>
      if s.worker.Assigning? then
        match found
        case MarkDirty(p) => s.(dirty := s.dirty + {p}, worker := LoopTop)
        case NothingToDo => s.(worker := LoopTop)
        case StoreFailed => s.(rebuildAll := true, worker := LoopTop)
      else s
    case StartRefreshing =>
      if s.worker.Receiving? && s.queue == [] && s.dirty != {} then
        s.(dirty := {}, worker := Refreshing(s.dirty, None, false))
      else s
    case BeginRefresh(p) =>
      if s.worker.Refreshing? && s.worker.current.None? && p in s.worker.pending then
        s.(worker := s.worker.(pending := s.worker.pending - {p}, current := Some(p)))
      else s
    case EndRefresh(outcome) =>
      if s.worker.Refreshing? && s.worker.current.Some? then
        var p := s.worker.current.value;
        var idle := s.worker.(current := None);
        match outcome
        case NotSettled => s.(dirty := s.dirty + {p}, worker := idle)
        case Failed => s.(dirty := s.dirty + {p}, worker := idle.(failed := true))
        case Succeeded => s.(worker := idle)
      else s
    case FinishRefreshing =>
      if s.worker.Refreshing? && s.worker.current.None? && s.worker.pending == {} then
        s.(worker := LoopTop)
      else s
    case TimeOut =>
      if s.worker.Receiving? && s.queue == [] then s.(worker := LoopTop) else s
    case Stop =>
      if s.worker.LoopTop? then s.(worker := Stopped) else s
  }

  // --------------------------------------------------------------- counters

  function SubmitterAssignments(p: Submitter): nat {
    if (p.Counted? || p.Overflowed? || p.Refused?) && p.job.Assignment? then 1 else 0
  }

  function SubmitterRebuilds(p: Submitter): nat {
    if (p.Counted? || p.Overflowed? || p.Refused?) && p.job.Rebuild? then 1 else 0
  }

  function JobAssignments(j: Job): nat { if j.Assignment? then 1 else 0 }
  function JobRebuilds(j: Job): nat { if j.Rebuild? then 1 else 0 }

  /** Jobs in the queue plus jobs in hand, of either kind. */
  function PendingAssignments(s: State): nat {
    Sum(s.queue, JobAssignments) + Sum(s.submitters, SubmitterAssignments)
    + (if s.worker.GotAssignment? then 1 else 0)
  }

  function PendingRebuilds(s: State): nat {
    Sum(s.queue, JobRebuilds) + Sum(s.submitters, SubmitterRebuilds)
    + (if s.worker.GotRebuild? then 1 else 0)
  }

  ghost predicate CountersExact(s: State) {
    && |s.queue| <= s.queueCapacity && s.queueCapacity + |s.submitters| + 1 < WORD
    && s.queuedAssignments == PendingAssignments(s)
    && s.queuedRebuilds == PendingRebuilds(s)
  }

  lemma {:induction false} SumBoundedByLength<T>(s: seq<T>, f: T -> nat)
    requires forall x: T :: f(x) <= 1
    ensures Sum(s, f) <= |s|
  {
    if s != [] { SumBoundedByLength(s[1..], f); }
  }

  lemma PendingFitsAWord(s: State)
    requires |s.queue| <= s.queueCapacity && s.queueCapacity + |s.submitters| + 1 < WORD
    ensures PendingAssignments(s) < WORD && PendingRebuilds(s) < WORD
  {
    SumBoundedByLength(s.queue, JobAssignments);
    SumBoundedByLength(s.queue, JobRebuilds);
    SumBoundedByLength(s.submitters, SubmitterAssignments);
    SumBoundedByLength(s.submitters, SubmitterRebuilds);
  }

  lemma SubmitterMoves(s: State, t: nat, p: Submitter)
    requires t < |s.submitters|
    ensures Sum(s.submitters[t := p], SubmitterAssignments) + SubmitterAssignments(s.submitters[t])
         == Sum(s.submitters, SubmitterAssignments) + SubmitterAssignments(p)
    ensures Sum(s.submitters[t := p], SubmitterRebuilds) + SubmitterRebuilds(s.submitters[t])
         == Sum(s.submitters, SubmitterRebuilds) + SubmitterRebuilds(p)
  {
    SumUpdate(s.submitters, t, p, SubmitterAssignments);
    SumUpdate(s.submitters, t, p, SubmitterRebuilds);
  }

  lemma RaisingKeepsCounters(s: State, t: nat, job: Job)
    requires CountersExact(s)
    ensures CountersExact(Next(s, RaiseCounter(t, job)))
  {
    var s' := Next(s, RaiseCounter(t, job));
    if s' != s {
      SubmitterMoves(s, t, s'.submitters[t]);
      PendingFitsAWord(s');
    }
  }

  lemma LoweringKeepsCounters(s: State, t: nat)
    requires CountersExact(s)
    ensures CountersExact(Next(s, LowerCounter(t)))
  {
    var s' := Next(s, LowerCounter(t));
    if s' != s {
      var p := s'.submitters[t];
      SubmitterMoves(s, t, p);
      PendingFitsAWord(s);
      assert SubmitterAssignments(p) == SubmitterRebuilds(p) == 0;
      if s.submitters[t].job.Assignment? {
        assert s'.queuedAssignments == s.queuedAssignments - 1;
      } else {
        assert s'.queuedRebuilds == s.queuedRebuilds - 1;
      }
    }
  }

  lemma SendingKeepsCounters(s: State, t: nat)
    requires CountersExact(s)
    ensures CountersExact(Next(s, TrySend(t)))
  {
    if t < |s.submitters| && s.submitters[t].Counted? {
      var job := s.submitters[t].job;
      if s.worker.Stopped? {
        SubmitterMoves(s, t, Refused(job));
      } else if |s.queue| < s.queueCapacity {
        SubmitterMoves(s, t, Resting);
        SumAppend(s.queue, job, JobAssignments);
        SumAppend(s.queue, job, JobRebuilds);
      } else {
        SubmitterMoves(s, t, Overflowed(job));
      }
    }
  }

  lemma FlaggingKeepsCounters(s: State, t: nat)
    requires CountersExact(s)
    ensures CountersExact(Next(s, RaiseFlag(t)))
  {
    var s' := Next(s, RaiseFlag(t));
    if s' != s {
      SubmitterMoves(s, t, Resting);
    }
  }

  lemma WorkerStepKeepsCounters(s: State, a: Action)
    requires CountersExact(s)
    requires !(a.RaiseCounter? || a.TrySend? || a.LowerCounter? || a.RaiseFlag?)
    ensures CountersExact(Next(s, a))
  {
    PendingFitsAWord(s);
  }

  lemma {:induction false} NothingPending(n: nat)
    ensures Sum(seq(n, _ => Resting), SubmitterAssignments) == 0
    ensures Sum(seq(n, _ => Resting), SubmitterRebuilds) == 0
  {
    if n > 0 {
      assert seq(n, _ => Resting)[1..] == seq(n - 1, _ => Resting);
      NothingPending(n - 1);
    }
  }

  /** In every run each counter is exactly the jobs of its kind in the queue plus those in hand. */
  lemma {:induction false} EveryRunCountsExactly(active: set<Project>, queueCapacity: nat, n: nat, actions: seq<Action>)
    requires queueCapacity + n + 1 < WORD
    ensures CountersExact(After(Next, Initial(active, queueCapacity, n), actions))
    decreases |actions|
  {
    if actions == [] {
      NothingPending(n);
    } else {
      var before := After(Next, Initial(active, queueCapacity, n), actions[..|actions| - 1]);
      var a := actions[|actions| - 1];
      EveryRunCountsExactly(active, queueCapacity, n, actions[..|actions| - 1]);
      if a.RaiseCounter? {
        RaisingKeepsCounters(before, a.t, a.job);
      } else if a.TrySend? {
        SendingKeepsCounters(before, a.t);
      } else if a.LowerCounter? {
        LoweringKeepsCounters(before, a.t);
      } else if a.RaiseFlag? {
        FlaggingKeepsCounters(before, a.t);
      } else {
        WorkerStepKeepsCounters(before, a);
      }
    }
  }

  /** Whenever a counter is about to be lowered it is positive, so it never wraps below zero. */
  lemma NoCounterUnderflows(active: set<Project>, queueCapacity: nat, n: nat, actions: seq<Action>)
    requires queueCapacity + n + 1 < WORD
    ensures var s := After(Next, Initial(active, queueCapacity, n), actions);
      && (s.worker.GotRebuild? ==> s.queuedRebuilds > 0)
      && (s.worker.GotAssignment? ==> s.queuedAssignments > 0)
      && (forall t: nat :: t < |s.submitters| && (s.submitters[t].Overflowed? || s.submitters[t].Refused?) ==>
            if s.submitters[t].job.Assignment? then s.queuedAssignments > 0 else s.queuedRebuilds > 0)
  {
    EveryRunCountsExactly(active, queueCapacity, n, actions);
    var s := After(Next, Initial(active, queueCapacity, n), actions);
    forall t: nat | t < |s.submitters|
      ensures SubmitterAssignments(s.submitters[t]) <= s.queuedAssignments
      ensures SubmitterRebuilds(s.submitters[t]) <= s.queuedRebuilds
    {
      SubmitterMoves(s, t, Resting);
    }
  }

  /**
   One call of `submit` without interruption: with room the job is queued and counted, a full queue raises
   the flag instead, and a call after the worker is gone leaves no trace.
   */
  lemma UninterruptedSubmission(s: State, t: nat, job: Job)
    requires t < |s.submitters| && s.submitters[t].Resting?
    requires s.queuedAssignments < WORD - 1 && s.queuedRebuilds < WORD - 1
    ensures After(Next, s, [RaiseCounter(t, job), TrySend(t), LowerCounter(t), RaiseFlag(t)]) ==
      if s.worker.Stopped? then s
      else if s.queueCapacity <= |s.queue| then s.(rebuildAll := true)
      else if job.Assignment? then s.(queue := s.queue + [job], queuedAssignments := s.queuedAssignments + 1)
      else s.(queue := s.queue + [job], queuedRebuilds := s.queuedRebuilds + 1)
  {
    hide Next;
    AfterFour(Next, s, RaiseCounter(t, job), TrySend(t), LowerCounter(t), RaiseFlag(t));
    CountedIsTried(s, t, job);
    if s.worker.Stopped? {
      RestingDoesNothing(s, t);
      TriedIsLowered(s, t, job, Refused(job));
    } else if s.queueCapacity <= |s.queue| {
      TriedIsLowered(s, t, job, Overflowed(job));
      LoweredIsFlagged(s, t, job);
    } else {
      RestingDoesNothing(Counting(s, t, job, Resting).(queue := s.queue + [job]), t);
      assert s.submitters[t := Resting] == s.submitters;
    }
  }

  /** The counter is raised for a call that stands at `p`. */
  function Counting(s: State, t: nat, job: Job, p: Submitter): State
    requires t < |s.submitters|
  {
    var moved := SetSubmitter(s, t, p);
    if job.Assignment? then moved.(queuedAssignments := s.queuedAssignments + 1)
    else moved.(queuedRebuilds := s.queuedRebuilds + 1)
  }

  lemma MovedTwice(s: State, t: nat, p: Submitter, q: Submitter)
    requires t < |s.submitters|
    ensures s.submitters[t := p][t := q] == s.submitters[t := q]
  {
  }

  lemma CountedIsTried(s: State, t: nat, job: Job)
    requires t < |s.submitters| && s.submitters[t].Resting?
    requires s.queuedAssignments < WORD - 1 && s.queuedRebuilds < WORD - 1
    ensures Next(Next(s, RaiseCounter(t, job)), TrySend(t)) ==
      if s.worker.Stopped? then Counting(s, t, job, Refused(job))
      else if s.queueCapacity <= |s.queue| then Counting(s, t, job, Overflowed(job))
      else Counting(s, t, job, Resting).(queue := s.queue + [job])
  {
    assert Next(s, RaiseCounter(t, job)) == Counting(s, t, job, Counted(job));
    MovedTwice(s, t, Counted(job), Refused(job));
    MovedTwice(s, t, Counted(job), Overflowed(job));
    MovedTwice(s, t, Counted(job), Resting);
  }

  lemma TriedIsLowered(s: State, t: nat, job: Job, p: Submitter)
    requires t < |s.submitters| && s.submitters[t].Resting? && (p == Refused(job) || p == Overflowed(job))
    requires s.queuedAssignments < WORD - 1 && s.queuedRebuilds < WORD - 1
    ensures Next(Counting(s, t, job, p), LowerCounter(t))
      == if p.Refused? then s else SetSubmitter(s, t, Flagging(job))
  {
    MovedTwice(s, t, p, Flagging(job));
    MovedTwice(s, t, p, Resting);
    assert s.submitters[t := Resting] == s.submitters;
  }

  lemma LoweredIsFlagged(s: State, t: nat, job: Job)
    requires t < |s.submitters| && s.submitters[t].Resting?
    ensures Next(SetSubmitter(s, t, Flagging(job)), RaiseFlag(t)) == s.(rebuildAll := true)
  {
    assert s.submitters[t := Flagging(job)][t := Resting] == s.submitters;
  }

  lemma RestingDoesNothing(s: State, t: nat)
    requires t < |s.submitters| && s.submitters[t].Resting?
    ensures Next(s, LowerCounter(t)) == Next(s, RaiseFlag(t)) == s
  {
  }

  // ---------------------------------------------------------------- history

  /**
   What a run owes.  `owed` are the projects with active findings whose rebuild was asked for and that no
   refresh begun since has brought up to date; `named` are the projects that the store named for a trace
   and that no refresh has brought up to date since; `waiting` are the queued traces that no assignment has
   been tried for, in the order of their submission; `renewed` says that the project being refreshed was
   asked for again after its refresh began.
   */
  datatype History = History(
    owed: set<Project>, named: set<Project>, waiting: seq<string>, renewed: bool)

  datatype Recorded = Recorded(machine: State, history: History)

  /** The projects with active findings that a job asks to rebuild. */
  function Requested(job: Job, active: set<Project>): set<Project> {
    match job
    case Assignment(_) => {}
    case Rebuild(None) => active
    case Rebuild(Some(p)) => {p} * active
  }

  /** The call of `submit` that returns success with this step. */
  function AcceptedJob(s: State, a: Action, s': State): Option<Job> {
    if (a.TrySend? || a.RaiseFlag?) && a.t < |s.submitters| && a.t < |s'.submitters|
       && (s.submitters[a.t].Counted? || s.submitters[a.t].Flagging?) && s'.submitters[a.t].Resting?
    then Some(s.submitters[a.t].job)
    else None
  }

  /** What a step newly asks to rebuild: everything, when it fails to assign a trace or finds no room for it. */
  function Asked(s: State, a: Action, s': State): set<Project> {
    if a == Assign(StoreFailed) && s.worker.Assigning? then s.active
    else
      match AcceptedJob(s, a, s')
      case Some(job) => if a.RaiseFlag? && job.Assignment? then s.active else Requested(job, s.active)
      case None => {}
  }

  function WaitingAfter(waiting: seq<string>, s: State, a: Action, s': State): seq<string> {
    if a.Assign? && s.worker.Assigning? then (if waiting == [] then [] else waiting[1..])
    else
      var job := AcceptedJob(s, a, s');
      if a.TrySend? && job.Some? && job.value.Assignment? then waiting + [job.value.trace] else waiting
  }

  function CurrentProject(s: State): Option<Project> {
    if s.worker.Refreshing? then s.worker.current else None
  }

  /** The project whose refresh succeeds with this step. */
  function Refreshed(s: State, a: Action): Option<Project> {
    if a == EndRefresh(Succeeded) then CurrentProject(s) else None
  }

  function Noted(h: History, s: State, a: Action, s': State): History {
    var asked, done := Asked(s, a, s'), Refreshed(s, a);
    History(
      (if done.Some? && !h.renewed then h.owed - {done.value} else h.owed) + asked,
      (if done.Some? then h.named - {done.value} else h.named)
      + (if a.Assign? && s.worker.Assigning? && a.found.MarkDirty? then {a.found.project} else {}),
      WaitingAfter(h.waiting, s, a, s'),
      CurrentProject(s').Some? && CurrentProject(s') == CurrentProject(s)
      && (h.renewed || CurrentProject(s).value in asked))
  }

  function Step(r: Recorded, a: Action): Recorded {
    var s' := Next(r.machine, a);
    Recorded(s', Noted(r.history, r.machine, a, s'))
  }

  function Start(active: set<Project>, queueCapacity: nat, submitters: nat): Recorded {
    Recorded(Initial(active, queueCapacity, submitters), History({}, {}, [], false))
  }

  /** Recording changes nothing about a run. */
  lemma {:induction false} RecordingOnlyWatches(r: Recorded, actions: seq<Action>)
    ensures After(Step, r, actions).machine == After(Next, r.machine, actions)
    decreases |actions|
  {
    if actions != [] {
      RecordingOnlyWatches(r, actions[..|actions| - 1]);
    }
  }

  // ----------------------------------------------------------- no lost work

  /** Somewhere in the machine there is still something that will mark `p` dirty or refresh it. */
  ghost predicate Covered(r: Recorded, p: Project) {
    var s := r.machine;
    || p in s.dirty
    || s.rebuildAll
    || (exists k :: 0 <= k < |s.queue| && Asks(s.queue[k], p))
    || s.worker.ReadingAll?
    || ((s.worker.GotRebuild? || s.worker.ReadingFor?) && (s.worker.project.None? || s.worker.project == Some(p)))
    || (s.worker.Refreshing? && (p in s.worker.pending || (s.worker.current == Some(p) && !r.history.renewed)))
  }

  predicate Asks(job: Job, p: Project) {
    job.Rebuild? && (job.project.None? || job.project == Some(p))
  }

  ghost predicate AllOwedCovered(r: Recorded) {
    && r.history.owed <= r.machine.active
    && (forall p :: p in r.history.owed ==> Covered(r, p))
  }

  /** Every store read in the action succeeds and returns at least the projects with active findings. */
  predicate ReadSucceeds(a: Action, active: set<Project>) {
    a.ReadProjects? ==> a.read.Some? && active <= a.read.value
  }

  lemma CoveredThroughSubmission(r: Recorded, a: Action, p: Project)
    requires a.RaiseCounter? || a.TrySend? || a.LowerCounter? || a.RaiseFlag?
    requires AllOwedCovered(r) && p in Step(r, a).history.owed
    ensures Covered(Step(r, a), p)
  {
    var s, s' := r.machine, Next(r.machine, a);
    if a.TrySend? && |s'.queue| > |s.queue| {
      if p in Requested(s.submitters[a.t].job, s.active) {
        assert Asks(s'.queue[|s.queue|], p);
      } else if exists k :: 0 <= k < |s.queue| && Asks(s.queue[k], p) {
        var k :| 0 <= k < |s.queue| && Asks(s.queue[k], p);
        assert Asks(s'.queue[k], p);
      }
    }
  }

  lemma CoveredThroughReceive(r: Recorded, p: Project)
    requires AllOwedCovered(r) && p in r.history.owed
    ensures Covered(Step(r, Receive), p)
  {
  }

  /** A store read that misses an owed project which nothing else in the machine will mark dirty. */
  ghost predicate Forgets(r: Recorded, a: Action) {
    var s := r.machine;
    && a.ReadProjects? && (s.worker.ReadingAll? || (s.worker.ReadingFor? && s.worker.project.None?))
    && exists p :: p in r.history.owed && (a.read.None? || p !in a.read.value) && !CoveredElsewhere(s, p)
  }

  ghost predicate CoveredElsewhere(s: State, p: Project) {
    p in s.dirty || s.rebuildAll || exists k :: 0 <= k < |s.queue| && Asks(s.queue[k], p)
  }

  lemma ReadingCovers(r: Recorded, a: Action, p: Project)
    requires AllOwedCovered(r) && a.ReadProjects? && p in r.history.owed
    ensures var s := r.machine;
      Covered(Step(r, a), p) || (
        && (s.worker.ReadingAll? || (s.worker.ReadingFor? && s.worker.project.None?))
        && (a.read.None? || p !in a.read.value) && !CoveredElsewhere(s, p))
  {
    assert Covered(r, p);
  }

  lemma WorkerKeepsCovered(r: Recorded, a: Action, p: Project)
    requires a.TakeFlag? || a.LowerForJob? || a.Assign? || a.StartRefreshing? || a.BeginRefresh? || a.EndRefresh?
      || a.FinishRefreshing? || a.TimeOut? || a.Stop?
    requires AllOwedCovered(r) && p in Step(r, a).history.owed
    ensures Covered(Step(r, a), p)
  {
    if p in r.history.owed {
      assert Covered(r, p);
    }
  }

  /** A step loses an accepted request exactly when its store read forgets one. */
  lemma StepLosesOnlyWhatAReadForgets(r: Recorded, a: Action)
    requires AllOwedCovered(r)
    ensures AllOwedCovered(Step(r, a)) <==> !Forgets(r, a)
  {
    var r' := Step(r, a);
    if !Forgets(r, a) {
      forall p | p in r'.history.owed ensures Covered(r', p) {
        match a
        case RaiseCounter(_, _) | TrySend(_) | LowerCounter(_) | RaiseFlag(_) =>
          CoveredThroughSubmission(r, a, p);
        case Receive => CoveredThroughReceive(r, p);
        case ReadProjects(_) => ReadingCovers(r, a, p);
        case TakeFlag | LowerForJob | Assign(_) | StartRefreshing | BeginRefresh(_)
           | EndRefresh(_) | FinishRefreshing | TimeOut | Stop => WorkerKeepsCovered(r, a, p);
      }
    } else {
      var p :| p in r.history.owed && (a.read.None? || p !in a.read.value) && !CoveredElsewhere(r.machine, p);
      assert !Covered(r', p);
    }
  }

  lemma StepKeepsOwedCovered(r: Recorded, a: Action)
    requires AllOwedCovered(r) && ReadSucceeds(a, r.machine.active)
    ensures AllOwedCovered(Step(r, a)) && Step(r, a).machine.active == r.machine.active
  {
    StepLosesOnlyWhatAReadForgets(r, a);
  }

  /**
   With store reads succeeding, in every run an accepted rebuild request for a project with active
   findings stays queued, flagged, in the dirty set or in the worker's hands until a refresh of that
   project that began after the request succeeds.
   */
  lemma {:induction false} NoRequestIsLost(active: set<Project>, queueCapacity: nat, n: nat, actions: seq<Action>)
    requires forall k :: 0 <= k < |actions| ==> ReadSucceeds(actions[k], active)
    ensures var r := After(Step, Start(active, queueCapacity, n), actions);
      AllOwedCovered(r) && r.machine.active == active
    decreases |actions|
  {
    if actions != [] {
      NoRequestIsLost(active, queueCapacity, n, actions[..|actions| - 1]);
      StepKeepsOwedCovered(After(Step, Start(active, queueCapacity, n), actions[..|actions| - 1]),
                           actions[|actions| - 1]);
    }
  }

  /** A project that the store named is dirty, waits for its refresh, or is being refreshed. */
  ghost predicate AllNamedInHand(r: Recorded) {
    forall p :: p in r.history.named ==>
      || p in r.machine.dirty
      || (r.machine.worker.Refreshing? && (p in r.machine.worker.pending || r.machine.worker.current == Some(p)))
  }

  lemma StepKeepsNamedInHand(r: Recorded, a: Action)
    requires AllNamedInHand(r)
    ensures AllNamedInHand(Step(r, a))
  {
  }

  /**
   In every run, failed store reads included, a project that the store named for an assigned trace stays
   dirty or in the worker's hands until a refresh of it succeeds.
   */
  lemma {:induction false} NoNamedProjectIsLost(active: set<Project>, queueCapacity: nat, n: nat, actions: seq<Action>)
    ensures AllNamedInHand(After(Step, Start(active, queueCapacity, n), actions))
    decreases |actions|
  {
    if actions != [] {
      NoNamedProjectIsLost(active, queueCapacity, n, actions[..|actions| - 1]);
      StepKeepsNamedInHand(After(Step, Start(active, queueCapacity, n), actions[..|actions| - 1]),
                           actions[|actions| - 1]);
    }
  }

  function TracesIn(queue: seq<Job>): seq<string> {
    if queue == [] then []
    else (if queue[0].Assignment? then [queue[0].trace] else []) + TracesIn(queue[1..])
  }

  lemma {:induction false} TracesAppend(queue: seq<Job>, job: Job)
    ensures TracesIn(queue + [job]) == TracesIn(queue) + if job.Assignment? then [job.trace] else []
  {
    if queue != [] {
      TracesAppend(queue[1..], job);
      assert (queue + [job])[1..] == queue[1..] + [job];
    } else {
      assert [job][1..] == [];
    }
  }

  /** The traces in the worker's hands and in the queue. */
  function TracesOf(s: State): seq<string> {
    (if s.worker.GotAssignment? || s.worker.Assigning? then [s.worker.trace] else []) + TracesIn(s.queue)
  }

  ghost predicate WaitingInHand(r: Recorded) {
    r.history.waiting == TracesOf(r.machine)
  }

  lemma SendingKeepsTraces(s: State, t: nat)
    ensures TracesOf(Next(s, TrySend(t))) == WaitingAfter(TracesOf(s), s, TrySend(t), Next(s, TrySend(t)))
  {
    if t < |s.submitters| && s.submitters[t].Counted? {
      TracesAppend(s.queue, s.submitters[t].job);
    }
  }

  lemma ReceivingKeepsTraces(s: State)
    ensures TracesOf(Next(s, Receive)) == TracesOf(s)
  {
    if s.worker.Receiving? && s.queue != [] {
      var s' := Next(s, Receive);
      assert s'.queue == s.queue[1..];
    }
  }

  lemma WorkingKeepsTraces(s: State, a: Action)
    requires !a.TrySend? && !a.Receive?
    ensures TracesOf(Next(s, a)) == WaitingAfter(TracesOf(s), s, a, Next(s, a))
  {
    hide TracesIn;
    if a.Assign? {
      AssigningKeepsTraces(s, a);
    } else {
      assert AcceptedJob(s, a, Next(s, a)).Some? ==> a.RaiseFlag?;
    }
  }

  lemma AssigningKeepsTraces(s: State, a: Action)
    requires a.Assign?
    ensures TracesOf(Next(s, a)) == WaitingAfter(TracesOf(s), s, a, Next(s, a))
  {
    hide TracesIn;
    if s.worker.Assigning? {
      assert TracesOf(s)[1..] == TracesIn(s.queue);
    }
  }

  lemma StepKeepsWaitingInHand(r: Recorded, a: Action)
    requires WaitingInHand(r)
    ensures WaitingInHand(Step(r, a))
  {
    hide Next, TracesOf;
    if a.TrySend? {
      SendingKeepsTraces(r.machine, a.t);
    } else if a.Receive? {
      ReceivingKeepsTraces(r.machine);
    } else {
      WorkingKeepsTraces(r.machine, a);
    }
  }

  /** In every run the queued traces no assignment was tried for are in hand and in the queue, in their order. */
  lemma {:induction false} NoTraceIsLost(active: set<Project>, queueCapacity: nat, n: nat, actions: seq<Action>)
    ensures WaitingInHand(After(Step, Start(active, queueCapacity, n), actions))
    decreases |actions|
  {
    if actions != [] {
      NoTraceIsLost(active, queueCapacity, n, actions[..|actions| - 1]);
      StepKeepsWaitingInHand(After(Step, Start(active, queueCapacity, n), actions[..|actions| - 1]),
                             actions[|actions| - 1]);
    }
  }

  /** A project leaves `owed` only through a successful refresh that began after its last request. */
  lemma OnlyASuccessfulRefreshSettles(r: Recorded, a: Action, p: Project)
    requires p in r.history.owed + r.history.named && p !in Step(r, a).history.owed + Step(r, a).history.named
    ensures a == EndRefresh(Succeeded)
    ensures r.machine.worker.Refreshing? && r.machine.worker.current == Some(p)
    ensures p in r.history.owed ==> !r.history.renewed
  {}

  // ------------------------------------------------------------------ progress

  /** What the worker does next when its store reads and refreshes succeed. */
  ghost function WorkerAction(s: State): Action {
    match s.worker
    case LoopTop => TakeFlag
    case ReadingAll | ReadingFor(_) => ReadProjects(Some(s.active))
    case Receiving => if s.queue != [] then Receive else if s.dirty != {} then StartRefreshing else TimeOut
    case GotRebuild(_) | GotAssignment(_) => LowerForJob
    case Assigning(_) => Assign(NothingToDo)
    case Refreshing(pending, current, _) =>
      if current.Some? then EndRefresh(Succeeded)
      else if pending != {} then
        var p :| p in pending;
        BeginRefresh(p)
      else FinishRefreshing
    case Stopped => Stop
  }

  predicate AllDone(s: State) {
    s.worker.Receiving? && s.queue == [] && !s.rebuildAll && s.dirty == {}
  }

  /** Steps of the worker until it has a job in hand dealt with. */
  function JobInHand(w: Worker): nat {
    match w
    case GotRebuild(_) | GotAssignment(_) => 2
    case ReadingAll | ReadingFor(_) | Assigning(_) => 1
    case _ => 0
  }

  function RefreshesInHand(w: Worker): nat {
    if w.Refreshing? then 1 + 2 * |w.pending| + (if w.current.Some? then 1 else 0) else 0
  }

  /** How far the worker is from looking at the flag and then at an empty queue. */
  function RoundInHand(s: State): nat {
    if s.worker.Receiving? then (if s.rebuildAll then 2 else 0) else if s.worker.LoopTop? then 1 else 0
  }

  /** A later component counts only when the earlier ones stay. */
  predicate CloserToDone(s': State, s: State) {
    if |s'.queue| != |s.queue| then |s'.queue| < |s.queue|
    else if s'.rebuildAll != s.rebuildAll then s.rebuildAll
    else if JobInHand(s'.worker) != JobInHand(s.worker) then JobInHand(s'.worker) < JobInHand(s.worker)
    else if (s'.dirty != {}) != (s.dirty != {}) then s.dirty != {}
    else if RefreshesInHand(s'.worker) != RefreshesInHand(s.worker) then
      RefreshesInHand(s'.worker) < RefreshesInHand(s.worker)
    else RoundInHand(s') < RoundInHand(s)
  }

  ghost predicate GetsOn(s: State) {
    var a := WorkerAction(s);
    && CloserToDone(Next(s, a), s) && !Next(s, a).worker.Stopped? && ReadSucceeds(a, s.active)
    && !(a.RaiseCounter? || a.TrySend? || a.LowerCounter? || a.RaiseFlag?)
  }

  lemma RefreshingGetsOn(s: State)
    requires s.worker.Refreshing?
    ensures GetsOn(s)
  {
  }

  lemma ReceivingGetsOn(s: State)
    requires s.worker.LoopTop? || s.worker.ReadingAll? || s.worker.Receiving?
    requires !AllDone(s)
    ensures GetsOn(s)
  {
  }

  lemma HandlingGetsOn(s: State)
    requires s.worker.GotRebuild? || s.worker.ReadingFor? || s.worker.GotAssignment? || s.worker.Assigning?
    ensures GetsOn(s)
  {
  }

  lemma WorkerGetsOn(s: State)
    requires !s.worker.Stopped? && !AllDone(s)
    ensures GetsOn(s)
  {
    hide GetsOn;
    match s.worker
    case Refreshing(_, _, _) => RefreshingGetsOn(s);
    case LoopTop | ReadingAll | Receiving => ReceivingGetsOn(s);
    case GotRebuild(_) | ReadingFor(_) | GotAssignment(_) | Assigning(_) => HandlingGetsOn(s);
  }

  /** Steps without a submitter after which nothing is owed. */
  ghost predicate Settles(r: Recorded, actions: seq<Action>) {
    var history := After(Step, r, actions).history;
    && (forall a :: a in actions ==> !(a.RaiseCounter? || a.TrySend? || a.LowerCounter? || a.RaiseFlag?))
    && history.owed == history.named == {} && history.waiting == []
  }

  lemma OneMoreSettles(r: Recorded, a: Action, rest: seq<Action>)
    requires Settles(Step(r, a), rest) && !(a.RaiseCounter? || a.TrySend? || a.LowerCounter? || a.RaiseFlag?)
    ensures Settles(r, [a] + rest)
  {
    hide Step;
    AfterConcat(Step, r, [a], rest);
    AfterOne(Step, r, a);
  }

  lemma DoneSettles(r: Recorded)
    requires AllOwedCovered(r) && AllNamedInHand(r) && WaitingInHand(r) && AllDone(r.machine)
    ensures Settles(r, [])
  {
    assert forall p :: !Covered(r, p);
  }

  /**
   From any state in which the worker still runs, a run of its own steps settles every request and every
   named project and tries every queued trace: nothing waits for another submission.
   */
  lemma {:induction false} EverythingOwedCanBeSettled(r: Recorded)
    requires AllOwedCovered(r) && AllNamedInHand(r) && WaitingInHand(r) && !r.machine.worker.Stopped?
    ensures exists actions :: Settles(r, actions)
    decreases |r.machine.queue|, r.machine.rebuildAll, JobInHand(r.machine.worker), r.machine.dirty != {},
      RefreshesInHand(r.machine.worker), RoundInHand(r.machine)
  {
    if AllDone(r.machine) {
      DoneSettles(r);
      return;
    }
    hide Next, Noted, Settles, WorkerAction, AllOwedCovered, AllNamedInHand, WaitingInHand, ReadSucceeds;
    hide JobInHand, RefreshesInHand, RoundInHand;
    var a := WorkerAction(r.machine);
    WorkerGetsOn(r.machine);
    StepKeepsOwedCovered(r, a);
    StepKeepsNamedInHand(r, a);
    StepKeepsWaitingInHand(r, a);
    EverythingOwedCanBeSettled(Step(r, a));
    var rest :| Settles(Step(r, a), rest);
    OneMoreSettles(r, a, rest);
  }

  // --------------------------------------------------------------- failed reads

  /**
   The store reads cannot be dropped from the hypothesis: one failed read forgets a request that the
   submitter was told had been accepted.
   */
  lemma AFailedReadLosesARequest(p: Project)
    ensures var actions := [RaiseCounter(0, Rebuild(None)), TrySend(0), TakeFlag, Receive, LowerForJob,
                            ReadProjects(None)];
      var r := After(Step, Start({p}, 1, 1), actions);
      p in r.history.owed && !Covered(r, p)
  {
    hide Next, Noted, Step, Start, AcceptedRebuild, Runs.After;
    var first := [RaiseCounter(0, Rebuild(None)), TrySend(0), TakeFlag];
    var second := [Receive, LowerForJob, ReadProjects(None)];
    assert first + second == [RaiseCounter(0, Rebuild(None)), TrySend(0), TakeFlag, Receive, LowerForJob,
                              ReadProjects(None)];
    AfterConcat(Step, Start({p}, 1, 1), first, second);
    RebuildEverythingIsAccepted(p);
    FailedReadForgets(p);
  }

  function Recording(
      queue: seq<Job>, rebuilds: nat, p: Submitter, worker: Worker, active: set<Project>, owed: set<Project>): Recorded
  {
    Recorded(
      State(active, 1, queue, 0, rebuilds, false, [p], worker, {}), History(owed, {}, [], false))
  }

  lemma FailedReadForgets(p: Project)
    ensures After(Step, AcceptedRebuild(p), [Receive, LowerForJob, ReadProjects(None)])
         == Recording([], 0, Resting, LoopTop, {p}, {p})
  {
    AfterThree(Step, AcceptedRebuild(p), Receive, LowerForJob, ReadProjects(None));
    assert Step(AcceptedRebuild(p), Receive) == Recording([], 1, Resting, GotRebuild(None), {p}, {p});
    assert Step(Recording([], 1, Resting, GotRebuild(None), {p}, {p}), LowerForJob)
      == Recording([], 0, Resting, ReadingFor(None), {p}, {p});
  }

  /** One request to rebuild everything has been accepted and waits in the queue. */
  function AcceptedRebuild(p: Project): Recorded {
    Recording([Rebuild(None)], 1, Resting, Receiving, {p}, {p})
  }

  lemma RebuildEverythingIsAccepted(p: Project)
    ensures After(Step, Start({p}, 1, 1), [RaiseCounter(0, Rebuild(None)), TrySend(0), TakeFlag])
         == AcceptedRebuild(p)
  {
    AfterThree(Step, Start({p}, 1, 1), RaiseCounter(0, Rebuild(None)), TrySend(0), TakeFlag);
    RebuildIsCounted(p);
    RebuildIsQueued(p);
  }

  lemma RebuildIsCounted(p: Project)
    ensures Step(Start({p}, 1, 1), RaiseCounter(0, Rebuild(None)))
      == Recording([], 1, Counted(Rebuild(None)), LoopTop, {p}, {})
  {
    var s' := Next(Initial({p}, 1, 1), RaiseCounter(0, Rebuild(None)));
    assert s'.submitters == [Counted(Rebuild(None))];
  }

  lemma RebuildIsQueued(p: Project)
    ensures Step(Recording([], 1, Counted(Rebuild(None)), LoopTop, {p}, {}), TrySend(0))
      == Recording([Rebuild(None)], 1, Resting, LoopTop, {p}, {p})
  {
    var s' := Next(Recording([], 1, Counted(Rebuild(None)), LoopTop, {p}, {}).machine, TrySend(0));
    assert s'.submitters == [Resting] && s'.queue == [Rebuild(None)];
  }
}
