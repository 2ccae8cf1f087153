/** The bounded executor and its shutdown: submissions, workers, completion callbacks, callers who give up waiting, the
    closing thread and others who wait for it interleave freely, and marking a job failed may itself fail. */
module IngestionShutdown {
  import opened Sequences

  type Job = nat

  /** A thread that calls shutdown while it is under way. */
  type Closer = nat

  datatype Stage = Queued | Running | Finished | Cancelled | Refused

  /** One submitted job. `abandoned`: cancelled by its caller and not by the closing thread. `marked`: its row says
      failed; `struck`: marking it raised and left the row as it was. `listed`: in the closing thread's snapshot.
      `slipped` and `dropped` record two ways to be forgotten: cancelled and unregistered before the snapshot, and left
      over when marking broke off. */
  datatype Entry = Entry(
    stage: Stage, holding: bool, registered: bool, abandoned: bool, marked: bool, struck: bool, listed: bool,
    slipped: bool, dropped: bool)

  /** The closing thread's progress. `Snapshotted` has copied the registrations and cancels what is queued;
      `Draining` waits for the workers; `Marking` fails the cancelled jobs one by one. */
  datatype Phase = Open | Closing | Snapshotted | Draining | Marking | Closed

  datatype System = System(
    workers: nat, capacity: nat, free: nat, jobs: map<Job, Entry>, phase: Phase,
    waiting: set<Closer>, returned: set<Closer>)

  datatype Step =
    | Submit(job: Job)                        // the part of a service call under the shutdown lock
    | MarkRefused(job: Job)                   // the rest of a refused call, outside the lock
    | RefusalMarkRaises(job: Job, landed: bool)
    | Start(job: Job)                         // a worker takes a queued job
    | Finish(job: Job)                        // its future gets a result or an exception
    | Abandon(job: Job)                       // the awaiting caller is cancelled, and with it the queued future
    | Release(job: Job)                       // completion callback: the permit goes back
    | Forget(job: Job)                        // completion callback: the registration goes
    | BeginShutdown
    | TakeSnapshot
    | CancelOne(job: Job)
    | StopCancelling
    | WorkersGone
    | MarkCancelled(job: Job)
    | MarkingRaises(job: Job, landed: bool)   // the closing thread gives up, having announced completion all the same
    | FinishShutdown
    | Arrive(closer: Closer)
    | Return(closer: Closer)

  predicate At(s: System, job: Job, stage: Stage) {
    job in s.jobs && s.jobs[job].stage == stage
  }

  predicate Accepted(s: System, job: Job) {
    job in s.jobs && s.jobs[job].stage != Refused
  }

  predicate Holds(s: System, job: Job) {
    job in s.jobs && s.jobs[job].holding
  }

  function Holders(jobs: map<Job, Entry>): set<Job> {
    set job | job in jobs && jobs[job].holding
  }

  function Runners(jobs: map<Job, Entry>): set<Job> {
    set job | job in jobs && jobs[job].stage == Running
  }

  function Unfinished(jobs: map<Job, Entry>): set<Job> {
    set job | job in jobs && (jobs[job].stage == Queued || jobs[job].stage == Running)
  }

  predicate Over(e: Entry) {
    e.stage == Finished || e.stage == Cancelled
  }

  predicate BeforeSnapshot(phase: Phase) {
    phase == Open || phase == Closing
  }

  /** The closing thread's own cancellations have run their callbacks. */
  predicate OwnCallbacksRun(jobs: map<Job, Entry>) {
    forall job | job in jobs && jobs[job].stage == Cancelled && !jobs[job].abandoned ::
      !jobs[job].holding && !jobs[job].registered
  }

  predicate WorkersIdle(jobs: map<Job, Entry>) {
    forall job | job in jobs ::
      jobs[job].stage != Running && (jobs[job].stage == Finished ==> !jobs[job].holding && !jobs[job].registered)
  }

  predicate AwaitsMark(e: Entry) {
    e.stage == Cancelled && e.listed && !e.marked
  }

  /** Callbacks run in the thread that ends the future: the closing thread runs those of a future it cancels before it
      goes on, and joining a worker waits for those of its jobs. Nobody waits for those of an abandoned job. */
  predicate Enabled(s: System, step: Step) {
    match step
    case Submit(job) => job !in s.jobs
    case MarkRefused(job) => At(s, job, Refused) && !s.jobs[job].marked && !s.jobs[job].struck
    case RefusalMarkRaises(job, _) => At(s, job, Refused) && !s.jobs[job].marked && !s.jobs[job].struck
    case Start(job) => At(s, job, Queued) && |Runners(s.jobs)| < s.workers
    case Finish(job) => At(s, job, Running)
    case Abandon(job) => At(s, job, Queued)
    case Release(job) => Holds(s, job) && Over(s.jobs[job])
    case Forget(job) => job in s.jobs && s.jobs[job].registered && Over(s.jobs[job])
    case BeginShutdown => s.phase == Open
    case TakeSnapshot => s.phase == Closing
    case CancelOne(job) => s.phase == Snapshotted && At(s, job, Queued) && OwnCallbacksRun(s.jobs)
    case StopCancelling =>
      s.phase == Snapshotted && OwnCallbacksRun(s.jobs) && forall job | job in s.jobs :: s.jobs[job].stage != Queued
    case WorkersGone => s.phase == Draining && WorkersIdle(s.jobs)
    case MarkCancelled(job) => s.phase == Marking && job in s.jobs && AwaitsMark(s.jobs[job])
    case MarkingRaises(job, _) => s.phase == Marking && job in s.jobs && AwaitsMark(s.jobs[job])
    case FinishShutdown => s.phase == Marking && forall job | job in s.jobs :: !AwaitsMark(s.jobs[job])
    case Arrive(closer) => s.phase != Open && closer !in s.waiting && closer !in s.returned
    case Return(closer) => s.phase == Closed && closer in s.waiting
  }

  function Put(s: System, job: Job, e: Entry): System {
    s.(jobs := s.jobs[job := e])
  }

  function Listed(jobs: map<Job, Entry>): map<Job, Entry> {
    map job | job in jobs :: jobs[job].(listed := jobs[job].registered)
  }

  function LeftOver(jobs: map<Job, Entry>): map<Job, Entry> {
    map job | job in jobs :: jobs[job].(dropped := AwaitsMark(jobs[job]))
  }

  const NEW := Entry(Queued, true, true, false, false, false, false, false, false)
  const TURNED_AWAY := Entry(Refused, false, false, false, false, false, false, false, false)

  predicate Accepts(s: System) {
    s.phase == Open && s.free > 0
  }

  function Next(s: System, step: Step): System
    requires Enabled(s, step)
  {
    match step
    case Submit(job) => if Accepts(s) then Put(s, job, NEW).(free := s.free - 1) else Put(s, job, TURNED_AWAY)
    case MarkRefused(job) => Put(s, job, s.jobs[job].(marked := true))
    case RefusalMarkRaises(job, landed) =>
      Put(s, job, if landed then s.jobs[job].(marked := true) else s.jobs[job].(struck := true))
    case Start(job) => Put(s, job, s.jobs[job].(stage := Running))
    case Finish(job) => Put(s, job, s.jobs[job].(stage := Finished))
    case Abandon(job) => Put(s, job, s.jobs[job].(stage := Cancelled, abandoned := true))
    case Release(job) => Put(s, job, s.jobs[job].(holding := false)).(free := s.free + 1)
    case Forget(job) =>
      Put(s, job, s.jobs[job].(registered := false,
                               slipped := s.jobs[job].slipped
                                          || (BeforeSnapshot(s.phase) && s.jobs[job].stage == Cancelled)))
    case BeginShutdown => s.(phase := Closing)
    case TakeSnapshot => s.(phase := Snapshotted, jobs := Listed(s.jobs))
    case CancelOne(job) => Put(s, job, s.jobs[job].(stage := Cancelled))
    case StopCancelling => s.(phase := Draining)
    case WorkersGone => s.(phase := Marking)
    case MarkCancelled(job) => Put(s, job, s.jobs[job].(marked := true))
    case MarkingRaises(job, landed) =>
      s.(phase := Closed, jobs := LeftOver(s.jobs[job := s.jobs[job].(marked := landed)]))
    case FinishShutdown => s.(phase := Closed)
    case Arrive(closer) => s.(waiting := s.waiting + {closer})
    case Return(closer) => s.(waiting := s.waiting - {closer}, returned := s.returned + {closer})
  }

  // ---- What every step keeps ---------------------------------------------

  predicate Fresh(e: Entry) {
    !e.abandoned && !e.marked && !e.struck && !e.slipped && !e.dropped
  }

  /** What an entry can be at each stage, by how far the closing thread is. */
  predicate EntryOk(phase: Phase, e: Entry) {
    match e.stage
    case Queued =>
      Fresh(e) && e.holding && e.registered && e.listed == !BeforeSnapshot(phase)
      && (BeforeSnapshot(phase) || phase == Snapshotted)
    case Running =>
      Fresh(e) && e.holding && e.registered && e.listed == !BeforeSnapshot(phase) && phase != Marking && phase != Closed
    case Finished => Fresh(e) && (phase == Marking || phase == Closed ==> !e.holding && !e.registered)
    case Cancelled =>
      && !e.struck
      && (BeforeSnapshot(phase) ==> e.abandoned && !e.listed && e.slipped == !e.registered)
      && (!BeforeSnapshot(phase) ==> e.listed == !e.slipped)
      && (e.slipped ==> e.abandoned)
      && (phase == Draining || phase == Marking || phase == Closed ==> e.abandoned || (!e.holding && !e.registered))
      && (e.marked ==> e.listed && (phase == Marking || phase == Closed))
      && e.dropped == (phase == Closed && AwaitsMark(e))
    case Refused =>
      !e.holding && !e.registered && !e.abandoned && !e.listed && !e.slipped && !e.dropped && !(e.marked && e.struck)
  }

  predicate AllOk(phase: Phase, jobs: map<Job, Entry>) {
    forall job | job in jobs :: EntryOk(phase, jobs[job])
  }

  predicate Valid(s: System) {
    && AllOk(s.phase, s.jobs)
    && s.free + |Holders(s.jobs)| == s.capacity
    && |Runners(s.jobs)| <= s.workers
    && (s.returned != {} ==> s.phase == Closed)
  }

  function One(b: bool): nat {
    if b then 1 else 0
  }

  /** A set that may change in one element only. */
  lemma SizeBut(a: set<Job>, b: set<Job>, job: Job)
    requires a - {job} == b - {job}
    ensures |b| + One(job in a) == |a| + One(job in b)
  {
    assert a == (a - {job}) + (if job in a then {job} else {});
    assert b == (b - {job}) + (if job in b then {job} else {});
  }

  lemma BooksAfterPut(jobs: map<Job, Entry>, job: Job, e: Entry)
    ensures |Holders(jobs[job := e])| + One(job in jobs && jobs[job].holding) == |Holders(jobs)| + One(e.holding)
    ensures |Runners(jobs[job := e])| + One(job in jobs && jobs[job].stage == Running)
         == |Runners(jobs)| + One(e.stage == Running)
  {
    var n := jobs[job := e];
    assert Holders(n) - {job} == Holders(jobs) - {job};
    assert Runners(n) - {job} == Runners(jobs) - {job};
    SizeBut(Holders(jobs), Holders(n), job);
    SizeBut(Runners(jobs), Runners(n), job);
  }

  predicate TouchesOne(step: Step) {
    step.Submit? || step.MarkRefused? || step.RefusalMarkRaises? || step.Start? || step.Finish? || step.Abandon?
    || step.Release? || step.Forget? || step.CancelOne? || step.MarkCancelled?
  }

  lemma CallbackKeepsEntry(s: System, step: Step)
    requires AllOk(s.phase, s.jobs) && (step.Release? || step.Forget?) && Enabled(s, step)
    ensures EntryOk(s.phase, Next(s, step).jobs[step.job])
  {
    assert EntryOk(s.phase, s.jobs[step.job]);
  }

  lemma MoveKeepsEntry(s: System, step: Step)
    requires AllOk(s.phase, s.jobs) && Enabled(s, step)
    requires step.Start? || step.Finish? || step.Abandon? || step.CancelOne?
    ensures EntryOk(s.phase, Next(s, step).jobs[step.job])
  {
    assert EntryOk(s.phase, s.jobs[step.job]);
  }

  lemma MarkKeepsEntry(s: System, step: Step)
    requires AllOk(s.phase, s.jobs) && Enabled(s, step)
    requires step.MarkRefused? || step.RefusalMarkRaises? || step.MarkCancelled?
    ensures EntryOk(s.phase, Next(s, step).jobs[step.job])
  {
    assert EntryOk(s.phase, s.jobs[step.job]);
  }

  lemma EntryAfterStep(s: System, step: Step)
    requires AllOk(s.phase, s.jobs) && TouchesOne(step) && Enabled(s, step)
    ensures step.job in Next(s, step).jobs && EntryOk(s.phase, Next(s, step).jobs[step.job])
  {
    if step.Submit? {
      assert EntryOk(s.phase, TURNED_AWAY) && (s.phase == Open ==> EntryOk(s.phase, NEW));
    } else if step.Release? || step.Forget? {
      CallbackKeepsEntry(s, step);
    } else if step.MarkRefused? || step.RefusalMarkRaises? || step.MarkCancelled? {
      MarkKeepsEntry(s, step);
    } else {
      MoveKeepsEntry(s, step);
    }
  }

  lemma PutKeepsOk(phase: Phase, jobs: map<Job, Entry>, job: Job, e: Entry)
    requires AllOk(phase, jobs) && EntryOk(phase, e)
    ensures AllOk(phase, jobs[job := e])
  {
  }

  /** The steps that touch one job. */
  lemma JobStepKeepsValid(s: System, step: Step)
    requires Valid(s) && TouchesOne(step) && Enabled(s, step)
    ensures Valid(Next(s, step))
  {
    var e := Next(s, step).jobs[step.job];
    EntryAfterStep(s, step);
    PutKeepsOk(s.phase, s.jobs, step.job, e);
    BooksAfterPut(s.jobs, step.job, e);
    assert Next(s, step).jobs == s.jobs[step.job := e];
  }

  lemma SameBooks(a: map<Job, Entry>, b: map<Job, Entry>)
    requires a.Keys == b.Keys
    requires forall job | job in a :: a[job].holding == b[job].holding && a[job].stage == b[job].stage
    ensures Holders(a) == Holders(b) && Runners(a) == Runners(b) && Unfinished(a) == Unfinished(b)
  {
  }

  lemma SnapshotKeepsValid(s: System)
    requires Valid(s) && Enabled(s, TakeSnapshot)
    ensures Valid(Next(s, TakeSnapshot))
  {
    SameBooks(s.jobs, Listed(s.jobs));
    forall job | job in s.jobs ensures EntryOk(Snapshotted, Listed(s.jobs)[job]) {
      assert EntryOk(s.phase, s.jobs[job]);
    }
  }

  lemma LeftOverOk(e: Entry)
    requires EntryOk(Marking, e)
    ensures EntryOk(Closed, e.(dropped := AwaitsMark(e)))
  {
  }

  lemma LeftOverKeepsValid(s: System)
    requires Valid(s) && s.phase == Marking
    ensures Valid(s.(phase := Closed, jobs := LeftOver(s.jobs)))
  {
    SameBooks(s.jobs, LeftOver(s.jobs));
    forall job | job in s.jobs ensures EntryOk(Closed, LeftOver(s.jobs)[job]) {
      LeftOverOk(s.jobs[job]);
    }
  }

  /** Marking that raises is marking, or nothing, and then giving up. */
  lemma MarkingRaisesKeepsValid(s: System, job: Job, landed: bool)
    requires Valid(s) && Enabled(s, MarkingRaises(job, landed))
    ensures Valid(Next(s, MarkingRaises(job, landed)))
  {
    var marked := if landed then Next(s, MarkCancelled(job)) else s;
    JobStepKeepsValid(s, MarkCancelled(job));
    LeftOverKeepsValid(marked);
    assert s.jobs[job := s.jobs[job].(marked := landed)] == marked.jobs;
  }

  lemma PhaseKeepsValid(s: System, step: Step)
    requires Valid(s) && Enabled(s, step)
    requires step.BeginShutdown? || step.StopCancelling? || step.WorkersGone? || step.FinishShutdown? || step.Arrive?
             || step.Return?
    ensures Valid(Next(s, step))
  {
    forall job | job in s.jobs ensures EntryOk(Next(s, step).phase, s.jobs[job]) {
      assert EntryOk(s.phase, s.jobs[job]);
    }
  }

  lemma StepKeepsValid(s: System, step: Step)
    requires Valid(s) && Enabled(s, step)
    ensures Valid(Next(s, step))
  {
    match step {
      case TakeSnapshot => SnapshotKeepsValid(s);
      case MarkingRaises(job, landed) => MarkingRaisesKeepsValid(s, job, landed);
      case BeginShutdown => PhaseKeepsValid(s, step);
      case StopCancelling => PhaseKeepsValid(s, step);
      case WorkersGone => PhaseKeepsValid(s, step);
      case FinishShutdown => PhaseKeepsValid(s, step);
      case Arrive(_) => PhaseKeepsValid(s, step);
      case Return(_) => PhaseKeepsValid(s, step);
      case _ => JobStepKeepsValid(s, step);
    }
  }

  // ---- Runs --------------------------------------------------------------

  function Run(s: System, steps: seq<Step>): System
    requires Possible(s, steps)
    decreases |steps|
  {
    if steps == [] then s else Run(Next(s, steps[0]), steps[1..])
  }

  predicate Possible(s: System, steps: seq<Step>)
    decreases |steps|
  {
    steps == [] || (Enabled(s, steps[0]) && Possible(Next(s, steps[0]), steps[1..]))
  }

  function NewExecutor(workers: nat, queue: nat): System {
    System(workers, workers + queue, workers + queue, map[], Open, {}, {})
  }

  /** No step loses a submitted job or its acceptance, and only a submission while open is accepted. */
  lemma SubmissionsStay(s: System, step: Step, job: Job)
    requires Enabled(s, step)
    ensures job in s.jobs ==> job in Next(s, step).jobs
    ensures Accepted(Next(s, step), job) <==>
              Accepted(s, job) || (step == Submit(job) && s.phase == Open && s.free > 0)
    ensures s.phase != Open ==> Next(s, step).phase != Open
  {
  }

  /** What one step keeps every run keeps. */
  lemma {:induction false} RunKeepsValid(s: System, steps: seq<Step>)
    requires Valid(s) && Possible(s, steps)
    ensures Valid(Run(s, steps)) && Run(s, steps).capacity == s.capacity
    decreases |steps|
  {
    if steps != [] {
      StepKeepsValid(s, steps[0]);
      RunKeepsValid(Next(s, steps[0]), steps[1..]);
    }
  }

  /** Along a run no submission is forgotten, and nothing is accepted any more once shutdown has begun. */
  lemma {:induction false} NothingAcceptedLate(s: System, steps: seq<Step>, job: Job)
    requires Possible(s, steps)
    ensures job in s.jobs ==> job in Run(s, steps).jobs
    ensures Accepted(s, job) ==> Accepted(Run(s, steps), job)
    ensures s.phase != Open && Accepted(Run(s, steps), job) ==> Accepted(s, job)
    decreases |steps|
  {
    if steps != [] {
      SubmissionsStay(s, steps[0], job);
      NothingAcceptedLate(Next(s, steps[0]), steps[1..], job);
    }
  }

  lemma NewExecutorRuns(workers: nat, queue: nat, steps: seq<Step>)
    requires Possible(NewExecutor(workers, queue), steps)
    ensures var n := Run(NewExecutor(workers, queue), steps); Valid(n) && n.capacity == workers + queue
  {
    var s := NewExecutor(workers, queue);
    assert Holders(s.jobs) == {} && Runners(s.jobs) == {};
    RunKeepsValid(s, steps);
  }

  // ---- Which jobs are lost -----------------------------------------------

  /** The job neither ran to its end nor was marked failed. */
  predicate Lost(s: System, job: Job) {
    job in s.jobs && s.jobs[job].stage != Finished && !s.jobs[job].marked
  }

  /** A refused call that has yet to try to mark its job. */
  predicate Pending(e: Entry) {
    e.stage == Refused && !e.marked && !e.struck
  }

  /** The ways a job goes unnoticed: abandoned and unregistered before the snapshot, left over by a marking that broke
      off, refused and marked in vain, or refused with the marking to come. */
  predicate Overlooked(e: Entry) {
    e.slipped || e.dropped || e.struck || Pending(e)
  }

  predicate NothingLost(s: System) {
    forall job | job in s.jobs :: !Lost(s, job)
  }

  lemma UnfinishedBound(s: System)
    requires Valid(s)
    ensures |Unfinished(s.jobs)| <= s.capacity
  {
    forall job | job in Unfinished(s.jobs) ensures job in Holders(s.jobs) {
      assert EntryOk(s.phase, s.jobs[job]);
    }
    SubsetSize(Unfinished(s.jobs), Holders(s.jobs));
  }

  /** In every run of a new executor: at most workers plus queue jobs are accepted and unfinished; shutdown has returned
      to anyone only when it is done; and then a job neither ran nor was marked exactly when it was overlooked in one of
      four ways, so nothing is lost if and only if nothing was. */
  lemma NoJobIsLost(workers: nat, queue: nat, steps: seq<Step>)
    requires Possible(NewExecutor(workers, queue), steps)
    ensures var n := Run(NewExecutor(workers, queue), steps);
            && |Unfinished(n.jobs)| <= workers + queue
            && (n.returned != {} ==> n.phase == Closed)
            && (n.phase == Closed ==>
                  && (forall job | job in n.jobs :: Lost(n, job) <==> Overlooked(n.jobs[job]))
                  && (NothingLost(n) <==> forall job | job in n.jobs :: !Overlooked(n.jobs[job])))
  {
    NewExecutorRuns(workers, queue, steps);
    var n := Run(NewExecutor(workers, queue), steps);
    UnfinishedBound(n);
    if n.phase == Closed {
      forall job | job in n.jobs ensures Lost(n, job) <==> Overlooked(n.jobs[job]) {
        assert EntryOk(Closed, n.jobs[job]);
      }
    }
  }

  // ---- When each of them happens -----------------------------------------

  predicate Disturbs(step: Step) {
    step.Abandon? || step.MarkingRaises? || step.RefusalMarkRaises?
  }

  predicate Calm(steps: seq<Step>) {
    forall i | 0 <= i < |steps| :: !Disturbs(steps[i])
  }

  predicate Undisturbed(jobs: map<Job, Entry>) {
    forall job | job in jobs :: !jobs[job].abandoned && !jobs[job].struck && !jobs[job].dropped
  }

  lemma CalmStepUndisturbed(s: System, step: Step)
    requires Undisturbed(s.jobs) && !Disturbs(step) && Enabled(s, step)
    ensures Undisturbed(Next(s, step).jobs)
  {
  }

  lemma {:induction false} CalmRunUndisturbed(s: System, steps: seq<Step>)
    requires Undisturbed(s.jobs) && Calm(steps) && Possible(s, steps)
    ensures Undisturbed(Run(s, steps).jobs)
    decreases |steps|
  {
    if steps != [] {
      assert !Disturbs(steps[0]);
      CalmStepUndisturbed(s, steps[0]);
      CalmRunUndisturbed(Next(s, steps[0]), steps[1..]);
    }
  }

  /** When no caller gives up on a queued job and no marking raises, then after shutdown every submitted job has run or
      been marked, but for refused calls still on their way to marking, and every permit and registration is back. */
  lemma CalmRunLosesNone(workers: nat, queue: nat, steps: seq<Step>)
    requires Possible(NewExecutor(workers, queue), steps) && Calm(steps)
    ensures var n := Run(NewExecutor(workers, queue), steps);
            n.phase == Closed ==>
              && (forall job | Lost(n, job) :: At(n, job, Refused))
              && (forall job | job in n.jobs :: !n.jobs[job].holding && !n.jobs[job].registered)
              && n.free == workers + queue
  {
    NewExecutorRuns(workers, queue, steps);
    CalmRunUndisturbed(NewExecutor(workers, queue), steps);
    var n := Run(NewExecutor(workers, queue), steps);
    if n.phase == Closed {
      forall job | job in n.jobs
        ensures !n.jobs[job].holding && !n.jobs[job].registered && (Lost(n, job) ==> At(n, job, Refused))
      {
        assert EntryOk(Closed, n.jobs[job]);
      }
      assert Holders(n.jobs) == {};
    }
  }

  // ---- Permits -----------------------------------------------------------

  /** Once shutdown is done every permit and registration is back, but for those of abandoned jobs whose callbacks have
      yet to run. */
  lemma PermitsBack(workers: nat, queue: nat, steps: seq<Step>)
    requires Possible(NewExecutor(workers, queue), steps)
    ensures var n := Run(NewExecutor(workers, queue), steps);
            n.phase == Closed ==>
              && (forall job | job in n.jobs && (n.jobs[job].holding || n.jobs[job].registered) ::
                    n.jobs[job].stage == Cancelled && n.jobs[job].abandoned)
              && (n.free == workers + queue <==> forall job | job in n.jobs && n.jobs[job].abandoned :: !Holds(n, job))
  {
    NewExecutorRuns(workers, queue, steps);
    var n := Run(NewExecutor(workers, queue), steps);
    if n.phase == Closed {
      forall job | job in n.jobs && (n.jobs[job].holding || n.jobs[job].registered)
        ensures n.jobs[job].stage == Cancelled && n.jobs[job].abandoned
      {
        assert EntryOk(Closed, n.jobs[job]);
      }
      FreeIffNobodyHolds(n);
    }
  }

  lemma FreeIffNobodyHolds(s: System)
    requires Valid(s)
    ensures s.free == s.capacity <==> forall job | job in s.jobs :: !Holds(s, job)
  {
    if Holders(s.jobs) != {} {
      var job :| job in Holders(s.jobs);
      assert Holds(s, job);
    } else {
      forall job | job in s.jobs ensures !Holds(s, job) {
        assert job !in Holders(s.jobs);
      }
    }
  }

  function Releases(steps: seq<Step>, job: Job): nat
    decreases |steps|
  {
    if steps == [] then 0 else One(steps[0] == Release(job)) + Releases(steps[1..], job)
  }

  lemma StepMovesPermit(s: System, step: Step, job: Job)
    requires Enabled(s, step)
    ensures One(step == Release(job)) + One(Holds(Next(s, step), job))
         == One(Holds(s, job)) + One(Accepted(Next(s, step), job) && !Accepted(s, job))
  {
  }

  lemma {:induction false} RunMovesPermit(s: System, steps: seq<Step>, job: Job)
    requires Possible(s, steps)
    ensures Releases(steps, job) + One(Holds(Run(s, steps), job))
         == One(Holds(s, job)) + One(Accepted(Run(s, steps), job) && !Accepted(s, job))
    decreases |steps|
  {
    if steps != [] {
      StepMovesPermit(s, steps[0], job);
      SubmissionsStay(s, steps[0], job);
      NothingAcceptedLate(Next(s, steps[0]), steps[1..], job);
      RunMovesPermit(Next(s, steps[0]), steps[1..], job);
    }
  }

  /** Along every run of a new executor each accepted job gives its permit back once, or still holds it, and no other
      job ever gives one back; after shutdown only an abandoned job can still hold one. */
  lemma PermitReleasedOnce(workers: nat, queue: nat, steps: seq<Step>, job: Job)
    requires Possible(NewExecutor(workers, queue), steps)
    ensures var n := Run(NewExecutor(workers, queue), steps);
            && Releases(steps, job) == One(Accepted(n, job) && !Holds(n, job))
            && (n.phase == Closed && Accepted(n, job) && !n.jobs[job].abandoned ==> Releases(steps, job) == 1)
  {
    RunMovesPermit(NewExecutor(workers, queue), steps, job);
    PermitsBack(workers, queue, steps);
    NewExecutorRuns(workers, queue, steps);
    var n := Run(NewExecutor(workers, queue), steps);
    if Accepted(n, job) && Holds(n, job) {
      assert EntryOk(n.phase, n.jobs[job]);
    }
  }

  // ---- Jobs given up before the snapshot ---------------------------------

  /** Read off the events alone: the job is abandoned (or was, if `gone`), and after that unregistered, before the
      snapshot is taken. */
  predicate ForgottenEarly(steps: seq<Step>, job: Job, gone: bool)
    decreases |steps|
  {
    steps != [] && steps[0] != TakeSnapshot
    && ((gone && steps[0] == Forget(job)) || ForgottenEarly(steps[1..], job, gone || steps[0] == Abandon(job)))
  }

  predicate Slipped(s: System, job: Job) {
    job in s.jobs && s.jobs[job].slipped
  }

  lemma StepSlips(s: System, step: Step, job: Job)
    requires Enabled(s, step)
    ensures Slipped(Next(s, step), job) <==>
              Slipped(s, job) || (step == Forget(job) && BeforeSnapshot(s.phase) && At(s, job, Cancelled))
  {
  }

  lemma StepBeforeSnapshot(s: System, step: Step, job: Job)
    requires Enabled(s, step)
    ensures BeforeSnapshot(Next(s, step).phase) <==> BeforeSnapshot(s.phase) && step != TakeSnapshot
    ensures BeforeSnapshot(s.phase) ==>
              (At(Next(s, step), job, Cancelled) <==> At(s, job, Cancelled) || step == Abandon(job))
  {
  }

  lemma {:induction false} RunSlips(s: System, steps: seq<Step>, job: Job)
    requires Possible(s, steps)
    ensures Slipped(Run(s, steps), job) <==>
              Slipped(s, job) || (BeforeSnapshot(s.phase) && ForgottenEarly(steps, job, At(s, job, Cancelled)))
    decreases |steps|
  {
    if steps != [] {
      StepSlips(s, steps[0], job);
      StepBeforeSnapshot(s, steps[0], job);
      RunSlips(Next(s, steps[0]), steps[1..], job);
    }
  }

  /** A job slips through exactly when its caller gives it up and its registration goes before the snapshot. */
  lemma SlippedIffForgottenEarly(workers: nat, queue: nat, steps: seq<Step>, job: Job)
    requires Possible(NewExecutor(workers, queue), steps)
    ensures Slipped(Run(NewExecutor(workers, queue), steps), job) <==> ForgottenEarly(steps, job, false)
  {
    RunSlips(NewExecutor(workers, queue), steps, job);
  }

  // ---- Lost jobs by the events of a run ----------------------------------

  /** The events that write a failed row for the job. */
  predicate MarkedBy(steps: seq<Step>, job: Job) {
    MarkRefused(job) in steps || RefusalMarkRaises(job, true) in steps
    || MarkCancelled(job) in steps || MarkingRaises(job, true) in steps
  }

  predicate StruckBy(steps: seq<Step>, job: Job) {
    RefusalMarkRaises(job, false) in steps
  }

  predicate CancelledBy(steps: seq<Step>, job: Job) {
    Abandon(job) in steps || CancelOne(job) in steps
  }

  predicate BreaksOff(steps: seq<Step>) {
    exists i :: 0 <= i < |steps| && steps[i].MarkingRaises?
  }

  /** Cancelled in time for the snapshot, and never marked. */
  predicate LeftBehind(steps: seq<Step>, job: Job) {
    CancelledBy(steps, job) && !ForgottenEarly(steps, job, false) && !MarkedBy(steps, job)
  }

  /** Refused, which for a submitted job is neither to finish nor to be cancelled, and no attempt to mark it made. */
  predicate StillToMark(steps: seq<Step>, job: Job) {
    && Submit(job) in steps && Finish(job) !in steps && !CancelledBy(steps, job)
    && !MarkedBy(steps, job) && !StruckBy(steps, job)
  }

  predicate Marked(s: System, job: Job) {
    job in s.jobs && s.jobs[job].marked
  }

  predicate Struck(s: System, job: Job) {
    job in s.jobs && s.jobs[job].struck
  }

  predicate NoneDropped(jobs: map<Job, Entry>) {
    forall job | job in jobs :: !jobs[job].dropped
  }

  lemma StepEvents(s: System, step: Step, job: Job)
    requires Enabled(s, step)
    ensures var n := Next(s, step);
            && (Marked(n, job) <==> Marked(s, job) || MarkedBy([step], job))
            && (Struck(n, job) <==> Struck(s, job) || StruckBy([step], job))
            && (At(n, job, Cancelled) <==> At(s, job, Cancelled) || CancelledBy([step], job))
            && (At(n, job, Finished) <==> At(s, job, Finished) || step == Finish(job))
            && (job in n.jobs <==> job in s.jobs || step == Submit(job))
  {
  }

  lemma StepDropsNone(s: System, step: Step)
    requires Enabled(s, step) && NoneDropped(s.jobs) && !step.MarkingRaises?
    ensures NoneDropped(Next(s, step).jobs)
  {
  }

  lemma EventsSplit(steps: seq<Step>, job: Job)
    requires steps != []
    ensures MarkedBy(steps, job) <==> MarkedBy([steps[0]], job) || MarkedBy(steps[1..], job)
    ensures StruckBy(steps, job) <==> StruckBy([steps[0]], job) || StruckBy(steps[1..], job)
    ensures CancelledBy(steps, job) <==> CancelledBy([steps[0]], job) || CancelledBy(steps[1..], job)
    ensures BreaksOff(steps) <==> steps[0].MarkingRaises? || BreaksOff(steps[1..])
  {
    assert steps == [steps[0]] + steps[1..];
  }

  /** What has become of a job is what has happened to it. */
  lemma {:induction false} RunEvents(s: System, steps: seq<Step>, job: Job)
    requires Possible(s, steps)
    ensures var n := Run(s, steps);
            && (Marked(n, job) <==> Marked(s, job) || MarkedBy(steps, job))
            && (Struck(n, job) <==> Struck(s, job) || StruckBy(steps, job))
            && (At(n, job, Cancelled) <==> At(s, job, Cancelled) || CancelledBy(steps, job))
            && (At(n, job, Finished) <==> At(s, job, Finished) || Finish(job) in steps)
            && (job in n.jobs <==> job in s.jobs || Submit(job) in steps)
            && (NoneDropped(s.jobs) && !BreaksOff(steps) ==> NoneDropped(n.jobs))
    decreases |steps|
  {
    if steps != [] {
      StepEvents(s, steps[0], job);
      EventsSplit(steps, job);
      if NoneDropped(s.jobs) && !steps[0].MarkingRaises? {
        StepDropsNone(s, steps[0]);
      }
      RunEvents(Next(s, steps[0]), steps[1..], job);
    }
  }

  /** The job's caller gave it up and its registration went before the snapshot; or its refusal was marked in vain; or
      marking broke off and left it behind; or it was refused and its marking is still to come. */
  predicate LosesBy(steps: seq<Step>, job: Job) {
    || ForgottenEarly(steps, job, false) || StruckBy(steps, job)
    || (BreaksOff(steps) && LeftBehind(steps, job)) || StillToMark(steps, job)
  }

  lemma JobLostByEvents(workers: nat, queue: nat, steps: seq<Step>, job: Job)
    requires Possible(NewExecutor(workers, queue), steps) && Run(NewExecutor(workers, queue), steps).phase == Closed
    ensures Lost(Run(NewExecutor(workers, queue), steps), job) <==> LosesBy(steps, job)
  {
    var n := Run(NewExecutor(workers, queue), steps);
    NewExecutorRuns(workers, queue, steps);
    RunEvents(NewExecutor(workers, queue), steps, job);
    SlippedIffForgottenEarly(workers, queue, steps, job);
    if job in n.jobs {
      assert EntryOk(Closed, n.jobs[job]);
    }
  }

  /** After shutdown the events of the run alone tell which jobs are lost: those that one of four things happened to. */
  lemma LostByEvents(workers: nat, queue: nat, steps: seq<Step>)
    requires Possible(NewExecutor(workers, queue), steps)
    ensures var n := Run(NewExecutor(workers, queue), steps);
            n.phase == Closed ==>
              && (forall job :: Lost(n, job) <==> LosesBy(steps, job))
              && (NothingLost(n) <==> forall job :: !LosesBy(steps, job))
  {
    var n := Run(NewExecutor(workers, queue), steps);
    if n.phase == Closed {
      forall job ensures Lost(n, job) <==> LosesBy(steps, job) {
        JobLostByEvents(workers, queue, steps, job);
      }
    }
  }

  // ---- Runs that lose a job ----------------------------------------------

  predicate Leads(s: System, steps: seq<Step>, t: System) {
    Possible(s, steps) && Run(s, steps) == t
  }

  lemma {:induction false} LeadsOn(s: System, steps: seq<Step>, t: System, step: Step)
    requires Leads(s, steps, t) && Enabled(t, step)
    ensures Leads(s, steps + [step], Next(t, step))
    decreases |steps|
  {
    if steps == [] {
      assert steps + [step] == [step] && [step][1..] == [];
    } else {
      LeadsOn(Next(s, steps[0]), steps[1..], t, step);
      assert (steps + [step])[1..] == steps[1..] + [step];
    }
  }

  /** One more step of a run from `start`. */
  lemma Then(start: System, steps: seq<Step>, s: System, step: Step) returns (more: seq<Step>, n: System)
    requires Leads(start, steps, s) && Enabled(s, step)
    ensures Leads(start, more, n) && n == Next(s, step)
  {
    LeadsOn(start, steps, s, step);
    more, n := steps + [step], Next(s, step);
  }

  /** From a shutdown under way with nothing left to cancel, wait for or mark, to its end and the return to a waiting
      caller. */
  lemma ShutsDown(start: System, steps: seq<Step>, s: System, closer: Closer) returns (more: seq<Step>, n: System)
    requires Leads(start, steps, s) && s.phase == Closing && closer in s.waiting
    requires forall job | job in s.jobs :: !s.jobs[job].registered && !s.jobs[job].holding
    requires forall job | job in s.jobs :: s.jobs[job].stage != Queued && s.jobs[job].stage != Running
    ensures Leads(start, more, n) && n.phase == Closed && closer in n.returned
    ensures n.jobs == Listed(s.jobs)
  {
    more, n := Then(start, steps, s, TakeSnapshot);
    more, n := Then(start, more, n, StopCancelling);
    more, n := Then(start, more, n, WorkersGone);
    more, n := Then(start, more, n, FinishShutdown);
    more, n := Then(start, more, n, Return(closer));
  }

  /** A refused call is still on its way to marking when shutdown returns. */
  lemma RefusedJobPending(workers: nat, queue: nat, job: Job, closer: Closer) returns (steps: seq<Step>)
    ensures Possible(NewExecutor(workers, queue), steps)
    ensures var n := Run(NewExecutor(workers, queue), steps);
            closer in n.returned && Lost(n, job) && Enabled(n, MarkRefused(job))
  {
    var start := NewExecutor(workers, queue);
    var s := start;
    steps := [];
    steps, s := Then(start, steps, s, BeginShutdown);
    steps, s := Then(start, steps, s, Arrive(closer));
    steps, s := Then(start, steps, s, Submit(job));
    steps, s := ShutsDown(start, steps, s, closer);
  }

  /** A caller gives up on a queued job while the service is open: its row stays as it was, and nobody is left to mark
      it. */
  lemma AbandonedJobLost(workers: nat, queue: nat, job: Job, closer: Closer) returns (steps: seq<Step>)
    requires workers + queue >= 1
    ensures Possible(NewExecutor(workers, queue), steps)
    ensures var n := Run(NewExecutor(workers, queue), steps);
            closer in n.returned && Lost(n, job) && Accepted(n, job) && n.free == workers + queue
  {
    var start := NewExecutor(workers, queue);
    var s := start;
    steps := [];
    steps, s := Then(start, steps, s, Submit(job));
    steps, s := Then(start, steps, s, Abandon(job));
    steps, s := Then(start, steps, s, Release(job));
    steps, s := Then(start, steps, s, Forget(job));
    steps, s := Then(start, steps, s, BeginShutdown);
    steps, s := Then(start, steps, s, Arrive(closer));
    steps, s := ShutsDown(start, steps, s, closer);
    PermitsBack(workers, queue, steps);
  }

  /** Two queued jobs in the snapshot. */
  lemma TwoQueued(workers: nat, queue: nat, a: Job, b: Job, closer: Closer) returns (steps: seq<Step>, s: System)
    requires workers + queue >= 2 && a != b
    ensures Leads(NewExecutor(workers, queue), steps, s)
    ensures s.phase == Snapshotted && closer in s.waiting
    ensures s.jobs == map[a := NEW.(listed := true), b := NEW.(listed := true)]
  {
    var start := NewExecutor(workers, queue);
    s := start;
    steps := [];
    steps, s := Then(start, steps, s, Submit(a));
    steps, s := Then(start, steps, s, Submit(b));
    assert s.jobs == map[a := NEW, b := NEW];
    steps, s := Then(start, steps, s, BeginShutdown);
    steps, s := Then(start, steps, s, Arrive(closer));
    steps, s := Then(start, steps, s, TakeSnapshot);
  }

  const CANCELLED := Entry(Cancelled, false, false, false, false, false, true, false, false)

  lemma CancelsOne(start: System, steps: seq<Step>, s: System, job: Job) returns (more: seq<Step>, n: System)
    requires Leads(start, steps, s) && s.phase == Snapshotted && OwnCallbacksRun(s.jobs)
    requires job in s.jobs && s.jobs[job] == NEW.(listed := true)
    ensures Leads(start, more, n) && n.phase == Snapshotted && n.waiting == s.waiting
    ensures n.jobs == s.jobs[job := CANCELLED]
  {
    more, n := Then(start, steps, s, CancelOne(job));
    more, n := Then(start, more, n, Release(job));
    more, n := Then(start, more, n, Forget(job));
    assert n.jobs[job] == CANCELLED;
  }

  lemma BothCancelled(workers: nat, queue: nat, a: Job, b: Job, closer: Closer) returns (steps: seq<Step>, s: System)
    requires workers + queue >= 2 && a != b
    ensures Leads(NewExecutor(workers, queue), steps, s)
    ensures s.phase == Snapshotted && closer in s.waiting && s.jobs == map[a := CANCELLED, b := CANCELLED]
  {
    var start := NewExecutor(workers, queue);
    steps, s := TwoQueued(workers, queue, a, b, closer);
    steps, s := CancelsOne(start, steps, s, a);
    steps, s := CancelsOne(start, steps, s, b);
  }

  /** Marking one cancelled job raises: the closing thread gives up, shutdown returns to everyone who waited, and the
      other job is never marked. */
  lemma MarkingBreaksOff(workers: nat, queue: nat, a: Job, b: Job, closer: Closer, landed: bool)
    returns (steps: seq<Step>)
    requires workers + queue >= 2 && a != b
    ensures Possible(NewExecutor(workers, queue), steps)
    ensures var n := Run(NewExecutor(workers, queue), steps);
            closer in n.returned && Lost(n, b) && (Lost(n, a) <==> !landed)
  {
    var start := NewExecutor(workers, queue);
    var s;
    steps, s := BothCancelled(workers, queue, a, b, closer);
    steps, s := GivesUp(start, steps, s, a, closer, landed);
  }

  lemma GivesUp(start: System, steps: seq<Step>, s: System, job: Job, closer: Closer, landed: bool)
    returns (more: seq<Step>, n: System)
    requires Leads(start, steps, s) && s.phase == Snapshotted && closer in s.waiting
    requires job in s.jobs && forall j | j in s.jobs :: s.jobs[j] == CANCELLED
    ensures Leads(start, more, n) && closer in n.returned
    ensures forall j | j in s.jobs :: Lost(n, j) <==> !(j == job && landed)
  {
    more, n := Then(start, steps, s, StopCancelling);
    more, n := Then(start, more, n, WorkersGone);
    more, n := Then(start, more, n, MarkingRaises(job, landed));
    more, n := Then(start, more, n, Return(closer));
  }
}
