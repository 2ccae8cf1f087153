/** What the executor can always do: take in as many jobs as it has room for, and end any shutdown that has begun. */
module ShutdownProgress {
  import opened Sequences
  import opened IngestionShutdown

  // ---- The bound is reached ----------------------------------------------

  /** Jobs `0` to `n - 1` wait in the queue. */
  ghost predicate Filled(s: System, n: nat, workers: nat, queue: nat) {
    && s.workers == workers && s.phase == Open && s.free == workers + queue - n
    && forall job: Job :: (job in s.jobs <==> job < n) && (job in s.jobs ==> s.jobs[job] == NEW)
  }

  lemma {:induction false} Fill(workers: nat, queue: nat, n: nat) returns (steps: seq<Step>, s: System)
    requires n <= workers + queue
    ensures Leads(NewExecutor(workers, queue), steps, s) && Filled(s, n, workers, queue)
  {
    var start := NewExecutor(workers, queue);
    if n == 0 {
      steps, s := [], start;
    } else {
      steps, s := Fill(workers, queue, n - 1);
      steps, s := Then(start, steps, s, Submit(n - 1));
    }
  }

  /** Of the jobs `0` to `n - 1` the first `k` run. */
  ghost predicate Started(s: System, n: nat, k: nat, workers: nat, queue: nat) {
    && s.workers == workers && s.phase == Open && s.free == workers + queue - n
    && forall job: Job ::
         && (job in s.jobs <==> job < n)
         && (job in s.jobs ==> s.jobs[job] == if job < k then NEW.(stage := Running) else NEW)
  }

  lemma {:induction false} UpTo(n: nat) returns (r: set<Job>)
    ensures |r| == n && forall job: Job :: job in r <==> job < n
  {
    if n == 0 {
      r := {};
    } else {
      r := UpTo(n - 1);
      r := r + {n - 1};
    }
  }

  lemma StartedSizes(s: System, n: nat, k: nat, workers: nat, queue: nat)
    requires Started(s, n, k, workers, queue) && k <= n
    ensures |Runners(s.jobs)| == k && |Unfinished(s.jobs)| == n
  {
    var r := UpTo(k);
    assert Runners(s.jobs) == r;
    var u := UpTo(n);
    assert Unfinished(s.jobs) == u;
  }

  lemma {:induction false} Work(workers: nat, queue: nat, k: nat) returns (steps: seq<Step>, s: System)
    requires k <= workers
    ensures Leads(NewExecutor(workers, queue), steps, s) && Started(s, workers + queue, k, workers, queue)
  {
    if k == 0 {
      steps, s := Fill(workers, queue, workers + queue);
    } else {
      steps, s := Work(workers, queue, k - 1);
      StartedSizes(s, workers + queue, k - 1, workers, queue);
      steps, s := Then(NewExecutor(workers, queue), steps, s, Start(k - 1));
    }
  }

  /** The bound on unfinished jobs is the best one: some run reaches it with every worker busy, and then the next call
      is refused. */
  lemma BoundReached(workers: nat, queue: nat) returns (steps: seq<Step>)
    ensures Possible(NewExecutor(workers, queue), steps)
    ensures var n := Run(NewExecutor(workers, queue), steps);
            && |Unfinished(n.jobs)| == workers + queue && |Runners(n.jobs)| == workers && n.phase == Open
            && forall job | job !in n.jobs :: At(Next(n, Submit(job)), job, Refused)
  {
    var s;
    steps, s := Work(workers, queue, workers);
    StartedSizes(s, workers + queue, workers, workers, queue);
  }

  // ---- Every shutdown can end --------------------------------------------

  function Rank(phase: Phase): nat {
    match phase
    case Open => 5
    case Closing => 4
    case Snapshotted => 3
    case Draining => 2
    case Marking => 1
    case Closed => 0
  }

  function Waiters(jobs: map<Job, Entry>): set<Job> {
    set job | job in jobs && jobs[job].stage == Queued
  }

  function Registered(jobs: map<Job, Entry>): set<Job> {
    set job | job in jobs && jobs[job].registered
  }

  function Unmarked(jobs: map<Job, Entry>): set<Job> {
    set job | job in jobs && AwaitsMark(jobs[job])
  }

  lemma SizesAfterPut(jobs: map<Job, Entry>, job: Job, e: Entry)
    requires job in jobs
    ensures |Waiters(jobs[job := e])| + One(jobs[job].stage == Queued) == |Waiters(jobs)| + One(e.stage == Queued)
    ensures |Registered(jobs[job := e])| + One(jobs[job].registered) == |Registered(jobs)| + One(e.registered)
    ensures |Unmarked(jobs[job := e])| + One(AwaitsMark(jobs[job])) == |Unmarked(jobs)| + One(AwaitsMark(e))
  {
    var n := jobs[job := e];
    assert Waiters(n) - {job} == Waiters(jobs) - {job};
    assert Registered(n) - {job} == Registered(jobs) - {job};
    assert Unmarked(n) - {job} == Unmarked(jobs) - {job};
    SizeBut(Waiters(jobs), Waiters(n), job);
    SizeBut(Registered(jobs), Registered(n), job);
    SizeBut(Unmarked(jobs), Unmarked(n), job);
  }

  /** How much is left to do, the most significant part first. */
  function Effort(s: System): (r: (nat, nat, nat, nat, nat, nat, nat)) {
    (Rank(s.phase), |Waiters(s.jobs)|, |Runners(s.jobs)|, |Holders(s.jobs)|, |Registered(s.jobs)|, |Unmarked(s.jobs)|,
     |s.waiting|)
  }

  predicate Less(a: (nat, nat, nat, nat, nat, nat, nat), b: (nat, nat, nat, nat, nat, nat, nat)) {
    a.0 < b.0
    || (a.0 == b.0
        && (a.1 < b.1
            || (a.1 == b.1
                && (a.2 < b.2
                    || (a.2 == b.2
                        && (a.3 < b.3
                            || (a.3 == b.3
                                && (a.4 < b.4 || (a.4 == b.4 && (a.5 < b.5 || (a.5 == b.5 && a.6 < b.6)))))))))))
  }

  /** The callbacks that somebody waits for. */
  predicate Owed(s: System, job: Job) {
    && job in s.jobs && (s.jobs[job].holding || s.jobs[job].registered)
    && if s.phase == Snapshotted then s.jobs[job].stage == Cancelled && !s.jobs[job].abandoned
       else s.jobs[job].stage == Finished
  }

  lemma RunsCallback(s: System, job: Job) returns (step: Step)
    requires Owed(s, job)
    ensures Enabled(s, step) && Less(Effort(Next(s, step)), Effort(s)) && Next(s, step).phase == s.phase
    ensures !Disturbs(step)
  {
    step := if s.jobs[job].holding then Release(job) else Forget(job);
    var e := Next(s, step).jobs[job];
    BooksAfterPut(s.jobs, job, e);
    SizesAfterPut(s.jobs, job, e);
  }

  lemma Cancels(s: System) returns (step: Step)
    requires s.phase == Snapshotted
    ensures Enabled(s, step) && !Disturbs(step)
    ensures Less(Effort(Next(s, step)), Effort(s)) && Next(s, step).phase != Open
  {
    if job :| Owed(s, job) {
      step := RunsCallback(s, job);
    } else if job :| At(s, job, Queued) {
      forall j | j in s.jobs && s.jobs[j].stage == Cancelled && !s.jobs[j].abandoned
        ensures !s.jobs[j].holding && !s.jobs[j].registered
      {
        assert !Owed(s, j);
      }
      step := CancelOne(job);
      SizesAfterPut(s.jobs, job, Next(s, step).jobs[job]);
    } else {
      forall j | j in s.jobs
        ensures s.jobs[j].stage != Queued
        ensures s.jobs[j].stage == Cancelled && !s.jobs[j].abandoned ==> !s.jobs[j].holding && !s.jobs[j].registered
      {
        assert !Owed(s, j) && !At(s, j, Queued);
      }
      step := StopCancelling;
    }
  }

  lemma Drains(s: System) returns (step: Step)
    requires s.phase == Draining
    ensures Enabled(s, step) && !Disturbs(step)
    ensures Less(Effort(Next(s, step)), Effort(s)) && Next(s, step).phase != Open
  {
    if job :| At(s, job, Running) {
      step := Finish(job);
      BooksAfterPut(s.jobs, job, Next(s, step).jobs[job]);
      SizesAfterPut(s.jobs, job, Next(s, step).jobs[job]);
    } else if job :| Owed(s, job) {
      step := RunsCallback(s, job);
    } else {
      forall j | j in s.jobs
        ensures s.jobs[j].stage != Running
        ensures s.jobs[j].stage == Finished ==> !s.jobs[j].holding && !s.jobs[j].registered
      {
        assert !Owed(s, j) && !At(s, j, Running);
      }
      step := WorkersGone;
    }
  }

  lemma Marks(s: System) returns (step: Step)
    requires s.phase == Marking
    ensures Enabled(s, step) && !Disturbs(step)
    ensures Less(Effort(Next(s, step)), Effort(s)) && Next(s, step).phase != Open
  {
    if job :| job in s.jobs && AwaitsMark(s.jobs[job]) {
      step := MarkCancelled(job);
      BooksAfterPut(s.jobs, job, Next(s, step).jobs[job]);
      SizesAfterPut(s.jobs, job, Next(s, step).jobs[job]);
    } else {
      step := FinishShutdown;
    }
  }

  /** However far a shutdown is, something can be done that brings it nearer to its end, without anyone being cancelled,
      raising or calling anew. */
  lemma Advances(s: System) returns (step: Step)
    requires s.phase != Open && (s.phase != Closed || s.waiting != {})
    ensures Enabled(s, step) && !Disturbs(step)
    ensures Less(Effort(Next(s, step)), Effort(s)) && Next(s, step).phase != Open
  {
    match s.phase {
      case Closing => step := TakeSnapshot;
      case Snapshotted => step := Cancels(s);
      case Draining => step := Drains(s);
      case Marking => step := Marks(s);
      case Closed =>
        var closer :| closer in s.waiting;
        step := Return(closer);
        assert |s.waiting - {closer}| < |s.waiting|;
    }
  }

  lemma NobodyForgotten(s: System, step: Step)
    requires Enabled(s, step)
    ensures s.waiting + s.returned <= Next(s, step).waiting + Next(s, step).returned
  {
  }

  /** From every state of a shutdown under way there is a run to its end in which every caller who waits for it gets
      away. */
  lemma {:induction false} ShutdownCanEnd(s: System) returns (steps: seq<Step>)
    requires s.phase != Open
    ensures Possible(s, steps) && Calm(steps)
    ensures Run(s, steps).phase == Closed && Run(s, steps).waiting == {}
    ensures s.waiting + s.returned <= Run(s, steps).returned
    decreases Effort(s).0, Effort(s).1, Effort(s).2, Effort(s).3, Effort(s).4, Effort(s).5, Effort(s).6
  {
    if s.phase == Closed && s.waiting == {} {
      steps := [];
    } else {
      var step := Advances(s);
      NobodyForgotten(s, step);
      var rest := ShutdownCanEnd(Next(s, step));
      steps := [step] + rest;
      assert steps[1..] == rest;
    }
  }
}
