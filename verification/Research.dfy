/** Outside research for waiting requests: one evidence post each, quarantined when suspicious, resolved once. */
module Research {

  type Id = string

  datatype EvidenceStatus = Published | NeedsReview | Discarded

  datatype Post = Request(task: Id) | Evidence(task: Id, request: Id, status: EvidenceStatus) | OtherPost

  datatype TaskStatus = Waiting | Completed | Failed

  datatype Task = Task(owner: Id, status: TaskStatus)

  type Posts = map<Id, Post>
  type Tasks = map<Id, Task>

  /** How a request for research ends. Interrupted: a write failed, and the ones before it stay. */
  datatype Outcome = Answered | Quarantined | Dropped | Refused | Interrupted

  datatype Action = Release | Discard

  predicate IsRequest(posts: Posts, r: Id) {
    r in posts && posts[r].Request?
  }

  predicate EvidenceFor(posts: Posts, r: Id, e: Id) {
    e in posts && posts[e].Evidence? && posts[e].request == r
  }

  predicate HasEvidence(posts: Posts, r: Id) {
    exists e | e in posts :: EvidenceFor(posts, r, e)
  }

  predicate HasEvidenceIn(posts: Posts, r: Id, status: EvidenceStatus) {
    exists e | e in posts :: EvidenceFor(posts, r, e) && posts[e].status == status
  }

  // ---- What holds however a run is interrupted ---------------------------

  /** Requests stand for different tasks; evidence belongs to a request and its task; a request has at most one. */
  ghost predicate Linked(posts: Posts) {
    && (forall r, s | IsRequest(posts, r) && IsRequest(posts, s) && posts[r].task == posts[s].task :: r == s)
    && (forall e | e in posts && posts[e].Evidence? ::
          IsRequest(posts, posts[e].request) && posts[e].task == posts[posts[e].request].task)
    && (forall r, d, e | EvidenceFor(posts, r, d) && EvidenceFor(posts, r, e) :: d == e)
  }

  predicate Backed(posts: Posts, tasks: Tasks, r: Id) {
    IsRequest(posts, r) && posts[r].task in tasks
  }

  /** A task is completed only for published evidence, and failed only for discarded evidence. */
  predicate EndsEarned(posts: Posts, tasks: Tasks, r: Id)
    requires Backed(posts, tasks, r)
  {
    match tasks[posts[r].task].status
    case Completed => HasEvidenceIn(posts, r, Published)
    case Failed => HasEvidenceIn(posts, r, Discarded)
    case Waiting => true
  }

  /** And the other way around: published evidence completes the task, discarded evidence fails it. */
  predicate Settled(posts: Posts, tasks: Tasks, r: Id)
    requires Backed(posts, tasks, r)
  {
    var status := tasks[posts[r].task].status;
    && (status == Completed <==> HasEvidenceIn(posts, r, Published))
    && (status == Failed <==> HasEvidenceIn(posts, r, Discarded))
  }

  ghost predicate Safe(posts: Posts, tasks: Tasks) {
    Linked(posts) && forall r | Backed(posts, tasks, r) :: EndsEarned(posts, tasks, r)
  }

  /** Posts stay, and evidence changes its status at most once, out of review. */
  predicate Advanced(before: Posts, after: Posts) {
    forall p | p in before ::
      p in after
      && (after[p] == before[p]
          || (before[p].Evidence? && before[p].status == NeedsReview
              && after[p].Evidence? && after[p] == before[p].(status := after[p].status)))
  }

  lemma AdvancedTransitive(a: Posts, b: Posts, c: Posts)
    requires Advanced(a, b) && Advanced(b, c)
    ensures Advanced(a, c)
  {
  }

  // ---- Single writes -----------------------------------------------------

  lemma AddEvidence(posts: Posts, tasks: Tasks, r: Id, e: Id, status: EvidenceStatus)
    requires Safe(posts, tasks) && IsRequest(posts, r) && !HasEvidence(posts, r) && e !in posts
    ensures var more := posts[e := Evidence(posts[r].task, r, status)];
            Safe(more, tasks) && Advanced(posts, more) && EvidenceFor(more, r, e)
  {
    var more := posts[e := Evidence(posts[r].task, r, status)];
    forall s | Backed(more, tasks, s) ensures EndsEarned(more, tasks, s) {
      assert Backed(posts, tasks, s) && EndsEarned(posts, tasks, s);
      EvidenceKept(posts, more, s);
    }
    forall s, d | EvidenceFor(more, s, d) ensures if d == e then s == r else s != r && EvidenceFor(posts, s, d) {
      assert d in posts ==> !EvidenceFor(posts, r, d);
    }
  }

  /** The check for earlier evidence is what keeps a request to one post: writing without it, as when two dispatches
      both checked before either wrote, breaks the link exactly when evidence was there. */
  lemma OnePostIffChecked(posts: Posts, r: Id, e: Id, status: EvidenceStatus)
    requires Linked(posts) && IsRequest(posts, r) && e !in posts
    ensures Linked(posts[e := Evidence(posts[r].task, r, status)]) <==> !HasEvidence(posts, r)
  {
    var more := posts[e := Evidence(posts[r].task, r, status)];
    if HasEvidence(posts, r) {
      var d :| d in posts && EvidenceFor(posts, r, d);
      assert EvidenceFor(more, r, d) && EvidenceFor(more, r, e);
    } else {
      assert Safe(posts, map[]);
      AddEvidence(posts, map[], r, e, status);
    }
  }

  lemma EvidenceKept(before: Posts, after: Posts, r: Id)
    requires forall p | p in before :: p in after && after[p] == before[p]
    ensures forall status | HasEvidenceIn(before, r, status) :: HasEvidenceIn(after, r, status)
  {
    forall status | HasEvidenceIn(before, r, status) ensures HasEvidenceIn(after, r, status) {
      var e :| e in before && EvidenceFor(before, r, e) && before[e].status == status;
      assert EvidenceFor(after, r, e);
    }
  }

  /** Evidence leaves review. */
  lemma EndReview(posts: Posts, tasks: Tasks, e: Id, status: EvidenceStatus)
    requires Safe(posts, tasks) && e in posts && posts[e].Evidence? && posts[e].status == NeedsReview
    ensures var more := posts[e := posts[e].(status := status)];
            Safe(more, tasks) && Advanced(posts, more) && EvidenceFor(more, posts[e].request, e)
  {
    var more := posts[e := posts[e].(status := status)];
    forall s, d | EvidenceFor(more, s, d) ensures EvidenceFor(posts, s, d) {
    }
    forall s | Backed(more, tasks, s) ensures EndsEarned(more, tasks, s) {
      assert Backed(posts, tasks, s) && EndsEarned(posts, tasks, s);
      forall st | st != NeedsReview && HasEvidenceIn(posts, s, st) ensures HasEvidenceIn(more, s, st) {
        var d :| d in posts && EvidenceFor(posts, s, d) && posts[d].status == st;
        assert EvidenceFor(more, s, d);
      }
    }
  }

  lemma EndTask(posts: Posts, tasks: Tasks, r: Id, e: Id, status: TaskStatus)
    requires Safe(posts, tasks) && Backed(posts, tasks, r) && EvidenceFor(posts, r, e)
    requires posts[e].status == if status == Completed then Published else Discarded
    requires status != Waiting
    ensures var t := posts[r].task;
            var more := tasks[t := tasks[t].(status := status)];
            Safe(posts, more) && Settled(posts, more, r)
  {
    var t := posts[r].task;
    var more := tasks[t := tasks[t].(status := status)];
    assert HasEvidenceIn(posts, r, posts[e].status);
    forall s | Backed(posts, more, s) ensures EndsEarned(posts, more, s) {
      assert Backed(posts, tasks, s) && EndsEarned(posts, tasks, s);
    }
  }

  lemma SameWrite(posts: Posts, p: Id)
    requires p in posts
    ensures posts[p := posts[p]] == posts
  {
  }

  // ---- When every request is settled -------------------------------------

  ghost predicate AllSettled(posts: Posts, tasks: Tasks) {
    forall r | Backed(posts, tasks, r) :: Settled(posts, tasks, r)
  }

  /** Only the evidence `e` for request `r` was added or moved, and only the task of `r` changed. */
  predicate Only(r: Id, e: Id, posts: Posts, tasks: Tasks, posts': Posts, tasks': Tasks)
    requires IsRequest(posts, r)
  {
    && (e in posts ==> EvidenceFor(posts, r, e)) && EvidenceFor(posts', r, e)
    && posts' == posts[e := posts'[e]]
    && tasks'.Keys == tasks.Keys
    && forall t | t in tasks && t != posts[r].task :: tasks'[t] == tasks[t]
  }

  lemma OthersSettled(r: Id, e: Id, posts: Posts, tasks: Tasks, posts': Posts, tasks': Tasks, s: Id)
    requires IsRequest(posts, r) && Only(r, e, posts, tasks, posts', tasks')
    requires Linked(posts) && Linked(posts') && Backed(posts', tasks', s) && s != r
    requires Settled(posts, tasks, s)
    ensures Settled(posts', tasks', s)
  {
    forall status ensures HasEvidenceIn(posts', s, status) <==> HasEvidenceIn(posts, s, status) {
      if HasEvidenceIn(posts', s, status) {
        var d :| d in posts' && EvidenceFor(posts', s, d) && posts'[d].status == status;
        assert EvidenceFor(posts, s, d);
      }
      if HasEvidenceIn(posts, s, status) {
        var d :| d in posts && EvidenceFor(posts, s, d) && posts[d].status == status;
        assert EvidenceFor(posts', s, d);
      }
    }
  }

  lemma OneEvidence(posts: Posts, r: Id, e: Id)
    requires Linked(posts) && EvidenceFor(posts, r, e)
    ensures forall status :: HasEvidenceIn(posts, r, status) <==> posts[e].status == status
  {
  }

  /** What the task of a request must be, given its evidence. */
  function Due(status: EvidenceStatus): TaskStatus {
    match status
    case Published => Completed
    case NeedsReview => Waiting
    case Discarded => Failed
  }

  /** A step on `r` keeps all requests settled exactly when it leaves the task of `r` as its evidence says. */
  lemma StepSettles(r: Id, e: Id, posts: Posts, tasks: Tasks, posts': Posts, tasks': Tasks)
    requires Backed(posts, tasks, r) && Only(r, e, posts, tasks, posts', tasks')
    requires Linked(posts) && Linked(posts') && AllSettled(posts, tasks)
    ensures AllSettled(posts', tasks') <==> tasks'[posts[r].task].status == Due(posts'[e].status)
  {
    OneEvidence(posts', r, e);
    assert Backed(posts', tasks', r);
    forall s | Backed(posts', tasks', s) && s != r ensures Settled(posts', tasks', s) {
      assert Backed(posts, tasks, s);
      OthersSettled(r, e, posts, tasks, posts', tasks', s);
    }
  }

  // ---- The board ---------------------------------------------------------

  datatype MaybeContent = Nothing | Content(text: string)

  class Board {
    var posts: Posts
    var tasks: Tasks
    /** The pairs of request and evidence that inbox reviews refer to. */
    var reviews: set<(Id, Id)>

    ghost predicate Valid()
      reads this
    {
      && Safe(posts, tasks)
      && forall p | p in reviews :: EvidenceFor(posts, p.0, p.1)
    }

    /** A board of requests nobody has answered yet, each for a waiting task of its own. */
    constructor (posts: Posts, tasks: Tasks)
      requires Linked(posts) && forall p | p in posts :: !posts[p].Evidence?
      requires forall r | Backed(posts, tasks, r) :: tasks[posts[r].task].status == Waiting
      ensures Valid() && AllSettled(this.posts, this.tasks)
      ensures this.posts == posts && this.tasks == tasks && reviews == {}
    {
      this.posts, this.tasks, reviews := posts, tasks, {};
    }

    /** Turn accepted evidence into the answer. `writes` says how many of its writes go through. */
    method Finalize(requestId: Id, evidenceId: Id, writes: nat) returns (done: bool)
      requires Valid() && EvidenceFor(posts, requestId, evidenceId) && posts[evidenceId].status != Discarded
      requires Backed(posts, tasks, requestId)
      modifies this`posts, this`tasks
      ensures Valid() && Advanced(old(posts), posts)
      ensures done <==> writes >= 3
      ensures posts == if writes < 1 then old(posts)
                        else old(posts)[evidenceId := old(posts)[evidenceId].(status := Published)]
      ensures var t := old(posts)[requestId].task;
              tasks == if done then old(tasks)[t := Task(old(tasks)[t].owner, Completed)] else old(tasks)
    {
      if writes < 1 {
        return false;
      }
      if posts[evidenceId].status == NeedsReview {
        EndReview(posts, tasks, evidenceId, Published);
      } else {
        SameWrite(posts, evidenceId);
      }
      posts := posts[evidenceId := posts[evidenceId].(status := Published)];
      if writes < 2 {
        return false;
      }
      SameWrite(posts, requestId);
      posts := posts[requestId := posts[requestId]];
      if writes < 3 {
        return false;
      }
      var t := posts[requestId].task;
      EndTask(posts, tasks, requestId, evidenceId, Completed);
      tasks := tasks[t := tasks[t].(status := Completed)];
      return true;
    }

    /** Answer a request with what was acquired for it, if anything was. Refused exactly when there is no such request
        with a task of the user's, it was answered before, or nothing was acquired. */
    method Fulfill(requestId: Id, user: Id, acquired: MaybeContent, suspicious: string -> bool, evidenceId: Id,
                   writes: nat)
      returns (outcome: Outcome)
      requires Valid() && evidenceId !in posts
      modifies this
      ensures Valid() && Advanced(old(posts), posts)
      ensures outcome.Refused? <==>
                !Backed(old(posts), old(tasks), requestId) || HasEvidence(old(posts), requestId)
                || old(tasks)[old(posts)[requestId].task].owner != user || acquired.Nothing?
      ensures outcome.Refused? || writes == 0 ==> posts == old(posts) && tasks == old(tasks) && reviews == old(reviews)
      ensures !outcome.Refused? && writes > 0 ==>
                var t, risky := old(posts)[requestId].task, suspicious(acquired.text);
                && posts == old(posts)[evidenceId := Evidence(t, requestId, if risky then NeedsReview else Published)]
                && reviews == old(reviews) + (if risky && writes >= 2 then {(requestId, evidenceId)} else {})
                && tasks == if outcome.Answered? then old(tasks)[t := Task(user, Completed)] else old(tasks)
      ensures !outcome.Refused? ==>
                var risky := suspicious(acquired.text);
                outcome == if writes < (if risky then 3 else 4) then Interrupted
                           else if risky then Quarantined else Answered
    {
      if requestId !in posts || !posts[requestId].Request? || HasEvidence(posts, requestId) {
        return Refused;
      }
      var t := posts[requestId].task;
      if t !in tasks || tasks[t].owner != user || acquired.Nothing? {
        return Refused;
      }
      var risky := suspicious(acquired.text);
      if writes < 1 {
        return Interrupted;
      }
      AddEvidence(posts, tasks, requestId, evidenceId, if risky then NeedsReview else Published);
      posts := posts[evidenceId := Evidence(t, requestId, if risky then NeedsReview else Published)];
      if !risky {
        SameWrite(posts, evidenceId);
        ghost var added := posts;
        var done := Finalize(requestId, evidenceId, writes - 1);
        AdvancedTransitive(old(posts), added, posts);
        return if done then Answered else Interrupted;
      }
      if writes < 2 {
        return Interrupted;
      }
      reviews := reviews + {(requestId, evidenceId)};
      if writes < 3 {
        return Interrupted;
      }
      tasks := tasks[t := tasks[t]];
      assert tasks == old(tasks);
      return Quarantined;
    }

    /** Decide a review, as an inbox item names it. Refused exactly when its evidence is no longer in review. */
    method Resolve(requestId: Id, evidenceId: Id, action: Action, writes: nat) returns (outcome: Outcome)
      requires Valid() && (requestId, evidenceId) in reviews
      modifies this`posts, this`tasks
      ensures Valid() && Advanced(old(posts), posts)
      ensures outcome.Refused? <==>
                !Backed(old(posts), old(tasks), requestId) || old(posts)[evidenceId].status != NeedsReview
      ensures outcome.Refused? || writes == 0 ==> posts == old(posts) && tasks == old(tasks)
      ensures !outcome.Refused? && writes > 0 ==>
                var t := old(posts)[requestId].task;
                && posts == old(posts)[evidenceId := old(posts)[evidenceId].(
                                         status := if action.Release? then Published else Discarded)]
                && tasks == match outcome
                            case Answered => old(tasks)[t := Task(old(tasks)[t].owner, Completed)]
                            case Dropped => old(tasks)[t := Task(old(tasks)[t].owner, Failed)]
                            case _ => old(tasks)
      ensures !outcome.Refused? ==>
                outcome == if writes < (if action.Release? then 3 else 2) then Interrupted
                           else if action.Release? then Answered else Dropped
    {
      assert EvidenceFor(posts, requestId, evidenceId);
      var t := posts[requestId].task;
      if t !in tasks || posts[evidenceId].status != NeedsReview {
        return Refused;
      }
      if action == Release {
        var done := Finalize(requestId, evidenceId, writes);
        return if done then Answered else Interrupted;
      }
      if writes < 1 {
        return Interrupted;
      }
      EndReview(posts, tasks, evidenceId, Discarded);
      posts := posts[evidenceId := posts[evidenceId].(status := Discarded)];
      if writes < 2 {
        return Interrupted;
      }
      EndTask(posts, tasks, requestId, evidenceId, Failed);
      tasks := tasks[t := tasks[t].(status := Failed)];
      return Dropped;
    }

    /** One operation of a run; an id already taken or a review never made is passed over. */
    method Do(op: Op, suspicious: string -> bool) returns (outcome: Outcome)
      requires Valid()
      modifies this
      ensures Valid() && Advanced(old(posts), posts)
      ensures Stepped(old(posts), old(tasks), posts, tasks, op.request,
                      old(LosesAnswer(posts, tasks, reviews, op, suspicious)))
      ensures outcome.Interrupted? ==> op.writes < 4
      ensures op.FulfillOp? && old(op.evidence !in posts && Dispatchable(posts, tasks, op.request, op.user))
              && op.acquired.Content? && op.writes >= 4 ==>
                var risky := suspicious(op.acquired.text);
                && EvidenceFor(posts, op.request, op.evidence)
                && posts[op.evidence].status == (if risky then NeedsReview else Published)
                && (risky ==> (op.request, op.evidence) in reviews)
      ensures op.ResolveOp? && old((op.request, op.evidence) in reviews && Backed(posts, tasks, op.request)
                                   && posts[op.evidence].status == NeedsReview)
              && op.writes >= 4 ==>
                posts[op.evidence].status == if op.action.Release? then Published else Discarded
    {
      ghost var posts0, tasks0 := posts, tasks;
      ghost var loses := LosesAnswer(posts, tasks, reviews, op, suspicious);
      match op {
        case FulfillOp(requestId, user, acquired, evidenceId, writes) =>
          if evidenceId in posts {
            return Refused;
          }
          outcome := Fulfill(requestId, user, acquired, suspicious, evidenceId, writes);
          if !outcome.Refused? && writes > 0 {
            EvidenceStep(requestId, evidenceId, posts0, tasks0, posts, tasks, loses);
          }
        case ResolveOp(requestId, evidenceId, action, writes) =>
          if (requestId, evidenceId) !in reviews {
            return Refused;
          }
          outcome := Resolve(requestId, evidenceId, action, writes);
          if !outcome.Refused? && writes > 0 {
            EvidenceStep(requestId, evidenceId, posts0, tasks0, posts, tasks, loses);
          }
      }
    }

    /** Any sequence of operations: evidence leaves review at most once, and when every operation runs to its end, tasks
        are completed exactly for published evidence and failed exactly for discarded evidence. */
    method Run(ops: seq<Op>, suspicious: string -> bool)
      requires Valid() && AllSettled(posts, tasks)
      modifies this
      ensures Valid() && Advanced(old(posts), posts)
      ensures (forall i | 0 <= i < |ops| :: ops[i].writes >= 4) ==> AllSettled(posts, tasks)
    {
      for i := 0 to |ops|
        invariant Valid() && Advanced(old(posts), posts)
        invariant (forall k | 0 <= k < i :: ops[k].writes >= 4) ==> AllSettled(posts, tasks)
      {
        ghost var before := posts;
        var outcome := Do(ops[i], suspicious);
        AdvancedTransitive(old(posts), before, posts);
      }
    }
  }

  datatype Op =
    | FulfillOp(request: Id, user: Id, acquired: MaybeContent, evidence: Id, writes: nat)
    | ResolveOp(request: Id, evidence: Id, action: Action, writes: nat)

  /** A dispatch may go ahead: the request is backed by a task of the user's and has no evidence. */
  predicate Dispatchable(posts: Posts, tasks: Tasks, r: Id, user: Id) {
    Backed(posts, tasks, r) && tasks[posts[r].task].owner == user && !HasEvidence(posts, r)
  }

  /** Told before the operation: it will go ahead and publish or decide the evidence, and its writes stop short of the
      task, which is the fourth of a clean answer, the third of a release and the second of a discard. */
  predicate LosesAnswer(posts: Posts, tasks: Tasks, reviews: set<(Id, Id)>, op: Op, suspicious: string -> bool) {
    match op
    case FulfillOp(r, user, acquired, e, writes) =>
      && e !in posts && Dispatchable(posts, tasks, r, user)
      && acquired.Content? && !suspicious(acquired.text)
      && 0 < writes < 4
    case ResolveOp(r, e, action, writes) =>
      && (r, e) in reviews && Backed(posts, tasks, r)
      && EvidenceFor(posts, r, e) && posts[e].status == NeedsReview
      && 0 < writes < if action.Release? then 3 else 2
  }

  /** As long as no evidence is decided the task waits. */
  lemma StillWaiting(posts: Posts, tasks: Tasks, r: Id, e: Id)
    requires Safe(posts, tasks) && Backed(posts, tasks, r)
    requires !HasEvidence(posts, r) || (EvidenceFor(posts, r, e) && posts[e].status == NeedsReview)
    ensures tasks[posts[r].task].status == Waiting
  {
    assert EndsEarned(posts, tasks, r);
    if EvidenceFor(posts, r, e) {
      OneEvidence(posts, r, e);
    }
  }

  /** Two dispatches that both check before either writes: each may go ahead, and the request ends with two posts. */
  lemma RacingDispatchesPostTwice(posts: Posts, tasks: Tasks, r: Id, user: Id, d: Id, e: Id)
    requires Linked(posts) && Dispatchable(posts, tasks, r, user) && d !in posts && e !in posts && d != e
    ensures var one := posts[d := Evidence(posts[r].task, r, Published)];
            var two := one[e := Evidence(posts[r].task, r, Published)];
            && !Dispatchable(one, tasks, r, user)
            && EvidenceFor(two, r, d) && EvidenceFor(two, r, e) && !Linked(two)
  {
    var one := posts[d := Evidence(posts[r].task, r, Published)];
    assert EvidenceFor(one, r, d) && d in one;
    OnePostIffChecked(posts, r, d, Published);
    OnePostIffChecked(one, r, e, Published);
  }

  function Decided(action: Action): EvidenceStatus {
    match action
    case Release => Published
    case Discard => Discarded
  }

  /** A decision made on a copy of the evidence that was loaded while it was in review: writing the copy back takes the
      evidence out of review once and for all exactly when nobody has meanwhile decided otherwise. */
  lemma CopyDecidesOnceIff(posts: Posts, e: Id, copy: Post, action: Action)
    requires e in posts && posts[e].Evidence? && copy == posts[e].(status := NeedsReview)
    ensures Advanced(posts, posts[e := copy.(status := Decided(action))]) <==>
              posts[e].status == NeedsReview || posts[e].status == Decided(action)
  {
    var more := posts[e := copy.(status := Decided(action))];
    assert more[e] == posts[e].(status := Decided(action));
    if posts[e].status == Decided(action) {
      SameWrite(posts, e);
    }
  }

  /** Two people who both load a review before either decides it. Each decision runs to its end and settles the request,
      the second over the first; when they differ the evidence leaves one verdict for the other, and in between the task
      is ended for evidence that no longer says so. */
  lemma RacingReviewsDecideTwice(posts: Posts, tasks: Tasks, r: Id, e: Id, first: Action, second: Action)
    requires Safe(posts, tasks) && Backed(posts, tasks, r) && EvidenceFor(posts, r, e) && posts[e].status == NeedsReview
    ensures var copy, t := posts[e], posts[r].task;
            var one := posts[e := copy.(status := Decided(first))];
            var two := one[e := copy.(status := Decided(second))];
            var ended := tasks[t := tasks[t].(status := Due(Decided(first)))];
            && Settled(one, ended, r)
            && Settled(two, ended[t := ended[t].(status := Due(Decided(second)))], r)
            && (Advanced(one, two) <==> first == second)
            && (EndsEarned(two, ended, r) <==> first == second)
  {
    var copy, t := posts[e], posts[r].task;
    var one := posts[e := copy.(status := Decided(first))];
    var two := one[e := copy.(status := Decided(second))];
    assert two == posts[e := copy.(status := Decided(second))];
    EndReview(posts, tasks, e, Decided(first));
    EndReview(posts, tasks, e, Decided(second));
    OneEvidence(one, r, e);
    OneEvidence(two, r, e);
    CopyDecidesOnceIff(one, e, copy, second);
  }

  /** An answer that is lost: the first of its four writes goes through, and no more. */
  method LoseAnswer() returns (posts: Posts, tasks: Tasks)
    ensures Lost(posts, tasks, "request") && EvidenceFor(posts, "request", "evidence")
    ensures posts["evidence"].status == Published
  {
    var board := new Board(map["request" := Request("task")], map["task" := Task("user", Waiting)]);
    var outcome := board.Fulfill("request", "user", Content("text"), _ => false, "evidence", 1);
    posts, tasks := board.posts, board.tasks;
    assert EvidenceFor(posts, "request", "evidence");
  }

  /** The request's evidence is decided, but its task still waits. */
  predicate Lost(posts: Posts, tasks: Tasks, r: Id) {
    && Backed(posts, tasks, r) && tasks[posts[r].task].status == Waiting
    && (HasEvidenceIn(posts, r, Published) || HasEvidenceIn(posts, r, Discarded))
  }

  lemma LostStays(r: Id, e: Id, posts: Posts, tasks: Tasks, posts': Posts, tasks': Tasks, s: Id)
    requires Backed(posts, tasks, r) && Only(r, e, posts, tasks, posts', tasks')
    requires Linked(posts) && Linked(posts') && s != r && Lost(posts, tasks, s)
    ensures Lost(posts', tasks', s)
  {
    var d :| d in posts && EvidenceFor(posts, s, d) && posts[d].status != NeedsReview;
    assert EvidenceFor(posts', s, d);
  }

  /** Requests stay settled unless an answer is lost; then this one's is, and what is lost stays so. */
  ghost predicate Stepped(posts: Posts, tasks: Tasks, posts': Posts, tasks': Tasks, r: Id, loses: bool) {
    && (AllSettled(posts, tasks) ==> (AllSettled(posts', tasks') <==> !loses))
    && (loses ==> Lost(posts', tasks', r))
    && forall s | Lost(posts, tasks, s) :: Lost(posts', tasks', s)
  }

  /** The evidence `e` of `r` is new or leaves review, and the task of `r` follows it unless the answer is lost. */
  lemma EvidenceStep(r: Id, e: Id, posts: Posts, tasks: Tasks, posts': Posts, tasks': Tasks, loses: bool)
    requires Safe(posts, tasks) && Backed(posts, tasks, r) && Linked(posts')
    requires Only(r, e, posts, tasks, posts', tasks')
    requires if e in posts then posts[e].status == NeedsReview else !HasEvidence(posts, r)
    requires loses ==> posts'[e].status != NeedsReview
    requires var t := posts[r].task;
             tasks'[t].status
             == if loses || posts'[e].status == NeedsReview then tasks[t].status else Due(posts'[e].status)
    ensures Stepped(posts, tasks, posts', tasks', r, loses)
  {
    StillWaiting(posts, tasks, r, e);
    if AllSettled(posts, tasks) {
      StepSettles(r, e, posts, tasks, posts', tasks');
    }
    forall s | Lost(posts, tasks, s) ensures s != r && Lost(posts', tasks', s) {
      var d :| d in posts && EvidenceFor(posts, s, d) && posts[d].status != NeedsReview;
      LostStays(r, e, posts, tasks, posts', tasks', s);
    }
  }
}
