/** Process-local capacity: run reservations per user, and slots taken in two steps by concurrent workers. */
module RuntimeCapacity {
  import opened Sequences

  // ---- Run reservations --------------------------------------------------

  datatype Limits = Limits(processRuns: nat, userRuns: nat)

  /** Reservations by operation, and how many each user holds. */
  datatype Runs = Runs(reservations: map<string, string>, byUser: map<string, nat>)

  datatype Claim = Claim(accepted: bool, created: bool)

  function Held(reservations: map<string, string>, user: string): set<string> {
    set op | op in reservations && reservations[op] == user
  }

  function CountOf(byUser: map<string, nat>, user: string): nat {
    if user in byUser then byUser[user] else 0
  }

  function ClaimResult(limits: Limits, runs: Runs, operation: string, user: string): Claim {
    if operation in runs.reservations then Claim(runs.reservations[operation] == user, false)
    else if |runs.reservations| >= limits.processRuns || CountOf(runs.byUser, user) >= limits.userRuns
    then Claim(false, false)
    else Claim(true, true)
  }

  function AfterClaim(limits: Limits, runs: Runs, operation: string, user: string): Runs {
    if ClaimResult(limits, runs, operation, user).created
    then Runs(runs.reservations[operation := user], runs.byUser[user := CountOf(runs.byUser, user) + 1])
    else runs
  }

  function AfterRelease(runs: Runs, operation: string): Runs {
    if operation !in runs.reservations then runs
    else
      var user := runs.reservations[operation];
      Runs(runs.reservations - {operation},
           if CountOf(runs.byUser, user) > 1 then runs.byUser[user := CountOf(runs.byUser, user) - 1]
           else runs.byUser - {user})
  }

  /** The counts are exactly the holdings, no user is listed at zero, and both limits hold. */
  predicate Valid(limits: Limits, runs: Runs) {
    && (forall user | user in runs.byUser ::
          runs.byUser[user] == |Held(runs.reservations, user)| && 0 < runs.byUser[user] <= limits.userRuns)
    && (forall op | op in runs.reservations :: runs.reservations[op] in runs.byUser)
    && |runs.reservations| <= limits.processRuns
  }

  class Controller {
    const limits: Limits
    var runReservations: map<string, string>
    var runsByUser: map<string, nat>

    ghost function Contents(): Runs
      reads this
    {
      Runs(runReservations, runsByUser)
    }

    constructor (limits: Limits)
      requires limits.processRuns >= 1 && limits.userRuns >= 1
      ensures this.limits == limits && Contents() == Runs(map[], map[]) && Valid(limits, Contents())
    {
      this.limits := limits;
      runReservations, runsByUser := map[], map[];
    }

    method ClaimRun(operation: string, user: string) returns (claim: Claim)
      requires Valid(limits, Contents())
      modifies this
      ensures Valid(limits, Contents())
      ensures claim == ClaimResult(limits, old(Contents()), operation, user)
      ensures Contents() == AfterClaim(limits, old(Contents()), operation, user)
      ensures claim.accepted <==>
                if operation in old(runReservations) then old(runReservations)[operation] == user
                else |old(runReservations)| < limits.processRuns && |Held(old(runReservations), user)| < limits.userRuns
      ensures claim.created <==> claim.accepted && operation !in old(runReservations)
      ensures runReservations == if claim.created then old(runReservations)[operation := user] else old(runReservations)
    {
      ClaimKeepsValid(limits, Contents(), operation, user);
      UnlistedHoldNothing(limits, Contents(), user);
      if operation in runReservations {
        return Claim(runReservations[operation] == user, false);
      }
      if |runReservations| >= limits.processRuns {
        return Claim(false, false);
      }
      if CountOf(runsByUser, user) >= limits.userRuns {
        return Claim(false, false);
      }
      runReservations := runReservations[operation := user];
      runsByUser := runsByUser[user := CountOf(runsByUser, user) + 1];
      return Claim(true, true);
    }

    method ReleaseRun(operation: string)
      requires Valid(limits, Contents())
      modifies this
      ensures Valid(limits, Contents())
      ensures Contents() == AfterRelease(old(Contents()), operation)
      ensures runReservations == old(runReservations) - {operation}
    {
      ReleaseKeepsValid(limits, Contents(), operation);
      if operation !in runReservations {
        return;
      }
      var user := runReservations[operation];
      runReservations := runReservations - {operation};
      var remaining := CountOf(runsByUser, user) as int - 1;
      if remaining > 0 {
        runsByUser := runsByUser[user := remaining];
      } else {
        runsByUser := runsByUser - {user};
      }
    }
  }

  lemma HeldAfterAdd(reservations: map<string, string>, operation: string, user: string, other: string)
    requires operation !in reservations
    ensures |Held(reservations[operation := user], other)|
         == |Held(reservations, other)| + (if other == user then 1 else 0)
  {
    var n := reservations[operation := user];
    if other == user {
      assert Held(n, other) == Held(reservations, other) + {operation};
    } else {
      assert Held(n, other) == Held(reservations, other);
    }
  }

  lemma UnlistedHoldNothing(limits: Limits, runs: Runs, user: string)
    requires Valid(limits, runs)
    ensures CountOf(runs.byUser, user) == |Held(runs.reservations, user)|
  {
    if user !in runs.byUser {
      assert Held(runs.reservations, user) == {};
    }
  }

  lemma ClaimKeepsValid(limits: Limits, runs: Runs, operation: string, user: string)
    requires Valid(limits, runs)
    ensures Valid(limits, AfterClaim(limits, runs, operation, user))
  {
    if ClaimResult(limits, runs, operation, user).created {
      var n := AfterClaim(limits, runs, operation, user);
      assert |n.reservations| == |runs.reservations| + 1;
      UnlistedHoldNothing(limits, runs, user);
      forall u | u in n.byUser
        ensures n.byUser[u] == |Held(n.reservations, u)| && 0 < n.byUser[u] <= limits.userRuns {
        HeldAfterAdd(runs.reservations, operation, user, u);
      }
    }
  }

  /** A claim is accepted exactly when the operation is the user's already, or is new and both the process and the
      user are below their limits; and only in the second case something is reserved. */
  lemma AcceptedIffRoom(limits: Limits, runs: Runs, operation: string, user: string)
    requires Valid(limits, runs)
    ensures ClaimResult(limits, runs, operation, user).accepted <==>
              if operation in runs.reservations then runs.reservations[operation] == user
              else |runs.reservations| < limits.processRuns && |Held(runs.reservations, user)| < limits.userRuns
    ensures var claim := ClaimResult(limits, runs, operation, user);
            && (claim.created <==> claim.accepted && operation !in runs.reservations)
            && AfterClaim(limits, runs, operation, user).reservations
               == if claim.created then runs.reservations[operation := user] else runs.reservations
  {
    UnlistedHoldNothing(limits, runs, user);
  }

  lemma ReleaseKeepsValid(limits: Limits, runs: Runs, operation: string)
    requires Valid(limits, runs)
    ensures Valid(limits, AfterRelease(runs, operation))
  {
    if operation in runs.reservations {
      var user := runs.reservations[operation];
      var n := AfterRelease(runs, operation);
      assert n.reservations.Keys == runs.reservations.Keys - {operation};
      assert Held(n.reservations, user) == Held(runs.reservations, user) - {operation};
      forall u | u in n.byUser ensures n.byUser[u] == |Held(n.reservations, u)| {
        if u != user {
          assert Held(n.reservations, u) == Held(runs.reservations, u);
        }
      }
      forall op | op in n.reservations ensures n.reservations[op] in n.byUser {
        if n.reservations[op] == user {
          assert op in Held(n.reservations, user);
        }
      }
    }
  }

  datatype Call = ClaimCall(operation: string, user: string) | ReleaseCall(operation: string)

  function Serve(limits: Limits, runs: Runs, calls: seq<Call>): Runs
    decreases |calls|
  {
    if calls == [] then runs
    else
      match calls[0]
      case ClaimCall(operation, user) => Serve(limits, AfterClaim(limits, runs, operation, user), calls[1..])
      case ReleaseCall(operation) => Serve(limits, AfterRelease(runs, operation), calls[1..])
  }

  /** Each call runs under the lock, so every interleaving is a sequence of calls; over all of them each user's
      count is what they hold and both limits hold, for listed users and for absent ones. */
  lemma {:induction false} CountsAreHoldings(limits: Limits, runs: Runs, calls: seq<Call>, user: string)
    requires Valid(limits, runs)
    ensures var n := Serve(limits, runs, calls);
            && Valid(limits, n)
            && CountOf(n.byUser, user) == |Held(n.reservations, user)| <= limits.userRuns
    decreases |calls|
  {
    if calls == [] {
      UnlistedHoldNothing(limits, runs, user);
    } else {
      match calls[0] {
        case ClaimCall(operation, u) =>
          ClaimKeepsValid(limits, runs, operation, u);
          CountsAreHoldings(limits, AfterClaim(limits, runs, operation, u), calls[1..], user);
        case ReleaseCall(operation) =>
          ReleaseKeepsValid(limits, runs, operation);
          CountsAreHoldings(limits, AfterRelease(runs, operation), calls[1..], user);
      }
    }
  }

  /** A release exactly undoes a claim that created a reservation; claiming again is answered alike and changes
      nothing, and someone else's claim of the same operation is refused. */
  lemma ReleaseUndoesClaim(limits: Limits, runs: Runs, operation: string, user: string, other: string)
    requires Valid(limits, runs) && ClaimResult(limits, runs, operation, user).created
    ensures var n := AfterClaim(limits, runs, operation, user);
            && AfterRelease(n, operation) == runs
            && ClaimResult(limits, n, operation, user) == Claim(true, false)
            && AfterClaim(limits, n, operation, user) == n
            && (other != user ==> ClaimResult(limits, n, operation, other) == Claim(false, false))
  {
    var n := AfterClaim(limits, runs, operation, user);
    assert n.reservations - {operation} == runs.reservations;
    if user !in runs.byUser {
      assert n.byUser - {user} == runs.byUser;
    }
  }

  // ---- Slots -------------------------------------------------------------

  /** A slot user between the semaphore and the counter: the two are not updated together. */
  datatype Phase = Outside | Permitted | Counted | Leaving

  datatype Slots = Slots(free: nat, active: int, phases: map<nat, Phase>)

  function PhaseOf(s: Slots, worker: nat): Phase {
    if worker in s.phases then s.phases[worker] else Outside
  }

  /** One atomic step of a worker: a failed non-blocking acquire changes nothing and is tried again later. */
  function StepSlot(s: Slots, worker: nat): Slots {
    match PhaseOf(s, worker)
    case Outside => if s.free == 0 then s else Slots(s.free - 1, s.active, s.phases[worker := Permitted])
    case Permitted => Slots(s.free, s.active + 1, s.phases[worker := Counted])
    case Counted => Slots(s.free, s.active - 1, s.phases[worker := Leaving])
    case Leaving => Slots(s.free + 1, s.active, s.phases - {worker})
  }

  function In(s: Slots, phase: Phase): set<nat> {
    set w | w in s.phases && s.phases[w] == phase
  }

  /** Permits are conserved and the counter is the number of workers between its two updates. */
  predicate SlotsValid(limit: nat, s: Slots) {
    && (forall w | w in s.phases :: s.phases[w] != Outside)
    && s.free + |s.phases.Keys| == limit
    && s.active == |In(s, Counted)|
  }

  lemma EnterOrLeave(s: Slots, worker: nat)
    requires PhaseOf(s, worker) == Outside || PhaseOf(s, worker) == Leaving
    ensures In(StepSlot(s, worker), Counted) == In(s, Counted)
    ensures PhaseOf(s, worker) == Leaving ==> |StepSlot(s, worker).phases.Keys| == |s.phases.Keys| - 1
    ensures worker !in s.phases && s.free > 0 ==> |StepSlot(s, worker).phases.Keys| == |s.phases.Keys| + 1
  {
    var n := StepSlot(s, worker);
    if PhaseOf(s, worker) == Leaving {
      assert n.phases.Keys == s.phases.Keys - {worker};
    } else if s.free > 0 {
      assert n.phases.Keys == s.phases.Keys + {worker};
    }
  }

  lemma Count(s: Slots, worker: nat)
    requires PhaseOf(s, worker) == Permitted || PhaseOf(s, worker) == Counted
    ensures StepSlot(s, worker).phases.Keys == s.phases.Keys
    ensures |In(StepSlot(s, worker), Counted)|
         == |In(s, Counted)| + (if PhaseOf(s, worker) == Permitted then 1 else -1)
  {
    var n := StepSlot(s, worker);
    if PhaseOf(s, worker) == Permitted {
      assert In(n, Counted) == In(s, Counted) + {worker};
    } else {
      assert In(n, Counted) == In(s, Counted) - {worker};
    }
  }

  lemma StepKeepsSlots(limit: nat, s: Slots, worker: nat)
    requires SlotsValid(limit, s)
    ensures SlotsValid(limit, StepSlot(s, worker))
  {
    if PhaseOf(s, worker) == Outside || PhaseOf(s, worker) == Leaving {
      EnterOrLeave(s, worker);
    } else {
      Count(s, worker);
    }
  }

  /** A worker that finds a permit takes it, counts itself, takes itself off the count, and gives the permit back, one
      step each; a worker that finds none stays outside. */
  lemma SlotRoundTrip(s: Slots, worker: nat)
    requires worker !in s.phases
    ensures s.free == 0 ==> StepSlot(s, worker) == s
    ensures s.free > 0 ==>
              var permitted := StepSlot(s, worker);
              var counted := StepSlot(permitted, worker);
              var leaving := StepSlot(counted, worker);
              && permitted.free == counted.free == leaving.free == s.free - 1
              && permitted.active == leaving.active == s.active && counted.active == s.active + 1
              && PhaseOf(permitted, worker) == Permitted && PhaseOf(counted, worker) == Counted
              && PhaseOf(leaving, worker) == Leaving && StepSlot(leaving, worker) == s
  {
    assert s.phases[worker := Leaving] - {worker} == s.phases;
  }

  function RunSlots(s: Slots, schedule: seq<nat>): Slots
    decreases |schedule|
  {
    if schedule == [] then s else RunSlots(StepSlot(s, schedule[0]), schedule[1..])
  }

  /** Under every schedule of any number of workers: held plus free permits equal the limit, and the reported
      counter lies between zero and the limit. */
  lemma {:induction false} SlotsNeverExceedLimit(limit: nat, s: Slots, schedule: seq<nat>)
    requires SlotsValid(limit, s)
    ensures var n := RunSlots(s, schedule);
            && SlotsValid(limit, n)
            && n.free + |n.phases.Keys| == limit
            && 0 <= n.active <= limit
    decreases |schedule|
  {
    if schedule == [] {
      SubsetSize(In(s, Counted), s.phases.Keys);
    } else {
      StepKeepsSlots(limit, s, schedule[0]);
      SlotsNeverExceedLimit(limit, StepSlot(s, schedule[0]), schedule[1..]);
    }
  }
}
