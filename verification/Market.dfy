/** The market's scout: helpers look over the board for needs they can meet, each need once, a few per tick. */
module Market {
  import opened Sequences

  type UserId = string

  datatype Post = Post(isSignal: bool, taskId: string, content: string)

  datatype Grant = Grant(grantor: UserId, grantee: UserId, active: bool)

  datatype Need = Need(owner: UserId, text: string)

  datatype MaybeNeed = NoNeed | SomeNeed(need: Need)

  /** One look at one need by one helper: the call that costs. */
  datatype Evaluation = Evaluation(helper: UserId, need: Need)

  /** Where a look at a need that matches raises, if it does: before the helper's consent is granted, or after. */
  datatype Slip = Smooth | BeforeConsent | AfterConsent

  /** What the scout asks of the rest of the program. Matching itself never raises: a model that fails counts as no. */
  datatype World = World(
    capable: UserId -> bool,
    needText: string -> string,
    matches: (UserId, string) -> bool,
    known: UserId -> bool,
    slips: (UserId, Need) -> Slip)

  // ---- Needs on the board ------------------------------------------------

  const SIGNAL_PREFIX := "signal_"

  function OwnerOf(taskId: string): UserId {
    if SIGNAL_PREFIX <= taskId then taskId[|SIGNAL_PREFIX|..] else taskId
  }

  /** The need another user's signal states, if any. */
  function NeedOf(w: World, helper: UserId, p: Post): MaybeNeed {
    if !p.isSignal || OwnerOf(p.taskId) == helper || w.needText(p.content) == "" then NoNeed
    else SomeNeed(Need(OwnerOf(p.taskId), w.needText(p.content)))
  }

  /** The post is a signal, and this is whose need it states: the task id without the prefix, if it has one. */
  predicate States(w: World, p: Post, n: Need) {
    && p.isSignal && n.text == w.needText(p.content) && n.text != ""
    && if "signal_" <= p.taskId then p.taskId == "signal_" + n.owner else p.taskId == n.owner
  }

  lemma NeedOfIs(w: World, helper: UserId, p: Post, n: Need)
    ensures NeedOf(w, helper, p) == SomeNeed(n) <==> States(w, p, n) && n.owner != helper
  {
    if SIGNAL_PREFIX <= p.taskId {
      assert p.taskId == SIGNAL_PREFIX + p.taskId[|SIGNAL_PREFIX|..];
      assert (SIGNAL_PREFIX + n.owner)[|SIGNAL_PREFIX|..] == n.owner;
    }
  }

  predicate StatedOn(w: World, board: seq<Post>, n: Need) {
    exists i | 0 <= i < |board| :: States(w, board[i], n)
  }

  /** Each look is at a need that some other user's signal on the board states. */
  predicate LooksAtOthers(w: World, helper: UserId, board: seq<Post>, looked: seq<Evaluation>) {
    forall k | 0 <= k < |looked| ::
      looked[k].helper == helper && looked[k].need.owner != helper && StatedOn(w, board, looked[k].need)
  }

  /** Whatever other users' signals on the board state is remembered, as the owner, a colon and the need. */
  ghost predicate AllRemembered(w: World, helper: UserId, board: seq<Post>, seen: set<string>) {
    forall i | 0 <= i < |board| :: forall owner ::
      States(w, board[i], Need(owner, w.needText(board[i].content))) && owner != helper ==>
        owner + ":" + w.needText(board[i].content) in seen
  }

  function Fingerprint(n: Need): string {
    n.owner + ":" + n.text
  }

  ghost predicate MayCollide(a: UserId, b: UserId) {
    exists s, t :: s != "" && t != "" && Fingerprint(Need(a, s)) == Fingerprint(Need(b, t))
  }

  /** Needs of two different owners can share a fingerprint exactly when one owner, with a colon after it, begins the
      other; so never when neither contains a colon, as the ids the program makes do not. */
  lemma CollideIffPrefix(a: UserId, b: UserId)
    requires a != b
    ensures MayCollide(a, b) <==> a + ":" <= b + ":" || b + ":" <= a + ":"
    ensures ':' !in a && ':' !in b ==> !MayCollide(a, b)
  {
    if MayCollide(a, b) {
      var s, t :| s != "" && t != "" && Fingerprint(Need(a, s)) == Fingerprint(Need(b, t));
      PrefixesOfOne(a + ":", b + ":", Fingerprint(Need(a, s)), s, t);
    }
    if a + ":" <= b + ":" {
      LongerOwnerCollides(a, b);
    } else if b + ":" <= a + ":" {
      LongerOwnerCollides(b, a);
    }
  }

  lemma PrefixesOfOne(p: string, q: string, f: string, s: string, t: string)
    requires f == p + s == q + t
    ensures p <= q || q <= p
  {
    if |p| <= |q| {
      assert p == f[..|p|] == q[..|p|];
    } else {
      assert q == f[..|q|] == p[..|q|];
    }
  }

  lemma PrefixHasColon(a: UserId, b: UserId)
    requires a != b && a + ":" <= b + ":"
    ensures |a| < |b| && b[|a|] == ':' && a + ":" <= b
  {
    assert a == (a + ":")[..|a|] == (b + ":")[..|a|] == b[..|a|];
    assert |a| != |b|;
    assert b[|a|] == (b + ":")[|a|] == (a + ":")[|a|];
  }

  lemma LongerOwnerCollides(a: UserId, b: UserId)
    requires a != b && a + ":" <= b + ":"
    ensures MayCollide(a, b) && MayCollide(b, a) && ':' in b
  {
    PrefixHasColon(a, b);
    var rest := b[|a| + 1..];
    assert b == a + ":" + rest;
    assert Fingerprint(Need(a, rest + ":x")) == a + ":" + rest + ":x" == Fingerprint(Need(b, "x"));
  }

  /** What each post of the board says to the helper. */
  function Needs(w: World, helper: UserId, board: seq<Post>): (r: seq<MaybeNeed>)
    ensures |r| == |board|
  {
    seq(|board|, i requires 0 <= i < |board| => NeedOf(w, helper, board[i]))
  }

  /** The fingerprints of the needs. */
  function Eligible(needs: seq<MaybeNeed>): set<string> {
    if needs == [] then {}
    else Eligible(needs[..|needs| - 1]) + FingerprintOf(needs[|needs| - 1])
  }

  function FingerprintOf(n: MaybeNeed): set<string> {
    if n.SomeNeed? then {Fingerprint(n.need)} else {}
  }

  /** The evaluations that lead to an answer. */
  function Triggered(w: World, evals: seq<Evaluation>): (r: seq<Need>)
    ensures |r| <= |evals|
  {
    if evals == [] then []
    else
      var n := |evals| - 1;
      Triggered(w, evals[..n]) + if Succeeds(w, evals[n]) then [evals[n].need] else []
  }

  predicate Succeeds(w: World, e: Evaluation) {
    Consents(w, e) && w.slips(e.helper, e.need).Smooth?
  }

  /** The helper's consent to the owner of the need is granted. */
  predicate Consents(w: World, e: Evaluation) {
    w.matches(e.helper, e.need.text) && w.known(e.need.owner) && !w.slips(e.helper, e.need).BeforeConsent?
  }

  /** The need matches, and then something raises. */
  predicate Breaks(w: World, e: Evaluation) {
    && w.matches(e.helper, e.need.text)
    && (w.slips(e.helper, e.need).BeforeConsent? || (w.known(e.need.owner) && w.slips(e.helper, e.need).AfterConsent?))
  }

  /** With as many answers as the cap allows, the last look led to the last one of them. */
  predicate EndsInAnswer(w: World, looked: seq<Evaluation>, answers: nat, cap: nat) {
    answers == cap > 0 ==> looked != [] && Succeeds(w, looked[|looked| - 1])
  }

  /** A pass ends when a look breaks, when it reaches the cap, or when it is `through` with the board. */
  predicate Ended(w: World, looked: seq<Evaluation>, answers: nat, cap: nat, broke: bool, through: bool) {
    && answers <= cap && EndsInAnswer(w, looked, answers, cap) && (answers < cap && !broke ==> through)
    && if broke then BrokenOff(w, looked) else Unbroken(w, looked)
  }

  predicate Unbroken(w: World, evals: seq<Evaluation>) {
    forall i | 0 <= i < |evals| :: !Breaks(w, evals[i])
  }

  /** The last look, and no other, broke. */
  predicate BrokenOff(w: World, evals: seq<Evaluation>) {
    evals != [] && Breaks(w, evals[|evals| - 1]) && Unbroken(w, evals[..|evals| - 1])
  }

  lemma UnbrokenThen(w: World, a: seq<Evaluation>, b: seq<Evaluation>)
    requires Unbroken(w, a)
    ensures Unbroken(w, b) ==> Unbroken(w, a + b)
    ensures BrokenOff(w, b) ==> BrokenOff(w, a + b) && (a + b)[|a + b| - 1] == b[|b| - 1]
  {
    if BrokenOff(w, b) {
      assert (a + b)[..|a + b| - 1] == a + b[..|b| - 1];
    }
  }

  lemma OneMoreLook(w: World, looked: seq<Evaluation>, e: Evaluation)
    requires Unbroken(w, looked)
    ensures if Breaks(w, e) then BrokenOff(w, looked + [e]) else Unbroken(w, looked + [e])
    ensures Succeeds(w, e) ==> forall n: nat :: EndsInAnswer(w, looked + [e], n, n)
  {
    assert [e][..0] == [];
    UnbrokenThen(w, looked, [e]);
  }

  lemma TriggeredAppend(w: World, evals: seq<Evaluation>, e: Evaluation)
    ensures Triggered(w, evals + [e]) == Triggered(w, evals) + if Succeeds(w, e) then [e.need] else []
  {
    assert (evals + [e])[..|evals|] == evals;
  }

  lemma {:induction false} TriggeredConcat(w: World, a: seq<Evaluation>, b: seq<Evaluation>)
    ensures Triggered(w, a + b) == Triggered(w, a) + Triggered(w, b)
  {
    if b == [] {
      assert a + b == a;
    } else {
      var n := |b| - 1;
      assert (a + b)[..|a| + n] == a + b[..n];
      TriggeredConcat(w, a, b[..n]);
    }
  }

  /** How many answers of one helper the evaluations lead to. */
  function AnswersOf(w: World, evals: seq<Evaluation>, helper: UserId): nat {
    if evals == [] then 0
    else
      var n := |evals| - 1;
      AnswersOf(w, evals[..n], helper) + if evals[n].helper == helper && Succeeds(w, evals[n]) then 1 else 0
  }

  predicate AllBy(helper: UserId, evals: seq<Evaluation>) {
    forall i | 0 <= i < |evals| :: evals[i].helper == helper
  }

  lemma {:induction false} AnswersOfOne(w: World, evals: seq<Evaluation>, owner: UserId, helper: UserId)
    requires AllBy(owner, evals)
    ensures AnswersOf(w, evals, helper) == if helper == owner then |Triggered(w, evals)| else 0
  {
    if evals != [] {
      AnswersOfOne(w, evals[..|evals| - 1], owner, helper);
    }
  }

  lemma {:induction false} AnswersConcat(w: World, a: seq<Evaluation>, b: seq<Evaluation>, helper: UserId)
    ensures AnswersOf(w, a + b, helper) == AnswersOf(w, a, helper) + AnswersOf(w, b, helper)
  {
    if b == [] {
      assert a + b == a;
    } else {
      var n := |b| - 1;
      assert (a + b)[..|a| + n] == a + b[..n];
      AnswersConcat(w, a, b[..n], helper);
    }
  }

  /** No helper answers more than the cap. */
  ghost predicate Capped(w: World, evals: seq<Evaluation>, cap: int) {
    forall helper :: AnswersOf(w, evals, helper) <= AtLeastOne(cap)
  }

  /** The helpers who have had their turn answered at most the cap, the others nothing. */
  ghost predicate CappedSoFar(w: World, evals: seq<Evaluation>, cap: int, done: seq<UserId>) {
    forall helper :: AnswersOf(w, evals, helper) <= if helper in done then AtLeastOne(cap) else 0
  }

  lemma TurnsCapped(w: World, evals: seq<Evaluation>, cap: int, done: seq<UserId>)
    ensures CappedSoFar(w, evals, cap, done) ==> Capped(w, evals, cap)
  {
  }

  lemma TurnCapped(w: World, evals: seq<Evaluation>, more: seq<Evaluation>, cap: int, users: seq<UserId>, i: nat)
    requires NoRepeats(users) && i < |users| && CappedSoFar(w, evals, cap, users[..i])
    requires AllBy(users[i], more) && |Triggered(w, more)| <= AtLeastOne(cap)
    ensures CappedSoFar(w, evals + more, cap, users[..i + 1])
  {
    assert users[i] !in users[..i];
    assert users[..i + 1] == users[..i] + [users[i]];
    forall helper
      ensures AnswersOf(w, evals + more, helper) <= if helper in users[..i + 1] then AtLeastOne(cap) else 0
    {
      AnswersConcat(w, evals, more, helper);
      AnswersOfOne(w, more, users[i], helper);
      assert AnswersOf(w, evals, helper) <= if helper in users[..i] then AtLeastOne(cap) else 0;
    }
  }

  // ---- Consent -----------------------------------------------------------

  predicate Between(g: Grant, grantor: UserId, grantee: UserId) {
    g.active && g.grantor == grantor && g.grantee == grantee
  }

  predicate Active(grants: seq<Grant>, grantor: UserId, grantee: UserId) {
    exists i | 0 <= i < |grants| :: Between(grants[i], grantor, grantee)
  }

  predicate OneActive(grants: seq<Grant>) {
    forall i, j | 0 <= i < j < |grants| && grants[i].active && grants[j].active ::
      grants[i].grantor != grants[j].grantor || grants[i].grantee != grants[j].grantee
  }

  lemma AppendGrant(grants: seq<Grant>, grantor: UserId, grantee: UserId)
    requires OneActive(grants) && !Active(grants, grantor, grantee)
    ensures OneActive(grants + [Grant(grantor, grantee, true)])
    ensures forall a, b :: Active(grants + [Grant(grantor, grantee, true)], a, b) <==>
              Active(grants, a, b) || (a == grantor && b == grantee)
  {
    var more := grants + [Grant(grantor, grantee, true)];
    forall i | 0 <= i < |grants| ensures !Between(more[i], grantor, grantee) {
      assert !Between(grants[i], grantor, grantee);
    }
    forall a, b ensures Active(more, a, b) <==> Active(grants, a, b) || (a == grantor && b == grantee) {
      if Active(grants, a, b) {
        var i :| 0 <= i < |grants| && Between(grants[i], a, b);
        assert Between(more[i], a, b);
      }
      assert Between(more[|grants|], grantor, grantee);
    }
  }

  lemma RevokeGrant(grants: seq<Grant>, i: nat)
    requires OneActive(grants) && i < |grants| && grants[i].active
    ensures OneActive(grants[i := grants[i].(active := false)])
    ensures forall a, b :: Active(grants[i := grants[i].(active := false)], a, b) <==>
              Active(grants, a, b) && !(a == grants[i].grantor && b == grants[i].grantee)
  {
    var less := grants[i := grants[i].(active := false)];
    forall a, b ensures Active(less, a, b) <==> Active(grants, a, b) && !Between(grants[i], a, b) {
      if Active(grants, a, b) && !Between(grants[i], a, b) {
        var k :| 0 <= k < |grants| && Between(grants[k], a, b);
        assert Between(less[k], a, b);
      }
      if Active(less, a, b) {
        var k :| 0 <= k < |less| && Between(less[k], a, b);
        assert k != i && Between(grants[k], a, b);
        assert grants[i].grantor != grants[k].grantor || grants[i].grantee != grants[k].grantee;
      }
    }
  }

  // ---- The market --------------------------------------------------------

  function SeenBy(seen: map<UserId, set<string>>, helper: UserId): set<string> {
    if helper in seen then seen[helper] else {}
  }

  /** The log holds each helper's fingerprints once, and they are the ones remembered. */
  ghost predicate Logged(seen: map<UserId, set<string>>, log: seq<Evaluation>) {
    && (forall i, j | 0 <= i < j < |log| && log[i].helper == log[j].helper ::
          Fingerprint(log[i].need) != Fingerprint(log[j].need))
    && (forall i | 0 <= i < |log| :: Fingerprint(log[i].need) in SeenBy(seen, log[i].helper))
    && (forall h, f | h in seen && f in seen[h] :: Recorded(log, h, f))
  }

  ghost predicate Recorded(log: seq<Evaluation>, helper: UserId, fingerprint: string) {
    exists i | 0 <= i < |log| :: log[i].helper == helper && Fingerprint(log[i].need) == fingerprint
  }

  lemma RecordedAppend(log: seq<Evaluation>, e: Evaluation, helper: UserId, fingerprint: string)
    requires Recorded(log, helper, fingerprint)
    ensures Recorded(log + [e], helper, fingerprint)
  {
    var i :| 0 <= i < |log| && log[i].helper == helper && Fingerprint(log[i].need) == fingerprint;
    assert (log + [e])[i] == log[i];
  }

  lemma LogOne(seen: map<UserId, set<string>>, log: seq<Evaluation>, e: Evaluation)
    requires Logged(seen, log) && e.helper in seen && Fingerprint(e.need) !in seen[e.helper]
    ensures Logged(seen[e.helper := seen[e.helper] + {Fingerprint(e.need)}], log + [e])
  {
    var more := seen[e.helper := seen[e.helper] + {Fingerprint(e.need)}];
    forall h, f | h in more && f in more[h] ensures Recorded(log + [e], h, f) {
      if h in seen && f in seen[h] {
        RecordedAppend(log, e, h, f);
      } else {
        assert (log + [e])[|log|] == e;
      }
    }
    forall i | 0 <= i < |log| && log[i].helper == e.helper ensures Fingerprint(log[i].need) != Fingerprint(e.need) {
      assert Fingerprint(log[i].need) in SeenBy(seen, e.helper);
    }
  }

  function AtLeastOne(cap: int): (r: nat)
    ensures (cap >= 1 ==> r == cap) && (cap < 1 ==> r == 1)
  {
    if cap < 1 then 1 else cap
  }

  class Market {
    var seen: map<UserId, set<string>>
    var grants: seq<Grant>
    ghost var log: seq<Evaluation>

    constructor ()
      ensures Valid() && seen == map[] && grants == [] && log == []
    {
      seen, grants, log := map[], [], [];
    }

    ghost predicate Valid()
      reads this
    {
      Logged(seen, log) && OneActive(grants)
    }

    method GrantConsent(grantor: UserId, grantee: UserId)
      requires Valid()
      modifies this`grants
      ensures Valid() && old(grants) <= grants
      ensures forall a, b :: Active(grants, a, b) <==> old(Active(grants, a, b)) || (a == grantor && b == grantee)
    {
      if Active(grants, grantor, grantee) {
        return;
      }
      AppendGrant(grants, grantor, grantee);
      grants := grants + [Grant(grantor, grantee, true)];
    }

    method RevokeConsent(grantor: UserId, grantee: UserId)
      requires Valid()
      modifies this`grants
      ensures Valid()
      ensures forall a, b :: Active(grants, a, b) <==> old(Active(grants, a, b)) && !(a == grantor && b == grantee)
    {
      if !Active(grants, grantor, grantee) {
        return;
      }
      var i :| 0 <= i < |grants| && Between(grants[i], grantor, grantee);
      RevokeGrant(grants, i);
      grants := grants[i := grants[i].(active := false)];
    }

    /** Look at one need not seen before; on a match the helper lets its owner ask, and answers. */
    method Evaluate(w: World, helper: UserId, need: Need, ghost answered: seq<Need>) returns (hit: bool, broke: bool)
      requires Valid() && helper in seen && Fingerprint(need) !in seen[helper]
      requires AllGranted(grants, helper, answered)
      modifies this
      ensures Valid() && log == old(log) + [Evaluation(helper, need)]
      ensures seen == old(seen)[helper := old(seen)[helper] + {Fingerprint(need)}]
      ensures hit <==> w.matches(helper, need.text) && w.known(need.owner) && w.slips(helper, need).Smooth?
      ensures broke <==> w.matches(helper, need.text)
                         && (w.slips(helper, need).BeforeConsent?
                             || (w.known(need.owner) && w.slips(helper, need).AfterConsent?))
      ensures if w.matches(helper, need.text) && w.known(need.owner) && !w.slips(helper, need).BeforeConsent?
              then old(grants) <= grants && Active(grants, helper, need.owner) else grants == old(grants)
      ensures AllGranted(grants, helper, if hit then answered + [need] else answered)
    {
      LogOne(seen, log, Evaluation(helper, need));
      seen := seen[helper := seen[helper] + {Fingerprint(need)}];
      log := log + [Evaluation(helper, need)];
      if !w.matches(helper, need.text) {
        return false, false;
      }
      if w.slips(helper, need) == BeforeConsent {
        return false, true;
      }
      if !w.known(need.owner) {
        return false, false;
      }
      GrantConsent(helper, need.owner);
      StillGranted(old(grants), grants, helper, answered);
      broke := w.slips(helper, need) == AfterConsent;
      hit := !broke;
    }

    /** Where a pass that started from `seen0`, `log0` and `grants0` stands after `i` posts. */
    ghost predicate Midway(w: World, helper: UserId, needs: seq<MaybeNeed>, i: nat, seen0: map<UserId, set<string>>,
                           log0: seq<Evaluation>, grants0: seq<Grant>, looked: seq<Evaluation>, results: seq<Need>)
      reads this
    {
      && Valid() && OnlyFor(helper, seen0, seen) && log == log0 + looked && grants0 <= grants
      && Scouting(w, helper, needs, i, seen0[helper], seen[helper], looked, results)
      && AllGranted(grants, helper, results)
    }

    /** One post of the board: pass it over, or evaluate the need it states. */
    method LookAt(w: World, helper: UserId, found: MaybeNeed, results: seq<Need>, ghost needs: seq<MaybeNeed>,
                  ghost i: nat, ghost seen0: map<UserId, set<string>>, ghost log0: seq<Evaluation>,
                  ghost grants0: seq<Grant>, ghost looked: seq<Evaluation>)
      returns (results': seq<Need>, broke: bool, ghost more: seq<Evaluation>)
      requires i < |needs| && found == needs[i]
      requires Midway(w, helper, needs, i, seen0, log0, grants0, looked, results) && Unbroken(w, looked)
      modifies this
      ensures Midway(w, helper, needs, i + 1, seen0, log0, grants0, more, results')
      ensures results' == results
              || (!broke && |results'| == |results| + 1 && EndsInAnswer(w, more, |results'|, |results'|))
      ensures if broke then BrokenOff(w, more) else Unbroken(w, more)
    {
      results' := results;
      if found.NoNeed? || Fingerprint(found.need) in seen[helper] {
        ScoutSkip(w, helper, needs, i, seen0[helper], seen[helper], looked, results);
        return results, false, looked;
      }
      ghost var e := Evaluation(helper, found.need);
      ScoutLook(w, helper, needs, i, seen0[helper], seen[helper], looked, results);
      Associate(log0, looked, [e]);
      OnlyForUpdate(helper, seen0, seen, seen[helper] + {Fingerprint(found.need)});
      var hit;
      hit, broke := Evaluate(w, helper, found.need, results);
      more := looked + [e];
      OneMoreLook(w, looked, e);
      if hit {
        results' := results + [found.need];
      }
    }

    /** One helper's pass over the board. It ends at the cap, or when a look breaks, or with the board. */
    method ScoutAndMatch(w: World, helper: UserId, board: seq<Post>, cap: int)
      returns (results: seq<Need>, broke: bool, ghost looked: seq<Evaluation>)
      requires Valid() && helper in seen
      modifies this
      ensures Valid() && OnlyFor(helper, old(seen), seen) && log == old(log) + looked && old(grants) <= grants
      ensures Passed(helper, Needs(w, helper, board), old(seen[helper]), seen[helper], looked)
      ensures results == Triggered(w, looked) && |results| <= if cap < 1 then 1 else cap
      ensures if broke then BrokenOff(w, looked) else Unbroken(w, looked)
      ensures looked <= Looks(helper, Needs(w, helper, board), old(seen[helper]))
      ensures LooksAtOthers(w, helper, board, looked)
      ensures EndsInAnswer(w, looked, |results|, if cap < 1 then 1 else cap)
      ensures w.capable(helper) && |results| < AtLeastOne(cap) && !broke ==>
                && Eligible(Needs(w, helper, board)) <= seen[helper] && AllRemembered(w, helper, board, seen[helper])
                && looked == Looks(helper, Needs(w, helper, board), old(seen[helper]))
      ensures !w.capable(helper) ==> looked == []
      ensures AllGranted(grants, helper, results)
    {
      results, broke, looked := [], false, [];
      if w.capable(helper) {
        ghost var n;
        results, broke, looked, n := ScanBoard(w, helper, board, cap);
        ScanEnds(w, helper, board, n, old(seen[helper]), seen[helper], looked, results);
      }
    }

    /** From the first post to the last, or to the one that reaches the cap or breaks. */
    method ScanBoard(w: World, helper: UserId, board: seq<Post>, cap: int)
      returns (results: seq<Need>, broke: bool, ghost looked: seq<Evaluation>, ghost n: nat)
      requires Valid() && helper in seen
      modifies this
      ensures Midway(w, helper, Needs(w, helper, board), n, old(seen), old(log), old(grants), looked, results)
      ensures Ended(w, looked, |results|, AtLeastOne(cap), broke, n == |board|)
    {
      results, broke, looked, n := [], false, [], 0;
      ghost var needs := Needs(w, helper, board);
      for i := 0 to |board|
        invariant Midway(w, helper, needs, i, old(seen), old(log), old(grants), looked, results)
        invariant n == i && |results| < AtLeastOne(cap) && !broke && Unbroken(w, looked)
      {
        var found := NeedOf(w, helper, board[i]);
        var more;
        more, broke, looked := LookAt(w, helper, found, results, needs, i, old(seen), old(log), old(grants), looked);
        n := i + 1;
        var hit := |more| > |results|;
        results := more;
        if broke || (hit && |results| >= cap) {
          break;
        }
      }
    }

    /** One helper's turn within a tick. */
    method ScoutOne(w: World, helper: UserId, board: seq<Post>, cap: int)
      returns (triggered: nat, broke: bool, ghost looked: seq<Evaluation>)
      requires Valid()
      modifies this
      ensures Valid() && Grown(old(seen), seen) && log == old(log) + looked && old(grants) <= grants
      ensures forall h | h != helper :: SeenBy(seen, h) == SeenBy(old(seen), h)
      ensures if w.capable(helper) then Progress(w, helper, board, old(seen), seen) else looked == []
      ensures triggered == |Triggered(w, looked)| && triggered <= AtLeastOne(cap) && AllBy(helper, looked)
      ensures if broke then BrokenOff(w, looked) else Unbroken(w, looked)
      ensures broke ==> w.capable(helper) && |Left(w, helper, board, seen)| < |Left(w, helper, board, old(seen))|
    {
      if helper !in seen {
        seen := seen[helper := {}];
      }
      ghost var before := seen;
      var results;
      results, broke, looked := ScoutAndMatch(w, helper, board, cap);
      triggered := |results|;
      PassGrows(helper, old(seen), before, seen);
      PassLeavesOthers(helper, old(seen), before, seen);
      PassLeaves(w, helper, board, old(seen), before[helper], seen, looked);
    }

    /** One tick: every participant's turn, each within the cap, until a look breaks, which ends the tick for all that
        come later. `turns` is how many users had their turn. */
    method ScoutAll(w: World, users: seq<UserId>, participates: UserId -> bool, board: seq<Post>, cap: int)
      returns (triggered: nat, broke: bool, ghost looked: seq<Evaluation>, ghost turns: nat)
      requires Valid()
      modifies this
      ensures Valid() && Grown(old(seen), seen) && log == old(log) + looked && old(grants) <= grants
      ensures turns <= |users| && AllProgress(w, users[..turns], participates, board, old(seen), seen)
      ensures forall h | h !in users[..turns] :: SeenBy(seen, h) == SeenBy(old(seen), h)
      ensures triggered == |Triggered(w, looked)|
      ensures NoRepeats(users) ==> Capped(w, looked, cap)
      ensures ByHelpers(w, users[..turns], participates, looked)
      ensures if broke then BrokenOff(w, looked) && EndsWith(w, users, participates, turns, looked)
              else Unbroken(w, looked) && turns == |users|
      ensures TotalFalls(w, users, participates, board, old(seen), seen)
    {
      triggered, broke, looked, turns := 0, false, [], 0;
      for i := 0 to |users|
        invariant Ticked(w, users, participates, board, cap, i, old(seen), old(log), old(grants), looked, triggered)
        invariant turns == i && !broke && Unbroken(w, looked)
      {
        triggered, broke, looked := TakeTurn(w, users, i, participates, board, cap, triggered, old(seen), old(log),
                                             old(grants), looked);
        turns := i + 1;
        if broke {
          break;
        }
      }
      TurnsCapped(w, looked, cap, users[..turns]);
      if !broke {
        assert users[..|users|] == users;
        TotalProgress(w, users, participates, board, old(seen), seen);
      }
    }

    /** Where a tick that started from `seen0`, `log0` and `grants0` stands after the turns of `i` users. */
    ghost predicate Ticked(w: World, users: seq<UserId>, participates: UserId -> bool, board: seq<Post>, cap: int,
                           i: nat, seen0: map<UserId, set<string>>, log0: seq<Evaluation>, grants0: seq<Grant>,
                           looked: seq<Evaluation>, triggered: nat)
      reads this
    {
      && Valid() && log == log0 + looked && grants0 <= grants && triggered == |Triggered(w, looked)|
      && Ticking(w, users, participates, board, cap, i, seen0, seen, looked)
    }

    /** The turn of the next user, if it is a participant. */
    method TakeTurn(w: World, users: seq<UserId>, i: nat, participates: UserId -> bool, board: seq<Post>, cap: int,
                    triggered: nat, ghost seen0: map<UserId, set<string>>, ghost log0: seq<Evaluation>,
                    ghost grants0: seq<Grant>, ghost looked: seq<Evaluation>)
      returns (total: nat, broke: bool, ghost all: seq<Evaluation>)
      requires i < |users| && Unbroken(w, looked)
      requires Ticked(w, users, participates, board, cap, i, seen0, log0, grants0, looked, triggered)
      modifies this
      ensures Ticked(w, users, participates, board, cap, i + 1, seen0, log0, grants0, all, total)
      ensures if broke then BrokenOff(w, all) && EndsWith(w, users, participates, i + 1, all)
                            && TotalFalls(w, users, participates, board, seen0, seen)
              else Unbroken(w, all)
    {
      total, broke := triggered, false;
      ghost var before, more := seen, [];
      if participates(users[i]) {
        var n;
        n, broke, more := ScoutOne(w, users[i], board, cap);
        total := total + n;
      }
      all := looked + more;
      TriggeredConcat(w, looked, more);
      Associate(log0, looked, more);
      UnbrokenThen(w, looked, more);
      TurnTaken(w, users, participates, board, cap, i, seen0, before, seen, looked, more);
      if broke {
        LeftShrinks(w, users[i], board, seen0, before);
        TotalLess(w, users, i, participates, board, seen0, seen);
      }
    }

    /** Ticks over a board that stays as it is: at none does a helper answer more than the cap, and none goes on after a
        look that broke. A participant with needs left to see sees some at every tick that does not break; and every
        tick, broken or not, leaves fewer needs unseen by the participants together, until none is. */
    method RunTicks(w: World, users: seq<UserId>, participates: UserId -> bool, board: seq<Post>, cap: int, ticks: nat)
      returns (ghost passes: seq<seq<Evaluation>>)
      requires Valid()
      modifies this
      ensures Valid() && log == old(log) + Flat(passes) && old(grants) <= grants && |passes| == ticks
      ensures TicksOk(w, users, participates, cap, passes)
      ensures EachCaught(w, users, participates, board, old(seen), seen, Smoothly(w, passes))
      ensures AllCaught(w, users, participates, board, old(seen), seen, ticks)
    {
      passes := [];
      for t := 0 to ticks
        invariant Valid() && log == old(log) + Flat(passes) && old(grants) <= grants && |passes| == t
        invariant TicksOk(w, users, participates, cap, passes)
        invariant EachCaught(w, users, participates, board, old(seen), seen, Smoothly(w, passes))
        invariant AllCaught(w, users, participates, board, old(seen), seen, t)
      {
        ghost var before := seen;
        var triggered, broke;
        ghost var looked, turns;
        triggered, broke, looked, turns := ScoutAll(w, users, participates, board, cap);
        Associate(old(log), Flat(passes), looked);
        assert !broke ==> users[..turns] == users;
        TickIs(w, users, participates, turns, cap, looked);
        PassAdded(w, users, participates, cap, passes, looked);
        TickCaught(w, users, participates, board, old(seen), before, seen, Smoothly(w, passes), broke);
        TickAllCaught(w, users, participates, board, old(seen), before, seen, t);
        passes := passes + [looked];
      }
    }
  }

  /** Where a tick that started from `start` stands after the turns of `i` users. */
  ghost predicate Ticking(w: World, users: seq<UserId>, participates: UserId -> bool, board: seq<Post>, cap: int,
                          i: nat, start: map<UserId, set<string>>, now: map<UserId, set<string>>,
                          looked: seq<Evaluation>)
  {
    && i <= |users| && Grown(start, now) && AllProgress(w, users[..i], participates, board, start, now)
    && (forall h | h !in users[..i] :: SeenBy(now, h) == SeenBy(start, h))
    && (NoRepeats(users) ==> CappedSoFar(w, looked, cap, users[..i])) && ByHelpers(w, users[..i], participates, looked)
  }

  /** Only users of the list look, and of these only participants who can do something. */
  predicate ByHelpers(w: World, users: seq<UserId>, participates: UserId -> bool, looked: seq<Evaluation>) {
    forall k | 0 <= k < |looked| ::
      looked[k].helper in users && participates(looked[k].helper) && w.capable(looked[k].helper)
  }

  lemma TurnByHelper(w: World, users: seq<UserId>, participates: UserId -> bool, i: nat, looked: seq<Evaluation>,
                     more: seq<Evaluation>)
    requires i < |users| && ByHelpers(w, users[..i], participates, looked) && AllBy(users[i], more)
    requires more != [] ==> participates(users[i]) && w.capable(users[i])
    ensures ByHelpers(w, users[..i + 1], participates, looked + more)
  {
    assert users[..i + 1] == users[..i] + [users[i]];
  }

  lemma TickIs(w: World, users: seq<UserId>, participates: UserId -> bool, turns: nat, cap: int,
               looked: seq<Evaluation>)
    requires turns <= |users| && ByHelpers(w, users[..turns], participates, looked)
    requires NoRepeats(users) ==> Capped(w, looked, cap)
    requires Unbroken(w, looked) || BrokenOff(w, looked)
    ensures TickOk(w, users, participates, cap, looked)
  {
    forall k | 0 <= k < |looked| ensures looked[k].helper in users {
      assert looked[k].helper in users[..turns];
    }
  }

  lemma TurnTaken(w: World, users: seq<UserId>, participates: UserId -> bool, board: seq<Post>, cap: int, i: nat,
                  start: map<UserId, set<string>>, before: map<UserId, set<string>>, after: map<UserId, set<string>>,
                  looked: seq<Evaluation>, more: seq<Evaluation>)
    requires i < |users| && Ticking(w, users, participates, board, cap, i, start, before, looked)
    requires Grown(before, after) && forall h | h != users[i] :: SeenBy(after, h) == SeenBy(before, h)
    requires participates(users[i]) && w.capable(users[i]) ==> Progress(w, users[i], board, before, after)
    requires AllBy(users[i], more) && |Triggered(w, more)| <= AtLeastOne(cap)
    requires more != [] ==> participates(users[i]) && w.capable(users[i])
    ensures Ticking(w, users, participates, board, cap, i + 1, start, after, looked + more)
  {
    assert users[..i + 1] == users[..i] + [users[i]];
    forall h | h in start ensures start[h] <= SeenBy(after, h) {
      assert start[h] <= SeenBy(before, h);
    }
    TurnProgress(w, users, i, participates, board, start, before, after);
    TurnByHelper(w, users, participates, i, looked, more);
    if NoRepeats(users) {
      TurnCapped(w, looked, more, cap, users, i);
    }
  }

  /** A tick keeps each of distinct helpers within the cap, and ends at the first look that breaks. */
  ghost predicate TickOk(
      w: World, users: seq<UserId>, participates: UserId -> bool, cap: int, looked: seq<Evaluation>)
  {
    && (NoRepeats(users) ==> Capped(w, looked, cap)) && ByHelpers(w, users, participates, looked)
    && (Unbroken(w, looked) || BrokenOff(w, looked))
  }

  ghost predicate TicksOk(
      w: World, users: seq<UserId>, participates: UserId -> bool, cap: int, passes: seq<seq<Evaluation>>)
  {
    forall t | 0 <= t < |passes| :: TickOk(w, users, participates, cap, passes[t])
  }

  lemma PassAdded(w: World, users: seq<UserId>, participates: UserId -> bool, cap: int,
                  passes: seq<seq<Evaluation>>, looked: seq<Evaluation>)
    requires TicksOk(w, users, participates, cap, passes) && TickOk(w, users, participates, cap, looked)
    ensures TicksOk(w, users, participates, cap, passes + [looked])
    ensures Flat(passes + [looked]) == Flat(passes) + looked
    ensures Smoothly(w, passes + [looked]) == Smoothly(w, passes) + if Unbroken(w, looked) then 1 else 0
  {
    assert (passes + [looked])[..|passes|] == passes;
  }

  /** How many of the ticks did not break. */
  function Smoothly(w: World, passes: seq<seq<Evaluation>>): nat {
    if passes == [] then 0
    else Smoothly(w, passes[..|passes| - 1]) + if Unbroken(w, passes[|passes| - 1]) then 1 else 0
  }

  /** The tick ended with the turn before `turns`, that of the participant who looked last. */
  predicate EndsWith(w: World, users: seq<UserId>, participates: UserId -> bool, turns: nat, looked: seq<Evaluation>) {
    && 0 < turns <= |users| && looked != []
    && users[turns - 1] == looked[|looked| - 1].helper && participates(users[turns - 1]) && w.capable(users[turns - 1])
  }

  /** What the participants together have not seen. */
  function LeftInAll(w: World, users: seq<UserId>, participates: UserId -> bool, board: seq<Post>,
                     seen: map<UserId, set<string>>): nat
  {
    if users == [] then 0
    else
      var n := |users| - 1;
      LeftInAll(w, users[..n], participates, board, seen)
      + Share(w, users[n], participates, board, seen)
  }

  function Share(w: World, user: UserId, participates: UserId -> bool, board: seq<Post>,
                 seen: map<UserId, set<string>>): nat
  {
    if participates(user) && w.capable(user) then |Left(w, user, board, seen)| else 0
  }

  lemma LeftInAllLast(w: World, users: seq<UserId>, participates: UserId -> bool, board: seq<Post>,
                      seen: map<UserId, set<string>>)
    requires users != []
    ensures LeftInAll(w, users, participates, board, seen)
         == LeftInAll(w, users[..|users| - 1], participates, board, seen)
            + Share(w, users[|users| - 1], participates, board, seen)
  {
  }

  predicate TotalFalls(w: World, users: seq<UserId>, participates: UserId -> bool, board: seq<Post>,
                       before: map<UserId, set<string>>, after: map<UserId, set<string>>)
  {
    AllCaught(w, users, participates, board, before, after, 1)
  }

  predicate AllCaught(w: World, users: seq<UserId>, participates: UserId -> bool, board: seq<Post>,
                      before: map<UserId, set<string>>, after: map<UserId, set<string>>, ticks: nat)
  {
    LeftInAll(w, users, participates, board, after) == 0
    || LeftInAll(w, users, participates, board, after) + ticks <= LeftInAll(w, users, participates, board, before)
  }

  lemma {:induction false} TotalShrinks(w: World, users: seq<UserId>, participates: UserId -> bool, board: seq<Post>,
                                        before: map<UserId, set<string>>, after: map<UserId, set<string>>)
    requires Grown(before, after)
    ensures LeftInAll(w, users, participates, board, after) <= LeftInAll(w, users, participates, board, before)
  {
    if users != [] {
      TotalShrinks(w, users[..|users| - 1], participates, board, before, after);
      LeftShrinks(w, users[|users| - 1], board, before, after);
    }
  }

  /** One participant with fewer needs unseen makes fewer in all. */
  lemma {:induction false} TotalLess(w: World, users: seq<UserId>, i: nat, participates: UserId -> bool,
                                     board: seq<Post>, before: map<UserId, set<string>>,
                                     after: map<UserId, set<string>>)
    requires Grown(before, after) && i < |users| && participates(users[i]) && w.capable(users[i])
    requires |Left(w, users[i], board, after)| < |Left(w, users[i], board, before)|
    ensures LeftInAll(w, users, participates, board, after) < LeftInAll(w, users, participates, board, before)
  {
    var n := |users| - 1;
    LeftInAllLast(w, users, participates, board, before);
    LeftInAllLast(w, users, participates, board, after);
    if i == n {
      TotalShrinks(w, users[..n], participates, board, before, after);
    } else {
      TotalLess(w, users[..n], i, participates, board, before, after);
      LeftShrinks(w, users[n], board, before, after);
    }
  }

  lemma {:induction false} NoneInAll(w: World, users: seq<UserId>, participates: UserId -> bool, board: seq<Post>,
                                     seen: map<UserId, set<string>>)
    requires forall i | 0 <= i < |users| && participates(users[i]) && w.capable(users[i]) ::
               |Left(w, users[i], board, seen)| == 0
    ensures LeftInAll(w, users, participates, board, seen) == 0
  {
    if users != [] {
      NoneInAll(w, users[..|users| - 1], participates, board, seen);
    }
  }

  lemma {:induction false} PartOfAll(w: World, users: seq<UserId>, i: nat, participates: UserId -> bool,
                                     board: seq<Post>, seen: map<UserId, set<string>>)
    requires i < |users|
    ensures Share(w, users[i], participates, board, seen) <= LeftInAll(w, users, participates, board, seen)
  {
    var front := users[..|users| - 1];
    LeftInAllLast(w, users, participates, board, seen);
    if i < |front| {
      assert front[i] == users[i];
      PartOfAll(w, front, i, participates, board, seen);
    }
  }

  lemma TotalProgress(w: World, users: seq<UserId>, participates: UserId -> bool, board: seq<Post>,
                      before: map<UserId, set<string>>, after: map<UserId, set<string>>)
    requires Grown(before, after) && AllProgress(w, users, participates, board, before, after)
    ensures TotalFalls(w, users, participates, board, before, after)
  {
    if i :| 0 <= i < |users| && participates(users[i]) && w.capable(users[i])
            && |Left(w, users[i], board, after)| != 0 {
      assert Progress(w, users[i], board, before, after);
      TotalLess(w, users, i, participates, board, before, after);
    } else {
      NoneInAll(w, users, participates, board, after);
    }
  }

  /** However many ticks break: after as many as there were needs unseen in all, every participant has seen all. */
  lemma {:induction false} EnoughTicksInAll(
      w: World, users: seq<UserId>, participates: UserId -> bool, board: seq<Post>,
      before: map<UserId, set<string>>, after: map<UserId, set<string>>, ticks: nat, i: nat)
    requires AllCaught(w, users, participates, board, before, after, ticks)
    requires ticks >= LeftInAll(w, users, participates, board, before)
    requires i < |users| && participates(users[i]) && w.capable(users[i])
    ensures AllRemembered(w, users[i], board, SeenBy(after, users[i]))
  {
    PartOfAll(w, users, i, participates, board, after);
    EnoughTicks(w, users[i], board, after, after, 0);
  }

  /** The helper has looked at the need, and that look broke. */
  predicate LostNeed(w: World, log: seq<Evaluation>, helper: UserId, need: Need) {
    Evaluation(helper, need) in log && Breaks(w, Evaluation(helper, need))
  }

  predicate Answered(w: World, log: seq<Evaluation>, helper: UserId, need: Need) {
    Evaluation(helper, need) in log && Succeeds(w, Evaluation(helper, need))
  }

  /** A need that a helper has looked at and that matches, of an owner who is known, is answered, once; or it is lost,
      exactly when that look broke; and then no later look by this helper is at it, or at any need with its
      fingerprint. */
  lemma LostForGood(w: World, seen: map<UserId, set<string>>, log: seq<Evaluation>, more: seq<Evaluation>,
                    helper: UserId, need: Need)
    requires Logged(seen, log + more) && Evaluation(helper, need) in log
    requires w.matches(helper, need.text) && w.known(need.owner)
    ensures LostNeed(w, log + more, helper, need) <==> !Answered(w, log + more, helper, need)
    ensures !Recorded(more, helper, Fingerprint(need))
  {
    var all := log + more;
    var i :| 0 <= i < |log| && log[i] == Evaluation(helper, need);
    assert all[i] == Evaluation(helper, need);
    forall k | 0 <= k < |more| && more[k].helper == helper ensures Fingerprint(more[k].need) != Fingerprint(need) {
      assert all[|log| + k] == more[k];
    }
  }

  predicate Grown(before: map<UserId, set<string>>, after: map<UserId, set<string>>) {
    forall h | h in before :: before[h] <= SeenBy(after, h)
  }

  /** Entering a helper forgets nothing, and neither does its pass. */
  lemma PassGrows(helper: UserId, start: map<UserId, set<string>>, before: map<UserId, set<string>>,
                  after: map<UserId, set<string>>)
    requires before == if helper in start then start else start[helper := {}]
    requires OnlyFor(helper, before, after) && before[helper] <= after[helper]
    ensures Grown(start, after)
  {
    forall h | h in start ensures start[h] <= SeenBy(after, h) {
      assert h in before && before[h] == start[h];
    }
  }

  lemma PassLeavesOthers(helper: UserId, start: map<UserId, set<string>>, before: map<UserId, set<string>>,
                         after: map<UserId, set<string>>)
    requires before == if helper in start then start else start[helper := {}]
    requires OnlyFor(helper, before, after)
    ensures forall h | h != helper :: SeenBy(after, h) == SeenBy(start, h)
    ensures SeenBy(start, helper) == before[helper]
  {
  }

  /** What a pass does to what its helper has not seen. */
  lemma PassLeaves(w: World, helper: UserId, board: seq<Post>, start: map<UserId, set<string>>, before: set<string>,
                   after: map<UserId, set<string>>, looked: seq<Evaluation>)
    requires SeenBy(start, helper) == before
    requires Passed(helper, Needs(w, helper, board), before, SeenBy(after, helper), looked)
    ensures looked != [] ==> |Left(w, helper, board, after)| < |Left(w, helper, board, start)|
    ensures Eligible(Needs(w, helper, board)) <= SeenBy(after, helper) ==> Progress(w, helper, board, start, after)
  {
    if looked != [] || Eligible(Needs(w, helper, board)) <= SeenBy(after, helper) {
      PassProgress(w, helper, board, before, SeenBy(after, helper), looked);
    }
  }

  /** What the helper has not seen of the board. */
  function Left(w: World, helper: UserId, board: seq<Post>, seen: map<UserId, set<string>>): set<string> {
    Unseen(w, helper, board, SeenBy(seen, helper))
  }

  predicate Progress(w: World, helper: UserId, board: seq<Post>, before: map<UserId, set<string>>,
                     after: map<UserId, set<string>>)
  {
    |Left(w, helper, board, after)| == 0 || |Left(w, helper, board, after)| < |Left(w, helper, board, before)|
  }

  predicate AllProgress(w: World, users: seq<UserId>, participates: UserId -> bool, board: seq<Post>,
                        before: map<UserId, set<string>>, after: map<UserId, set<string>>)
  {
    forall i | 0 <= i < |users| && participates(users[i]) && w.capable(users[i]) ::
      Progress(w, users[i], board, before, after)
  }

  predicate Caught(w: World, helper: UserId, board: seq<Post>, before: map<UserId, set<string>>,
                   after: map<UserId, set<string>>, ticks: nat)
  {
    |Left(w, helper, board, after)| == 0
    || |Left(w, helper, board, after)| + ticks <= |Left(w, helper, board, before)|
  }

  predicate EachCaught(w: World, users: seq<UserId>, participates: UserId -> bool, board: seq<Post>,
                       before: map<UserId, set<string>>, after: map<UserId, set<string>>, ticks: nat)
  {
    forall i | 0 <= i < |users| && participates(users[i]) && w.capable(users[i]) ::
      Caught(w, users[i], board, before, after, ticks)
  }

  lemma TickCaught(w: World, users: seq<UserId>, participates: UserId -> bool, board: seq<Post>,
                   start: map<UserId, set<string>>, before: map<UserId, set<string>>, after: map<UserId, set<string>>,
                   ticks: nat, broke: bool)
    requires Grown(before, after) && EachCaught(w, users, participates, board, start, before, ticks)
    requires !broke ==> AllProgress(w, users, participates, board, before, after)
    ensures EachCaught(w, users, participates, board, start, after, ticks + if broke then 0 else 1)
  {
    forall i | 0 <= i < |users| && participates(users[i]) && w.capable(users[i])
      ensures Caught(w, users[i], board, start, after, ticks + if broke then 0 else 1)
    {
      LeftShrinks(w, users[i], board, before, after);
      assert Caught(w, users[i], board, start, before, ticks);
    }
  }

  lemma TickAllCaught(w: World, users: seq<UserId>, participates: UserId -> bool, board: seq<Post>,
                      start: map<UserId, set<string>>, before: map<UserId, set<string>>,
                      after: map<UserId, set<string>>, ticks: nat)
    requires AllCaught(w, users, participates, board, start, before, ticks)
    requires TotalFalls(w, users, participates, board, before, after)
    ensures AllCaught(w, users, participates, board, start, after, ticks + 1)
  {
  }

  lemma LeftShrinks(w: World, helper: UserId, board: seq<Post>, before: map<UserId, set<string>>,
                    after: map<UserId, set<string>>)
    requires Grown(before, after)
    ensures |Left(w, helper, board, after)| <= |Left(w, helper, board, before)|
  {
    SmallerSet(Left(w, helper, board, after), Left(w, helper, board, before));
  }

  lemma TurnProgress(w: World, users: seq<UserId>, i: nat, participates: UserId -> bool, board: seq<Post>,
                     start: map<UserId, set<string>>, before: map<UserId, set<string>>, after: map<UserId, set<string>>)
    requires i < |users| && Grown(start, before) && Grown(before, after)
    requires AllProgress(w, users[..i], participates, board, start, before)
    requires participates(users[i]) && w.capable(users[i]) ==> Progress(w, users[i], board, before, after)
    ensures AllProgress(w, users[..i + 1], participates, board, start, after)
  {
    forall k | 0 <= k < i + 1 && participates(users[k]) && w.capable(users[k])
      ensures Progress(w, users[k], board, start, after)
    {
      LeftShrinks(w, users[k], board, start, before);
      LeftShrinks(w, users[k], board, before, after);
      assert k < i ==> users[..i][k] == users[k];
    }
  }

  /** Enough ticks leave nothing unseen. */
  lemma EnoughTicks(w: World, helper: UserId, board: seq<Post>, before: map<UserId, set<string>>,
                    after: map<UserId, set<string>>, ticks: nat)
    requires Caught(w, helper, board, before, after, ticks) && ticks >= |Left(w, helper, board, before)|
    ensures AllRemembered(w, helper, board, SeenBy(after, helper))
  {
    assert Left(w, helper, board, after) == {};
    forall f | f in Eligible(Needs(w, helper, board)) ensures f in SeenBy(after, helper) {
      assert f !in Left(w, helper, board, after);
    }
    OthersRemembered(w, helper, board, SeenBy(after, helper));
  }

  /** The looks of a whole pass: at each need whose fingerprint was not seen before, in the order of the board. */
  function Looks(helper: UserId, needs: seq<MaybeNeed>, before: set<string>): seq<Evaluation> {
    if needs == [] then []
    else
      var n := |needs| - 1;
      var front := Looks(helper, needs[..n], before);
      if needs[n].SomeNeed? && Fingerprint(needs[n].need) !in before + Fingerprints(front)
      then front + [Evaluation(helper, needs[n].need)] else front
  }

  lemma LooksNext(helper: UserId, needs: seq<MaybeNeed>, i: nat, before: set<string>)
    requires i < |needs|
    ensures var front := Looks(helper, needs[..i], before);
            Looks(helper, needs[..i + 1], before)
            == if needs[i].SomeNeed? && Fingerprint(needs[i].need) !in before + Fingerprints(front)
               then front + [Evaluation(helper, needs[i].need)] else front
  {
    assert needs[..i + 1][..i] == needs[..i];
  }

  lemma {:induction false} LooksPrefix(helper: UserId, needs: seq<MaybeNeed>, i: nat, before: set<string>)
    requires i <= |needs|
    ensures Looks(helper, needs[..i], before) <= Looks(helper, needs, before)
  {
    if i < |needs| {
      var n := |needs| - 1;
      LooksPrefix(helper, needs[..n], i, before);
      assert needs[..n][..i] == needs[..i];
    } else {
      assert needs[..i] == needs;
    }
  }

  /** What the end of a scan says of the whole board. */
  lemma ScanEnds(w: World, helper: UserId, board: seq<Post>, n: nat, before: set<string>, after: set<string>,
                 looked: seq<Evaluation>, results: seq<Need>)
    requires Scouting(w, helper, Needs(w, helper, board), n, before, after, looked, results)
    ensures looked <= Looks(helper, Needs(w, helper, board), before) && LooksAtOthers(w, helper, board, looked)
    ensures n == |board| ==>
              && Eligible(Needs(w, helper, board)) <= after && AllRemembered(w, helper, board, after)
              && looked == Looks(helper, Needs(w, helper, board), before)
  {
    var needs := Needs(w, helper, board);
    LooksPrefix(helper, needs, n, before);
    OthersLookedAt(w, helper, board, looked);
    assert needs[..|board|] == needs;
    if n == |board| {
      OthersRemembered(w, helper, board, after);
    }
  }

  lemma OthersLookedAt(w: World, helper: UserId, board: seq<Post>, looked: seq<Evaluation>)
    requires AllFrom(helper, Needs(w, helper, board), looked)
    ensures LooksAtOthers(w, helper, board, looked)
  {
    forall k | 0 <= k < |looked| ensures looked[k].need.owner != helper && StatedOn(w, board, looked[k].need) {
      var i :| 0 <= i < |board| && Needs(w, helper, board)[i] == SomeNeed(looked[k].need);
      NeedOfIs(w, helper, board[i], looked[k].need);
      assert States(w, board[i], looked[k].need);
    }
  }

  lemma OthersRemembered(w: World, helper: UserId, board: seq<Post>, after: set<string>)
    requires Eligible(Needs(w, helper, board)) <= after
    ensures AllRemembered(w, helper, board, after)
  {
    forall i, owner | 0 <= i < |board| && States(w, board[i], Need(owner, w.needText(board[i].content)))
                      && owner != helper
      ensures owner + ":" + w.needText(board[i].content) in after
    {
      var n := Need(owner, w.needText(board[i].content));
      NeedOfIs(w, helper, board[i], n);
      assert Needs(w, helper, board)[i] == SomeNeed(n);
      NeedEligible(Needs(w, helper, board), n);
    }
  }

  /** Where a pass stands after `i` posts. */
  predicate Scouting(w: World, helper: UserId, needs: seq<MaybeNeed>, i: nat, before: set<string>, after: set<string>,
                     looked: seq<Evaluation>, results: seq<Need>)
  {
    && i <= |needs| && Eligible(needs[..i]) <= after
    && Passed(helper, needs, before, after, looked)
    && results == Triggered(w, looked) && looked == Looks(helper, needs[..i], before)
  }

  lemma ScoutSkip(w: World, helper: UserId, needs: seq<MaybeNeed>, i: nat, before: set<string>, after: set<string>,
                  looked: seq<Evaluation>, results: seq<Need>)
    requires i < |needs| && Scouting(w, helper, needs, i, before, after, looked, results)
    requires FingerprintOf(needs[i]) <= after
    ensures Scouting(w, helper, needs, i + 1, before, after, looked, results)
  {
    EligibleNext(needs, i);
    LooksNext(helper, needs, i, before);
  }

  lemma ScoutLook(w: World, helper: UserId, needs: seq<MaybeNeed>, i: nat, before: set<string>, after: set<string>,
                  looked: seq<Evaluation>, results: seq<Need>)
    requires i < |needs| && Scouting(w, helper, needs, i, before, after, looked, results)
    requires needs[i].SomeNeed? && Fingerprint(needs[i].need) !in after
    ensures var e := Evaluation(helper, needs[i].need);
            Scouting(w, helper, needs, i + 1, before, after + {Fingerprint(e.need)}, looked + [e],
                     if Succeeds(w, e) then results + [e.need] else results)
  {
    EligibleNext(needs, i);
    LooksNext(helper, needs, i, before);
    PassOne(w, helper, needs, before, after, looked, i);
  }

  predicate OnlyFor(helper: UserId, before: map<UserId, set<string>>, after: map<UserId, set<string>>) {
    && helper in before && helper in after && before.Keys == after.Keys
    && forall h | h in before && h != helper :: after[h] == before[h]
  }

  lemma OnlyForUpdate(helper: UserId, before: map<UserId, set<string>>, after: map<UserId, set<string>>, s: set<string>)
    requires OnlyFor(helper, before, after)
    ensures OnlyFor(helper, before, after[helper := s])
  {
  }

  lemma EligibleNext(needs: seq<MaybeNeed>, i: nat)
    requires i < |needs|
    ensures Eligible(needs[..i + 1]) == Eligible(needs[..i]) + FingerprintOf(needs[i])
  {
    assert needs[..i + 1][..i] == needs[..i];
  }

  function Flat(passes: seq<seq<Evaluation>>): seq<Evaluation> {
    if passes == [] then [] else Flat(passes[..|passes| - 1]) + passes[|passes| - 1]
  }

  predicate AllGranted(grants: seq<Grant>, helper: UserId, needs: seq<Need>) {
    forall k | 0 <= k < |needs| :: Active(grants, helper, needs[k].owner)
  }

  lemma StillGranted(before: seq<Grant>, after: seq<Grant>, helper: UserId, needs: seq<Need>)
    requires AllGranted(before, helper, needs) && before <= after
    ensures AllGranted(after, helper, needs)
  {
    forall k | 0 <= k < |needs| ensures Active(after, helper, needs[k].owner) {
      var i :| 0 <= i < |before| && Between(before[i], helper, needs[k].owner);
      assert Between(after[i], helper, needs[k].owner);
    }
  }

  function Fingerprints(evals: seq<Evaluation>): (r: set<string>)
    ensures |r| <= |evals|
  {
    if evals == [] then {}
    else Fingerprints(evals[..|evals| - 1]) + {Fingerprint(evals[|evals| - 1].need)}
  }

  predicate AllFrom(helper: UserId, needs: seq<MaybeNeed>, looked: seq<Evaluation>) {
    forall i | 0 <= i < |looked| :: looked[i].helper == helper && SomeNeed(looked[i].need) in needs
  }

  /** The pass looked at `looked`: needs on the board, each for the first time, and remembers exactly those more. */
  predicate Passed(helper: UserId, needs: seq<MaybeNeed>, before: set<string>, after: set<string>,
                   looked: seq<Evaluation>)
  {
    && after == before + Fingerprints(looked)
    && |after| == |before| + |looked|
    && AllFrom(helper, needs, looked)
  }

  lemma PassOne(w: World, helper: UserId, needs: seq<MaybeNeed>, before: set<string>, after: set<string>,
                looked: seq<Evaluation>, i: nat)
    requires Passed(helper, needs, before, after, looked) && i < |needs|
    requires needs[i].SomeNeed? && Fingerprint(needs[i].need) !in after
    ensures var e := Evaluation(helper, needs[i].need);
            && Passed(helper, needs, before, after + {Fingerprint(e.need)}, looked + [e])
            && Triggered(w, looked + [e])
               == if Succeeds(w, e) then Triggered(w, looked) + [e.need] else Triggered(w, looked)
  {
    var e := Evaluation(helper, needs[i].need);
    assert (looked + [e])[..|looked|] == looked;
    assert needs[i] in needs;
  }

  // ---- Progress ----------------------------------------------------------

  function Unseen(w: World, helper: UserId, board: seq<Post>, seen: set<string>): set<string> {
    Eligible(Needs(w, helper, board)) - seen
  }

  lemma SmallerSet(a: set<string>, b: set<string>)
    requires a <= b
    ensures |a| <= |b| && (a != b ==> |a| < |b|)
  {
    assert |b| == |a| + |b - a|;
    if a != b {
      assert b - a != {};
    }
  }

  lemma {:induction false} NeedEligible(needs: seq<MaybeNeed>, need: Need)
    requires SomeNeed(need) in needs
    ensures Fingerprint(need) in Eligible(needs)
  {
    var n := |needs| - 1;
    if needs[n] != SomeNeed(need) {
      assert needs == needs[..n] + [needs[n]];
      NeedEligible(needs[..n], need);
    }
  }

  lemma {:induction false} LookedEligible(helper: UserId, needs: seq<MaybeNeed>, looked: seq<Evaluation>)
    requires AllFrom(helper, needs, looked)
    ensures Fingerprints(looked) <= Eligible(needs)
  {
    if looked != [] {
      var n := |looked| - 1;
      LookedEligible(helper, needs, looked[..n]);
      NeedEligible(needs, looked[n].need);
    }
  }

  /** A pass that looked at something, or left nothing to look at, leaves strictly fewer needs unseen, if any were. */
  lemma PassProgress(w: World, helper: UserId, board: seq<Post>, before: set<string>, after: set<string>,
                     looked: seq<Evaluation>)
    requires Passed(helper, Needs(w, helper, board), before, after, looked)
    requires looked != [] || Eligible(Needs(w, helper, board)) <= after
    ensures |Unseen(w, helper, board, after)| + |looked| == |Unseen(w, helper, board, before)|
    ensures Unseen(w, helper, board, before) != {} ==> looked != []
  {
    var u, v := Unseen(w, helper, board, before), Unseen(w, helper, board, after);
    LookedEligible(helper, Needs(w, helper, board), looked);
    assert |after| == |before| + |after - before|;
    assert u == v + (after - before);
    if looked == [] {
      assert after == before;
      assert u == {};
    }
  }
}
