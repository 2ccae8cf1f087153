/** The identity of a create request: which requests share a durable hash, and what a replay is matched against. */
module Identity {
  import opened Sequences
  import opened Utf8
  import opened CanonicalJson
  import opened JsonLaws

  datatype Request = Request(
    userId: Text, threadId: Text, clientTurnId: Text, content: Text,
    skillName: Option<Text>, orchestrationMode: Option<Text>, planningMode: Text, retryOfRunId: Option<Text>,
    taskId: Option<Text>, planningContract: Option<Text>, executionContract: Option<Text>)

  /** A stored run; an anonymous run has no client turn and so no identity. */
  datatype Run = Run(anonymous: bool, request: Request, skillId: Option<Text>, createRequestHash: Option<Text>)

  /** SHA-256 enters only as a function without collisions. */
  type Digest = seq<Byte> -> Text

  ghost predicate Injective(sha: Digest) {
    forall a, b :: sha(a) == sha(b) ==> a == b
  }

  /** NFC leaves the identity's keys alone: they are ASCII. */
  ghost predicate FixesKeys(nfc: Nfc) {
    forall name :: nfc(Key(name)) == Key(name)
  }

  function TextOf(s: string): (t: Text)
    ensures |t| == |s| && forall i | 0 <= i < |s| :: t[i] == s[i] as int
    ensures Encodable(t)
  {
    seq(|s|, i requires 0 <= i < |s| => s[i] as int)
  }

  function STANDARD_UNIVERSAL_V1(): Text {
    TextOf("standard_universal_v1")
  }

  predicate IsStandard(r: Request) {
    r.planningContract == Some(STANDARD_UNIVERSAL_V1())
  }

  function Optional(t: Option<Text>): Value {
    match t
    case None => Null
    case Some(s) => Str(s)
  }

  datatype Name =
    | ClientTurnId | Content | OrchestrationMode | PlanningMode | RetryOfRunId | SkillName | ThreadId | UserId
    | TaskId | PlanningContract | ExecutionContract

  const NAMES: seq<Name> :=
    [ClientTurnId, Content, OrchestrationMode, PlanningMode, RetryOfRunId, SkillName, ThreadId, UserId,
     TaskId, PlanningContract, ExecutionContract]

  function KeyString(name: Name): (s: string)
    ensures s != []
  {
    match name
    case ClientTurnId => "client_turn_id"
    case Content => "content"
    case OrchestrationMode => "orchestration_mode"
    case PlanningMode => "planning_mode"
    case RetryOfRunId => "retry_of_run_id"
    case SkillName => "skill_name"
    case ThreadId => "thread_id"
    case UserId => "user_id"
    case TaskId => "task_id"
    case PlanningContract => "planning_contract_version"
    case ExecutionContract => "execution_contract_version"
  }

  function Key(name: Name): (t: Text)
    ensures t != [] && Encodable(t)
  {
    TextOf(KeyString(name))
  }

  /** The value under a key of the identity, if that key takes part. The task and the planning contract take
      part only when present; the execution marker goes with the standard contract, null or not. */
  function Entry(r: Request, name: Name): Option<Value> {
    match name
    case ClientTurnId => Some(Str(r.clientTurnId))
    case Content => Some(Str(r.content))
    case OrchestrationMode => Some(Optional(r.orchestrationMode))
    case PlanningMode => Some(Str(r.planningMode))
    case RetryOfRunId => Some(Optional(r.retryOfRunId))
    case SkillName => Some(Optional(r.skillName))
    case ThreadId => Some(Str(r.threadId))
    case UserId => Some(Str(r.userId))
    case TaskId => if r.taskId.Some? then Some(Str(r.taskId.value)) else None
    case PlanningContract => if r.planningContract.Some? then Some(Str(r.planningContract.value)) else None
    case ExecutionContract => if IsStandard(r) then Some(Optional(r.executionContract)) else None
  }

  function Fields(r: Request, names: seq<Name>): seq<Field> {
    if names == [] then []
    else
      (match Entry(r, names[0])
       case None => []
       case Some(v) => [Field(Key(names[0]), v)])
      + Fields(r, names[1..])
  }

  function CreateRequestHash(nfc: Nfc, sha: Digest, r: Request): Option<Text> {
    match CanonicalBytes(nfc, Obj(Fields(r, NAMES)))
    case None => None
    case Some(b) => Some(sha(b))
  }

  function FieldOf(r: Request, name: Name): seq<Field> {
    match Entry(r, name)
    case None => []
    case Some(v) => [Field(Key(name), v)]
  }

  lemma FieldsCons(r: Request, name: Name, names: seq<Name>)
    ensures Fields(r, [name] + names) == FieldOf(r, name) + Fields(r, names)
  {
    assert ([name] + names)[1..] == names;
  }

  const ALWAYS: seq<Name> :=
    [ClientTurnId, Content, OrchestrationMode, PlanningMode, RetryOfRunId, SkillName, ThreadId, UserId]

  predicate AllThere(r: Request, names: seq<Name>) {
    forall i | 0 <= i < |names| :: Entry(r, names[i]).Some?
  }

  function There(r: Request, names: seq<Name>): seq<Field>
    requires AllThere(r, names)
  {
    seq(|names|, i requires 0 <= i < |names| => Field(Key(names[i]), Entry(r, names[i]).value))
  }

  lemma ThereCons(r: Request, names: seq<Name>)
    requires names != [] && AllThere(r, names)
    ensures AllThere(r, names[1..])
    ensures There(r, names) == [Field(Key(names[0]), Entry(r, names[0]).value)] + There(r, names[1..])
  {
  }

  lemma {:induction false} SureFields(r: Request, names: seq<Name>, more: seq<Name>)
    requires AllThere(r, names)
    ensures Fields(r, names + more) == There(r, names) + Fields(r, more)
  {
    if names == [] {
      assert names + more == more;
    } else {
      ThereCons(r, names);
      SureFields(r, names[1..], more);
      SplitFirst(names);
      Associate([names[0]], names[1..], more);
      FieldsCons(r, names[0], names[1..] + more);
      Associate([Field(Key(names[0]), Entry(r, names[0]).value)], There(r, names[1..]), Fields(r, more));
    }
  }

  /** The members that are always there. */
  function AlwaysThere(r: Request): seq<Field> {
    [Field(TextOf("client_turn_id"), Str(r.clientTurnId)), Field(TextOf("content"), Str(r.content)),
     Field(TextOf("orchestration_mode"), Optional(r.orchestrationMode)),
     Field(TextOf("planning_mode"), Str(r.planningMode)),
     Field(TextOf("retry_of_run_id"), Optional(r.retryOfRunId)), Field(TextOf("skill_name"), Optional(r.skillName)),
     Field(TextOf("thread_id"), Str(r.threadId)), Field(TextOf("user_id"), Str(r.userId))]
  }

  lemma AlwaysIs(r: Request)
    ensures AllThere(r, ALWAYS) && There(r, ALWAYS) == AlwaysThere(r)
  {
  }

  /** A member that is left out when there is no value for it. */
  function IfAny(key: string, t: Option<Text>): seq<Field> {
    if t.Some? then [Field(TextOf(key), Str(t.value))] else []
  }

  /** The execution marker, which stands beside the standard planning contract only. */
  function Marker(r: Request): seq<Field> {
    if r.planningContract == Some(TextOf("standard_universal_v1"))
    then [Field(TextOf("execution_contract_version"), Optional(r.executionContract))] else []
  }

  lemma SometimesIs(r: Request)
    ensures Fields(r, [TaskId, PlanningContract, ExecutionContract])
         == IfAny("task_id", r.taskId) + (IfAny("planning_contract_version", r.planningContract) + (Marker(r) + []))
  {
    FieldsCons(r, ExecutionContract, []);
    FieldsCons(r, PlanningContract, [ExecutionContract]);
    FieldsCons(r, TaskId, [PlanningContract, ExecutionContract]);
    assert [TaskId] + [PlanningContract, ExecutionContract] == [TaskId, PlanningContract, ExecutionContract];
    assert [PlanningContract] + [ExecutionContract] == [PlanningContract, ExecutionContract];
    assert [ExecutionContract] + [] == [ExecutionContract];
  }

  /** The object that is hashed, member by member. */
  lemma IdentityIs(r: Request)
    ensures Fields(r, NAMES)
         == AlwaysThere(r) + (IfAny("task_id", r.taskId)
                              + (IfAny("planning_contract_version", r.planningContract) + Marker(r)))
  {
    assert NAMES == ALWAYS + [TaskId, PlanningContract, ExecutionContract];
    AlwaysIs(r);
    SureFields(r, ALWAYS, [TaskId, PlanningContract, ExecutionContract]);
    SometimesIs(r);
    assert Marker(r) + [] == Marker(r);
  }

  // ---- When two requests are one -----------------------------------------

  function OptionalNfc(nfc: Nfc, t: Option<Text>): Option<Text> {
    match t
    case None => None
    case Some(s) => Some(nfc(s))
  }

  predicate AgreeOn(nfc: Nfc, a: Request, b: Request, name: Name) {
    match name
    case ClientTurnId => nfc(a.clientTurnId) == nfc(b.clientTurnId)
    case Content => nfc(a.content) == nfc(b.content)
    case OrchestrationMode => OptionalNfc(nfc, a.orchestrationMode) == OptionalNfc(nfc, b.orchestrationMode)
    case PlanningMode => nfc(a.planningMode) == nfc(b.planningMode)
    case RetryOfRunId => OptionalNfc(nfc, a.retryOfRunId) == OptionalNfc(nfc, b.retryOfRunId)
    case SkillName => OptionalNfc(nfc, a.skillName) == OptionalNfc(nfc, b.skillName)
    case ThreadId => nfc(a.threadId) == nfc(b.threadId)
    case UserId => nfc(a.userId) == nfc(b.userId)
    case TaskId => OptionalNfc(nfc, a.taskId) == OptionalNfc(nfc, b.taskId)
    case PlanningContract => OptionalNfc(nfc, a.planningContract) == OptionalNfc(nfc, b.planningContract)
    case ExecutionContract =>
      && IsStandard(a) == IsStandard(b)
      && (IsStandard(a) ==> OptionalNfc(nfc, a.executionContract) == OptionalNfc(nfc, b.executionContract))
  }

  /** Every defining field agrees up to NFC, and the execution marker is out of both or agrees too. */
  ghost predicate SameIdentity(nfc: Nfc, a: Request, b: Request) {
    forall name :: AgreeOn(nfc, a, b, name)
  }

  function NormalEntry(nfc: Nfc, r: Request, name: Name): Option<Value> {
    match Entry(r, name)
    case None => None
    case Some(v) => Normalize(nfc, v)
  }

  lemma AgreeByEntry(nfc: Nfc, a: Request, b: Request, name: Name)
    ensures AgreeOn(nfc, a, b, name) <==> NormalEntry(nfc, a, name) == NormalEntry(nfc, b, name)
  {
  }

  lemma SameIdentityByEntry(nfc: Nfc, a: Request, b: Request)
    ensures SameIdentity(nfc, a, b) <==> forall name :: NormalEntry(nfc, a, name) == NormalEntry(nfc, b, name)
  {
    forall name ensures AgreeOn(nfc, a, b, name) <==> NormalEntry(nfc, a, name) == NormalEntry(nfc, b, name) {
      AgreeByEntry(nfc, a, b, name);
    }
  }

  lemma KeyInjective(m: Name, n: Name)
    requires Key(m) == Key(n)
    ensures m == n
  {
    assert |KeyString(m)| == |KeyString(n)|;
    assert Key(m)[0] == KeyString(m)[0] as int && Key(n)[0] == KeyString(n)[0] as int;
  }

  function NormalFieldList(nfc: Nfc, r: Request, names: seq<Name>): seq<Field> {
    if names == [] then []
    else
      (match NormalEntry(nfc, r, names[0])
       case None => []
       case Some(v) => [Field(Key(names[0]), v)])
      + NormalFieldList(nfc, r, names[1..])
  }

  lemma NormalizeFieldsCons(nfc: Nfc, f: Field, rest: seq<Field>)
    requires Encodable(nfc(f.key)) && Normalize(nfc, f.value).Some? && NormalizeFields(nfc, rest).Some?
    ensures NormalizeFields(nfc, [f] + rest)
         == Some([Field(nfc(f.key), Normalize(nfc, f.value).value)] + NormalizeFields(nfc, rest).value)
  {
    assert ([f] + rest)[1..] == rest;
  }

  lemma EntryNormalizes(nfc: Nfc, r: Request, name: Name)
    ensures Entry(r, name).Some? ==> Normalize(nfc, Entry(r, name).value).Some?
  {
  }

  lemma {:induction false} NormalizedFields(nfc: Nfc, r: Request, names: seq<Name>)
    requires FixesKeys(nfc)
    ensures NormalizeFields(nfc, Fields(r, names)) == Some(NormalFieldList(nfc, r, names))
  {
    if names != [] {
      var name := names[0];
      NormalizedFields(nfc, r, names[1..]);
      EntryNormalizes(nfc, r, name);
      var entry := Entry(r, name);
      if entry.Some? {
        assert nfc(Key(name)) == Key(name);
        NormalizeFieldsCons(nfc, Field(Key(name), entry.value), Fields(r, names[1..]));
      } else {
        assert [] + Fields(r, names[1..]) == Fields(r, names[1..]);
        assert [] + NormalFieldList(nfc, r, names[1..]) == NormalFieldList(nfc, r, names[1..]);
      }
    }
  }

  lemma {:induction false} ListedFields(nfc: Nfc, r: Request, names: seq<Name>, name: Name, v: Value)
    ensures Field(Key(name), v) in NormalFieldList(nfc, r, names) <==>
            name in names && NormalEntry(nfc, r, name) == Some(v)
  {
    if names != [] {
      ListedFields(nfc, r, names[1..], name, v);
      assert names == [names[0]] + names[1..];
      if Key(name) == Key(names[0]) {
        KeyInjective(name, names[0]);
      }
    }
  }

  lemma {:induction false} ListedKeys(nfc: Nfc, r: Request, names: seq<Name>, f: Field)
    requires f in NormalFieldList(nfc, r, names)
    ensures exists name :: name in names && f.key == Key(name) && NormalEntry(nfc, r, name) == Some(f.value)
  {
    var head := NormalEntry(nfc, r, names[0]);
    if head.Some? && f == Field(Key(names[0]), head.value) {
      assert names[0] in names;
    } else {
      ListedKeys(nfc, r, names[1..], f);
      var name :| name in names[1..] && f.key == Key(name) && NormalEntry(nfc, r, name) == Some(f.value);
      assert name in names;
    }
  }

  lemma {:induction false} ListedDistinct(nfc: Nfc, r: Request, names: seq<Name>)
    requires NoRepeats(names)
    ensures DistinctKeys(NormalFieldList(nfc, r, names)) && EncodableKeys(NormalFieldList(nfc, r, names))
  {
    if names != [] {
      ListedDistinct(nfc, r, names[1..]);
      var rest := NormalFieldList(nfc, r, names[1..]);
      forall j | 0 <= j < |rest| ensures rest[j].key != Key(names[0]) {
        ListedKeys(nfc, r, names[1..], rest[j]);
        var name :| name in names[1..] && rest[j].key == Key(name);
        var k :| 0 <= k < |names[1..]| && names[1..][k] == name;
        assert names[0] != names[k + 1];
        if Key(name) == Key(names[0]) {
          KeyInjective(name, names[0]);
        }
      }
    }
  }

  lemma SameListIffSameEntries(nfc: Nfc, a: Request, b: Request)
    ensures (forall f :: f in NormalFieldList(nfc, a, NAMES) <==> f in NormalFieldList(nfc, b, NAMES)) <==>
            (forall name :: NormalEntry(nfc, a, name) == NormalEntry(nfc, b, name))
  {
    if forall f :: f in NormalFieldList(nfc, a, NAMES) <==> f in NormalFieldList(nfc, b, NAMES) {
      forall name ensures NormalEntry(nfc, a, name) == NormalEntry(nfc, b, name) {
        AllNames(name);
        var m, n := NormalEntry(nfc, a, name), NormalEntry(nfc, b, name);
        if m.Some? {
          ListedFields(nfc, a, NAMES, name, m.value);
          ListedFields(nfc, b, NAMES, name, m.value);
        }
        if n.Some? {
          ListedFields(nfc, a, NAMES, name, n.value);
          ListedFields(nfc, b, NAMES, name, n.value);
        }
      }
    }
    if forall name :: NormalEntry(nfc, a, name) == NormalEntry(nfc, b, name) {
      SameEntriesSameList(nfc, a, b, NAMES);
    }
  }

  lemma {:induction false} SameEntriesSameList(nfc: Nfc, a: Request, b: Request, names: seq<Name>)
    requires forall name :: NormalEntry(nfc, a, name) == NormalEntry(nfc, b, name)
    ensures NormalFieldList(nfc, a, names) == NormalFieldList(nfc, b, names)
  {
    if names != [] {
      SameEntriesSameList(nfc, a, b, names[1..]);
    }
  }

  lemma AllNames(name: Name)
    ensures name in NAMES && NoRepeats(NAMES)
  {
    var i := match name
      case ClientTurnId => 0 case Content => 1 case OrchestrationMode => 2 case PlanningMode => 3
      case RetryOfRunId => 4 case SkillName => 5 case ThreadId => 6 case UserId => 7
      case TaskId => 8 case PlanningContract => 9 case ExecutionContract => 10;
    assert NAMES[i] == name;
  }

  lemma NormalizeObject(nfc: Nfc, fields: seq<Field>, fs: seq<Field>)
    requires NormalizeFields(nfc, fields) == Some(fs) && DistinctKeys(fs)
    ensures Normalize(nfc, Obj(fields)) == Some(Obj(SortFields(fs)))
  {
  }

  lemma IdentityNormalForm(nfc: Nfc, r: Request)
    requires FixesKeys(nfc)
    ensures Normalize(nfc, Obj(Fields(r, NAMES))) == Some(Obj(SortFields(NormalFieldList(nfc, r, NAMES))))
    ensures SortedKeys(SortFields(NormalFieldList(nfc, r, NAMES)))
  {
    var names := NAMES;
    AllNames(UserId);
    NormalizedFields(nfc, r, names);
    ListedDistinct(nfc, r, names);
    SortSorted(NormalFieldList(nfc, r, names));
    NormalizeObject(nfc, Fields(r, names), NormalFieldList(nfc, r, names));
  }

  /** Two hashable requests share a hash exactly when their defining fields agree up to NFC. */
  lemma HashIffSameIdentity(nfc: Nfc, sha: Digest, a: Request, b: Request)
    requires FixesKeys(nfc) && Injective(sha)
    requires CreateRequestHash(nfc, sha, a).Some? && CreateRequestHash(nfc, sha, b).Some?
    ensures CreateRequestHash(nfc, sha, a) == CreateRequestHash(nfc, sha, b) <==> SameIdentity(nfc, a, b)
  {
    var m, n := NormalFieldList(nfc, a, NAMES), NormalFieldList(nfc, b, NAMES);
    IdentityNormalForm(nfc, a);
    IdentityNormalForm(nfc, b);
    CanonicalBytesInjective(nfc, Obj(Fields(a, NAMES)), Obj(Fields(b, NAMES)));
    SameListIffSameEntries(nfc, a, b);
    SameIdentityByEntry(nfc, a, b);
    if forall f :: f in m <==> f in n {
      SortedUnique(SortFields(m), SortFields(n));
    }
  }

  // ---- Runs --------------------------------------------------------------

  function ExpectedHash(nfc: Nfc, sha: Digest, run: Run): Option<Text> {
    if run.anonymous then None else CreateRequestHash(nfc, sha, run.request)
  }

  /** Fill in the hash of a new run, or refuse one that does not belong to it; none is the refusal. */
  function WithValidatedHash(nfc: Nfc, sha: Digest, run: Run): Option<Run> {
    if run.anonymous then (if run.createRequestHash.Some? then None else Some(run))
    else
      var expected := CreateRequestHash(nfc, sha, run.request);
      if expected.None? then None
      else if run.createRequestHash.Some? && run.createRequestHash != expected then None
      else Some(run.(createRequestHash := expected))
  }

  /** Whether a replay carrying `hash` is answered by `run`, for a run that has a hash. */
  predicate MatchesByHash(nfc: Nfc, sha: Digest, run: Run, hash: Text) {
    run.createRequestHash == ExpectedHash(nfc, sha, run) && run.createRequestHash == Some(hash)
  }

  /** A mode left out on either side matches any. */
  predicate ModesMatch(a: Option<Text>, b: Option<Text>) {
    a.None? || b.None? || a == b
  }

  /** For a run stored before there were hashes: field by field, the skill's id included. */
  predicate MatchesByFields(run: Run, replay: Request, skillId: Option<Text>) {
    var r := run.request;
    && r.userId == replay.userId && !run.anonymous && r.clientTurnId == replay.clientTurnId
    && r.threadId == replay.threadId && r.content == replay.content && r.taskId == replay.taskId
    && run.skillId == skillId && r.skillName == replay.skillName && r.planningMode == replay.planningMode
    && r.planningContract == replay.planningContract && r.executionContract == replay.executionContract
    && r.retryOfRunId == replay.retryOfRunId && ModesMatch(r.orchestrationMode, replay.orchestrationMode)
  }

  /** Whether a replay is answered by `run`. */
  predicate Matches(nfc: Nfc, sha: Digest, run: Run, hash: Text, replay: Request, skillId: Option<Text>) {
    if run.createRequestHash.Some? then MatchesByHash(nfc, sha, run, hash) else MatchesByFields(run, replay, skillId)
  }

  /** A run without a hash answers fewer replays than one with it, but for the mode: whatever it answers is the same
      request once the modes are, and would have the same hash. */
  lemma MatchByFieldsIsSameRequest(nfc: Nfc, sha: Digest, run: Run, hash: Text, replay: Request, skillId: Option<Text>)
    requires FixesKeys(nfc) && Injective(sha) && run.createRequestHash.None?
    ensures Matches(nfc, sha, run, hash, replay, skillId) ==>
              SameIdentity(nfc, run.request.(orchestrationMode := replay.orchestrationMode), replay)
    ensures Matches(nfc, sha, run, hash, replay, skillId)
            && run.request.orchestrationMode == replay.orchestrationMode ==>
              CreateRequestHash(nfc, sha, run.request) == CreateRequestHash(nfc, sha, replay)
    ensures Matches(nfc, sha, run, hash, replay, skillId) <==>
              !run.anonymous && run.skillId == skillId
              && (run.request.orchestrationMode.None? || replay.orchestrationMode.None?
                  || run.request.orchestrationMode == replay.orchestrationMode)
              && run.request.(orchestrationMode := replay.orchestrationMode) == replay
  {
    var same := run.request.(orchestrationMode := replay.orchestrationMode);
    if same == replay {
      forall name ensures AgreeOn(nfc, same, replay, name) {
      }
    }
  }

  /** A run is taken exactly when what it says of its hash is true: nothing if it is anonymous; else nothing or the hash
      of its own request, which it then has. A hash of some other request is its own exactly when they are the same. */
  lemma ValidatedIff(nfc: Nfc, sha: Digest, run: Run, other: Request)
    requires FixesKeys(nfc) && Injective(sha)
    ensures run.anonymous ==>
              && (WithValidatedHash(nfc, sha, run).Some? <==> run.createRequestHash == None)
              && (WithValidatedHash(nfc, sha, run).Some? ==> WithValidatedHash(nfc, sha, run).value == run)
    ensures !run.anonymous ==>
              var own := CreateRequestHash(nfc, sha, run.request);
              && (WithValidatedHash(nfc, sha, run).Some? <==>
                    own.Some? && (run.createRequestHash == None || run.createRequestHash == own))
              && (WithValidatedHash(nfc, sha, run).Some? ==>
                    WithValidatedHash(nfc, sha, run).value == run.(createRequestHash := own))
    ensures !run.anonymous && run.createRequestHash == CreateRequestHash(nfc, sha, other)
            && CreateRequestHash(nfc, sha, run.request).Some? && CreateRequestHash(nfc, sha, other).Some? ==>
              (WithValidatedHash(nfc, sha, run).Some? <==> SameIdentity(nfc, run.request, other))
  {
    if CreateRequestHash(nfc, sha, run.request).Some? && CreateRequestHash(nfc, sha, other).Some? {
      HashIffSameIdentity(nfc, sha, run.request, other);
    }
  }

  /** A validated run answers exactly the replays that are the same request, and validating again changes nothing. */
  lemma ReplayAnsweredIffSameRequest(nfc: Nfc, sha: Digest, run: Run, replay: Request, skillId: Option<Text>)
    requires FixesKeys(nfc) && Injective(sha)
    requires !run.anonymous && WithValidatedHash(nfc, sha, run).Some?
    requires CreateRequestHash(nfc, sha, replay).Some?
    ensures var stored := WithValidatedHash(nfc, sha, run).value;
            && WithValidatedHash(nfc, sha, stored) == Some(stored)
            && (Matches(nfc, sha, stored, CreateRequestHash(nfc, sha, replay).value, replay, skillId)
                <==> SameIdentity(nfc, run.request, replay))
  {
    HashIffSameIdentity(nfc, sha, run.request, replay);
  }

  /** The marker left out and the marker explicitly null are told apart by the planning contract. */
  lemma PreviewNeverReplaysAsLegacy(nfc: Nfc, sha: Digest, preview: Request, legacy: Request)
    requires FixesKeys(nfc) && Injective(sha)
    requires IsStandard(preview) && !IsStandard(legacy)
    requires CreateRequestHash(nfc, sha, preview).Some? && CreateRequestHash(nfc, sha, legacy).Some?
    ensures CreateRequestHash(nfc, sha, preview) != CreateRequestHash(nfc, sha, legacy)
  {
    HashIffSameIdentity(nfc, sha, preview, legacy);
    assert !AgreeOn(nfc, preview, legacy, ExecutionContract);
  }
}
