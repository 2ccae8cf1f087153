/** The life cycle of verified artifacts: duplicated index columns, one-way report states, exact replay, and a reader
    that gives back what the writer accepted. */
module Artifacts {
  import opened Utf8
  import opened CanonicalJson
  import opened JsonLaws

  datatype State = Staging | Sealed | FailedState | Purged | LegacyUnverified

  /** The fields a transition may not touch. */
  datatype Core = Core(
    id: string, runId: string, workspaceId: string, projectId: string, userId: string,
    artifactType: string, contentType: string, truncated: bool, schemaVersion: Option<string>,
    requirementVersionId: Option<string>, planVersionId: Option<string>, attemptId: Option<string>,
    stepNumber: Option<nat>, createdAt: int)

  /** The fields a transition sets. */
  datatype Status = Status(
    state: Option<State>, contentHash: Option<Text>, sizeBytes: Option<nat>,
    purgedAt: Option<int>, purgedBy: Option<string>, updatedAt: Option<int>)

  datatype Artifact = Artifact(core: Core, status: Status, content: Text)

  /** A stored row: every indexed field as a column of its own, and the whole artifact again as the payload. */
  datatype Row = Row(core: Core, status: Status, payload: Artifact)

  datatype AgentRun = AgentRun(
    id: string, userId: string, workspaceId: string, projectId: string, orchestration: string,
    deepsearch: bool, standardUniversal: bool)

  datatype RunRow = RunRow(orchestration: string, run: AgentRun)

  /** What a content schema yields: the schema it declares and the lineage it names. */
  datatype Parsed = Parsed(
    schemaVersion: string, runId: string, requirementVersionId: string,
    plan: Option<(string, string)>, node: Option<(string, string)>)

  /** The parts left open: normalisation, the digest, and the content schemas. */
  datatype World = World(
    nfc: Nfc, sha: seq<Byte> -> Text, validate: (string, string, Value) -> Option<Parsed>)

  datatype Error =
    Integrity | TransitionInvalid | IdentityConflict | NotFound | NotReady | Invalid | IsPurged

  datatype Result<T> = Ok(value: T) | Err(error: Error)

  type Rows = map<string, Row>
  type Runs = map<string, RunRow>

  // ---- Validation --------------------------------------------------------

  predicate Short(s: Option<string>) {
    s.Some? ==> |s.value| <= 120
  }

  predicate HashMatches(w: World, a: Artifact) {
    && Encodable(a.content)
    && a.status.contentHash == Some(w.sha(Encode(a.content)))
    && a.status.sizeBytes == Some(|Encode(a.content)|)
  }

  /** The artifact model's own validator. */
  predicate ModelValid(w: World, a: Artifact) {
    var c, s := a.core, a.status;
    && Short(c.schemaVersion) && Short(c.requirementVersionId) && Short(c.planVersionId) && Short(c.attemptId)
    && Short(s.purgedBy) && (c.stepNumber.Some? ==> c.stepNumber.value >= 1)
    && (s.state.None? ==>
          && c.schemaVersion.None? && s.contentHash.None? && s.sizeBytes.None? && c.requirementVersionId.None?
          && c.planVersionId.None? && c.attemptId.None? && c.stepNumber.None? && s.purgedAt.None? && s.purgedBy.None?)
    && (s.state == Some(Staging) || s.state == Some(Sealed) || s.state == Some(FailedState) ==>
          c.schemaVersion.Some? && c.requirementVersionId.Some?)
    && (c.planVersionId.None? ==> c.attemptId.None? && c.stepNumber.None?)
    && (c.attemptId.None? <==> c.stepNumber.None?)
    && (s.state == Some(Staging) ==>
          a.content == [] && s.contentHash.None? && s.sizeBytes.None? && s.purgedAt.None? && s.purgedBy.None?)
    && (s.state == Some(Sealed) ==> HashMatches(w, a))
    && (s.state == Some(FailedState) ==> s.purgedAt.None? && s.purgedBy.None?)
    && (s.state == Some(Purged) ==>
          s.purgedAt.Some? && s.purgedBy.Some? && a.content == [] && s.contentHash.Some? && s.sizeBytes.Some?)
  }

  predicate Registered(artifactType: string, schemaVersion: Option<string>) {
    match artifactType
    case "deepsearch_plan_snapshot" =>
      schemaVersion == Some("deepsearch-plan-snapshot-v1") || schemaVersion == Some("deepsearch-plan-snapshot-v2")
    case "deepsearch_tool_evidence" => schemaVersion == Some("deepsearch-tool-evidence-v1")
    case "deepsearch_user_evidence" => schemaVersion == Some("deepsearch-user-evidence-v1")
    case "deepsearch_knowledge_evidence" => schemaVersion == Some("deepsearch-knowledge-evidence-v1")
    case "universal_tool_evidence" => schemaVersion == Some("universal-tool-evidence-v1")
    case "universal_synthesis" => schemaVersion == Some("universal-synthesis-v1")
    case "deepsearch_evidence_manifest" => schemaVersion == Some("deepsearch-evidence-manifest-v1")
    case "deepsearch_report" => schemaVersion == Some("deepsearch-report-v1")
    case _ => false
  }

  predicate Universal(artifactType: string) {
    artifactType == "universal_tool_evidence" || artifactType == "universal_synthesis"
  }

  predicate RequiresPlan(artifactType: string) {
    artifactType == "deepsearch_plan_snapshot" || artifactType == "deepsearch_tool_evidence"
    || artifactType == "deepsearch_evidence_manifest" || artifactType == "deepsearch_report"
    || Universal(artifactType)
  }

  predicate ToolEvidence(artifactType: string) {
    artifactType == "deepsearch_tool_evidence" || artifactType == "universal_tool_evidence"
  }

  /** What reader and writer both check about an artifact and its run. */
  predicate OuterValid(a: Artifact, run: AgentRun) {
    var c := a.core;
    && run.orchestration == "v1"
    && ((run.deepsearch && !Universal(c.artifactType))
        || (run.standardUniversal && Universal(c.artifactType) && Registered(c.artifactType, c.schemaVersion)))
    && c.runId == run.id && c.userId == run.userId && c.workspaceId == run.workspaceId && c.projectId == run.projectId
    && c.contentType == "application/json" && !c.truncated
    && Registered(c.artifactType, c.schemaVersion) && c.requirementVersionId.Some?
    && (RequiresPlan(c.artifactType) <==> c.planVersionId.Some?)
    && (if ToolEvidence(c.artifactType) then c.attemptId.Some? && c.stepNumber.Some?
        else c.attemptId.None? && c.stepNumber.None?)
    && a.status.state.Some? && a.status.state != Some(LegacyUnverified)
  }

  /** What only a writer checks: the shape of the state it writes. */
  predicate WritableState(a: Artifact) {
    var s := a.status;
    match s.state
    case Some(Sealed) => s.purgedAt.None? && s.purgedBy.None?
    case Some(Purged) => s.purgedAt.Some? && s.purgedBy.Some? && s.purgedBy != Some("") && a.content == []
    case Some(_) =>
      a.core.artifactType == "deepsearch_report" && a.content == [] && s.contentHash.None? && s.sizeBytes.None?
      && s.purgedAt.None? && s.purgedBy.None?
    case None => false
  }

  /** The content parses under its registered schema, from canonical text only. */
  function ParseContent(w: World, artifactType: string, schemaVersion: string, content: Text): Option<Parsed> {
    if !Registered(artifactType, Some(schemaVersion)) || !AcceptedAsCanonical(w.nfc, content) then None
    else
      match w.validate(artifactType, schemaVersion, StrictLoads(w.nfc, content).value)
      case None => None
      case Some(p) => if p.schemaVersion == schemaVersion then Some(p) else None
  }

  function PlanVersionId(p: Parsed): Option<string> {
    match p.plan
    case None => None
    case Some((id, version)) => Some(id + ":v" + version)
  }

  function AttemptId(p: Parsed): Option<string> {
    match p.node
    case None => None
    case Some((id, attempt)) => Some(id + ":attempt:" + attempt)
  }

  predicate LineageMatches(c: Core, p: Parsed) {
    && p.runId == c.runId
    && Some(p.requirementVersionId) == c.requirementVersionId
    && c.planVersionId == PlanVersionId(p)
    && c.attemptId == AttemptId(p)
  }

  /** Hash, size, schema and lineage of the content all agree with the envelope. */
  predicate ContentVerified(w: World, a: Artifact) {
    && HashMatches(w, a)
    && a.core.schemaVersion.Some?
    && var p := ParseContent(w, a.core.artifactType, a.core.schemaVersion.value, a.content);
       p.Some? && LineageMatches(a.core, p.value)
  }

  predicate RunWritable(runs: Runs, a: Artifact) {
    && a.core.runId in runs
    && runs[a.core.runId].orchestration == "v1"
    && runs[a.core.runId].run.orchestration == "v1"
    && (runs[a.core.runId].run.deepsearch
        || (runs[a.core.runId].run.standardUniversal && Universal(a.core.artifactType)))
  }

  /** The writer's checks up to the table. */
  predicate Admissible(w: World, runs: Runs, a: Artifact) {
    && ModelValid(w, a)
    && RunWritable(runs, a)
    && OuterValid(a, runs[a.core.runId].run)
    && WritableState(a)
    && (a.status.state == Some(Sealed) ==> ContentVerified(w, a))
  }

  // ---- Writing -----------------------------------------------------------

  datatype Write =
    | InsertSealed(artifact: Artifact)
    | CreateStaging(artifact: Artifact)
    | SealReport(artifact: Artifact)
    | FailReport(artifact: Artifact)

  predicate IsReport(a: Artifact) {
    a.core.artifactType == "deepsearch_report"
  }

  predicate Bare(a: Artifact) {
    a.content == [] && a.status.contentHash.None? && a.status.sizeBytes.None?
  }

  /** The kind of artifact each write takes. */
  predicate Fits(op: Write) {
    match op
    case InsertSealed(a) => a.status.state == Some(Sealed) && !IsReport(a)
    case CreateStaging(a) => a.status.state == Some(Staging) && IsReport(a) && Bare(a)
    case SealReport(a) => a.status.state == Some(Sealed) && IsReport(a)
    case FailReport(a) => a.status.state == Some(FailedState) && IsReport(a) && Bare(a)
  }

  predicate RowMatches(row: Row) {
    row.core == row.payload.core && row.status == row.payload.status
  }

  function ExactReplay(row: Row, a: Artifact): Result<Artifact> {
    if row.payload != a || !RowMatches(row) then Err(IdentityConflict) else Ok(row.payload)
  }

  function RowOf(a: Artifact): Row {
    Row(a.core, a.status, a)
  }

  /** Rebuild an artifact from its row; none if the row does not hold a valid one for `run`. */
  function FromRow(w: World, row: Row, run: AgentRun): Option<Artifact> {
    var a := if row.payload.status.state == Some(Staging) || row.payload.status.state == Some(Purged)
             then row.payload.(content := []) else row.payload;
    if RowMatches(row) && ModelValid(w, a) && OuterValid(a, run) then Some(a) else None
  }

  function InsertResult(rows: Rows, a: Artifact): Result<Artifact> {
    if a.core.id in rows then ExactReplay(rows[a.core.id], a) else Ok(a)
  }

  function AfterInsert(rows: Rows, a: Artifact): Rows {
    if a.core.id in rows then rows else rows[a.core.id := RowOf(a)]
  }

  function TransitionResult(w: World, rows: Rows, run: AgentRun, a: Artifact): Result<Artifact> {
    if a.core.id !in rows then Err(TransitionInvalid)
    else
      var row := rows[a.core.id];
      if row.status.state == a.status.state then ExactReplay(row, a)
      else if row.status.state != Some(Staging) then Err(TransitionInvalid)
      else
        match FromRow(w, row, run)
        case None => Err(Integrity)
        case Some(existing) => if existing.core != a.core then Err(IdentityConflict) else Ok(a)
  }

  function AfterTransition(w: World, rows: Rows, run: AgentRun, a: Artifact): Rows {
    if TransitionResult(w, rows, run, a).Ok? && rows[a.core.id].status.state == Some(Staging)
    then rows[a.core.id := rows[a.core.id].(status := a.status, payload := a)]
    else rows
  }

  function ResultOf(w: World, runs: Runs, rows: Rows, op: Write): Result<Artifact> {
    var a := op.artifact;
    if !Fits(op) then Err(TransitionInvalid)
    else if !Admissible(w, runs, a) then Err(Integrity)
    else if op.InsertSealed? || op.CreateStaging? then InsertResult(rows, a)
    else TransitionResult(w, rows, runs[a.core.runId].run, a)
  }

  function After(w: World, runs: Runs, rows: Rows, op: Write): Rows {
    var a := op.artifact;
    if !Fits(op) || !Admissible(w, runs, a) then rows
    else if op.InsertSealed? || op.CreateStaging? then AfterInsert(rows, a)
    else AfterTransition(w, rows, runs[a.core.runId].run, a)
  }

  /** The table and its four writes. */
  class Store {
    const world: World
    var runs: Runs
    var artifacts: Rows

    constructor (world: World, runs: Runs)
      ensures this.world == world && this.runs == runs && artifacts == map[]
    {
      this.world, this.runs, artifacts := world, runs, map[];
    }

    method Perform(op: Write) returns (result: Result<Artifact>)
      modifies this`artifacts
      ensures result == ResultOf(world, runs, old(artifacts), op)
      ensures artifacts == After(world, runs, old(artifacts), op)
    {
      if !Fits(op) {
        return Err(TransitionInvalid);
      }
      var a := op.artifact;
      if !Admissible(world, runs, a) {
        return Err(Integrity);
      }
      match op {
        case InsertSealed(_) => result := Insert(a);
        case CreateStaging(_) => result := Insert(a);
        case SealReport(_) => result := Transition(a);
        case FailReport(_) => result := Transition(a);
      }
    }

    method Insert(a: Artifact) returns (result: Result<Artifact>)
      modifies this`artifacts
      ensures result == InsertResult(old(artifacts), a)
      ensures artifacts == AfterInsert(old(artifacts), a)
      ensures a.core.id !in old(artifacts) ==>
                result == Ok(a) && artifacts == old(artifacts)[a.core.id := Row(a.core, a.status, a)]
      ensures a.core.id in old(artifacts) ==>
                && artifacts == old(artifacts)
                && result == if old(artifacts)[a.core.id] == Row(a.core, a.status, a) then Ok(a)
                             else Err(IdentityConflict)
    {
      if a.core.id in artifacts {
        return ExactReplay(artifacts[a.core.id], a);
      }
      artifacts := artifacts[a.core.id := RowOf(a)];
      return Ok(a);
    }

    method Transition(a: Artifact) returns (result: Result<Artifact>)
      requires a.core.runId in runs
      requires a.status.state == Some(Sealed) || a.status.state == Some(FailedState)
      modifies this`artifacts
      ensures result == TransitionResult(world, old(artifacts), runs[a.core.runId].run, a)
      ensures artifacts == AfterTransition(world, old(artifacts), runs[a.core.runId].run, a)
      ensures a.core.id !in old(artifacts) ==> result == Err(TransitionInvalid)
      ensures a.core.id in old(artifacts) ==>
                var row := old(artifacts)[a.core.id];
                && (row.status.state == a.status.state ==>
                      && artifacts == old(artifacts)
                      && result == if row == Row(a.core, a.status, a) then Ok(a) else Err(IdentityConflict))
                && (row.status.state != a.status.state && row.status.state != Some(Staging) ==>
                      artifacts == old(artifacts) && result == Err(TransitionInvalid))
                && (row.status.state == Some(Staging) ==>
                      match result
                      case Ok(b) => b == a && artifacts == old(artifacts)[a.core.id := Row(row.core, a.status, a)]
                      case Err(e) => artifacts == old(artifacts) && (e == Integrity || e == IdentityConflict))
    {
      if a.core.id !in artifacts {
        return Err(TransitionInvalid);
      }
      var row := artifacts[a.core.id];
      if row.status.state == a.status.state {
        return ExactReplay(row, a);
      }
      if row.status.state != Some(Staging) {
        return Err(TransitionInvalid);
      }
      var existing := FromRow(world, row, runs[a.core.runId].run);
      if existing.None? {
        return Err(Integrity);
      }
      if existing.value.core != a.core {
        return Err(IdentityConflict);
      }
      artifacts := artifacts[a.core.id := row.(status := a.status, payload := a)];
      return Ok(a);
    }
  }

  // ---- Reading -----------------------------------------------------------

  datatype Scope = Scope(userId: string, workspaceId: string, projectId: Option<string>, runId: Option<string>)

  predicate InScope(run: AgentRun, scope: Scope) {
    && run.userId == scope.userId && run.workspaceId == scope.workspaceId
    && (scope.projectId.Some? ==> run.projectId == scope.projectId.value)
    && (scope.runId.Some? ==> run.id == scope.runId.value)
  }

  function ReadForOwner(w: World, runs: Runs, rows: Rows, id: string, scope: Scope): Result<Artifact> {
    if id !in rows || rows[id].core.runId !in runs then Err(NotFound)
    else
      var row, runRow := rows[id], runs[rows[id].core.runId];
      var run := runRow.run;
      if run.id != row.core.runId || !InScope(run, scope) then Err(NotFound)
      else if runRow.orchestration != run.orchestration || run.orchestration != "v1" then Err(Integrity)
      else if row.status.state.None? then ReadLegacy(w, row, run)
      else
        match FromRow(w, row, run)
        case None => Err(Integrity)
        case Some(a) =>
          match a.status.state
          case Some(Staging) => Err(NotReady)
          case Some(FailedState) => Err(Invalid)
          case Some(Purged) => Err(IsPurged)
          case Some(Sealed) => if ContentVerified(w, a) then Ok(a) else Err(Integrity)
          case _ => Err(Integrity)
  }

  function ReadLegacy(w: World, row: Row, run: AgentRun): Result<Artifact> {
    var a := row.payload;
    if ModelValid(w, a) && a.status.state.None? && a.core.runId == run.id && a.core.userId == run.userId
       && a.core.workspaceId == run.workspaceId && a.core.projectId == run.projectId
    then Ok(a) else Err(Integrity)
  }

  /** Nothing leaves the reader as verified unless hash, size, schema and lineage agree with it. */
  lemma ReaderVerifies(w: World, runs: Runs, rows: Rows, id: string, scope: Scope)
    requires ReadForOwner(w, runs, rows, id, scope).Ok? && rows[id].status.state.Some?
    ensures var a := ReadForOwner(w, runs, rows, id, scope).value;
            && a == rows[id].payload && a.status.state == Some(Sealed) && a.core.runId in runs
            && CoreFits(a.core, runs[a.core.runId].run) && ContentAgrees(w, a)
            && a.core.userId == scope.userId && a.core.workspaceId == scope.workspaceId
  {
    SealedReadIff(w, runs, rows, id, scope);
  }

  // ---- Runs of writes ----------------------------------------------------

  /** A row as the store's writes leave it. */
  predicate RowSound(w: World, id: string, row: Row) {
    && row.core.id == id
    && RowMatches(row)
    && ModelValid(w, row.payload)
    && (row.status.state == Some(Sealed) ==> ContentVerified(w, row.payload))
    && (row.status.state == Some(Sealed) || row.status.state == Some(Staging) || row.status.state == Some(FailedState))
  }

  predicate Sound(w: World, rows: Rows) {
    forall id | id in rows :: RowSound(w, id, rows[id])
  }

  /** How a row may change: not at all, or once, out of staging, keeping every immutable field. */
  predicate Progress(before: Row, after: Row) {
    before == after ||
    (before.status.state == Some(Staging) && before.core == after.core
     && (after.status.state == Some(Sealed) || after.status.state == Some(FailedState)))
  }

  predicate AllProgress(before: Rows, after: Rows) {
    forall id | id in before :: id in after && Progress(before[id], after[id])
  }

  lemma NewRowSound(w: World, runs: Runs, op: Write)
    requires Fits(op) && Admissible(w, runs, op.artifact)
    ensures RowSound(w, op.artifact.core.id, RowOf(op.artifact))
  {
  }

  lemma PutKeepsSound(w: World, rows: Rows, id: string, row: Row)
    requires Sound(w, rows) && RowSound(w, id, row) && (id in rows ==> Progress(rows[id], row))
    ensures Sound(w, rows[id := row]) && AllProgress(rows, rows[id := row])
  {
  }

  /** What the table holds for an artifact once its transition was accepted. */
  lemma TransitionRow(w: World, rows: Rows, run: AgentRun, a: Artifact)
    requires Sound(w, rows) && TransitionResult(w, rows, run, a).Ok?
    requires a.status.state == Some(Sealed) || a.status.state == Some(FailedState)
    ensures TransitionResult(w, rows, run, a) == Ok(a) && a.core.id in rows
    ensures Progress(rows[a.core.id], RowOf(a))
    ensures AfterTransition(w, rows, run, a)
         == if rows[a.core.id].status.state == Some(Staging) then rows[a.core.id := RowOf(a)] else rows
    ensures rows[a.core.id].status.state != Some(Staging) ==> rows[a.core.id] == RowOf(a)
  {
    assert RowSound(w, a.core.id, rows[a.core.id]);
  }

  lemma InsertKeepsSound(w: World, runs: Runs, rows: Rows, op: Write)
    requires Sound(w, rows) && Fits(op) && Admissible(w, runs, op.artifact)
    ensures Sound(w, AfterInsert(rows, op.artifact)) && AllProgress(rows, AfterInsert(rows, op.artifact))
  {
    NewRowSound(w, runs, op);
    if op.artifact.core.id !in rows {
      PutKeepsSound(w, rows, op.artifact.core.id, RowOf(op.artifact));
    }
  }

  lemma TransitionKeepsSound(w: World, runs: Runs, rows: Rows, op: Write, run: AgentRun)
    requires Sound(w, rows) && Fits(op) && Admissible(w, runs, op.artifact) && (op.SealReport? || op.FailReport?)
    ensures Sound(w, AfterTransition(w, rows, run, op.artifact))
    ensures AllProgress(rows, AfterTransition(w, rows, run, op.artifact))
  {
    NewRowSound(w, runs, op);
    if TransitionResult(w, rows, run, op.artifact).Ok? {
      TransitionRow(w, rows, run, op.artifact);
      PutKeepsSound(w, rows, op.artifact.core.id, RowOf(op.artifact));
    }
  }

  lemma WriteKeepsSound(w: World, runs: Runs, rows: Rows, op: Write)
    requires Sound(w, rows)
    ensures Sound(w, After(w, runs, rows, op)) && AllProgress(rows, After(w, runs, rows, op))
  {
    if Fits(op) && Admissible(w, runs, op.artifact) {
      if op.InsertSealed? || op.CreateStaging? {
        InsertKeepsSound(w, runs, rows, op);
      } else {
        TransitionKeepsSound(w, runs, rows, op, runs[op.artifact.core.runId].run);
      }
    }
  }

  /** The runs known before are known as they were; new ones may have come. */
  predicate SameIdentities(a: Runs, b: Runs) {
    forall id | id in a :: id in b && b[id] == a[id]
  }

  /** A write, and the runs as they are when it comes. */
  datatype Event = Event(runs: Runs, op: Write)

  function AfterAll(w: World, rows: Rows, events: seq<Event>): Rows
    decreases |events|
  {
    if events == [] then rows else AfterAll(w, After(w, events[0].runs, rows, events[0].op), events[1..])
  }

  /** Over every run of the four writes: columns and payload agree, immutable fields stay, no row disappears, and a
      sealed or failed row never changes again. */
  lemma {:induction false} RowsOnlyProgress(w: World, rows: Rows, events: seq<Event>)
    requires Sound(w, rows)
    ensures var n := AfterAll(w, rows, events);
            && Sound(w, n)
            && AllProgress(rows, n)
    decreases |events|
  {
    if events != [] {
      WriteKeepsSound(w, events[0].runs, rows, events[0].op);
      RowsOnlyProgress(w, After(w, events[0].runs, rows, events[0].op), events[1..]);
    }
  }

  /** Repeating an accepted write changes nothing and returns the same artifact. */
  lemma ReplayIsExact(w: World, runs: Runs, rows: Rows, op: Write)
    requires Sound(w, rows) && ResultOf(w, runs, rows, op).Ok?
    ensures var n := After(w, runs, rows, op);
            && ResultOf(w, runs, rows, op) == Ok(op.artifact)
            && After(w, runs, n, op) == n && ResultOf(w, runs, n, op) == Ok(op.artifact)
            && op.artifact.core.id in n && n[op.artifact.core.id] == RowOf(op.artifact)
  {
    Landed(w, runs, rows, op);
    Replayed(w, runs, After(w, runs, rows, op), op);
  }

  lemma Landed(w: World, runs: Runs, rows: Rows, op: Write)
    requires Sound(w, rows) && ResultOf(w, runs, rows, op).Ok?
    ensures var n := After(w, runs, rows, op);
            && ResultOf(w, runs, rows, op) == Ok(op.artifact)
            && op.artifact.core.id in n && n[op.artifact.core.id] == RowOf(op.artifact)
  {
    if op.SealReport? || op.FailReport? {
      TransitionRow(w, rows, runs[op.artifact.core.runId].run, op.artifact);
    }
  }

  lemma Replayed(w: World, runs: Runs, rows: Rows, op: Write)
    requires Fits(op) && Admissible(w, runs, op.artifact)
    requires op.artifact.core.id in rows && rows[op.artifact.core.id] == RowOf(op.artifact)
    ensures ResultOf(w, runs, rows, op) == Ok(op.artifact) && After(w, runs, rows, op) == rows
  {
  }

  lemma SealedRowReads(w: World, runs: Runs, rows: Rows, a: Artifact, scope: Scope)
    requires Admissible(w, runs, a) && a.status.state == Some(Sealed) && InScope(runs[a.core.runId].run, scope)
    requires a.core.id in rows && rows[a.core.id] == RowOf(a)
    ensures ReadForOwner(w, runs, rows, a.core.id, scope) == Ok(a)
  {
    assert FromRow(w, RowOf(a), runs[a.core.runId].run) == Some(a);
  }

  lemma StillAdmissible(w: World, runs: Runs, runsThen: Runs, a: Artifact)
    requires SameIdentities(runs, runsThen) && Admissible(w, runs, a)
    ensures Admissible(w, runsThen, a)
  {
    assert runsThen[a.core.runId] == runs[a.core.runId];
  }

  /** An accepted seal or sealed insert is read back unchanged by its owner, whatever was written since. */
  lemma AcceptedIsReadable(
      w: World, runs: Runs, rows: Rows, op: Write, later: seq<Event>, runsThen: Runs, scope: Scope)
    requires Sound(w, rows) && (op.InsertSealed? || op.SealReport?) && ResultOf(w, runs, rows, op).Ok?
    requires SameIdentities(runs, runsThen) && InScope(runs[op.artifact.core.runId].run, scope)
    ensures ReadForOwner(w, runsThen, AfterAll(w, After(w, runs, rows, op), later), op.artifact.core.id, scope)
         == Ok(op.artifact)
  {
    ReplayIsExact(w, runs, rows, op);
    WriteKeepsSound(w, runs, rows, op);
    RowsOnlyProgress(w, After(w, runs, rows, op), later);
    StillAdmissible(w, runs, runsThen, op.artifact);
    SealedRowReads(w, runsThen, AfterAll(w, After(w, runs, rows, op), later), op.artifact, scope);
  }

  lemma EndedRowRefuses(w: World, runs: Runs, rows: Rows, ended: Artifact, other: Write)
    requires ended.core.id in rows && rows[ended.core.id] == RowOf(ended)
    requires ended.status.state == Some(Sealed) || ended.status.state == Some(FailedState)
    requires other.artifact.core.id == ended.core.id && other.artifact != ended
    ensures ResultOf(w, runs, rows, other).Err? && After(w, runs, rows, other) == rows
  {
  }

  /** A report is sealed or failed but never both, and once: after either, every other write to it is refused. */
  lemma OneEndOnly(w: World, runs: Runs, rows: Rows, op: Write, later: seq<Event>, runsThen: Runs, other: Write)
    requires Sound(w, rows) && (op.SealReport? || op.FailReport?) && ResultOf(w, runs, rows, op).Ok?
    requires other.artifact.core.id == op.artifact.core.id && other.artifact != op.artifact
    ensures var n := AfterAll(w, After(w, runs, rows, op), later);
            ResultOf(w, runsThen, n, other).Err? && After(w, runsThen, n, other) == n
  {
    ReplayIsExact(w, runs, rows, op);
    WriteKeepsSound(w, runs, rows, op);
    var n := AfterAll(w, After(w, runs, rows, op), later);
    RowsOnlyProgress(w, After(w, runs, rows, op), later);
    assert n[op.artifact.core.id] == RowOf(op.artifact);
    EndedRowRefuses(w, runsThen, n, op.artifact, other);
  }

  // ---- What is accepted, field by field ----------------------------------

  /** The types of artifacts and the schemas their content may declare. */
  const SCHEMAS: set<(string, string)> := {
    ("deepsearch_plan_snapshot", "deepsearch-plan-snapshot-v1"),
    ("deepsearch_plan_snapshot", "deepsearch-plan-snapshot-v2"),
    ("deepsearch_tool_evidence", "deepsearch-tool-evidence-v1"),
    ("deepsearch_user_evidence", "deepsearch-user-evidence-v1"),
    ("deepsearch_knowledge_evidence", "deepsearch-knowledge-evidence-v1"),
    ("universal_tool_evidence", "universal-tool-evidence-v1"),
    ("universal_synthesis", "universal-synthesis-v1"),
    ("deepsearch_evidence_manifest", "deepsearch-evidence-manifest-v1"),
    ("deepsearch_report", "deepsearch-report-v1")
  }

  const UNIVERSAL := {"universal_tool_evidence", "universal_synthesis"}

  const PLANNED := {
    "deepsearch_plan_snapshot", "deepsearch_tool_evidence", "deepsearch_evidence_manifest", "deepsearch_report",
    "universal_tool_evidence", "universal_synthesis"
  }

  const EVIDENCE_OF_TOOLS := {"deepsearch_tool_evidence", "universal_tool_evidence"}

  /** The immutable fields belong to the run and fit the type of the artifact. */
  ghost predicate CoreFits(c: Core, run: AgentRun) {
    && c.schemaVersion.Some? && (c.artifactType, c.schemaVersion.value) in SCHEMAS
    && run.orchestration == "v1"
    && (if c.artifactType in UNIVERSAL then run.standardUniversal else run.deepsearch)
    && c.runId == run.id && c.userId == run.userId && c.workspaceId == run.workspaceId && c.projectId == run.projectId
    && c.contentType == "application/json" && !c.truncated
    && c.requirementVersionId.Some? && |c.requirementVersionId.value| <= 120
    && (c.planVersionId.Some? <==> c.artifactType in PLANNED)
    && (c.planVersionId.Some? ==> |c.planVersionId.value| <= 120)
    && (c.attemptId.Some? <==> c.artifactType in EVIDENCE_OF_TOOLS)
    && (c.attemptId.Some? ==> |c.attemptId.value| <= 120)
    && (c.stepNumber.Some? <==> c.artifactType in EVIDENCE_OF_TOOLS)
    && (c.stepNumber.Some? ==> c.stepNumber.value >= 1)
  }

  /** The content is canonical JSON under its own schema; and what it says of itself is what the artifact says. */
  ghost predicate ContentAgrees(w: World, a: Artifact)
    requires a.core.schemaVersion.Some?
  {
    var c := a.core;
    && Encodable(a.content)
    && a.status.contentHash == Some(w.sha(Encode(a.content))) && a.status.sizeBytes == Some(|Encode(a.content)|)
    && (exists v :: CanonicalText(w.nfc, v) == Some(a.content))
    && StrictLoads(w.nfc, a.content).Some?
    && match w.validate(c.artifactType, c.schemaVersion.value, StrictLoads(w.nfc, a.content).value)
       case None => false
       case Some(said) => said.schemaVersion == c.schemaVersion.value && SaysOf(said, c)
  }

  /** The run, requirement, plan and attempt the content names are those of the envelope. */
  predicate SaysOf(said: Parsed, c: Core) {
    && said.runId == c.runId && Some(said.requirementVersionId) == c.requirementVersionId
    && (said.plan.None? <==> c.planVersionId.None?)
    && (said.plan.Some? ==> c.planVersionId.value == said.plan.value.0 + ":v" + said.plan.value.1)
    && (said.node.None? <==> c.attemptId.None?)
    && (said.node.Some? ==> c.attemptId.value == said.node.value.0 + ":attempt:" + said.node.value.1)
  }

  lemma LineageIs(c: Core, said: Parsed)
    ensures LineageMatches(c, said) <==> SaysOf(said, c)
  {
  }

  lemma RegisteredAre(artifactType: string, schemaVersion: string)
    ensures Registered(artifactType, Some(schemaVersion)) <==> (artifactType, schemaVersion) in SCHEMAS
  {
  }

  lemma KindsAre(artifactType: string)
    ensures Universal(artifactType) <==> artifactType in UNIVERSAL
    ensures RequiresPlan(artifactType) <==> artifactType in PLANNED
    ensures ToolEvidence(artifactType) <==> artifactType in EVIDENCE_OF_TOOLS
  {
  }

  lemma SchemasShort(artifactType: string, schemaVersion: string)
    requires (artifactType, schemaVersion) in SCHEMAS
    ensures |schemaVersion| <= 120
  {
  }

  lemma ContentVerifiedIff(w: World, a: Artifact)
    requires a.core.schemaVersion.Some? && Registered(a.core.artifactType, a.core.schemaVersion)
    ensures ContentVerified(w, a) <==> ContentAgrees(w, a)
  {
    var p := ParseContent(w, a.core.artifactType, a.core.schemaVersion.value, a.content);
    if p.Some? {
      LineageIs(a.core, p.value);
    }
    if HashMatches(w, a) {
      AcceptedIffPrinted(w.nfc, a.content);
      if v :| CanonicalText(w.nfc, v) == Some(a.content) {
        assert CanonicalBytes(w.nfc, v) == Some(Encode(a.content));
      }
    }
  }

  /** The envelope of a sealed artifact is valid exactly when its immutable fields fit. */
  lemma SealedOuterIff(w: World, a: Artifact, run: AgentRun)
    requires a.status.state == Some(Sealed) && Short(a.status.purgedBy) && HashMatches(w, a)
    ensures ModelValid(w, a) && OuterValid(a, run) <==> CoreFits(a.core, run)
  {
    KindsAre(a.core.artifactType);
    if a.core.schemaVersion.Some? {
      RegisteredAre(a.core.artifactType, a.core.schemaVersion.value);
      if (a.core.artifactType, a.core.schemaVersion.value) in SCHEMAS {
        SchemasShort(a.core.artifactType, a.core.schemaVersion.value);
      }
    }
  }

  /** The writer's run is known, and recorded as it describes itself. */
  predicate KnownRun(runs: Runs, id: string) {
    id in runs && runs[id].orchestration == "v1"
  }

  /** A sealed artifact is admissible exactly when its fields fit its run and its content agrees with them. */
  lemma SealedAdmissibleIff(w: World, runs: Runs, a: Artifact)
    requires a.status.state == Some(Sealed)
    ensures Admissible(w, runs, a) <==>
              && KnownRun(runs, a.core.runId) && CoreFits(a.core, runs[a.core.runId].run) && ContentAgrees(w, a)
              && a.status.purgedAt.None? && a.status.purgedBy.None?
  {
    if a.core.runId in runs && HashMatches(w, a) && a.status.purgedBy.None? {
      SealedOuterIff(w, a, runs[a.core.runId].run);
      KindsAre(a.core.artifactType);
      if OuterValid(a, runs[a.core.runId].run) {
        ContentVerifiedIff(w, a);
      }
      if CoreFits(a.core, runs[a.core.runId].run) {
        RegisteredAre(a.core.artifactType, a.core.schemaVersion.value);
        ContentVerifiedIff(w, a);
      }
    }
  }

  /** A sealed artifact under a new id is accepted exactly when it is no report, its run is known, its fields fit the
      run and its type, and its content agrees with them; and then it is in the table. */
  lemma InsertSealedIff(w: World, runs: Runs, rows: Rows, a: Artifact)
    requires a.core.id !in rows
    ensures ResultOf(w, runs, rows, InsertSealed(a)).Ok? <==>
              && a.status.state == Some(Sealed) && a.core.artifactType != "deepsearch_report"
              && KnownRun(runs, a.core.runId) && CoreFits(a.core, runs[a.core.runId].run) && ContentAgrees(w, a)
              && a.status.purgedAt.None? && a.status.purgedBy.None?
    ensures ResultOf(w, runs, rows, InsertSealed(a)).Ok? ==>
              After(w, runs, rows, InsertSealed(a)) == rows[a.core.id := Row(a.core, a.status, a)]
  {
    if a.status.state == Some(Sealed) {
      SealedAdmissibleIff(w, runs, a);
    }
  }

  lemma StagingAdmissibleIff(w: World, runs: Runs, a: Artifact)
    requires a.status.state == Some(Staging) && a.core.artifactType == "deepsearch_report" && Bare(a)
    ensures Admissible(w, runs, a) <==>
              && KnownRun(runs, a.core.runId) && CoreFits(a.core, runs[a.core.runId].run)
              && a.status.purgedAt.None? && a.status.purgedBy.None?
  {
    KindsAre(a.core.artifactType);
    if a.core.schemaVersion.Some? {
      RegisteredAre(a.core.artifactType, a.core.schemaVersion.value);
      if (a.core.artifactType, a.core.schemaVersion.value) in SCHEMAS {
        SchemasShort(a.core.artifactType, a.core.schemaVersion.value);
      }
    }
  }

  /** A report under a new id is staged exactly when it is empty and its fields fit; and sealed after that exactly
      when its immutable fields are the staged ones and its content agrees with them. */
  lemma ReportSealedIff(w: World, runs: Runs, rows: Rows, a: Artifact, b: Artifact)
    requires a.core.id !in rows && a.core.id == b.core.id
    ensures var staged := ResultOf(w, runs, rows, CreateStaging(a));
            staged.Ok? <==>
              && a.status.state == Some(Staging) && a.core.artifactType == "deepsearch_report"
              && a.content == [] && a.status.contentHash.None? && a.status.sizeBytes.None?
              && KnownRun(runs, a.core.runId) && CoreFits(a.core, runs[a.core.runId].run)
              && a.status.purgedAt.None? && a.status.purgedBy.None?
    ensures ResultOf(w, runs, rows, CreateStaging(a)).Ok? ==>
              (ResultOf(w, runs, After(w, runs, rows, CreateStaging(a)), SealReport(b)).Ok? <==>
                 && b.status.state == Some(Sealed) && b.core == a.core && ContentAgrees(w, b)
                 && b.status.purgedAt.None? && b.status.purgedBy.None?)
  {
    if Fits(CreateStaging(a)) {
      StagingAdmissibleIff(w, runs, a);
      if Admissible(w, runs, a) && Fits(SealReport(b)) {
        SealedAdmissibleIff(w, runs, b);
        assert b.core == a.core ==> FromRow(w, RowOf(a), runs[b.core.runId].run) == Some(a);
      }
    }
  }

  /** A staged report is failed exactly when the failed one has the same immutable fields and is empty, too. */
  lemma ReportFailedIff(w: World, runs: Runs, rows: Rows, a: Artifact, b: Artifact)
    requires a.core.id !in rows && a.core.id == b.core.id && ResultOf(w, runs, rows, CreateStaging(a)).Ok?
    ensures ResultOf(w, runs, After(w, runs, rows, CreateStaging(a)), FailReport(b)).Ok? <==>
              && b.status.state == Some(FailedState) && b.core == a.core
              && b.content == [] && b.status.contentHash.None? && b.status.sizeBytes.None?
              && b.status.purgedAt.None? && b.status.purgedBy.None?
  {
    StagingAdmissibleIff(w, runs, a);
    assert b.core == a.core ==> FromRow(w, RowOf(a), runs[b.core.runId].run) == Some(a);
  }

  lemma SealedReads(w: World, runs: Runs, rows: Rows, op: Write, scope: Scope)
    requires Sound(w, rows) && ResultOf(w, runs, rows, op).Ok? && (op.InsertSealed? || op.SealReport?)
    ensures var n, run := After(w, runs, rows, op), runs[op.artifact.core.runId].run;
            ReadForOwner(w, runs, n, op.artifact.core.id, scope)
            == if InScope(run, scope) then Ok(op.artifact) else Err(NotFound)
  {
    ReplayIsExact(w, runs, rows, op);
  }

  lemma StagedReads(w: World, runs: Runs, rows: Rows, op: Write, scope: Scope)
    requires Sound(w, rows) && ResultOf(w, runs, rows, op).Ok? && (op.CreateStaging? || op.FailReport?)
    ensures var n, run := After(w, runs, rows, op), runs[op.artifact.core.runId].run;
            ReadForOwner(w, runs, n, op.artifact.core.id, scope)
            == if !InScope(run, scope) then Err(NotFound) else if op.CreateStaging? then Err(NotReady) else Err(Invalid)
  {
    var a := op.artifact;
    ReplayIsExact(w, runs, rows, op);
    assert FromRow(w, RowOf(a), runs[a.core.runId].run) == Some(a);
  }

  /** What the owner hears about a report that is not sealed, and anyone else about any artifact. */
  lemma UnsealedReads(w: World, runs: Runs, rows: Rows, op: Write, scope: Scope)
    requires Sound(w, rows) && ResultOf(w, runs, rows, op).Ok?
    ensures var n, run := After(w, runs, rows, op), runs[op.artifact.core.runId].run;
            var answer := ReadForOwner(w, runs, n, op.artifact.core.id, scope);
            if run.userId == scope.userId && run.workspaceId == scope.workspaceId
               && (scope.projectId.Some? ==> run.projectId == scope.projectId.value)
               && (scope.runId.Some? ==> run.id == scope.runId.value)
            then match op
                 case InsertSealed(a) => answer == Ok(a)
                 case SealReport(a) => answer == Ok(a)
                 case CreateStaging(_) => answer == Err(NotReady)
                 case FailReport(_) => answer == Err(Invalid)
            else answer == Err(NotFound)
  {
    if op.InsertSealed? || op.SealReport? {
      SealedReads(w, runs, rows, op, scope);
    } else {
      StagedReads(w, runs, rows, op, scope);
    }
  }

  /** A row from before verification is read exactly when its payload bears no mark of it and belongs to a known run in
      scope. */
  lemma LegacyReadIff(w: World, runs: Runs, rows: Rows, id: string, scope: Scope)
    requires id in rows && rows[id].status.state.None?
    ensures var row, c, s := rows[id], rows[id].payload.core, rows[id].payload.status;
            ReadForOwner(w, runs, rows, id, scope).Ok? <==>
              && KnownRun(runs, row.core.runId)
              && var run := runs[row.core.runId].run;
              && run.orchestration == "v1" && run.id == row.core.runId
              && c.runId == run.id && c.userId == run.userId && c.workspaceId == run.workspaceId
              && c.projectId == run.projectId
              && run.userId == scope.userId && run.workspaceId == scope.workspaceId
              && (scope.projectId.Some? ==> run.projectId == scope.projectId.value)
              && (scope.runId.Some? ==> run.id == scope.runId.value)
              && s.state.None? && s.contentHash.None? && s.sizeBytes.None? && s.purgedAt.None? && s.purgedBy.None?
              && c.schemaVersion.None? && c.requirementVersionId.None? && c.planVersionId.None? && c.attemptId.None?
              && c.stepNumber.None?
    ensures ReadForOwner(w, runs, rows, id, scope).Ok? ==>
              ReadForOwner(w, runs, rows, id, scope).value == rows[id].payload
  {
  }

  /** A sealed row is read exactly when its run is known and in the reader's scope, its columns are those of the
      artifact, and the artifact's fields and content fit and agree; and what is read is that artifact. */
  lemma SealedReadIff(w: World, runs: Runs, rows: Rows, id: string, scope: Scope)
    requires id in rows && rows[id].status.state == Some(Sealed)
    ensures ReadForOwner(w, runs, rows, id, scope).Ok? <==>
              var row := rows[id];
              && KnownRun(runs, row.core.runId)
              && row.core == row.payload.core && row.status == row.payload.status
              && (row.status.purgedBy.Some? ==> |row.status.purgedBy.value| <= 120)
              && CoreFits(row.core, runs[row.core.runId].run) && ContentAgrees(w, row.payload)
              && row.core.userId == scope.userId && row.core.workspaceId == scope.workspaceId
              && (scope.projectId.Some? ==> row.core.projectId == scope.projectId.value)
              && (scope.runId.Some? ==> row.core.runId == scope.runId.value)
    ensures ReadForOwner(w, runs, rows, id, scope).Ok? ==>
              ReadForOwner(w, runs, rows, id, scope).value == rows[id].payload
  {
    var row := rows[id];
    if row.core.runId in runs && RowMatches(row) && HashMatches(w, row.payload) && Short(row.status.purgedBy) {
      SealedOuterIff(w, row.payload, runs[row.core.runId].run);
      if CoreFits(row.core, runs[row.core.runId].run) {
        RegisteredAre(row.core.artifactType, row.core.schemaVersion.value);
        ContentVerifiedIff(w, row.payload);
      }
    }
  }

  // ---- What the content does not fix -------------------------------------

  function WithStepNumber(a: Artifact, n: nat): Artifact {
    a.(core := a.core.(stepNumber := Some(n)))
  }

  lemma StepNumberAdmissible(w: World, runs: Runs, a: Artifact, n: nat)
    requires Admissible(w, runs, a) && a.status.state == Some(Sealed) && a.core.stepNumber.Some? && n >= 1
    ensures Admissible(w, runs, WithStepNumber(a, n))
  {
    assert ContentVerified(w, a);
    assert ContentVerified(w, WithStepNumber(a, n));
  }

  /** The step number of evidence is checked against nothing: an artifact that would be accepted is accepted, and read
      back by its owner, under any other positive step number with the very same content. */
  lemma StepNumberUntied(w: World, runs: Runs, a: Artifact, n: nat, scope: Scope)
    requires a.status.state == Some(Sealed) && a.core.stepNumber.Some? && n >= 1
    requires ResultOf(w, runs, map[], InsertSealed(a)).Ok? && InScope(runs[a.core.runId].run, scope)
    ensures var b := WithStepNumber(a, n);
            && ResultOf(w, runs, map[], InsertSealed(b)) == Ok(b)
            && ReadForOwner(w, runs, After(w, runs, map[], InsertSealed(b)), b.core.id, scope) == Ok(b)
  {
    var b := WithStepNumber(a, n);
    StepNumberAdmissible(w, runs, a, n);
    assert Fits(InsertSealed(b)) && Admissible(w, runs, b);
    AcceptedIsReadable(w, runs, map[], InsertSealed(b), [], runs, scope);
  }
}
