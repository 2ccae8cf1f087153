/** Document ingestion under interference: one job's run over a shared store in which documents are edited,
    other jobs work, and any access may fail before or after its effect. */
module Ingestion {
  import opened Utf8

  type DocId = nat
  type JobId = nat

  /** Memory items are named by what they hold, so writing one again replaces it. */
  datatype ItemId = Summary(doc: DocId, version: nat) | Chunk(doc: DocId, version: nat, index: nat)

  datatype ItemStatus = Staging | Active | Stale

  datatype Item = Item(content: Text, status: ItemStatus)

  datatype Document = Document(version: nat, text: Text, expected: nat, completed: nat)

  datatype JobStatus = Queued | Running | Completed | Failed

  datatype Job = Job(status: JobStatus, document: Option<DocId>, version: nat, expected: nat, completed: nat)

  datatype Tables = Tables(
    documents: map<DocId, Document>, items: map<ItemId, Item>, jobs: map<JobId, Job>, nextDocument: DocId)

  /** The version every upload starts at, and so the only version a job ever works on. */
  const FIRST: nat := 1

  // ---- What others may do ------------------------------------------------

  datatype Edit =
    | Patch(doc: DocId, text: Text)
    | Delete(doc: DocId)
    | InvalidatePrior(doc: DocId, keep: nat, reached: set<ItemId>)
    | Create(document: Document)
    | WriteItem(id: ItemId, item: Item)
    | WriteDocument(doc: DocId, document: Document)
    | WriteJob(job: JobId, row: Job)

  /** The invalidation that follows an edit walks the items one by one; `reached` are those it gets to. */
  function Invalidated(items: map<ItemId, Item>, doc: DocId, keep: nat, reached: set<ItemId>): map<ItemId, Item> {
    map id | id in items ::
      if id in reached && id.doc == doc && id.version != keep then items[id].(status := Stale) else items[id]
  }

  predicate Owned(id: ItemId, doc: DocId) {
    id.doc == doc && id.version == FIRST
  }

  /** One atomic step of someone else. Editing bumps the version; the invalidation that follows an edit keeps a
      version the document has reached by editing; other jobs and manual imports write other documents, or
      later versions of this one. */
  function ApplyEdit(t: Tables, e: Edit, job: JobId, mine: Option<DocId>): Tables {
    match e
    case Patch(doc, text) =>
      if doc in t.documents
      then t.(documents := t.documents[doc := Document(t.documents[doc].version + 1, text, 0, 0)]) else t
    case Delete(doc) => t.(documents := t.documents - {doc})
    case InvalidatePrior(doc, keep, reached) =>
      if doc in t.documents && FIRST < keep <= t.documents[doc].version
      then t.(items := Invalidated(t.items, doc, keep, reached)) else t
    case Create(document) =>
      t.(documents := t.documents[t.nextDocument := document.(version := FIRST)], nextDocument := t.nextDocument + 1)
    case WriteItem(id, item) =>
      if id.doc < t.nextDocument && (mine.None? || !Owned(id, mine.value)) then t.(items := t.items[id := item]) else t
    case WriteDocument(doc, document) =>
      if doc in t.documents && mine != Some(doc) then t.(documents := t.documents[doc := document]) else t
    case WriteJob(other, row) =>
      if other != job then t.(jobs := t.jobs[other := row]) else t
  }

  function ApplyEdits(t: Tables, es: seq<Edit>, job: JobId, mine: Option<DocId>): Tables
    decreases |es|
  {
    if es == [] then t else ApplyEdits(ApplyEdit(t, es[0], job, mine), es[1..], job, mine)
  }

  predicate Current(t: Tables, doc: DocId) {
    doc in t.documents && t.documents[doc].version == FIRST
  }

  predicate Bounded(t: Tables) {
    && (forall doc | doc in t.documents :: doc < t.nextDocument)
    && (forall id | id in t.items :: id.doc < t.nextDocument)
  }

  /** What one job can count on while others work: its row stays; while its document keeps the first version the
      document and its items stay; and never does anyone add, rewrite or revive one of those items. */
  ghost predicate Rely(a: Tables, b: Tables, job: JobId, mine: Option<DocId>) {
    && (Bounded(a) ==> Bounded(b))
    && (job in a.jobs <==> job in b.jobs)
    && (job in a.jobs ==> a.jobs[job] == b.jobs[job])
    && a.nextDocument <= b.nextDocument
    && (mine.Some? && mine.value < a.nextDocument ==> RelyOn(a, b, mine.value))
  }

  ghost predicate RelyOn(a: Tables, b: Tables, doc: DocId) {
    && (doc in b.documents ==> doc in a.documents && a.documents[doc].version <= b.documents[doc].version)
    && (Current(b, doc) ==> Current(a, doc) && a.documents[doc] == b.documents[doc])
    && (forall id | Owned(id, doc) ::
          && (id in a.items <==> id in b.items)
          && (id in a.items ==>
                && a.items[id].content == b.items[id].content
                && (b.items[id].status == a.items[id].status || b.items[id].status == Stale)
                && (Current(b, doc) ==> a.items[id] == b.items[id])))
  }

  ghost predicate VersionsPositive(t: Tables, mine: Option<DocId>) {
    mine.Some? && mine.value in t.documents ==> t.documents[mine.value].version >= FIRST
  }

  lemma EditKeepsRely(t: Tables, e: Edit, job: JobId, mine: Option<DocId>)
    requires Bounded(t) && VersionsPositive(t, mine)
    ensures Rely(t, ApplyEdit(t, e, job, mine), job, mine)
    ensures VersionsPositive(ApplyEdit(t, e, job, mine), mine)
  {
  }

  /** Which item writes of others a job tolerates: any but those to its own items, and of these only such as change
      nothing, or turn an item stale once the document has moved on. A manual import of the job's own version stages its
      items anew, and is not tolerated. */
  lemma ToleratedWriteIff(t: Tables, id: ItemId, item: Item, doc: DocId)
    ensures RelyOn(t, t.(items := t.items[id := item]), doc) <==>
              (Owned(id, doc) ==>
                 && id in t.items && item.content == t.items[id].content
                 && (item == t.items[id] || (item.status == Stale && !Current(t, doc))))
  {
    var n := t.(items := t.items[id := item]);
    assert n.items[id] == item;
    assert Current(n, doc) == Current(t, doc);
  }

  lemma RelyTransitive(a: Tables, b: Tables, c: Tables, job: JobId, mine: Option<DocId>)
    requires Rely(a, b, job, mine) && Rely(b, c, job, mine)
    ensures Rely(a, c, job, mine)
  {
  }

  lemma {:induction false} EditsKeepRely(t: Tables, es: seq<Edit>, job: JobId, mine: Option<DocId>)
    requires Bounded(t) && VersionsPositive(t, mine)
    ensures Rely(t, ApplyEdits(t, es, job, mine), job, mine)
    ensures VersionsPositive(ApplyEdits(t, es, job, mine), mine)
    decreases |es|
  {
    if es != [] {
      var next := ApplyEdit(t, es[0], job, mine);
      EditKeepsRely(t, es[0], job, mine);
      EditsKeepRely(next, es[1..], job, mine);
      RelyTransitive(t, next, ApplyEdits(t, es, job, mine), job, mine);
    }
  }

  // ---- The store as one job reaches it -----------------------------------

  /** An access may fail before it takes effect, or after. */
  datatype Fault = NoFault | FaultBefore | FaultAfter

  /** What happens at one access: others' steps first, then perhaps a failure. */
  datatype Turn = Turn(edits: seq<Edit>, fault: Fault)

  /** A run returns the job's row, or lets a failure escape. */
  datatype Outcome = Returned(row: Job) | Raised

  /** How texts are split and summarised. */
  datatype Splitter = Splitter(chunk: Text -> seq<Text>, summarize: Text -> Text)

  /** What the item under an owned name holds, given the document's first text; none if there is no such item. */
  function Expected(split: Splitter, text: Text, id: ItemId): Option<Text> {
    match id
    case Summary(_, _) => Some(split.summarize(text))
    case Chunk(_, _, index) =>
      if index < |split.chunk(text)| then Some(split.chunk(text)[index]) else None
  }

  /** The document's first text is where it was, and its items say only what they should. */
  ghost predicate Kept(split: Splitter, t: Tables, doc: DocId, text: Text) {
    && doc < t.nextDocument
    && (doc in t.documents ==> t.documents[doc].version >= FIRST)
    && (Current(t, doc) ==> t.documents[doc].text == text)
    && (forall id | Owned(id, doc) && id in t.items :: Expected(split, text, id) == Some(t.items[id].content))
  }

  /** The store after a clean import: exactly one summary and one item per chunk, all active, all counted. */
  ghost predicate Imported(split: Splitter, t: Tables, doc: DocId, text: Text) {
    && (forall id | Owned(id, doc) ::
          && (id in t.items <==> Expected(split, text, id).Some?)
          && (id in t.items ==> t.items[id] == Item(Expected(split, text, id).value, Active)))
    && doc in t.documents
    && t.documents[doc].expected == t.documents[doc].completed == |split.chunk(text)|
  }

  lemma ItemExpected(split: Splitter, text: Text, doc: DocId, i: nat)
    ensures Expected(split, text, Summary(doc, 1)) == Some(split.summarize(text))
    ensures i < |split.chunk(text)| ==> Expected(split, text, Chunk(doc, 1, i)) == Some(split.chunk(text)[i])
    ensures i >= |split.chunk(text)| ==> Expected(split, text, Chunk(doc, 1, i)) == None
    ensures Owned(Summary(doc, 1), doc) && Owned(Chunk(doc, 1, i), doc)
  {
  }

  /** Item by item: the summary and each chunk of the text, active, and nothing else of the first version. */
  ghost predicate ImportsAll(split: Splitter, t: Tables, doc: DocId, text: Text) {
    && Summary(doc, 1) in t.items && t.items[Summary(doc, 1)] == Item(split.summarize(text), Active)
    && (forall i: nat :: Chunk(doc, 1, i) in t.items <==> i < |split.chunk(text)|)
    && (forall i: nat | i < |split.chunk(text)| :: t.items[Chunk(doc, 1, i)] == Item(split.chunk(text)[i], Active))
  }

  lemma ImportedIs(split: Splitter, t: Tables, doc: DocId, text: Text)
    ensures Imported(split, t, doc, text) <==>
              && ImportsAll(split, t, doc, text) && doc in t.documents
              && t.documents[doc].expected == |split.chunk(text)| && t.documents[doc].completed == |split.chunk(text)|
  {
    forall i: nat
      ensures Owned(Summary(doc, 1), doc) && Owned(Chunk(doc, 1, i), doc)
      ensures Expected(split, text, Summary(doc, 1)) == Some(split.summarize(text))
      ensures Expected(split, text, Chunk(doc, 1, i))
           == if i < |split.chunk(text)| then Some(split.chunk(text)[i]) else None
    {
      ItemExpected(split, text, doc, i);
    }
    if Imported(split, t, doc, text) {
      assert Owned(Summary(doc, 1), doc);
    } else if ImportsAll(split, t, doc, text) {
      AllExpected(split, t, doc, text);
    }
  }

  lemma AllExpected(split: Splitter, t: Tables, doc: DocId, text: Text)
    requires ImportsAll(split, t, doc, text)
    ensures forall id | Owned(id, doc) ::
              && (id in t.items <==> Expected(split, text, id).Some?)
              && (id in t.items ==> t.items[id] == Item(Expected(split, text, id).value, Active))
  {
    forall id | Owned(id, doc)
      ensures id in t.items <==> Expected(split, text, id).Some?
      ensures id in t.items ==> t.items[id] == Item(Expected(split, text, id).value, Active)
    {
      match id {
        case Summary(_, _) => assert id == Summary(doc, 1);
        case Chunk(_, _, index) => assert id == Chunk(doc, 1, index);
      }
    }
  }

  /** The same but for the statuses: every item is there, whether active or not, and all are counted. */
  ghost predicate Whole(split: Splitter, t: Tables, doc: DocId, text: Text) {
    && (forall id | Owned(id, doc) :: id in t.items <==> Expected(split, text, id).Some?)
    && doc in t.documents
    && t.documents[doc].expected == t.documents[doc].completed == |split.chunk(text)|
  }

  /** The job's row says completed and its document's counts agree, but some item of that version is not active. */
  ghost predicate Stranded(t: Tables, job: JobId) {
    && job in t.jobs && t.jobs[job].status == Completed && t.jobs[job].document.Some?
    && var doc := t.jobs[job].document.value;
    && doc in t.documents && t.documents[doc].version == t.jobs[job].version
    && t.documents[doc].completed == t.documents[doc].expected
    && exists id | id in t.items && Owned(id, doc) :: t.items[id].status != Active
  }

  lemma KeptStable(split: Splitter, a: Tables, b: Tables, job: JobId, doc: DocId, text: Text)
    requires Rely(a, b, job, Some(doc)) && Kept(split, a, doc, text)
    ensures Kept(split, b, doc, text)
    ensures Imported(split, a, doc, text) && Current(b, doc) ==> Imported(split, b, doc, text)
    ensures Whole(split, a, doc, text) && Current(b, doc) ==> Whole(split, b, doc, text)
  {
  }

  /** The job's items have the same names and contents. */
  ghost predicate SameNames(a: Tables, b: Tables, doc: DocId) {
    forall id | Owned(id, doc) ::
      && (id in a.items <==> id in b.items)
      && (id in a.items ==> a.items[id].content == b.items[id].content)
  }

  /** The job's other items are the same altogether. */
  ghost predicate SameItemsBut(a: Tables, b: Tables, doc: DocId, but: ItemId) {
    forall id | Owned(id, doc) && id != but && id in b.items :: id in a.items && a.items[id] == b.items[id]
  }

  /** What is left after a while of turning the job's items stale: the same items, none revived, and a current
      document only if it was current all along. */
  ghost predicate Eroded(a: Tables, b: Tables, job: JobId, doc: DocId) {
    && SameNames(a, b, doc)
    && (forall id | Owned(id, doc) && id in a.items && a.items[id].status == Stale :: b.items[id].status == Stale)
    && (doc in b.documents ==> doc in a.documents && a.documents[doc].version <= b.documents[doc].version)
    && (Current(b, doc) ==> Current(a, doc) && a.documents[doc] == b.documents[doc])
    && (job in a.jobs <==> job in b.jobs)
    && (job in a.jobs ==> a.jobs[job] == b.jobs[job])
    && a.nextDocument <= b.nextDocument
  }

  lemma ErodedTransitive(a: Tables, b: Tables, c: Tables, job: JobId, doc: DocId)
    requires Eroded(a, b, job, doc) && Eroded(b, c, job, doc)
    ensures Eroded(a, c, job, doc)
  {
  }

  class Session {
    const split: Splitter
    const job: JobId
    var tables: Tables
    var script: seq<Turn>
    var mine: Option<DocId>
    ghost var originals: map<DocId, Text>

    ghost predicate Good()
      reads this
    {
      && Bounded(tables)
      && VersionsPositive(tables, mine)
      && (mine.Some? ==> mine.value < tables.nextDocument)
    }

    /** The job's row names only a document whose items say what they should; for a completed row they are all there
        and counted for as long as nobody has edited the document, though not all of them need be active. */
    ghost predicate Inv()
      reads this
    {
      && Good()
      && (job in tables.jobs ==> RowOk(tables.jobs[job]))
    }

    ghost predicate RowOk(row: Job)
      reads this
    {
      && (row.document.Some? ==>
            && row.version == FIRST
            && mine == row.document
            && row.document.value in originals
            && Kept(split, tables, row.document.value, originals[row.document.value]))
      && (row.status == Completed ==>
            && row.document.Some?
            && row.expected == row.completed == |split.chunk(originals[row.document.value])|
            && (Current(tables, row.document.value) ==>
                  Whole(split, tables, row.document.value, originals[row.document.value])))
    }

    /** A store in which the job has just been created. */
    constructor (split: Splitter, job: JobId, tables: Tables, script: seq<Turn>)
      requires Bounded(tables)
      requires job in tables.jobs && tables.jobs[job] == Job(Queued, None, FIRST, 0, 0)
      ensures Inv() && this.split == split && this.job == job && this.tables == tables && this.script == script
    {
      this.split, this.job, this.tables, this.script := split, job, tables, script;
      mine, originals := None, map[];
    }

    /** Let the others act, and draw whether this access fails. */
    method Interfere() returns (fault: Fault)
      requires Good()
      modifies this`tables, this`script
      ensures Good() && Rely(old(tables), tables, job, mine)
      ensures old(script) == [] ==> fault == NoFault && tables == old(tables) && script == []
      ensures forall f :: old(script) == [Turn([], f)] ==> fault == f && tables == old(tables) && script == []
    {
      if script == [] {
        assert Rely(tables, tables, job, mine);
        return NoFault;
      }
      EditsKeepRely(tables, script[0].edits, job, mine);
      tables := ApplyEdits(tables, script[0].edits, job, mine);
      fault := script[0].fault;
      script := script[1..];
    }

    method GetJob() returns (ok: bool, row: Option<Job>)
      requires Good()
      modifies this`tables, this`script
      ensures Good() && Rely(old(tables), tables, job, mine)
      ensures ok ==> row == if job in tables.jobs then Some(tables.jobs[job]) else None
      ensures old(script) == [] ==> ok && tables == old(tables) && script == []
    {
      var fault := Interfere();
      ok := fault == NoFault;
      row := if job in tables.jobs then Some(tables.jobs[job]) else None;
    }

    method GetDocument(doc: DocId) returns (ok: bool, document: Option<Document>)
      requires Good()
      modifies this`tables, this`script
      ensures Good() && Rely(old(tables), tables, job, mine)
      ensures ok ==> document == if doc in tables.documents then Some(tables.documents[doc]) else None
      ensures old(script) == [] ==> ok && tables == old(tables) && script == []
    {
      var fault := Interfere();
      ok := fault == NoFault;
      document := if doc in tables.documents then Some(tables.documents[doc]) else None;
    }

    /** Write the job's row. */
    method SaveJob(row: Job) returns (ok: bool, ghost seen: Tables)
      requires Good()
      modifies this`tables, this`script
      ensures Good() && Rely(old(tables), seen, job, mine)
      ensures tables == seen || tables == seen.(jobs := seen.jobs[job := row])
      ensures ok ==> tables == seen.(jobs := seen.jobs[job := row])
      ensures old(script) == [] ==> ok && seen == old(tables) && script == []
      ensures old(script) == [Turn([], FaultBefore)] ==> !ok && tables == old(tables) && script == []
    {
      var fault := Interfere();
      seen := tables;
      if fault != FaultBefore {
        tables := tables.(jobs := tables.jobs[job := row]);
      }
      ok := fault == NoFault;
    }

    /** Write an item of the job's document. */
    method SaveItem(id: ItemId, item: Item) returns (ok: bool, ghost seen: Tables)
      requires Good() && mine.Some? && Owned(id, mine.value)
      modifies this`tables, this`script
      ensures Good() && Rely(old(tables), seen, job, mine)
      ensures tables == seen || tables == seen.(items := seen.items[id := item])
      ensures ok ==> tables == seen.(items := seen.items[id := item])
      ensures old(script) == [] ==> ok && seen == old(tables) && script == []
    {
      var fault := Interfere();
      seen := tables;
      if fault != FaultBefore {
        tables := tables.(items := tables.items[id := item]);
      }
      ok := fault == NoFault;
    }

    /** Write the document only while its stored version is `version`; `saved` tells whether it was written. */
    method SaveDocumentIfVersion(doc: DocId, document: Document, version: nat)
      returns (ok: bool, saved: bool, ghost seen: Tables)
      requires Good() && document.version >= FIRST
      modifies this`tables, this`script
      ensures Good() && Rely(old(tables), seen, job, mine)
      ensures tables == seen ||
              (doc in seen.documents && seen.documents[doc].version == version
               && tables == seen.(documents := seen.documents[doc := document]))
      ensures ok ==> (saved <==> doc in seen.documents && seen.documents[doc].version == version)
      ensures ok && saved ==> tables == seen.(documents := seen.documents[doc := document])
      ensures ok && !saved ==> tables == seen
      ensures old(script) == [] ==> ok && seen == old(tables) && script == []
    {
      var fault := Interfere();
      seen := tables;
      saved := doc in tables.documents && tables.documents[doc].version == version;
      if fault != FaultBefore && saved {
        tables := tables.(documents := tables.documents[doc := document]);
      }
      ok := fault == NoFault;
    }

    /** Write the job's row only while the document's stored version is `version`. */
    method SaveJobIfDocumentVersion(row: Job, doc: DocId, version: nat)
      returns (ok: bool, saved: bool, ghost seen: Tables)
      requires Good()
      modifies this`tables, this`script
      ensures Good() && Rely(old(tables), seen, job, mine)
      ensures tables == seen ||
              (doc in seen.documents && seen.documents[doc].version == version
               && tables == seen.(jobs := seen.jobs[job := row]))
      ensures ok ==> (saved <==> doc in seen.documents && seen.documents[doc].version == version)
      ensures ok ==> tables == if saved then seen.(jobs := seen.jobs[job := row]) else seen
      ensures old(script) == [] ==> ok && seen == old(tables) && script == []
      ensures old(script) == [Turn([], FaultAfter)] && doc in old(tables).documents
              && old(tables).documents[doc].version == version ==>
                !ok && seen == old(tables) && tables == seen.(jobs := seen.jobs[job := row]) && script == []
    {
      var fault := Interfere();
      seen := tables;
      ok := fault == NoFault;
      saved := doc in tables.documents && tables.documents[doc].version == version;
      if saved && fault != FaultBefore {
        tables := tables.(jobs := tables.jobs[job := row]);
      }
    }

    // ---- The job's own steps ---------------------------------------------

    /** The job is running on `doc`, and says so in its row. */
    ghost predicate Working(doc: DocId, text: Text)
      reads this
    {
      && Good()
      && mine == Some(doc)
      && doc in originals && originals[doc] == text
      && Kept(split, tables, doc, text)
      && job in tables.jobs
      && tables.jobs[job].document == mine
      && tables.jobs[job].version == FIRST
      && tables.jobs[job].status == Running
    }

    /** The chunks' items are all in one status. */
    ghost predicate ChunksAre(doc: DocId, text: Text, status: ItemStatus)
      reads this
    {
      forall index | 0 <= index < |split.chunk(text)| ::
        Chunk(doc, FIRST, index) in tables.items && tables.items[Chunk(doc, FIRST, index)].status == status
    }

    ghost predicate Counts(doc: DocId, expected: nat, completed: nat)
      reads this
    {
      && doc in tables.documents
      && tables.documents[doc].expected == expected && tables.documents[doc].completed == completed
    }

    method RequireCurrent(doc: DocId, version: nat) returns (ok: bool, document: Document)
      requires Good()
      modifies this`tables, this`script
      ensures Good() && Rely(old(tables), tables, job, mine)
      ensures ok ==> doc in tables.documents && tables.documents[doc] == document && document.version == version
      ensures old(script) == [] ==> tables == old(tables) && script == []
                                    && (ok <==> doc in tables.documents && tables.documents[doc].version == version)
    {
      var fine, found := GetDocument(doc);
      if !fine || found.None? || found.value.version != version {
        return false, Document(0, [], 0, 0);
      }
      return true, found.value;
    }

    method SaveProgress(doc: DocId, document: Document, ghost text: Text) returns (ok: bool)
      requires Working(doc, text) && document.version == FIRST && document.text == text
      modifies this`tables, this`script
      ensures Working(doc, text)
      ensures ok ==> Current(tables, doc) && tables.documents[doc] == document
      ensures forall id | Owned(id, doc) :: id in old(tables.items) <==> id in tables.items
      ensures Current(tables, doc) ==> forall id | Owned(id, doc) && id in tables.items ::
                                         id in old(tables.items) && tables.items[id] == old(tables.items)[id]
      ensures old(script) == [] && Current(old(tables), doc) ==> ok && script == [] && tables.items == old(tables).items
    {
      ghost var before := tables;
      var fine, _ := RequireCurrent(doc, document.version);
      if !fine {
        return false;
      }
      ghost var middle := tables;
      ghost var seen;
      var saved;
      ok, saved, seen := SaveDocumentIfVersion(doc, document, document.version);
      RelyTransitive(before, middle, seen, job, mine);
      if ok && !saved {
        middle := tables;
        var _, _ := GetDocument(doc);
        RelyTransitive(before, middle, tables, job, mine);
        ok := false;
      }
    }

    /** Write one staging item of the job's document. */
    method SaveStaging(id: ItemId, content: Text, doc: DocId, ghost text: Text) returns (ok: bool)
      requires Working(doc, text) && Owned(id, doc) && Expected(split, text, id) == Some(content)
      modifies this`tables, this`script
      ensures Working(doc, text)
      ensures ok ==> id in tables.items
      ensures forall other | Owned(other, doc) && other in old(tables.items) :: other in tables.items
      ensures old(script) == [] ==>
                && ok && script == []
                && tables == old(tables).(items := old(tables).items[id := Item(content, Staging)])
    {
      ghost var seen;
      ok, seen := SaveItem(id, Item(content, Staging));
    }

    method SaveSummary(doc: DocId, ghost text: Text) returns (ok: bool)
      requires Working(doc, text)
      modifies this`tables, this`script
      ensures Working(doc, text)
      ensures ok ==> Summary(doc, FIRST) in tables.items
      ensures old(script) == [] && Current(old(tables), doc) ==> ok && script == [] && Current(tables, doc)
    {
      var fine, current := RequireCurrent(doc, FIRST);
      if !fine {
        return false;
      }
      ok := SaveStaging(Summary(doc, FIRST), split.summarize(current.text), doc, text);
    }

    /** Stage every chunk of the document, counting as it goes. */
    method ImportChunks(doc: DocId, ghost text: Text) returns (ok: bool, count: nat)
      requires Working(doc, text)
      modifies this`tables, this`script
      ensures Working(doc, text)
      ensures ok ==> count == |split.chunk(text)|
      ensures ok ==> forall index | 0 <= index < count :: Chunk(doc, FIRST, index) in tables.items
      ensures forall id | Owned(id, doc) && id in old(tables.items) :: id in tables.items
      ensures old(script) == [] && Current(old(tables), doc) ==> ok && script == [] && Current(tables, doc)
      ensures old(script) == [] && Current(old(tables), doc) ==>
                ChunksAre(doc, text, Staging) && Counts(doc, count, count)
    {
      var fine, current := RequireCurrent(doc, FIRST);
      if !fine {
        return false, 0;
      }
      var chunks := split.chunk(current.text);
      fine := SaveProgress(doc, current.(expected := |chunks|, completed := 0), text);
      if !fine {
        return false, 0;
      }
      for index := 0 to |chunks|
        invariant Working(doc, text) && chunks == split.chunk(text)
        invariant forall k | 0 <= k < index :: Chunk(doc, FIRST, k) in tables.items
        invariant old(script) == [] && Current(old(tables), doc) ==>
                    && script == [] && Current(tables, doc) && Counts(doc, |chunks|, index)
                    && forall k | 0 <= k < index :: tables.items[Chunk(doc, FIRST, k)].status == Staging
        invariant forall id | Owned(id, doc) && id in old(tables.items) :: id in tables.items
      {
        fine := ImportOne(doc, chunks, index, text);
        if !fine {
          return false, 0;
        }
      }
      return true, |chunks|;
    }

    /** Stage one chunk and note the progress, the document being current before each of the two writes. */
    method ImportOne(doc: DocId, chunks: seq<Text>, index: nat, ghost text: Text) returns (fine: bool)
      requires Working(doc, text) && chunks == split.chunk(text) && index < |chunks|
      modifies this`tables, this`script
      ensures Working(doc, text)
      ensures fine ==> Chunk(doc, FIRST, index) in tables.items
      ensures forall id | Owned(id, doc) && id in old(tables.items) :: id in tables.items
      ensures old(script) == [] && Current(old(tables), doc) ==>
                && fine && script == [] && Current(tables, doc) && Counts(doc, |chunks|, index + 1)
                && tables.items == old(tables).items[Chunk(doc, FIRST, index) := Item(chunks[index], Staging)]
    {
      var current;
      fine, current := RequireCurrent(doc, FIRST);
      if !fine {
        return;
      }
      fine := SaveStaging(Chunk(doc, FIRST, index), chunks[index], doc, text);
      if !fine {
        return;
      }
      fine, current := RequireCurrent(doc, FIRST);
      if !fine {
        return;
      }
      fine := SaveProgress(doc, current.(expected := |chunks|, completed := index + 1), text);
    }

    /** `items` are the job's items as the tables have them. */
    ghost predicate Listed(items: map<ItemId, Item>, tables: Tables, doc: DocId) {
      && (forall id | id in items :: Owned(id, doc) && id in tables.items && items[id] == tables.items[id])
      && (forall id | Owned(id, doc) && id in tables.items :: id in items)
    }

    /** The job's items as one read finds them. */
    method ListItems(doc: DocId) returns (ok: bool, items: map<ItemId, Item>)
      requires Good()
      modifies this`tables, this`script
      ensures Good() && Rely(old(tables), tables, job, mine)
      ensures ok ==> items == map id | id in tables.items && Owned(id, doc) :: tables.items[id]
      ensures old(script) == [] ==> ok && tables == old(tables) && script == []
    {
      var fault := Interfere();
      ok := fault == NoFault;
      items := map id | id in tables.items && Owned(id, doc) :: tables.items[id];
    }

    /** Rewrite one of the job's items with another status. */
    method SaveStatus(id: ItemId, item: Item, status: ItemStatus, doc: DocId) returns (ok: bool, ghost seen: Tables)
      requires Good() && mine == Some(doc) && Owned(id, doc)
      requires id in tables.items && tables.items[id].content == item.content
      modifies this`tables, this`script
      ensures Good() && Rely(old(tables), seen, job, mine)
      ensures tables == seen || tables == seen.(items := seen.items[id := item.(status := status)])
      ensures ok ==> tables == seen.(items := seen.items[id := item.(status := status)])
      ensures old(script) == [] ==> ok && seen == old(tables) && script == []
      ensures SameNames(old(tables), tables, doc)
      ensures Current(tables, doc) ==> Current(old(tables), doc) && SameItemsBut(old(tables), tables, doc, id)
    {
      ok, seen := SaveItem(id, item.(status := status));
    }

    method ActivateOne(id: ItemId, item: Item, doc: DocId, ghost text: Text) returns (ok: bool)
      requires Working(doc, text) && Owned(id, doc)
      requires id in tables.items && tables.items[id].content == item.content
      modifies this`tables, this`script
      ensures Working(doc, text)
      ensures ok ==> id in tables.items && tables.items[id].status == Active
      ensures old(script) == [] && Current(old(tables), doc) ==> ok && script == [] && Current(tables, doc)
      ensures SameNames(old(tables), tables, doc)
      ensures Current(tables, doc) ==> Current(old(tables), doc) && SameItemsBut(old(tables), tables, doc, id)
    {
      var current, _ := RequireCurrent(doc, FIRST);
      if !current {
        return false;
      }
      ghost var seen;
      ok, seen := SaveStatus(id, item, Active, doc);
    }

    /** Turn the listed items active one by one, as long as the document is current. */
    method ActivateItems(doc: DocId, ghost text: Text) returns (ok: bool)
      requires Working(doc, text)
      modifies this`tables, this`script
      ensures Working(doc, text)
      ensures ok && Current(tables, doc) ==>
                forall id | Owned(id, doc) && id in tables.items :: tables.items[id].status == Active
      ensures SameNames(old(tables), tables, doc)
      ensures old(script) == [] && Current(old(tables), doc) ==> ok && script == [] && Current(tables, doc)
    {
      var items;
      ok, items := ListItems(doc);
      if ok {
        ok := ActivateListed(items, doc, text);
      }
    }

    method ActivateListed(items: map<ItemId, Item>, doc: DocId, ghost text: Text) returns (ok: bool)
      requires Working(doc, text) && Listed(items, tables, doc)
      modifies this`tables, this`script
      ensures Working(doc, text)
      ensures ok && Current(tables, doc) ==>
                forall id | Owned(id, doc) && id in tables.items :: tables.items[id].status == Active
      ensures SameNames(old(tables), tables, doc)
      ensures old(script) == [] && Current(old(tables), doc) ==> ok && script == [] && Current(tables, doc)
    {
      var todo := items.Keys;
      while todo != {}
        invariant Working(doc, text) && todo <= items.Keys
        invariant SameNames(old(tables), tables, doc)
        invariant Current(tables, doc) ==> forall id | id in items && id !in todo :: tables.items[id].status == Active
        invariant old(script) == [] && Current(old(tables), doc) ==> script == [] && Current(tables, doc)
        decreases |todo|
      {
        var id :| id in todo;
        var fine := ActivateOne(id, items[id], doc, text);
        if !fine {
          return false;
        }
        todo := todo - {id};
      }
      return true;
    }

    method InvalidateOne(id: ItemId, item: Item, doc: DocId) returns (ok: bool)
      requires Good() && mine == Some(doc) && Owned(id, doc)
      requires id in tables.items && tables.items[id].content == item.content
      modifies this`tables, this`script
      ensures Good() && Eroded(old(tables), tables, job, doc)
      ensures ok ==> id in tables.items && tables.items[id].status == Stale
      ensures old(script) == [] ==> ok && script == [] && tables.documents == old(tables).documents
    {
      ghost var seen;
      ok, seen := SaveStatus(id, item, Stale, doc);
    }

    /** Turn every item of the job's document stale. */
    method InvalidateItems(doc: DocId) returns (ok: bool)
      requires Good() && mine == Some(doc)
      modifies this`tables, this`script
      ensures Good() && Eroded(old(tables), tables, job, doc)
      ensures ok ==> forall id | Owned(id, doc) && id in tables.items :: tables.items[id].status == Stale
      ensures old(script) == [] ==> ok && script == [] && tables.documents == old(tables).documents
    {
      var items;
      ok, items := ListItems(doc);
      if ok {
        ghost var listed := tables;
        ok := InvalidateListed(items, doc);
        ErodedTransitive(old(tables), listed, tables, job, doc);
      }
    }

    method InvalidateListed(items: map<ItemId, Item>, doc: DocId) returns (ok: bool)
      requires Good() && mine == Some(doc) && Listed(items, tables, doc)
      modifies this`tables, this`script
      ensures Good() && Eroded(old(tables), tables, job, doc)
      ensures ok ==> forall id | Owned(id, doc) && id in tables.items :: tables.items[id].status == Stale
      ensures old(script) == [] ==> ok && script == [] && tables.documents == old(tables).documents
    {
      var todo := items.Keys;
      while todo != {}
        invariant Good() && todo <= items.Keys
        invariant Eroded(old(tables), tables, job, doc)
        invariant forall id | id in items && id !in todo :: tables.items[id].status == Stale
        invariant old(script) == [] ==> script == [] && tables.documents == old(tables).documents
        decreases |todo|
      {
        var id :| id in todo;
        if items[id].status != Stale {
          ghost var before := tables;
          var fine := InvalidateOne(id, items[id], doc);
          ErodedTransitive(old(tables), before, tables, job, doc);
          if !fine {
            return false;
          }
        }
        todo := todo - {id};
      }
      return true;
    }

    /** The stored row is `row`, and it is in order. */
    ghost predicate InOrder(row: Job)
      reads this
    {
      Good() && job in tables.jobs && tables.jobs[job] == row && RowOk(row)
    }

    ghost predicate AllStale(doc: DocId)
      reads this
    {
      forall id | Owned(id, doc) && id in tables.items :: tables.items[id].status == Stale
    }

    /** The row counts what its document counts, as long as nobody has edited that. */
    ghost predicate CountedAs(row: Job)
      reads this
    {
      row.document.Some? && Current(tables, row.document.value) ==>
        && row.expected == tables.documents[row.document.value].expected
        && row.completed == tables.documents[row.document.value].completed
    }

    /** Withdraw the items of a failing job and note how far its document got. */
    method Withdraw(row: Job) returns (ok: bool, counted: Job)
      requires InOrder(row) && row.document.Some?
      modifies this`tables, this`script
      ensures InOrder(row)
      ensures ok ==> AllStale(row.document.value)
      ensures counted == row.(expected := counted.expected, completed := counted.completed)
      ensures ok ==> CountedAs(counted) && (Current(tables, row.document.value) || counted == row)
      ensures Eroded(old(tables), tables, job, row.document.value)
      ensures old(script) == [] ==> ok && script == [] && tables.documents == old(tables).documents
    {
      var doc := row.document.value;
      counted := row;
      ok := InvalidateItems(doc);
      if ok {
        var document;
        ok, document := GetDocument(doc);
        if ok && document.Some? && document.value.version == row.version {
          counted := row.(expected := document.value.expected, completed := document.value.completed);
        }
      }
    }

    /** End the job as failed: first its items go stale, then its row says so. Another failure here escapes. */
    method FailJob() returns (outcome: Outcome)
      requires Inv()
      modifies this`tables, this`script
      ensures Inv()
      ensures outcome.Returned? ==> StoredFailure(outcome.row) && job in old(tables).jobs
                                    && outcome.row.document == old(tables).jobs[job].document
                                    && outcome.row.version == old(tables).jobs[job].version
      ensures old(script) == [] && job in old(tables).jobs ==> outcome.Returned?
    {
      var fine, found := GetJob();
      if !fine || found.None? {
        return Raised;
      }
      var row := found.value;
      if row.document.Some? {
        fine, row := Withdraw(row);
        if !fine {
          return Raised;
        }
      }
      outcome := SaveFailed(row.(status := Failed));
    }

    method SaveFailed(row: Job) returns (outcome: Outcome)
      requires Inv() && job in tables.jobs && row.status == Failed
      requires row.document == tables.jobs[job].document && row.version == tables.jobs[job].version
      requires row.document.Some? ==> AllStale(row.document.value) && CountedAs(row)
      modifies this`tables, this`script
      ensures Inv()
      ensures outcome.Returned? ==> outcome.row == row && StoredFailure(row)
      ensures old(script) == [] ==> outcome.Returned?
      ensures old(script) == [Turn([], FaultBefore)] ==> outcome.Raised? && tables == old(tables) && script == []
    {
      ghost var seen;
      var fine;
      fine, seen := SaveJob(row);
      outcome := if fine then Returned(row) else Raised;
    }

    /** The failed row is stored, no item of its document's version is active, and it counts what the document does. */
    ghost predicate StoredFailure(row: Job)
      reads this
    {
      && job in tables.jobs && tables.jobs[job] == row && row.status == Failed
      && (row.document.Some? ==> AllStale(row.document.value) && CountedAs(row))
    }

    /** The completed row is stored, its document is still at the job's version, its import is exactly a clean one,
        and it counts every chunk. */
    ghost predicate StoredSuccess(row: Job)
      reads this
    {
      && job in tables.jobs && tables.jobs[job] == row && row.status == Completed
      && row.document.Some? && row.document.value in originals
      && Current(tables, row.document.value) && row.version == FIRST
      && Imported(split, tables, row.document.value, originals[row.document.value])
      && row.expected == row.completed == |split.chunk(originals[row.document.value])|
    }

    /** There is something to work on: an upload that parses, or a document nobody has edited. */
    ghost predicate CanRun(row: Job, parsed: Option<Text>)
      reads this
    {
      if row.document.None? then parsed.Some? else Current(tables, row.document.value)
    }

    /** The row of a run that has just started. */
    ghost predicate Started(row: Job)
      reads this
    {
      Good() && job in tables.jobs && tables.jobs[job] == row && RowOk(row) && row.status == Running
    }

    /** Parse the upload into a new document and tie the row to it. `parsed` is what the parser makes of the
        request, none if it raises. */
    method ParseDocument(row: Job, parsed: Option<Text>) returns (ok: bool, doc: DocId)
      requires Started(row) && row.document.None?
      modifies this
      ensures Inv() && job in tables.jobs
      ensures ok ==> doc in originals && Working(doc, originals[doc])
      ensures old(script) == [] ==> script == [] && (ok <==> parsed.Some?) && (ok ==> Current(tables, doc))
    {
      if parsed.None? {
        return false, 0;
      }
      var fault := Interfere();
      if fault != NoFault {
        return false, 0;
      }
      fault := Interfere();
      if fault == FaultBefore {
        return false, 0;
      }
      doc := tables.nextDocument;
      tables := tables.(documents := tables.documents[doc := Document(FIRST, parsed.value, 0, 0)],
                        nextDocument := doc + 1);
      mine := Some(doc);
      originals := originals[doc := parsed.value];
      if fault == FaultAfter {
        return false, doc;
      }
      ghost var seen;
      ok, seen := SaveJob(row.(document := Some(doc), version := FIRST));
    }

    method LoadOrParse(row: Job, parsed: Option<Text>) returns (ok: bool, doc: DocId)
      requires Started(row)
      modifies this
      ensures Inv() && job in tables.jobs
      ensures ok ==> doc in originals && Working(doc, originals[doc])
      ensures old(script) == [] ==> script == [] && (ok <==> old(CanRun(row, parsed))) && (ok ==> Current(tables, doc))
    {
      if row.document.Some? {
        doc := row.document.value;
        var existing;
        ok, existing := GetDocument(doc);
        return ok && existing.Some? && existing.value.version == row.version, doc;
      }
      ok, doc := ParseDocument(row, parsed);
    }

    /** With every item staged and activated, count the document. */
    method Count(doc: DocId, count: nat, ghost text: Text) returns (ok: bool)
      requires Working(doc, text) && count == |split.chunk(text)|
      requires forall id | Owned(id, doc) && Expected(split, text, id).Some? :: id in tables.items
      requires Current(tables, doc) ==>
                 forall id | Owned(id, doc) && id in tables.items :: tables.items[id].status == Active
      modifies this`tables, this`script
      ensures Working(doc, text)
      ensures ok ==> Current(tables, doc) && Imported(split, tables, doc, text)
      ensures old(script) == [] && Current(old(tables), doc) ==> ok && script == [] && Current(tables, doc)
    {
      var current;
      ok, current := RequireCurrent(doc, FIRST);
      if ok {
        ok := SaveProgress(doc, current.(expected := count, completed := count), text);
      }
    }

    /** The guarded part of a run up to its last write. */
    method Prepare(row: Job, parsed: Option<Text>) returns (ok: bool, doc: DocId, count: nat)
      requires Started(row)
      modifies this
      ensures Inv() && job in tables.jobs
      ensures ok ==> doc in originals && Working(doc, originals[doc]) && Current(tables, doc)
                     && Imported(split, tables, doc, originals[doc]) && count == |split.chunk(originals[doc])|
      ensures old(script) == [] ==> script == [] && (ok <==> old(CanRun(row, parsed)))
    {
      count := 0;
      ok, doc := LoadOrParse(row, parsed);
      if ok {
        ghost var text := originals[doc];
        ok, count := Import(doc, text);
      }
    }

    /** Summary, chunks, activation and count. */
    method Import(doc: DocId, ghost text: Text) returns (ok: bool, count: nat)
      requires Working(doc, text)
      modifies this`tables, this`script
      ensures Working(doc, text)
      ensures ok ==> Current(tables, doc) && Imported(split, tables, doc, text) && count == |split.chunk(text)|
      ensures old(script) == [] && Current(old(tables), doc) ==> ok && script == [] && Current(tables, doc)
    {
      count := 0;
      ok := SaveSummary(doc, text);
      if !ok {
        return;
      }
      ok, count := ImportChunks(doc, text);
      if !ok {
        return;
      }
      ok := ActivateItems(doc, text);
      if !ok {
        return;
      }
      ok := Count(doc, count, text);
    }

    /** The last write of a run: close the job, if its document is still at its version. */
    method Close(row: Job, doc: DocId, ghost text: Text) returns (ok: bool)
      requires Working(doc, text) && Current(tables, doc) && Imported(split, tables, doc, text)
      requires row == Job(Completed, Some(doc), FIRST, |split.chunk(text)|, |split.chunk(text)|)
      modifies this`tables, this`script
      ensures Inv() && job in tables.jobs
      ensures ok ==> StoredSuccess(row)
      ensures old(script) == [] ==> ok
      ensures old(script) == [Turn([], FaultAfter)] ==>
                !ok && script == [] && tables == old(tables).(jobs := old(tables).jobs[job := row])
    {
      ghost var seen;
      var saved;
      ok, saved, seen := SaveJobIfDocumentVersion(row, doc, FIRST);
      KeptStable(split, old(tables), seen, job, doc, text);
      if ok && !saved {
        var _, _ := RequireCurrent(doc, FIRST);
        ok := false;
      }
    }

    /** Whether a job found completed can stay so. */
    method CheckCompleted(row: Job) returns (fine: bool, done: bool)
      requires InOrder(row) && row.status == Completed
      modifies this`tables, this`script
      ensures InOrder(row) && Rely(old(tables), tables, job, mine)
      ensures fine && done ==> StoredSuccess(row) || Stranded(tables, job)
      ensures fine && !done ==> !Stranded(tables, job)
      ensures old(script) == [] ==>
                fine && script == [] && tables == old(tables) && (done <==> Current(tables, row.document.value))
    {
      var document;
      fine, document := GetDocument(row.document.value);
      done := document.Some? && document.value.version == row.version
              && document.value.completed == document.value.expected;
    }

    /** Say in the row that the job runs. */
    method Begin(row: Job) returns (ok: bool)
      requires InOrder(row)
      modifies this`tables, this`script
      ensures Inv() && job in tables.jobs
      ensures ok ==> Started(row.(status := Running))
      ensures old(script) == [] ==> ok && script == [] && tables.documents == old(tables).documents
    {
      ghost var seen;
      ok, seen := SaveJob(row.(status := Running));
    }

    /** One run of the job, with others acting at every access and any access failing. A run that returns leaves its
        job failed with every item of its version stale, or completed with a clean import of a document still at its
        version; or it has found the job stranded, completed over items not all of which are active, and leaves it so.
        No run strands a job but one that raises. Undisturbed, a run returns; it completes the job exactly when there
        is something to work on and the job is not stranded, and hands a stranded one back as it is. */
    method RunJob(parsed: Option<Text>) returns (outcome: Outcome)
      requires Inv()
      modifies this
      ensures Inv()
      ensures outcome.Returned? ==>
                || StoredSuccess(outcome.row) || StoredFailure(outcome.row)
                || (Stranded(tables, job) && outcome.row == tables.jobs[job])
      ensures outcome.Returned? && Stranded(tables, job) ==> old(Stranded(tables, job))
      ensures old(script) == [] && job in old(tables).jobs ==>
                && outcome.Returned?
                && (StoredSuccess(outcome.row) <==>
                      old(CanRun(tables.jobs[job], parsed)) && !old(Stranded(tables, job)))
                && (old(Stranded(tables, job)) ==> tables == old(tables) && outcome.row == tables.jobs[job])
    {
      var fine, found := GetJob();
      if !fine || found.None? {
        return Raised;
      }
      var row := found.value;
      if row.status == Completed {
        var done;
        fine, done := CheckCompleted(row);
        if !fine {
          return Raised;
        }
        if done {
          return Returned(row);
        }
      }
      outcome := Start(row, parsed);
    }

    /** A run of a job that is not to stay as it is. */
    method Start(row: Job, parsed: Option<Text>) returns (outcome: Outcome)
      requires InOrder(row)
      modifies this
      ensures Inv()
      ensures outcome.Returned? ==> StoredSuccess(outcome.row) || StoredFailure(outcome.row)
      ensures old(script) == [] ==>
                outcome.Returned? && (StoredSuccess(outcome.row) <==> old(CanRun(row, parsed)))
    {
      var fine := Begin(row);
      if !fine {
        outcome := FailJob();
        return;
      }
      outcome := Proceed(row.(status := Running), parsed);
    }

    /** The rest of a run once its row says running. */
    method Proceed(running: Job, parsed: Option<Text>) returns (outcome: Outcome)
      requires Started(running)
      modifies this
      ensures Inv()
      ensures outcome.Returned? ==> StoredSuccess(outcome.row) || StoredFailure(outcome.row)
      ensures old(script) == [] ==>
                outcome.Returned? && (StoredSuccess(outcome.row) <==> old(CanRun(running, parsed)))
    {
      var fine, doc, count := Prepare(running, parsed);
      if fine {
        var done := Job(Completed, Some(doc), FIRST, count, count);
        fine := Close(done, doc, originals[doc]);
        if fine {
          return Returned(done);
        }
      }
      outcome := FailJob();
    }

    /** Running the job again and again, whatever each attempt leaves behind. If the last one completes it, the
        document's version has exactly one active summary and one active item per chunk of its text, as after a
        single clean run; unless the job was stranded to begin with, or an attempt that raised left it so. */
    method Retry(attempts: seq<Option<Text>>) returns (outcome: Outcome, raised: bool)
      requires Inv() && attempts != []
      modifies this
      ensures Inv()
      ensures outcome.Returned? && Stranded(tables, job) ==> old(Stranded(tables, job)) || raised
      ensures outcome.Returned? && !Stranded(tables, job) ==> StoredSuccess(outcome.row) || StoredFailure(outcome.row)
      ensures outcome.Returned? && !Stranded(tables, job) && outcome.row.status == Completed ==>
                && StoredSuccess(outcome.row)
                && var doc := outcome.row.document.value;
                && outcome.row.expected == outcome.row.completed == |split.chunk(originals[doc])|
                && OwnedItems(tables, doc) == {Summary(doc, FIRST)} + ChunkIds(doc, |split.chunk(originals[doc])|)
                && forall id | id in OwnedItems(tables, doc) ::
                     Some(tables.items[id].content) == Expected(split, originals[doc], id)
                     && tables.items[id].status == Active
    {
      outcome, raised := Raised, false;
      for i := 0 to |attempts|
        invariant Inv() && (Stranded(tables, job) ==> old(Stranded(tables, job)) || raised)
        invariant outcome.Returned? && !Stranded(tables, job) ==>
                    StoredSuccess(outcome.row) || StoredFailure(outcome.row)
      {
        outcome := RunJob(attempts[i]);
        raised := raised || outcome.Raised?;
      }
      if outcome.Returned? && !Stranded(tables, job) && outcome.row.status == Completed {
        ghost var doc := outcome.row.document.value;
        RetryEndsLikeCleanRun(split, tables, tables, doc, originals[doc]);
      }
    }

    /** How a job gets stranded. The last write of a run lands and fails all the same, so the job's items are
        withdrawn; then the failed row is not written. The next run finds the row completed and returns it, with not
        one item active. */
    method StrandJob(parsed: Option<Text>) returns (outcome: Outcome)
      requires Inv() && script == [] && parsed.Some?
      requires job in tables.jobs && tables.jobs[job] == Job(Queued, None, FIRST, 0, 0)
      modifies this
      ensures Inv() && Stranded(tables, job)
      ensures outcome.Returned? && outcome.row == tables.jobs[job] && outcome.row.status == Completed
      ensures AllStale(outcome.row.document.value) && Summary(outcome.row.document.value, FIRST) in tables.items
    {
      // A run up to its last write.
      var _, found := GetJob();
      var _ := Begin(found.value);
      var _, doc, count := Prepare(found.value.(status := Running), parsed);
      // The last write.
      script := [Turn([], FaultAfter)];
      var closed := Close(Job(Completed, Some(doc), FIRST, count, count), doc, originals[doc]);
      // Failing the job, up to its last write.
      var _, stored := GetJob();
      assert Owned(Summary(doc, FIRST), doc) && Summary(doc, FIRST) in tables.items;
      var _, counted := Withdraw(stored.value);
      // The last write of that.
      script := [Turn([], FaultBefore)];
      var failed := SaveFailed(counted.(status := Failed));
      // The next run.
      outcome := RunJob(parsed);
    }

    // ---- A manual import of the job's own version ------------------------

    /** A manual import that comes while the job is being failed: the items have gone stale, the import stages and
        activates the chunks again, and the failed row is written over active items. */
    method ImportWhileFailing(doc: DocId, ghost text: Text) returns (row: Job)
      requires Working(doc, text) && Current(tables, doc) && script == []
      modifies this`tables, this`script
      ensures Inv() && job in tables.jobs && tables.jobs[job] == row && row.status == Failed
      ensures row.document == Some(doc) && Current(tables, doc) && ChunksAre(doc, text, Active)
    {
      var _, found := GetJob();
      var _, counted := Withdraw(found.value);
      assert AllStale(doc);
      // The other thread.
      var _, count := ImportChunks(doc, text);
      var _ := ActivateItems(doc, text);
      // The failing thread again.
      row := counted.(status := Failed);
      var _, _ := SaveJob(row);
    }

    /** A manual import that found nothing active when it looked, and sets out once the job has activated and counted
        everything: the chunks are staged again when the job is completed, and a run would leave it so. */
    method ImportWhileFinishing(doc: DocId, ghost text: Text) returns (row: Job)
      requires Working(doc, text) && Current(tables, doc) && script == [] && split.chunk(text) != []
      modifies this`tables, this`script
      ensures Inv() && Stranded(tables, job) && tables.jobs[job] == row && row.document == Some(doc)
      ensures ChunksAre(doc, text, Staging)
    {
      var _, count := Import(doc, text);
      // The other thread.
      var _, again := ImportChunks(doc, text);
      assert Owned(Chunk(doc, FIRST, 0), doc) && tables.items[Chunk(doc, FIRST, 0)].status != Active;
      // The finishing thread again.
      row := Job(Completed, Some(doc), FIRST, count, count);
      var _, _, _ := SaveJobIfDocumentVersion(row, doc, FIRST);
    }
  }

  // ---- What a completed job leaves ---------------------------------------

  function OwnedItems(t: Tables, doc: DocId): set<ItemId> {
    set id | id in t.items && Owned(id, doc)
  }

  function ChunkIds(doc: DocId, count: nat): (ids: set<ItemId>)
    ensures |ids| == count
    ensures forall id :: id in ids <==> id.Chunk? && Owned(id, doc) && id.index < count
  {
    if count == 0 then {} else ChunkIds(doc, count - 1) + {Chunk(doc, FIRST, count - 1)}
  }

  lemma ItemIs(split: Splitter, doc: DocId, text: Text, id: ItemId)
    ensures Owned(id, doc) && Expected(split, text, id).Some? <==>
              id == Summary(doc, FIRST) || id in ChunkIds(doc, |split.chunk(text)|)
  {
  }

  lemma ItemsAre(split: Splitter, t: Tables, doc: DocId, text: Text)
    requires Imported(split, t, doc, text)
    ensures OwnedItems(t, doc) == {Summary(doc, FIRST)} + ChunkIds(doc, |split.chunk(text)|)
  {
    var chunks := ChunkIds(doc, |split.chunk(text)|);
    forall id ensures id in OwnedItems(t, doc) <==> id == Summary(doc, FIRST) || id in chunks {
      ItemIs(split, doc, text, id);
    }
  }

  /** However many attempts failed before, and whatever they left half done, a completed job leaves one summary and
      one item per chunk, and any two completed stores agree on all of them: a retry ends like a clean run. */
  lemma RetryEndsLikeCleanRun(split: Splitter, a: Tables, b: Tables, doc: DocId, text: Text)
    requires Imported(split, a, doc, text) && Imported(split, b, doc, text)
    ensures OwnedItems(a, doc) == OwnedItems(b, doc) == {Summary(doc, FIRST)} + ChunkIds(doc, |split.chunk(text)|)
    ensures |OwnedItems(a, doc)| == 1 + |split.chunk(text)|
    ensures forall id | id in OwnedItems(a, doc) :: a.items[id] == b.items[id] && a.items[id].status == Active
    ensures a.documents[doc].completed == b.documents[doc].completed == |split.chunk(text)|
  {
    ItemsAre(split, a, doc, text);
    ItemsAre(split, b, doc, text);
    assert Summary(doc, FIRST) !in ChunkIds(doc, |split.chunk(text)|);
    forall id | id in OwnedItems(a, doc) ensures a.items[id] == b.items[id] && a.items[id].status == Active {
      assert Owned(id, doc) && id in OwnedItems(b, doc);
    }
  }

  /** An invalidation that gets to every item stales exactly the items of the document's other versions, and changes
      nothing else. */
  lemma CompletedInvalidationStales(t: Tables, job: JobId, mine: Option<DocId>, doc: DocId, keep: nat)
    requires doc in t.documents && FIRST < keep <= t.documents[doc].version
    ensures var after := ApplyEdit(t, InvalidatePrior(doc, keep, t.items.Keys), job, mine);
            && after == t.(items := after.items) && after.items.Keys == t.items.Keys
            && forall id | id in t.items ::
                 after.items[id] == if id.doc == doc && id.version != keep then Item(t.items[id].content, Stale)
                                    else t.items[id]
  {
  }

  predicate Present(t: Tables, doc: DocId, id: ItemId)
    requires doc in t.documents
  {
    id in t.items && id.doc == doc && id.version == t.documents[doc].version
  }

  predicate SparesPresent(before: Tables, after: Tables, doc: DocId)
    requires doc in before.documents
  {
    forall id | id in before.items && Present(before, doc, id) ::
      id in after.items && after.items[id] == before.items[id]
  }

  /** The invalidation after an edit keeps one version. Wherever it stops on its walk, it leaves the items of the
      present version alone exactly when that is the version it keeps, or none of them is live. */
  lemma InvalidationSparesPresentIff(t: Tables, job: JobId, mine: Option<DocId>, doc: DocId, keep: nat)
    requires doc in t.documents && FIRST < keep <= t.documents[doc].version
    ensures (forall reached ::
               SparesPresent(t, ApplyEdit(t, InvalidatePrior(doc, keep, reached), job, mine), doc))
            <==> keep == t.documents[doc].version
                 || forall id | id in t.items && Present(t, doc, id) :: t.items[id].status == Stale
  {
    if keep != t.documents[doc].version {
      forall id | id in t.items && Present(t, doc, id) && t.items[id].status != Stale
        ensures !SparesPresent(t, ApplyEdit(t, InvalidatePrior(doc, keep, {id}), job, mine), doc)
      {
        assert ApplyEdit(t, InvalidatePrior(doc, keep, {id}), job, mine).items[id].status == Stale;
      }
    }
  }

  lemma ApplyOne(t: Tables, e: Edit, es: seq<Edit>, job: JobId, mine: Option<DocId>)
    ensures ApplyEdits(t, [e] + es, job, mine) == ApplyEdits(ApplyEdit(t, e, job, mine), es, job, mine)
  {
    assert ([e] + es)[0] == e && ([e] + es)[1..] == es;
  }

  /** Two edits, an import of the version they lead to, and the first edit's invalidation coming late: the newer item,
      active until then, is stale although its version is the document's. */
  lemma LateInvalidationStalesNewer(t: Tables, job: JobId, doc: DocId, a: Text, b: Text, content: Text)
    requires Bounded(t) && Current(t, doc)
    ensures var newer := Chunk(doc, 3, 0);
            var edits := [Patch(doc, a), Patch(doc, b), WriteItem(newer, Item(content, Active))];
            var before := ApplyEdits(t, edits, job, Some(doc));
            var after := ApplyEdit(before, InvalidatePrior(doc, 2, {newer}), job, Some(doc));
            && doc in before.documents && before.documents[doc].version == 3 == newer.version
            && newer in before.items && before.items[newer].status == Active
            && newer in after.items && after.items[newer].status == Stale && after.documents == before.documents
  {
    var newer := Chunk(doc, 3, 0);
    var write := WriteItem(newer, Item(content, Active));
    var t1 := ApplyEdit(t, Patch(doc, a), job, Some(doc));
    var t2 := ApplyEdit(t1, Patch(doc, b), job, Some(doc));
    var t3 := ApplyEdit(t2, write, job, Some(doc));
    ApplyOne(t2, write, [], job, Some(doc));
    ApplyOne(t1, Patch(doc, b), [write], job, Some(doc));
    ApplyOne(t, Patch(doc, a), [Patch(doc, b), write], job, Some(doc));
    assert [write] + [] == [write] && [Patch(doc, b)] + [write] == [Patch(doc, b), write];
    assert [Patch(doc, a)] + [Patch(doc, b), write] == [Patch(doc, a), Patch(doc, b), write];
    assert ApplyEdits(t, [Patch(doc, a), Patch(doc, b), write], job, Some(doc)) == t3;
  }
}
