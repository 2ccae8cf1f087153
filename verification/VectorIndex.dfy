/** The life of a searchable record's vector: the content hash as a compare-and-set token between the short
    write transaction and the embedding that arrives later. */
module VectorIndex {
  import opened Utf8
  import opened Whitespace

  datatype State = Pending | Ready | Stale | Failed

  datatype Key = Key(collection: string, recordId: string)

  datatype Row = Row(state: State, contentHash: Text, error: Option<string>)

  datatype Work = Work(key: Key, text: Text, contentHash: Text)

  type Embedding = seq<Byte>

  /** The two tables. */
  datatype Db = Db(rows: map<Key, Row>, vectors: map<Key, Embedding>)

  /** The hash of a record's text; the index signature is fixed per collection. */
  type Hash = (string, Text) -> Text

  function HashOf(hash: Hash, key: Key, text: Text): Text {
    hash(key.collection, text)
  }

  // ---- Effects of the operations -----------------------------------------

  function PrepareWork(hash: Hash, db: Db, key: Key, text: Text): Option<Work> {
    var normalized := Strip(text);
    var contentHash := HashOf(hash, key, normalized);
    if normalized == [] then None
    else if key in db.rows && db.rows[key].state == Ready && db.rows[key].contentHash == contentHash
            && key in db.vectors
    then None
    else Some(Work(key, normalized, contentHash))
  }

  function AfterPrepare(hash: Hash, db: Db, key: Key, text: Text): Db {
    if Strip(text) == [] then Db(db.rows - {key}, db.vectors - {key})
    else
      match PrepareWork(hash, db, key, text)
      case None => db
      case Some(work) =>
        var state := if key in db.rows || key in db.vectors then Stale else Pending;
        Db(db.rows[key := Row(state, work.contentHash, None)], db.vectors - {key})
  }

  function AfterAdopt(hash: Hash, db: Db, key: Key, text: Text): Db {
    if Strip(text) == [] || key in db.rows then db
    else db.(rows := db.rows[key := Row(Ready, HashOf(hash, key, Strip(text)), None)])
  }

  function AfterMarkStale(db: Db, key: Key): Db {
    Db(if key in db.rows then db.rows[key := db.rows[key].(state := Stale, error := None)] else db.rows,
       db.vectors - {key})
  }

  /** The row a late result may still claim. */
  predicate Awaits(db: Db, work: Work) {
    work.key in db.rows && db.rows[work.key].contentHash == work.contentHash && db.rows[work.key].state != Ready
  }

  function AfterEmbedded(db: Db, work: Work, vector: Embedding): Db {
    if !Awaits(db, work) then db
    else Db(db.rows[work.key := db.rows[work.key].(state := Ready, error := None)], db.vectors[work.key := vector])
  }

  function AfterFailure(db: Db, work: Work, error: string): Db {
    if !Awaits(db, work) then db
    else db.(rows := db.rows[work.key := db.rows[work.key].(state := Failed, error := Some(error))])
  }

  // ---- The store ---------------------------------------------------------

  class Store {
    var vectorStates: map<Key, Row>
    var recordsVec: map<Key, Embedding>

    constructor ()
      ensures Contents() == Db(map[], map[])
    {
      vectorStates, recordsVec := map[], map[];
    }

    ghost function Contents(): Db
      reads this
    {
      Db(vectorStates, recordsVec)
    }

    /** Blank text takes the record out; text that is indexed already changes nothing; any other text replaces the
        vector by work to do. */
    method Prepare(hash: Hash, key: Key, text: Text) returns (work: Option<Work>)
      modifies this
      ensures var contentHash := hash(key.collection, Strip(text));
              var indexed := key in old(vectorStates) && key in old(recordsVec)
                             && old(vectorStates)[key].state == Ready
                             && old(vectorStates)[key].contentHash == contentHash;
              if Strip(text) == [] then
                work.None? && recordsVec == old(recordsVec) - {key} && vectorStates == old(vectorStates) - {key}
              else if indexed then
                work.None? && recordsVec == old(recordsVec) && vectorStates == old(vectorStates)
              else
                && work == Some(Work(key, Strip(text), contentHash)) && recordsVec == old(recordsVec) - {key}
                && key in vectorStates && vectorStates == old(vectorStates)[key := vectorStates[key]]
                && vectorStates[key].contentHash == contentHash && vectorStates[key].error.None?
                && (vectorStates[key].state == Stale || vectorStates[key].state == Pending)
                && (vectorStates[key].state == Pending <==> key !in old(vectorStates) && key !in old(recordsVec))
      ensures Contents() == AfterPrepare(hash, old(Contents()), key, text)
      ensures work == PrepareWork(hash, old(Contents()), key, text)
    {
      var normalized := Strip(text);
      if normalized == [] {
        recordsVec := recordsVec - {key};
        vectorStates := vectorStates - {key};
        return None;
      }
      var contentHash := HashOf(hash, key, normalized);
      var tracked, hasVector := key in vectorStates, key in recordsVec;
      if tracked && vectorStates[key].state == Ready && vectorStates[key].contentHash == contentHash && hasVector {
        return None;
      }
      recordsVec := recordsVec - {key};
      vectorStates := vectorStates[key := Row(if tracked || hasVector then Stale else Pending, contentHash, None)];
      return Some(Work(key, normalized, contentHash));
    }

    method AdoptReady(hash: Hash, key: Key, text: Text)
      modifies this
      ensures recordsVec == old(recordsVec)
      ensures Strip(text) == [] || key in old(vectorStates) ==> vectorStates == old(vectorStates)
      ensures Strip(text) != [] && key !in old(vectorStates) ==>
                vectorStates == old(vectorStates)[key := Row(Ready, hash(key.collection, Strip(text)), None)]
      ensures Contents() == AfterAdopt(hash, old(Contents()), key, text)
    {
      var normalized := Strip(text);
      if normalized == [] {
        return;
      }
      if key !in vectorStates {
        vectorStates := vectorStates[key := Row(Ready, HashOf(hash, key, normalized), None)];
      }
    }

    method MarkStale(key: Key)
      modifies this
      ensures recordsVec == old(recordsVec) - {key}
      ensures key !in old(vectorStates) ==> vectorStates == old(vectorStates)
      ensures key in old(vectorStates) ==>
                vectorStates == old(vectorStates)[key := Row(Stale, old(vectorStates)[key].contentHash, None)]
      ensures Contents() == AfterMarkStale(old(Contents()), key)
    {
      recordsVec := recordsVec - {key};
      if key in vectorStates {
        vectorStates := vectorStates[key := vectorStates[key].(state := Stale, error := None)];
      }
    }

    /** The end of a work item: `embedding` is what the provider returned, none with the reason if it failed. It lands
        on a pending, stale or failed row with the hash of the work, and on no other. */
    method Process(work: Work, embedding: Option<Embedding>, reason: string)
      modifies this
      ensures if work.key in old(vectorStates) && old(vectorStates)[work.key].contentHash == work.contentHash
                 && (old(vectorStates)[work.key].state == Pending || old(vectorStates)[work.key].state == Stale
                     || old(vectorStates)[work.key].state == Failed)
              then match embedding
                   case Some(vector) =>
                     && vectorStates == old(vectorStates)[work.key := Row(Ready, work.contentHash, None)]
                     && recordsVec == old(recordsVec)[work.key := vector]
                   case None =>
                     && vectorStates == old(vectorStates)[work.key := Row(Failed, work.contentHash, Some(
                                          if |reason| <= 500 then reason else reason[..500]))]
                     && recordsVec == old(recordsVec)
              else vectorStates == old(vectorStates) && recordsVec == old(recordsVec)
      ensures Contents() == match embedding
                            case Some(vector) => AfterEmbedded(old(Contents()), work, vector)
                            case None => AfterFailure(old(Contents()), work, reason[..Clip(reason)])
    {
      if embedding.None? {
        assert reason[..|reason|] == reason;
        FinishFailed(work, reason);
        return;
      }
      var adopted := UpdateRow(work, Ready, None);
      if !adopted {
        return;
      }
      recordsVec := recordsVec[work.key := embedding.value];
    }

    method FinishFailed(work: Work, error: string)
      modifies this
      ensures Contents() == AfterFailure(old(Contents()), work, error[..Clip(error)])
    {
      var _ := UpdateRow(work, Failed, Some(error[..Clip(error)]));
    }

    /** The guarded update both endings share; tells whether a row changed. */
    method UpdateRow(work: Work, state: State, error: Option<string>) returns (updated: bool)
      modifies this`vectorStates
      ensures updated == Awaits(old(Contents()), work)
      ensures vectorStates == if !updated then old(vectorStates)
                              else old(vectorStates)[work.key := Row(state, work.contentHash, error)]
    {
      updated := work.key in vectorStates && vectorStates[work.key].contentHash == work.contentHash
                 && vectorStates[work.key].state != Ready;
      if updated {
        vectorStates := vectorStates[work.key := vectorStates[work.key].(state := state, error := error)];
      }
    }

    method CountReady(key: Key) returns (count: nat)
      ensures count == if key in Contents().rows && Contents().rows[key].state == Ready && key in Contents().vectors
                       then 1 else 0
    {
      count := if key in recordsVec && key in vectorStates && vectorStates[key].state == Ready then 1 else 0;
    }
  }

  function Clip(error: string): (n: nat)
    ensures n <= 500 && n <= |error| && (n == 500 || n == |error|)
  {
    if |error| < 500 then |error| else 500
  }

  // ---- Runs --------------------------------------------------------------

  /** `embeds(t, e)`: the provider has returned `e` for text `t`. */
  type Provider = (Text, Embedding) -> bool

  datatype Step =
    | Prepare(key: Key, text: Text)
    | MarkStale(key: Key)
    | Adopt(key: Key, text: Text)
    | Embedded(work: Work, vector: Embedding)
    | Failure(work: Work, error: string)

  /** Tables, every work item handed out so far, and the searchable text each record has right now. Any number
      of workers may hold any of the items, and may finish one more than once. */
  datatype System = System(db: Db, issued: set<Work>, current: map<Key, Text>)

  /** A record adopted without a row has a vector of its present text; one with a row is left alone. */
  predicate Enabled(provider: Provider, s: System, step: Step) {
    match step
    case Prepare(_, _) => true
    case MarkStale(_) => true
    case Adopt(key, text) =>
      key !in s.db.rows && Strip(text) != [] ==> key in s.db.vectors && provider(Strip(text), s.db.vectors[key])
    case Embedded(work, vector) => work in s.issued && provider(work.text, vector)
    case Failure(work, _) => work in s.issued
  }

  function Next(hash: Hash, s: System, step: Step): System {
    match step
    case Prepare(key, text) =>
      var work := PrepareWork(hash, s.db, key, text);
      System(AfterPrepare(hash, s.db, key, text),
             if work.Some? then s.issued + {work.value} else s.issued,
             if Strip(text) == [] then s.current - {key} else s.current[key := Strip(text)])
    case MarkStale(key) => s.(db := AfterMarkStale(s.db, key), current := s.current - {key})
    case Adopt(key, text) =>
      System(AfterAdopt(hash, s.db, key, text), s.issued,
             if Strip(text) == [] || key in s.db.rows then s.current else s.current[key := Strip(text)])
    case Embedded(work, vector) => s.(db := AfterEmbedded(s.db, work, vector))
    case Failure(work, error) => s.(db := AfterFailure(s.db, work, error))
  }

  function Run(hash: Hash, s: System, steps: seq<Step>): System
    decreases |steps|
  {
    if steps == [] then s else Run(hash, Next(hash, s, steps[0]), steps[1..])
  }

  predicate Possible(hash: Hash, provider: Provider, s: System, steps: seq<Step>)
    decreases |steps|
  {
    steps == [] ||
    (Enabled(provider, s, steps[0]) && Possible(hash, provider, Next(hash, s, steps[0]), steps[1..]))
  }

  /** No two texts of a collection share a hash. */
  ghost predicate CollisionFree(hash: Hash) {
    forall c, s, t :: hash(c, s) == hash(c, t) ==> s == t
  }

  ghost predicate RowSound(hash: Hash, provider: Provider, s: System, key: Key)
    requires key in s.db.rows
  {
    && (s.db.rows[key].state == Ready <==> key in s.db.vectors)
    && (key in s.current ==> s.db.rows[key].contentHash == HashOf(hash, key, s.current[key]))
    && (key in s.db.vectors ==>
          exists t :: s.db.rows[key].contentHash == HashOf(hash, key, t) && provider(t, s.db.vectors[key]))
  }

  ghost predicate Sound(hash: Hash, provider: Provider, s: System) {
    && (forall key | key in s.db.rows :: RowSound(hash, provider, s, key))
    && (forall key | key in s.current :: key in s.db.rows)
    && (forall w | w in s.issued :: w.contentHash == HashOf(hash, w.key, w.text))
  }

  lemma SoundStep(hash: Hash, provider: Provider, s: System, step: Step)
    requires Sound(hash, provider, s) && Enabled(provider, s, step)
    ensures Sound(hash, provider, Next(hash, s, step))
  {
    var n := Next(hash, s, step);
    forall key | key in n.db.rows ensures RowSound(hash, provider, n, key) {
      if key in s.db.rows {
        assert RowSound(hash, provider, s, key);
      }
      if step.Embedded? && step.work.key == key {
        assert step.work.contentHash == HashOf(hash, key, step.work.text);
      }
    }
  }

  /** Over every run: a tracked record is Ready exactly when it has a vector, and that vector embeds a text with
      the hash its row carries, which is the record's present text whenever it has one. */
  lemma {:induction false} ReadyMeansEmbedded(hash: Hash, provider: Provider, s: System, steps: seq<Step>)
    requires Sound(hash, provider, s) && Possible(hash, provider, s, steps) && CollisionFree(hash)
    ensures var n := Run(hash, s, steps);
            && Sound(hash, provider, n)
            && forall key | key in n.db.rows ::
                 && (n.db.rows[key].state == Ready <==> key in n.db.vectors)
                 && (n.db.rows[key].state == Ready && key in n.current ==>
                       provider(n.current[key], n.db.vectors[key]))
    decreases |steps|
  {
    if steps == [] {
      forall key | key in s.db.rows
        ensures s.db.rows[key].state == Ready && key in s.current ==> provider(s.current[key], s.db.vectors[key]) {
        assert RowSound(hash, provider, s, key);
      }
    } else {
      SoundStep(hash, provider, s, steps[0]);
      ReadyMeansEmbedded(hash, provider, Next(hash, s, steps[0]), steps[1..]);
    }
  }

  // ---- Work that is handed out gets done ---------------------------------

  /** The step does not prepare or adopt the record, nor bring the embedding of a text with this hash for it. */
  predicate Bystands(step: Step, key: Key, contentHash: Text) {
    match step
    case Prepare(other, _) => other != key
    case Adopt(other, _) => other != key
    case Embedded(work, _) => work.key != key || work.contentHash != contentHash
    case MarkStale(_) => true
    case Failure(_, _) => true
  }

  predicate AllBystand(steps: seq<Step>, key: Key, contentHash: Text) {
    forall i | 0 <= i < |steps| :: Bystands(steps[i], key, contentHash)
  }

  /** The row waits for text with this hash. */
  predicate WaitsFor(db: Db, key: Key, contentHash: Text) {
    && key in db.rows && db.rows[key].contentHash == contentHash && key !in db.vectors
    && (db.rows[key].state == Pending || db.rows[key].state == Stale || db.rows[key].state == Failed)
  }

  lemma {:induction false} KeepsWaiting(hash: Hash, s: System, steps: seq<Step>, key: Key, contentHash: Text)
    requires WaitsFor(s.db, key, contentHash) && AllBystand(steps, key, contentHash)
    ensures WaitsFor(Run(hash, s, steps).db, key, contentHash)
    decreases |steps|
  {
    if steps != [] {
      assert Bystands(steps[0], key, contentHash);
      KeepsWaiting(hash, Next(hash, s, steps[0]), steps[1..], key, contentHash);
    }
  }

  /** Text that is not blank and not indexed yet is handed out as work; and whatever happens meanwhile that does not
      prepare, adopt or complete the record, be it marked stale or its work failed, the embedding lands when it comes:
      the record is ready with that vector. A failure that comes is noted, and does not stop a later embedding. */
  lemma PreparedWorkLands(hash: Hash, s: System, key: Key, text: Text, steps: seq<Step>, vector: Embedding,
                          error: string)
    requires Strip(text) != []
    requires key in s.db.rows && key in s.db.vectors && s.db.rows[key].state == Ready ==>
               s.db.rows[key].contentHash != hash(key.collection, Strip(text))
    requires AllBystand(steps, key, hash(key.collection, Strip(text)))
    ensures var work := Work(key, Strip(text), hash(key.collection, Strip(text)));
            var prepared := Next(hash, s, Prepare(key, text));
            var n := Run(hash, prepared, steps);
            var done, failed := Next(hash, n, Embedded(work, vector)), Next(hash, n, Failure(work, error));
            && work in prepared.issued
            && done.db == Db(n.db.rows[key := Row(Ready, work.contentHash, None)], n.db.vectors[key := vector])
            && failed.db == Db(n.db.rows[key := Row(Failed, work.contentHash, Some(error))], n.db.vectors)
            && key !in failed.db.vectors
            && Next(hash, failed, Embedded(work, vector)).db == done.db
  {
    var contentHash := hash(key.collection, Strip(text));
    var prepared := Next(hash, s, Prepare(key, text));
    assert WaitsFor(prepared.db, key, contentHash);
    KeepsWaiting(hash, prepared, steps, key, contentHash);
  }

  /** A result for text the record no longer has, or had before an equal Ready row, changes nothing. */
  lemma OutdatedResultIgnored(hash: Hash, s: System, work: Work, vector: Embedding, error: string)
    requires CollisionFree(hash) && work.contentHash == HashOf(hash, work.key, work.text)
    requires work.key in s.current && s.current[work.key] != work.text
    requires work.key in s.db.rows ==> s.db.rows[work.key].contentHash == HashOf(hash, work.key, s.current[work.key])
    ensures Next(hash, s, Embedded(work, vector)) == s && Next(hash, s, Failure(work, error)) == s
  {
  }

  // ---- Records that stopped being searchable -----------------------------

  /** Only records with searchable text are Ready. */
  predicate NoGhosts(s: System) {
    forall key | key in s.db.rows && s.db.rows[key].state == Ready :: key in s.current
  }

  /** A result arriving after the record was marked stale: nothing in the row says that its text is gone. */
  predicate RevivesStale(s: System, step: Step) {
    step.Embedded? && Awaits(s.db, step.work) && step.work.key !in s.current
  }

  /** A step lets an unsearchable record become Ready exactly when it completes work such a record still awaits. */
  lemma GhostsAppearIffRevived(hash: Hash, provider: Provider, s: System, step: Step)
    requires Sound(hash, provider, s) && NoGhosts(s) && Enabled(provider, s, step)
    ensures NoGhosts(Next(hash, s, step)) <==> !RevivesStale(s, step)
  {
    var n := Next(hash, s, step);
    if RevivesStale(s, step) {
      assert n.db.rows[step.work.key].state == Ready;
    } else {
      forall key | key in n.db.rows && n.db.rows[key].state == Ready ensures key in n.current {
        if key in s.db.rows {
          assert RowSound(hash, provider, s, key);
        }
      }
    }
  }

  lemma RunOne(hash: Hash, provider: Provider, s: System, step: Step)
    ensures Run(hash, s, [step]) == Next(hash, s, step)
    ensures Possible(hash, provider, s, [step]) == Enabled(provider, s, step)
  {
    assert [step][1..] == [];
  }

  /** It does happen: write a text, mark the record stale, and let the first embedding arrive. */
  lemma MarkStaleDoesNotStopLateResult(hash: Hash, provider: Provider, key: Key, text: Text, vector: Embedding)
    requires Strip(text) != [] && provider(Strip(text), vector)
    ensures var start := System(Db(map[], map[]), {}, map[]);
            var work := Work(key, Strip(text), HashOf(hash, key, Strip(text)));
            var steps := [Prepare(key, text), MarkStale(key), Embedded(work, vector)];
            && Sound(hash, provider, start) && NoGhosts(start)
            && Possible(hash, provider, start, steps)
            && key !in Run(hash, start, steps).current
            && key in Run(hash, start, steps).db.rows
            && Run(hash, start, steps).db.rows[key].state == Ready
  {
    var start := System(Db(map[], map[]), {}, map[]);
    var work := Work(key, Strip(text), HashOf(hash, key, Strip(text)));
    var s1 := Next(hash, start, Prepare(key, text));
    var s2 := Next(hash, s1, MarkStale(key));
    var late := [Embedded(work, vector)];
    RunOne(hash, provider, s2, Embedded(work, vector));
    var rest := [MarkStale(key), Embedded(work, vector)];
    assert Possible(hash, provider, s1, rest) && Run(hash, s1, rest) == Run(hash, s2, late) by {
      assert rest[1..] == late;
    }
    assert [Prepare(key, text), MarkStale(key), Embedded(work, vector)][1..] == rest;
  }
}
