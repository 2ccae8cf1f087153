# AgentMesh: verified models of its durable core

AgentMesh is a collaboration service whose agents keep documents, memories, research and run results in one store. This
project models the parts of it in which a small mistake silently corrupts durable state, and proves what they promise.
`dafny verify dfyconfig.toml` checks everything.

* **Canonical JSON** (`Utf8`, `JsonNumbers`, `JsonStrings`, `CanonicalJson`, `JsonGrammar`, `JsonCanonical`, `JsonLaws`,
  `JsonPrinter`, `Identity`): the printer behind every durable hash, the strict parser, and the normal form between them.
  `JsonGrammar` writes out sections 2 to 7 of RFC 8259 apart from any parser, as documents and the texts that spell them;
  the parser accepts exactly the texts of that grammar, and the printer writes the one spelling with nothing to spare. So
  they undo each other over all nested values; printing is injective up to the normal form and blind to insertion order.
  UTF-8 is section 3 of RFC 3629.
* **Protocols under interference** (`VectorIndex`, `Ingestion`, `IngestionShutdown`, `ShutdownProgress`,
  `RuntimeCapacity`): compare-and-set on
  content hashes and document versions, a bounded executor with shutdown, reservations and slots. Others act between any
  two accesses; an access may fail before or after its effect.
* **Artifact life cycle** (`Artifacts`): rows that hold every field twice, one-way report states, exact replay, and a
  reader that gives back what the writer accepted.
* **Bounded loops** (`WebMerge`, `WebSelection`, `WebSearch`, `Excerpt`, `ChunkSplits`, `Chunker`, `Embedding`, with
  `Whitespace`, `WebTypes` and `Sequences` underneath): merging and choosing search results, cutting pages and documents, placing batch
  embeddings.
* **Agents over many ticks** (`Market`, `Research`): the capped scout with its memory, consent grants, and outside research
  that is quarantined, released or discarded once.

Text is a sequence of code points, lone surrogates included, so that text without a UTF-8 encoding stays in the model.
NFC is any idempotent function on text (and, for `Identity`, one that leaves that module's ASCII keys alone); SHA-256 and
the content hash are functions, assumed free of collisions only where a result needs it. Providers, parsers, scorers and
judges are arbitrary functions or arbitrary answers.

## What the proofs found

* `agentmesh/agent_run_identity.py:46-50` says the hash covers exactly the defining fields. It does so up to NFC: requests
  that differ only in normalisation share a hash (`Identity.HashIffSameIdentity`). Runs stored without a hash are compared
  more strictly, the skill's id included (`Identity.MatchByFieldsIsSameRequest`).
* `agentmesh/chunker.py:23` says adjacent chunks share `overlap` characters. A packed chunk starts with the end of a packed
  predecessor exactly when that has more than `overlap` characters before stripping and these leave room for the next
  paragraph. What the stripped chunks then share is all `overlap` characters exactly when the first of these is not blank,
  and else what follows the white space there; around a paragraph that had to be cut nothing is shared
  (`Chunker.ChunkText`, `Chunker.TwoParagraphs`). `Chunker.NothingShared` splits a text whose neighbours share nothing, and
  `Chunker.OverlapCutShort` one whose neighbours share one character of two.
* `agentmesh/vector_index.py:141-152` marks a record stale, but keeps its hash in the row, so an embedding still in flight
  for that same text revives the record (`VectorIndex.GhostsAppearIffRevived`, with the run in
  `VectorIndex.MarkStaleDoesNotStopLateResult`).
* `agentmesh/ingestion.py:386-407` invalidates every version but the one it was given. When it runs late, after a further
  edit, it can stale the newer items (`Ingestion.InvalidationSparesPresentIff`, with the run in
  `Ingestion.LateInvalidationStalesNewer`).
* `agentmesh/ingestion.py:150-218` returns a job as completed when its row says so and its document's counts agree, without a
  look at the items. When the last write of a run lands and raises all the same, and the failed row is then not written, the
  items are stale and the next run returns the job as completed (`Ingestion.Session.StrandJob`). It does so exactly from such
  a stranded store; from any other, a run that returns has imported everything or withdrawn everything
  (`Ingestion.Session.RunJob`).
* A manual import of the version a job is working on (`agentmesh/routes/documents.py:160-173`) can put active chunks under a
  failed job (`Ingestion.Session.ImportWhileFailing`), and staged ones under a completed job
  (`Ingestion.Session.ImportWhileFinishing`).
* Shutdown (`agentmesh/ingestion.py:112-144`) does not account for every job. A queued job whose awaiting caller is
  cancelled while the service is open is unregistered before the snapshot and never marked
  (`IngestionShutdown.AbandonedJobLost`); a refused call may still be on its way to marking its job when shutdown returns
  (`IngestionShutdown.RefusedJobPending`); and when marking one cancelled job raises, the rest are left, while every waiting
  caller returns normally (`IngestionShutdown.MarkingBreaksOff`). `IngestionShutdown.NoJobIsLost` shows that there is no
  other way, `IngestionShutdown.LostByEvents` tells the lost jobs by the events of the run alone,
  `IngestionShutdown.CalmRunLosesNone` that without such events nothing is lost, and `ShutdownProgress.ShutdownCanEnd` that
  a shutdown is never stuck.
* `agentmesh/agents.py:1202-1214` and `agentmesh/agents.py:1282-1289` save evidence before the task. A failed write in
  between leaves the evidence decided and the task waiting, and no later call repairs that (`Research.Board.Do`, with the
  run in `Research.LoseAnswer`). The check for earlier evidence and the write are separate, so two dispatches that
  interleave there both post (`Research.RacingDispatchesPostTwice`). A review is decided on the caller's copy of the evidence,
  so two people who loaded it before either decided both get through, and the second verdict replaces the first
  (`Research.CopyDecidesOnceIff`, `Research.RacingReviewsDecideTwice`).
* `agentmesh/agents.py:1624-1634` remembers a need before answering it. When answering raises, that need is never looked at
  again by this helper (`Market.LostForGood`), and the tick is over for every participant after it
  (`Market.Market.ScoutAll`). The rest of the needs are only put off (`Market.Market.RunTicks`, `Market.EnoughTicksInAll`).
* `agentmesh/artifacts.py:747-761` ties content to run, requirement, plan and attempt, but not to the step number
  (`Artifacts.StepNumberUntied`).

The fingerprints of `agentmesh/agents.py:1624` join owner and need with a colon. `Market.CollideIffPrefix` says exactly
which owners could collide; the ids the program makes contain no colon, so theirs do not.

## Model

| member | source | states |
|---|---|---|
| Utf8.DecodeIffEncoded | agentmesh/canonical_json.py:98-100 | strict decoding accepts exactly the encodings of text without surrogates, and gives that text back |
| Utf8.EncodedAsStandard | agentmesh/canonical_json.py:76-77 | the bytes of a code point are those of the table in section 3 of RFC 3629, and there are none for a surrogate |
| Utf8.EncodeInjective | agentmesh/canonical_json.py:76-77 | two encodable texts with the same bytes are the same text |
| Utf8.ByteOrderIsCodePointOrder | agentmesh/canonical_json.py:48-48 | sorting by UTF-8 bytes is sorting by code points |
| Utf8.TruncateIsLongestPrefix | agentmesh/web_research.py:283-287 | truncation yields the longest whole-code-point prefix that fits the byte limit, and the flag says exactly whether anything was cut |
| JsonNumbers.NumberTokenShowsNormalForm | agentmesh/canonical_json.py:22-30 | the token of a number exists exactly for finite numbers and is the spelling of its normal form: integral decimals as integers, no trailing zeros, no negative zero |
| JsonNumbers.SameNormalFormIffEqualValue | agentmesh/canonical_json.py:22-30 | two finite numbers share a normal form if and only if they are numerically equal |
| JsonGrammar.LoadsIffSpells | agentmesh/canonical_json.py:98-107 | the strict parser answers a value for a text if and only if the text spells it: any run of tab, line feed, carriage return and space between tokens, every escape and surrogate pair, fraction and exponent with their numeric value, and object members in order under NFC keys that all differ |
| JsonGrammar.SpellsOne | agentmesh/canonical_json.py:98-107 | a text spells one value at most |
| JsonGrammar.LoadsBytesIffSpells | agentmesh/canonical_json.py:98-107 | of bytes: if and only if they are the UTF-8 encoding of a text that spells the value |
| JsonCanonical.CanonicalIffBare | agentmesh/canonical_json.py:33-73 | the canonical text of a value is the one text that spells its normal form with nothing to spare: no white space; characters as they are where they can be, else escaped by a letter, else in lower-case hexadecimal; no exponent, trailing zero or negative zero; keys in NFC |
| JsonLaws.ParseInvertsShowNumber | agentmesh/canonical_json.py:101-106 | reading the spelling of a normal number, whatever ends it, gives that number back and stops there |
| JsonLaws.ParseInvertsEscape | agentmesh/canonical_json.py:65-66 | reading an escaped string gives its text back, surrogate pairs and control characters included |
| CanonicalJson.SortSorted | agentmesh/canonical_json.py:48-50 | sorting distinct encodable keys orders them strictly by bytes |
| CanonicalJson.SortedUnique | agentmesh/canonical_json.py:48-50 | there is only one sorted order of a set of entries |
| CanonicalJson.NormalizeNormal | agentmesh/canonical_json.py:33-73 | what normalisation yields is in normal form, at every depth |
| CanonicalJson.NormalizeFixes | agentmesh/canonical_json.py:33-73 | a value in normal form is its own normal form |
| JsonLaws.ParseInvertsShow | agentmesh/canonical_json.py:98-107 | for every nested normal value and every continuation, parsing the printed text gives the value and the continuation |
| JsonLaws.LoadsInvertsCanonicalText | agentmesh/canonical_json.py:98-107 | parsing a canonical print gives the value's normal form, and printing that yields the same text |
| JsonLaws.LoadsInvertsCanonicalBytes | agentmesh/canonical_json.py:76-107 | the same through UTF-8 bytes |
| JsonLaws.CanonicalBytesInjective | agentmesh/canonical_json.py:76-81 | two printable values have the same canonical bytes if and only if their normal forms are equal |
| JsonLaws.AcceptedIffPrinted | agentmesh/artifacts.py:457-459 | the registry accepts a text as canonical if and only if it is the canonical print of some value |
| JsonLaws.InsertionOrderIrrelevant | agentmesh/canonical_json.py:38-51 | values that differ only in the order of their mappings' entries, at any depth, have the same canonical form |
| JsonLaws.LoadedIsCollected | agentmesh/canonical_json.py:88-107 | what the strict parser returns has distinct NFC keys in every object, and it prints whenever those keys can be encoded |
| JsonPrinter.CollectPairs | agentmesh/canonical_json.py:88-95 | the collecting loop refuses exactly the objects with duplicate normalised keys and otherwise renames every entry in place |
| JsonPrinter.RenameKeys | agentmesh/canonical_json.py:39-46 | the renaming loop of the printer refuses exactly duplicate normalised keys |
| JsonPrinter.CanonicalToken | agentmesh/canonical_json.py:33-73 | the recursive printer's loops compute exactly the print of the normal form, or fail when there is none |
| JsonPrinter.ObjectToken | agentmesh/canonical_json.py:38-51 | renaming, sorting raw entries and printing values one by one is printing the object's normal form |
| JsonPrinter.NormalizeSorted | agentmesh/canonical_json.py:47-51 | sorting before normalising the values gives the same object as after |
| Identity.HashIffSameIdentity | agentmesh/agent_run_identity.py:32-70 | two requests share a create hash if and only if their defining fields agree up to NFC and the execution marker is out of both or agrees |
| Identity.IdentityIs | agentmesh/agent_run_identity.py:51-69 | the object that is hashed, member by member: the eight that are always there, then task, planning contract and execution marker when they take part |
| Identity.ValidatedIff | agentmesh/agent_run_identity.py:142-154 | a run is taken if and only if what it says of its hash is true, and then has the hash of its own request; a hash taken from another request is refused unless the two are the same |
| Identity.ReplayAnsweredIffSameRequest | agentmesh/agent_run_identity.py:97-154 | a validated run answers exactly the replays that are the same request; validating again changes nothing |
| Identity.MatchByFieldsIsSameRequest | agentmesh/agent_run_identity.py:121-139 | a run stored without a hash answers exactly the replays with equal fields, equal skill id and a compatible mode; each is the same request once the modes agree, and then has the same hash |
| Identity.PreviewNeverReplaysAsLegacy | agentmesh/agent_run_identity.py:46-69 | a standard run whose execution marker is null never shares a hash with one that leaves the marker out |
| Whitespace.StripKeepsInk | agentmesh/chunker.py:33-33 | stripping loses nothing but white space |
| Whitespace.StripIs | agentmesh/chunker.py:33-33 | stripping cuts off the white space at both ends and nothing else |
| Whitespace.BlankCodePoints | agentmesh/chunker.py:33-33 | white space is these twenty-nine code points |
| Whitespace.KeptIs | agentmesh/chunker.py:58-58 | what is kept of a list of pieces are those that are not blank, stripped and in order |
| VectorIndex.Store.Prepare | agentmesh/vector_index.py:69-118 | the tables after preparing, in all cases: blank text, unchanged ready text, new and replaced text; and the work handed out |
| VectorIndex.Store.AdoptReady | agentmesh/vector_index.py:119-138 | a row appears only for a record without one |
| VectorIndex.Store.MarkStale | agentmesh/vector_index.py:140-152 | the vector goes, the row keeps its hash and becomes stale |
| VectorIndex.Store.Process | agentmesh/vector_index.py:154-190 | an embedding lands on a row that carries its hash and is pending, stale or failed, making it ready with that vector, and a failure marks it failed with the clipped reason; on any other row neither changes anything |
| VectorIndex.Store.FinishFailed | agentmesh/vector_index.py:192-207 | a failure is noted under the same guard, its message clipped to 500 characters |
| VectorIndex.Store.UpdateRow | agentmesh/vector_index.py:168-182 | the guarded update changes exactly the row with the same hash that is not ready, and reports whether it did |
| VectorIndex.Store.CountReady | agentmesh/vector_index.py:228-240 | one for a ready row with a vector, else zero |
| VectorIndex.SoundStep | agentmesh/vector_index.py:69-207 | every step by anyone keeps the table invariant |
| VectorIndex.ReadyMeansEmbedded | agentmesh/vector_index.py:69-207 | over every run: ready if and only if a vector is stored, and the vector embeds the present text of the record |
| VectorIndex.PreparedWorkLands | agentmesh/vector_index.py:69-207 | preparing text that is not indexed hands out work, and whatever follows that does not prepare, adopt or complete the record, its embedding lands when it comes; a failure is noted and does not stop a later embedding |
| VectorIndex.OutdatedResultIgnored | agentmesh/vector_index.py:167-182 | a completion or failure with an outdated hash changes nothing |
| VectorIndex.GhostsAppearIffRevived | agentmesh/vector_index.py:140-190 | a step makes an unsearchable record ready if and only if it completes work which that record's row still awaits |
| VectorIndex.MarkStaleDoesNotStopLateResult | agentmesh/vector_index.py:140-190 | the run in which that happens: prepare, mark stale, late result |
| RuntimeCapacity.Controller.ClaimRun | agentmesh/runtime_capacity.py:51-68 | the answer and the new books for a claim; both limits and the agreement of counts and reservations are kept |
| RuntimeCapacity.Controller.ReleaseRun | agentmesh/runtime_capacity.py:77-86 | the new books for a release; unknown operations change nothing |
| RuntimeCapacity.AcceptedIffRoom | agentmesh/runtime_capacity.py:51-68 | a claim is accepted if and only if the operation is the user's already, or is new and both the process and the user hold fewer reservations than their limits |
| RuntimeCapacity.ClaimKeepsValid | agentmesh/runtime_capacity.py:51-68 | a claim keeps counts equal to holdings, without zero entries, within both limits |
| RuntimeCapacity.ReleaseKeepsValid | agentmesh/runtime_capacity.py:77-86 | so does a release |
| RuntimeCapacity.CountsAreHoldings | agentmesh/runtime_capacity.py:51-86 | over every sequence of calls each user's count is the number of reservations they hold and stays within the limit |
| RuntimeCapacity.ReleaseUndoesClaim | agentmesh/runtime_capacity.py:51-86 | release exactly undoes a new claim; claiming again is idempotent for its owner and refused to others |
| RuntimeCapacity.StepKeepsSlots | agentmesh/runtime_capacity.py:88-131 | each half-step of a worker keeps permits conserved and the counter equal to the workers counted |
| RuntimeCapacity.SlotRoundTrip | agentmesh/runtime_capacity.py:88-131 | a worker gets a permit if and only if one is free; taking it, counting, uncounting and giving it back ends where it began |
| RuntimeCapacity.SlotsNeverExceedLimit | agentmesh/runtime_capacity.py:88-131 | under every schedule, held plus free permits equal the limit and the counter stays between zero and it |
| Ingestion.EditKeepsRely | agentmesh/routes/documents.py:134-152 | whatever others do in one step, but for a manual import of the job's own version, a job's own row, items and unedited document stay as it left them, or only turn stale |
| Ingestion.EditsKeepRely | agentmesh/routes/documents.py:134-152 | so does any number of such steps |
| Ingestion.ImportedIs | agentmesh/ingestion.py:278-349 | a complete import, item by item: the active summary and one active item for each chunk of the text, nothing else of that version, and both counts at the number of chunks |
| Ingestion.RetryEndsLikeCleanRun | agentmesh/ingestion.py:410-416 | any two completed stores for a text agree on one summary and one active item per chunk, and hold no other item of that version |
| Ingestion.CompletedInvalidationStales | agentmesh/ingestion.py:386-407 | an invalidation that completes stales exactly the items of every other version of the document |
| Ingestion.InvalidationSparesPresentIff | agentmesh/ingestion.py:386-407 | wherever the invalidation stops on its walk it leaves the present version's items alone, if and only if that is the version it keeps or all of them are stale already |
| Ingestion.LateInvalidationStalesNewer | agentmesh/ingestion.py:386-407 | the run in which it does not: two edits, an import of the newest version, and the first edit's invalidation coming late |
| Ingestion.Session.constructor | agentmesh/ingestion.py:101-110 | a store in which the job was just created satisfies the job's invariant |
| Ingestion.Session.SaveJobIfDocumentVersion | agentmesh/store.py:15682-15706 | the job is written only while the document is at the version, and exactly then when the call returns; a call that raises may have written it |
| Ingestion.Session.SaveDocumentIfVersion | agentmesh/store.py:15645-15676 | the document is written if and only if it is still at the version |
| Ingestion.Session.ImportChunks | agentmesh/ingestion.py:300-349 | on success every chunk of the text is staged under its own name and counted |
| Ingestion.Session.ActivateItems | agentmesh/ingestion.py:371-376 | on success, and if the document is still current, every item of the version is active |
| Ingestion.Session.InvalidateItems | agentmesh/ingestion.py:378-384 | on success every item of the version is stale; none is ever revived, and undisturbed it succeeds |
| Ingestion.Session.FailJob | agentmesh/ingestion.py:204-218 | a failure that returns has stored the failed row, with the document's own counts if it is still at its version, and left no item of the version active; undisturbed it returns |
| Ingestion.Session.LoadOrParse | agentmesh/ingestion.py:220-254 | on success the job works on a document whose first text is known and still unedited at that access; undisturbed it succeeds if and only if the upload parses or the document is unedited |
| Ingestion.Session.Import | agentmesh/ingestion.py:174-181 | on success the document is current, every item of its version is there, active and counted; undisturbed it succeeds |
| Ingestion.Session.Close | agentmesh/ingestion.py:182-202 | on success the guarded write found the document at its version with a complete, counted, active import; otherwise the job is still in order, though the write may have landed |
| Ingestion.Session.RunJob | agentmesh/ingestion.py:150-202 | with others editing at every access and any access failing before or after its effect: a run that returns ended completed with exactly a clean import of a document still at its version, its row counting as many chunks expected and completed as the text has; or failed with every item of the version stale; or found the job stranded: its row completed and its counts agreeing, over items not all active. No run strands a job but one that raises. Undisturbed, a run returns, completes the job if and only if there is something to work on and it is not stranded, and returns a stranded job as it is |
| Ingestion.Session.Retry | agentmesh/ingestion.py:150-254 | after any number of attempts, unless the job was stranded before or by an attempt that raised, a completed job has exactly one active summary and one active item per chunk, with the right contents |
| Ingestion.Session.StrandJob | agentmesh/ingestion.py:150-218 | the run that strands a job: the last write lands and raises, the items are withdrawn, the failed row is not written; the next run returns the job completed with every item stale |
| Ingestion.Session.ImportWhileFailing | agentmesh/routes/documents.py:160-173 | a manual import between the withdrawal and the failed row leaves a failed job over active chunks |
| Ingestion.Session.ImportWhileFinishing | agentmesh/routes/documents.py:160-173 | a manual import between the count and the completed row leaves a stranded job over staged chunks |
| IngestionShutdown.StepKeepsValid | agentmesh/ingestion.py:44-148 | every step of submitters, workers, callbacks, callers who give up, the closing thread and those who wait for it keeps the executor's invariant; marking may raise |
| IngestionShutdown.PermitReleasedOnce | agentmesh/ingestion.py:58-65 | along every run each accepted job gives its permit back exactly once or still holds it, and no other job gives one back; after shutdown only an abandoned job can still hold one |
| IngestionShutdown.PermitsBack | agentmesh/ingestion.py:65-82 | once shutdown is done, in every run, permits and registrations are back but for abandoned jobs whose callbacks have yet to run; all permits are free if and only if there is none of these |
| IngestionShutdown.SubmissionsStay | agentmesh/ingestion.py:112-148 | no step loses a submitted job or its acceptance, and only a submission while open with a permit free is accepted |
| IngestionShutdown.NothingAcceptedLate | agentmesh/ingestion.py:112-132 | along every run no submission is forgotten and nothing is accepted once shutdown has begun |
| IngestionShutdown.RunKeepsValid | agentmesh/ingestion.py:44-148 | every run keeps the invariant |
| IngestionShutdown.NoJobIsLost | agentmesh/ingestion.py:112-148 | in every run of a new executor: accepted and unfinished jobs never exceed workers plus queue; shutdown returns to anyone only when it is done; and then a job neither ran nor was marked if and only if it was abandoned and unregistered before the snapshot, left over when marking broke off, refused and marked in vain, or refused with the marking still to come |
| IngestionShutdown.SlippedIffForgottenEarly | agentmesh/ingestion.py:126-148 | read off the events: a job slips past the snapshot if and only if its caller gave it up and its registration went before the snapshot |
| IngestionShutdown.LostByEvents | agentmesh/ingestion.py:112-148 | after shutdown a job is lost if and only if, in the events of the run: it was abandoned and unregistered before the snapshot, its refusal was marked in vain, marking raised and left it behind cancelled and unmarked, or it was refused and no marking tried; nothing is lost if and only if this happened to none |
| IngestionShutdown.CalmRunLosesNone | agentmesh/ingestion.py:112-148 | when no caller gives up on a queued job and no marking raises, after shutdown every job has run or been marked, but for refused calls on their way to marking, and every permit and registration is back |
| ShutdownProgress.ShutdownCanEnd | agentmesh/ingestion.py:71-148 | from every state of a shutdown under way there is a run to its end, without anyone being cancelled, raising or calling anew, after which every caller who waited is away |
| ShutdownProgress.BoundReached | agentmesh/ingestion.py:44-69 | the bound of workers plus queue is reached by some run with every worker busy, and then the next call is refused |
| IngestionShutdown.AbandonedJobLost | agentmesh/ingestion.py:126-148 | the run that loses an abandoned job |
| IngestionShutdown.RefusedJobPending | agentmesh/ingestion.py:112-144 | the run in which shutdown returns before a refused job is marked |
| IngestionShutdown.MarkingBreaksOff | agentmesh/ingestion.py:138-144 | the run in which marking one job raises and another is never marked, though a waiting caller returns |
| Artifacts.Store.Perform | agentmesh/artifacts.py:764-838 | the answer and the new table of each of the four writes, in all cases |
| Artifacts.Store.Insert | agentmesh/artifacts.py:913-919 | an unknown id is inserted, a known one is an exact replay or a conflict |
| Artifacts.Store.Transition | agentmesh/artifacts.py:921-981 | only a staging row with the same immutable fields moves on; the same end again is an exact replay |
| Artifacts.ReaderVerifies | agentmesh/artifacts.py:697-761 | whatever the reader returns as sealed is the stored payload with the hash and size of its content, a registered type and schema, the run and requirement its content names, and the plan version and attempt exactly when its content names them |
| Artifacts.InsertSealedIff | agentmesh/artifacts.py:768-780 | a sealed artifact under a new id is accepted if and only if it is no report, its run is known, its fields fit the run, and its hash, size and lineage are those of its content |
| Artifacts.ReportSealedIff | agentmesh/artifacts.py:782-815 | a report under a new id is staged if and only if it is empty and its fields fit, and sealed after that if and only if its fields are the staged ones and its content agrees |
| Artifacts.ReportFailedIff | agentmesh/artifacts.py:817-838 | a staged report is failed if and only if its fields are the staged ones and it is empty |
| Artifacts.SealedReadIff | agentmesh/artifacts.py:697-745 | a sealed row is read if and only if its run is known and in the reader's scope, its columns are those of its payload, its fields fit the run and its content agrees |
| Artifacts.LegacyReadIff | agentmesh/artifacts.py:708-721 | a row from before verification is read if and only if it belongs to the run, the run is in scope and no verification field is set |
| Artifacts.UnsealedReads | agentmesh/artifacts.py:697-732 | after each accepted write its owner reads the sealed artifact, or is told that it is not ready or invalid; others are told nothing is there |
| Artifacts.WriteKeepsSound | agentmesh/artifacts.py:764-838 | each write keeps columns and payload in agreement, immutable fields fixed, and rows moving only out of staging |
| Artifacts.RowsOnlyProgress | agentmesh/artifacts.py:764-988 | the same over every sequence of writes: no row disappears, and a sealed or failed row never changes again |
| Artifacts.ReplayIsExact | agentmesh/artifacts.py:983-988 | repeating an accepted write changes nothing and returns the same artifact |
| Artifacts.AcceptedIsReadable | agentmesh/artifacts.py:697-745 | every accepted insert or seal is read back unchanged by its owner, whatever was written since |
| Artifacts.EndedRowRefuses | agentmesh/artifacts.py:921-981 | a sealed or failed row refuses every other write |
| Artifacts.OneEndOnly | agentmesh/artifacts.py:800-838 | a report is sealed or failed, never both, and once |
| Artifacts.StepNumberUntied | agentmesh/artifacts.py:747-761 | a sealed artifact with a step number that is accepted and read back is so under every other positive step number with the same content |
| WebMerge.DedupAccumulates | agentmesh/web_research.py:575-575 | de-duplicating an accumulated list again before adding to it changes nothing |
| WebMerge.MergeKeepsMerged | agentmesh/web_research.py:572-583 | one more result keeps, for each canonical address, its first discovery index, the first-seen-order union of the question ids that found it, and the first of the longest snippets seen |
| WebMerge.Collector.Merge | agentmesh/web_research.py:573-583 | merging one result keeps the table right for the results so far, in discovery order |
| WebMerge.Collector.MergeAll | agentmesh/web_research.py:572-583 | merging all results of a query does so for all of them |
| WebSelection.ServeQuestion | agentmesh/web_research.py:619-627 | one question's quota adds at most two results and leaves it with two or all there are, when there is room |
| WebSelection.ServeQuestions | agentmesh/web_research.py:618-629 | all required questions are served when twice their number fits the limit |
| WebSelection.FillUp | agentmesh/web_research.py:630-635 | filling up reaches the limit or takes every result |
| WebSelection.SortDiscovered | agentmesh/web_research.py:636-636 | the final order is the order of discovery |
| WebSelection.Select | agentmesh/web_research.py:615-636 | distinct addresses, exactly as many as fit or exist, in discovery order; every required question gets two or all when twice their number fits; a higher rank is passed over only for a required question it does not carry |
| WebSearch.TidyQueries | agentmesh/web_research.py:524-533 | the queries of a batch: the first four, stripped, without blanks and repeats |
| WebSearch.Tidy | agentmesh/web_research.py:524-533 | tidied queries are distinct and not blank |
| WebSearch.TidyMissesNone | agentmesh/web_research.py:524-533 | every query that is not blank is among the tidied ones, stripped |
| WebSearch.TidyKeepsFirst | agentmesh/web_research.py:524-533 | each tidied query is the first with its text, with that one's questions |
| WebSearch.Asked | agentmesh/web_research.py:588-603 | at most four distinct queries are asked, the tidied ones first |
| WebSearch.SupplementIff | agentmesh/web_research.py:588-603 | the supplement is asked, last, if and only if there are one to three queries, its text is new and some required question has fewer than two addresses; and it asks exactly these questions |
| WebSearch.CollectAll | agentmesh/web_research.py:543-586 | one search call per query, and the merged table of all answered ones |
| WebSearch.CountIsSupport | agentmesh/web_research.py:591-595 | counting merged results that carry a question is counting the addresses found for it |
| WebSearch.MissingQuestions | agentmesh/web_research.py:591-595 | the missing questions are the required ones with fewer than two addresses |
| WebSearch.RankRanked | agentmesh/web_research.py:607-614 | the ranking is ordered by score, then discovery |
| WebSearch.SelectRanked | agentmesh/web_research.py:607-636 | ranking, quotas, filling and final order together, for any pairs of distinct addresses |
| WebSearch.ChoosePairs | agentmesh/web_research.py:607-636 | the same of the merged results: every question is served as far as addresses were found for it |
| WebSearch.SearchAll | agentmesh/web_research.py:543-603 | the supplement is asked if and only if a question is missing, there is room and its text is new |
| WebSearch.PageQueryIs | agentmesh/web_research.py:638-643 | a page is asked about the texts of exactly the queries that share a question with its result, in order; about all if it has none, about the first if none shares one |
| WebSearch.FetchAll | agentmesh/web_research.py:645-673 | each result comes back with the excerpt of its page for a snippet, or unchanged when that could not be fetched, and one call is recorded for each |
| WebSearch.SearchBatch | agentmesh/web_research.py:518-677 | the first four queries that are not blank are asked; at most four searches and fourteen provider calls, in the order made; an error if and only if nothing was found and some search failed; otherwise as many merged results as the result limit, the scrape limit up to ten and the addresses found allow, in discovery order, each with the excerpt of its page, two or all for each required question when that fits, and no found address passed over for a lower-ranked one unless that one carries a required question it lacks |
| Excerpt.SplitBlocksKeepsInk | agentmesh/web_research.py:315-315 | splitting at blank lines loses nothing but white space |
| Excerpt.SplitBlocksCuts | agentmesh/web_research.py:315-315 | the page is cut at its separators, each as long as it goes, and no separator starts within a block |
| Excerpt.SeparatorIsLongest | agentmesh/web_research.py:315-315 | a separator runs from a newline to the last newline of the white space after it, if there is a second one |
| Excerpt.ScoreBlocks | agentmesh/web_research.py:325-334 | the scoring loop scores every block at its own index |
| Excerpt.BestAreBest | agentmesh/web_research.py:335-337 | no candidate left out of the eight beats one that is kept |
| Excerpt.KeepInk | agentmesh/web_research.py:338-340 | every block left out takes ink with it |
| Excerpt.SelectedIs | agentmesh/web_research.py:335-340 | the selected blocks are the eight best candidates, or all if fewer, in the order of the page; each is ahead of every candidate left out |
| Excerpt.ExcerptHonest | agentmesh/web_research.py:313-342 | the excerpt never exceeds its bytes; its flag is clear if and only if no ink of the page is missing, and then it is the whole page or all its blocks in order |
| Excerpt.ExcerptIs | agentmesh/web_research.py:313-342 | of the first 128 KiB: the beginning if every block is boilerplate, all informative blocks if they fit, else the beginning of the eight best |
| ChunkSplits.SplitParagraphsKeepsInk | agentmesh/chunker.py:61-66 | splitting into paragraphs loses nothing but white space |
| ChunkSplits.SplitSentencesKeepsInk | agentmesh/chunker.py:71-71 | nor does splitting into sentences |
| ChunkSplits.SplitByCharsKeepsInk | agentmesh/chunker.py:99-101 | nor does cutting by count |
| ChunkSplits.ParagraphsAre | agentmesh/chunker.py:61-66 | the paragraphs are the parts between runs of two or more newlines, each run taken whole, or the lines if there is no such run |
| ChunkSplits.SentencesAre | agentmesh/chunker.py:71-71 | the sentences are the text, each up to and with its end: a full stop, exclamation or question mark, ideographic or not, or a newline |
| ChunkSplits.ByCountIs | agentmesh/chunker.py:99-101 | cutting by count gives pieces of exactly that size, but for a shorter last one |
| ChunkSplits.GatherSentences | agentmesh/chunker.py:73-88 | the stripped sentences that are not blank are packed in order, and a chunk ends only where the next sentence would not leave room for one character more |
| ChunkSplits.SplitLongParagraph | agentmesh/chunker.py:69-96 | a text without sentence ends is cut by count; any other is packed by its sentences, and what is still too long is cut by count; the pieces fit and keep all ink in order |
| Chunker.AddParagraph | agentmesh/chunker.py:37-53 | one paragraph adds its ink once and joins the chunk being filled if and only if it fits there; otherwise the next chunk starts with exactly the last `overlap` characters when those are fewer than the chunk's and leave room, and with none when not |
| Chunker.ChunkText | agentmesh/chunker.py:15-58 | every chunk is non-empty, stripped and fits; without the carried-over ends of predecessors the chunks' ink is the text's, in order; the plan accounts for every paragraph in order and for every returned chunk; each packed chunk is returned as its own paragraphs, after the end of the returned predecessor if and only if the overlap was carried over, and that end is all `overlap` characters if and only if the first of these is not blank |
| Chunker.TwoParagraphs | agentmesh/chunker.py:44-58 | of two paragraphs that fit a chunk each but not together, the second returned chunk starts with the last `overlap` characters of the first exactly when these are fewer than it has, leave room and do not start with white space; when only that last fails, with what of them follows the white space; else with nothing of it |
| Chunker.NothingShared | agentmesh/chunker.py:15-58 | a text whose adjacent chunks share nothing at a positive overlap |
| Chunker.OverlapCutShort | agentmesh/chunker.py:15-58 | a text whose adjacent chunks share one character at an overlap of two |
| Chunker.ChunkTwoLines | agentmesh/chunker.py:15-58 | the chunks of any two lines that do not go together, as they are returned |
| Chunker.NoOverlap | agentmesh/chunker.py:46-51 | without overlap the chunks alone add up to the text |
| Embedding.ValidateEmbedding | agentmesh/embedding.py:173-190 | an embedding is accepted if and only if it is a non-empty list of finite numbers of the right length, and its values are kept |
| Embedding.EveryTextSent | agentmesh/embedding.py:117-117 | every text that is not blank is among those sent |
| Embedding.PlaceAll | agentmesh/embedding.py:136-157 | an answer is used if and only if it has one usable item per text; distinct indexes in range then fill every slot with its own vector |
| Embedding.Scatter | agentmesh/embedding.py:158-159 | each sent text's position gets its vector, blank texts none |
| Embedding.EmbedTexts | agentmesh/embedding.py:109-165 | all or nothing: a usable answer gives each text that is not blank the vector returned for it; anything else gives no text a vector |
| Embedding.AnsweredIffNotBlank | agentmesh/embedding.py:109-165 | after a usable answer exactly the texts that are not blank have a vector |
| Embedding.UnindexedInOrder | agentmesh/embedding.py:138-159 | when no item carries an index, item k answers the k-th text sent |
| Market.CollideIffPrefix | agentmesh/agents.py:1624-1624 | needs of two different owners can share a fingerprint if and only if one owner with a colon after it begins the other; never for owners without colons |
| Market.Market.GrantConsent | agentmesh/agents.py:1313-1325 | exactly this pair becomes active, and at most one grant per pair stays active |
| Market.Market.RevokeConsent | agentmesh/agents.py:1327-1334 | exactly this pair stops being active |
| Market.Market.Evaluate | agentmesh/agents.py:1624-1635 | a need is remembered before it is matched; a match of a known owner grants the owner consent unless something raises before that; it is answered if and only if nothing raises at all |
| Market.Market.ScoutAndMatch | agentmesh/agents.py:1591-1661 | a pass looks, in the order of the board, at each need another user's signal states that was not seen before, up to the look that raises or brings the answers to the cap; it answers exactly those that match and do not raise; and below the cap it has seen every one |
| Market.PassProgress | agentmesh/agents.py:1591-1661 | the needs unseen shrink by exactly those looked at, and some are looked at whenever any are left |
| Market.Market.ScoutAll | agentmesh/marketplace.py:124-138 | one tick: only participants look; every one up to the one whose look raised makes progress, those after it have no turn, none answers more than the cap, nothing is forgotten, the needs unseen by all together fall, and the total is the number of answers triggered |
| Market.Market.RunTicks | agentmesh/marketplace.py:124-138 | over any number of ticks on a stable board no helper answers more than the cap at any tick and no tick goes on after a look that raised; the unseen needs of each participant fall by at least one at every tick that does not raise, and those of all together at every tick, until none is left |
| Market.EnoughTicks | agentmesh/marketplace.py:124-138 | so a need cut off by the cap is seen after enough ticks |
| Market.EnoughTicksInAll | agentmesh/marketplace.py:124-150 | however many ticks raise, after as many ticks as there were needs unseen in all every participant has seen every need |
| Market.LostForGood | agentmesh/agents.py:1624-1634 | a need that a helper looked at, that matches and whose owner is known was answered unless that one look raised; either way no later look by this helper is at it again |
| Research.AddEvidence | agentmesh/agents.py:1098-1107 | evidence for a request without any keeps one post per request and tasks ended only by their evidence |
| Research.OnePostIffChecked | agentmesh/agents.py:1098-1107 | writing evidence keeps one post per request if and only if none was there |
| Research.RacingDispatchesPostTwice | agentmesh/agents.py:1098-1160 | two dispatches that both check before either writes leave two posts |
| Research.CopyDecidesOnceIff | agentmesh/agents.py:1256-1284 | deciding on a copy loaded in review takes the evidence out of review once if and only if nobody has decided otherwise since |
| Research.RacingReviewsDecideTwice | agentmesh/agents.py:1239-1307 | two decisions on copies of one review both run to their end; each settles the request in turn, and if they differ the evidence goes from one verdict to the other |
| Research.EndReview | agentmesh/agents.py:1258-1283 | evidence leaving review keeps that too |
| Research.EndTask | agentmesh/agents.py:1211-1214 | ending the task as its evidence says settles the request |
| Research.StepSettles | agentmesh/agents.py:1088-1307 | a step keeps every request settled if and only if it leaves its task as its evidence says |
| Research.Board.constructor | agentmesh/agents.py:1088-1096 | unanswered requests, each for a waiting task of its own, make a valid and settled board |
| Research.Board.Finalize | agentmesh/agents.py:1194-1237 | the state after each of its writes, and the completed task after the last |
| Research.Board.Fulfill | agentmesh/agents.py:1088-1192 | refused exactly when there is no such request and task of the user's, it has evidence, or nothing was acquired; otherwise the exact state after as many writes as went through |
| Research.Board.Resolve | agentmesh/agents.py:1239-1307 | refused exactly when the evidence is no longer in review; otherwise the exact state after as many writes as went through |
| Research.Board.Do | agentmesh/agents.py:1088-1307 | all requests stay settled if and only if it was not so, before the call, that the operation would go ahead and its writes stop short of the task; otherwise the request is lost, and a lost request stays lost; an operation that may go ahead and is not cut short does |
| Research.LoseAnswer | agentmesh/agents.py:1166-1214 | the run that loses an answer: evidence published, task waiting |
| Research.Board.Run | agentmesh/agents.py:1088-1307 | over any sequence of operations evidence leaves review at most once, and when each runs to its end tasks are completed exactly for published evidence and failed exactly for discarded evidence |

## Left out

- HTTP, subprocess, database and provider calls themselves, telemetry, clocks and audit records: their answers are parameters or arbitrary.
- SQL text and SQLite locking: tables are maps, and each transaction is one atomic step.
- The kind of exception (`TypeError` or `ValueError`): the models tell failure from success only.
- The interpreter's own limits on digits, recursion depth and decimal exponents.
- Pydantic models, enumerations and timestamps as printer inputs (`agentmesh/canonical_json.py:34-37`, `agentmesh/canonical_json.py:54-58`): they turn into the values modelled before anything else happens to them.
- The tables behind NFC, SHA-256, the address canonicaliser, term extraction, boilerplate words and relevance scores are parameters.
- Ingestion.Session.RunJob: manual imports of the very version the job is working on are not among the steps of others, and what they do is shown by the runs `Ingestion.Session.ImportWhileFailing` and `Ingestion.Session.ImportWhileFinishing` only; and a job only ever works on the version its upload created.
- Ingestion.EditKeepsRely: that step of others is missing here for the same reason (`Ingestion.ToleratedWriteIff` tells which item writes a job tolerates).
- Ingestion.EditsKeepRely: the same step is missing.
- A document that was added just before saving its job failed stays behind without a job; the model keeps it too but proves nothing of it.
- Concurrent calls on one `Market` or `Research` board: each call is one step there; two interleaved dispatches are in `Research.RacingDispatchesPostTwice`, and two interleaved reviews in `Research.RacingReviewsDecideTwice`.
- Scouting without a memory of seen needs (`agentmesh/agents.py:1594`): nothing is deduplicated then.
- An interrupt of the closing thread itself while it waits for workers.
- Releasing a tool slot that was never acquired (`agentmesh/runtime_capacity.py:120-123`).
- Purging artifacts, research-v2 reads and the artifact types' content schemas: a schema is an arbitrary check that names a lineage.
- Request body limits, skill extraction and chat history windows (`agentmesh/request_limits.py`, `agentmesh/skill_extractor.py`, `agentmesh/agents.py:1931-1949`): short loops that would only add easy members.
- Evidence and task endings written by the chat flow itself (`agentmesh/agents.py:985-991`): only requests answered later by fulfilment and review are modelled.
- Answer texts, chat messages, activity logs, prompts, HTML, permissions, tools, seeds and scripts.
