# Verified model of the workflow backend's stateful core

This project models the parts of the backend whose correctness depends on long runs, on several tables or stores at
once, or on text of any length, and proves what they keep. Each component is a state machine or a class in the form of
its source: operations are methods over fields, loops carry invariants, and every method is tied to a specification
whose consequences are lemmas over all runs. Failures of the database or of a provider are nondeterministic choices at
every point where the source can see one, the handlers of failures included; a commit that raises has taken no effect.

`dafny verify dfyconfig.toml` checks everything.

## Components

* **Knowledge life cycle** (`VectorIndex`, `Knowledge`, `LifecycleFailures`, `Supersession`, `StoredText`,
  `Ingestion`, `Retrieval`). Document rows and vector records are two stores that are kept in step by upsert, verify,
  commit and compensate. `Knowledge` describes an operation run to its end as a relation between states, since any
  provider call may fail, the compensation included; `Ingestion` is the class whose methods are proved to take only
  such steps. The main results: every stored record holds the right chunk of the right document; an ACTIVE document
  has all its records exactly if no operation of the run lost any; which operations can lose records is known exactly;
  links between versions are in order; a search returns exactly the admissible hits, and what it returns is true of
  the rows it was checked against, even when hits are stale.
* **Text pipeline** (`PyText`, `CleanText`, `TextLayout`, `Chunking`, `ChunkId`). Cleaning keeps the words, reaches a
  normal form, and equals a second, one-pass definition; chunking loses nothing but whitespace, respects both limits
  and makes progress; a record key determines its parts.
* **Administration** (`Directory`, `ReportingLines`, `AssetRegister`, `AdminOutcomes`, `AdminServices`,
  `StaffingRules`). The reporting graph, the agreement of the asset and employee tables, and disjoint staffing rules.
* **Refresh tokens** (`TokenRotation`). Interleaved transactions of section 6 of RFC 6749, at the granularity of
  single statements, with and without the row lock.
* **Event streams** (`EventStream`, `NotificationStream`). What polling with a cursor delivers, loses and repeats.
* **Reports, imports, retries** (`CapabilityGaps`, `EmployeeImport`, `LlmRetry`).

## What turned out false, and the exact conditions

* The two stores can come apart. If an ingestion fails after the commit of its result, and marking the row as failed
  is not committed either (`backend/app/rag/ingestion.py:245-276`), the compensation has deleted records of a document
  that stays ACTIVE: `LifecycleFailures.FailureAfterCommitStrands` is such a run. A deletion that fails half-way does
  the same (405-424). `Knowledge.IngestKeepsCompleteExactlyWhen` and `Knowledge.StepDamagesExactlyWhen` prove that
  these are the only ways, and `Knowledge.CompleteExactlyWhen` draws the conclusion for every run.
* A successful deletion removes as many records as the row counts. `LifecycleFailures.DeletionCanLeaveOrphans` is a
  run in which a FAILED row counts none while records of it are stored; `Knowledge.DeletionIsCompleteExactlyWhen`
  gives the condition for every row, and `Knowledge.DeletionOfCompletedIsComplete` shows that completed rows meet it.
* A *retry* of a failed replacement passes no previous document and makes no duplicate check
  (`backend/app/rag/ingestion.py:403`). `Supersession.RetryCanBreakAChain` gives a run after which two versions of one
  chain are ACTIVE. `Supersession.RetryIsSafeExactlyWhen` gives the condition under which a completed retry keeps
  chains and checksums in order, and `Supersession.RunKeepsVersions` proves both for every run whose retries meet it.
  The agreement of `is_active` with the status, and the order of the links, need no condition.
* A document can be replaced once. If its replacement fails, `supersedes_document_id` stays taken, and every later
  `replace` of it is refused (`Supersession.ReplacementIsTriedOnce`); only a retry of the failed row can go on.
* `AdminEmployeeService.create` does not check the company of the manager it is given
  (`backend/app/admin/service.py:85-136`), while the walk of `update` sees one company only.
  `ReportingLines.ForeignManagersCanCloseACircle` gives a run that ends in a circle of three. Creations never close a
  circle themselves; `ReportingLines.RunIsAcyclicExactlyWhen` proves that the graph is acyclic all along a run if and
  only if no accepted update names a manager whom the employee is above, counting managers of all companies.
  `ReportingLines.CreateKeepsLocalExactlyWhen` says which creations keep every line inside one company, and
  `ReportingLines.RunsStayAcyclic` that after such creations the walk misses no circle.
* The notification query returns the newest rows only, so a poll that finds more than 50 rows behind the cursor drops
  the oldest for good, and a full replay repeats its last notification. `NotificationStream.PollIsCompleteExactlyWhen`
  and `NotificationStream.FullReplayRepeatsItsLast` state both.
* The live phase of the workflow stream restarts at the client's cursor, so whatever the replay sent is sent once
  more: `EventStream.ReplayIsSentAgain`.
* The check in `_bounded_end` and the last one of `chunk_text` cannot fail (`Chunking.ChunkTextOutcome`).

## Reading the statements

* In `Knowledge`, `Inv` is the conjunction of: identifiers and versions are well formed; `is_active` agrees with
  ACTIVE and implies COMPLETED; a row counts no chunk or all chunks of its file, and a completed one at least one;
  every stored record is chunk `i` of the deterministic chunking of its own document under its own key; and an ACTIVE
  document has all records 0 to `chunk_count - 1` if and only if it is not in `damaged`. `damaged` records the
  documents that lost records while ACTIVE; the code has no such field, and `CompleteExactlyWhen` speaks of the
  operations of the run instead.
* `Touched(before, after, written, removed)` in `VectorIndex` says that `after` comes from `before` by writing some of
  `written` and removing some of `removed`, in any order and number; it is what any failed call may leave behind.
* `calm` is a constant of the provider and of the import service. Where it is false, anything may go wrong at any
  point; where it is true, nothing does but what rows, files and requests bring about, and the contracts then say what
  must succeed. `durable` says whether an acknowledged write has certainly taken effect; ingestion does not rely on
  it.
* In `TokenRotation`, identifiers are serial numbers that stand for fresh UUIDs; `initial` records the committed
  logins.
* A notification table is the sorted list of one user's unexpired rows; a run of polls is a sequence of such tables,
  with no assumption on how one follows from the other except where a lemma says so.

## Model

| member | source | states |
|---|---|---|
| Chunking.FitEndIsGreatest | backend/app/rag/chunking.py:12-18 | the byte bound picks the largest end not beyond the desired one at which the UTF-8 slice fits |
| Chunking.BoundedEnd | backend/app/rag/chunking.py:12-18 | the decrementing loop finds that end and raises exactly when not even the first character fits |
| PyText.Utf8LengthIsEncoded | backend/app/rag/chunking.py:14 | the byte count of a character is the length of its encoding, which announces its length and can be read back |
| Chunking.ByteLimitIs | backend/app/rag/chunking.py:33-37 | 480 for the model that counts strictly; otherwise the least limit that no slice of chunk_size characters exceeds |
| Chunking.HardEndIsGreatest | backend/app/rag/chunking.py:41 | an end is at or before the hard end if and only if the slice obeys both limits |
| Chunking.MatchEndsAreBoundaries | backend/app/rag/chunking.py:44 | every candidate end is a paragraph break or follows all the space after a sentence, and candidates increase |
| Chunking.MatchEndsScan | backend/app/rag/chunking.py:9 | the candidates are a scan of the text: the first break behind the end of the one before, and none left out |
| Chunking.ScanIsUnique | backend/app/rag/chunking.py:9 | a text has one such scan, so this determines the candidates |
| Chunking.BreaksAreFound | backend/app/rag/chunking.py:44 | behind every paragraph break and every space after a sentence there is a candidate, no further than the space reaches |
| Chunking.ChooseEndIsBoundary | backend/app/rag/chunking.py:42-48 | if text follows, the slice ends at the last end of its scan whenever that lies in its second half, and at its hard end in every other case |
| Chunking.BreaksAreRespected | backend/app/rag/chunking.py:42-48 | no break in the second half is passed over: the cut comes behind it and at a boundary |
| Chunking.CutAt | backend/app/rag/chunking.py:41-48 | one iteration's end is the specified one, and `_bounded_end` cannot raise because the byte limit is at least 4 |
| Chunking.MoveStart | backend/app/rag/chunking.py:56-59 | the next start is the first character at or behind max(start + 1, end - overlap) that is not space, or the end |
| Chunking.ChunkTextLoop | backend/app/rag/chunking.py:21-62 | the loop computes the specified chunks, terminates on every input, and never raises the "cannot be safely chunked" error |
| Chunking.EmitOneIs | backend/app/rag/chunking.py:49-51 | a slice is emitted if and only if it holds text, from its first to its last character that is not space |
| Chunking.ChunkTextIsLossless | backend/app/rag/chunking.py:40-62 | on success: 1 to 10000 stripped nonempty slices within both limits, numbered from 0, in source order, covering every non-whitespace character |
| Chunking.ChunkTextOutcome | backend/app/rag/chunking.py:28-31 | which of the three possible errors is raised exactly when; the other two are unreachable |
| Chunking.TooManyChunksNeedLongText | backend/app/rag/chunking.py:52-53 | the limit is exceeded only by texts longer than 10000 minimum steps |
| Chunking.EmittedInOrder | backend/app/rag/chunking.py:49-51 | chunk starts never go backwards, although overlap and stripping move them |
| Chunking.IterationsArePaced | backend/app/rag/chunking.py:56-59 | successive starts lie at least max(1, w/2 - overlap) apart, w being min(chunk_size, byte_limit/4) |
| Chunking.ChunkCountBound | backend/app/rag/chunking.py:40-59 | chunks are at most the iterations, and (iterations - 1) times that step fits into the text |
| CleanText.CleanKeepsTokens | backend/app/rag/extractors.py:124-131 | the words of the cleaned text are those of the input without NULs |
| CleanText.CleanIsTidy | backend/app/rag/extractors.py:124-131 | no NUL, CR, tab, double space, triple line feed, or space at a line's or the text's ends |
| CleanText.TidyIsUnchanged | backend/app/rag/extractors.py:120-131 | a text in that form is a fixed point |
| CleanText.CleanIsIdempotent | backend/app/rag/extractors.py:124-131 | cleaning twice is cleaning once |
| TextLayout.CleanIsLayout | backend/app/rag/extractors.py:120-131 | the chain of replacements is the same function as one pass that keeps text and reduces each gap, on all texts without NUL |
| TextLayout.NulDisappears | backend/app/rag/extractors.py:125 | a NUL character disappears and leaves nothing |
| TextLayout.CleanAtGap | backend/app/rag/extractors.py:124-131 | between text and text: one line break stays, more become an empty line, and without any the blanks shrink |
| TextLayout.LineBreakConventions | backend/app/rag/extractors.py:125 | CR LF and CR count as one line feed |
| TextLayout.LineFeedsStay | backend/app/rag/extractors.py:126-131 | single and double line feeds between two lines of text stay |
| ChunkId.KeyRoundTrip | backend/app/rag/namespace.py:16-19 | document, version and index are read back from the key, beyond four digits too |
| ChunkId.KeyLooksLike | backend/app/rag/namespace.py:19 | document, plain version, and index in four digits or as many as it has, between colons |
| ChunkId.BuildChunkIdInjective | backend/app/rag/namespace.py:16-19 | two valid identities with the same key are equal |
| VectorIndex.WriteAllAt | backend/app/rag/pinecone.py:102-109 | what a sequence of writes leaves at a key does not depend on the store if the key is written |
| VectorIndex.WriteAllAbsorbs | backend/app/rag/pinecone.py:41-57 | repeating a write after any partial effect of itself leaves the store of a single clean write |
| VectorIndex.Provider.CallUpsert | backend/app/rag/pinecone.py:41-57 | at most max_retries + 1 attempts; on success the effect of one if acknowledged writes are durable, otherwise part of it |
| VectorIndex.Provider.CallDelete | backend/app/rag/pinecone.py:41-57 | the same for deletions |
| VectorIndex.Provider.Upsert | backend/app/rag/pinecone.py:102-109 | batches amount to one write of all records if acknowledged writes are durable; in any case nothing but those records is touched |
| VectorIndex.Provider.Delete | backend/app/rag/pinecone.py:171-178 | batches amount to one removal of all ids; on failure nothing else is touched |
| VectorIndex.Provider.Fetch | backend/app/rag/pinecone.py:159-169 | only requested and present ids are reported, and all of them where no answer lags |
| Knowledge.OthersKeepAll | backend/app/rag/ingestion.py:150-154 | writes and deletions for one document neither complete nor damage any other |
| Knowledge.IngestKeepsInv | backend/app/rag/ingestion.py:224-289 | every outcome of the protocol keeps the agreement of the two stores and records damage: interrupted, compensated, with a failing compensation, or with a failing handler |
| Knowledge.IngestKeepsCompleteExactlyWhen | backend/app/rag/ingestion.py:245-276 | every ACTIVE document stays complete if and only if the ingestion does not end committed, compensated and unmarked |
| Knowledge.StepKeepsInv | backend/app/rag/ingestion.py:291-424 | create, replace, retry over leftovers and delete keep the invariant, with any failure |
| Knowledge.StoreAgreesWithRows | backend/app/rag/ingestion.py:224-424 | it holds in every state of every serial run |
| Knowledge.StepDamagesExactlyWhen | backend/app/rag/ingestion.py:224-424 | a document becomes damaged exactly by a failed deletion that removed records, or by an operation that activated it and removed records; nothing repairs it |
| Knowledge.CompleteExactlyWhen | backend/app/rag/ingestion.py:224-424 | over every run, an ACTIVE document has all its records if and only if no operation lost any |
| Knowledge.DeletionIsCompleteExactlyWhen | backend/app/rag/ingestion.py:405-424 | a successful deletion leaves no record of its document if and only if all stored ones lie below the chunk count; others stay |
| Knowledge.DeletionOfCompletedIsComplete | backend/app/rag/ingestion.py:405-424 | so it leaves none of a row whose ingestion was completed |
| LifecycleFailures.FailureAfterCommitStrands | backend/app/rag/ingestion.py:257-276 | a run of one creation after which an ACTIVE document has no records |
| LifecycleFailures.DeletionCanLeaveOrphans | backend/app/rag/ingestion.py:405-424 | a run after which a DELETED document still has records |
| Knowledge.StepExtends | backend/app/rag/repository.py:128-160 | no operation loses a row or changes its version, predecessor, checksum or metadata |
| Knowledge.RunExtends | backend/app/rag/repository.py:27-160 | nor does a run |
| Supersession.StepKeepsLineage | backend/app/rag/ingestion.py:320-367 | each version follows its predecessor by one and no document has two successors |
| Supersession.ChainsHaveOneActive | backend/app/rag/repository.py:133-154 | if completed versions displace their predecessors, no chain has two ACTIVE documents, however far apart |
| Supersession.StepKeepsSettled | backend/app/rag/ingestion.py:291-424 | displacement and distinct ACTIVE checksums survive every operation, a retry included if it is safe |
| Supersession.RunKeepsVersions | backend/app/rag/models.py:54-61 | links and flags in every state of every run; chains and checksums if the retries were safe |
| Supersession.RetryIsSafeExactlyWhen | backend/app/rag/ingestion.py:369-403 | a retry that commits its result keeps chains and checksums if and only if neither predecessor nor twin is ACTIVE before the call |
| Supersession.RetriedReplacementLeavesTwoActive | backend/app/rag/ingestion.py:403 | with any two usable files, a run of three operations after which one chain has two ACTIVE versions |
| Supersession.RetryCanBreakAChain | backend/app/rag/ingestion.py:369-403 | such a run exists in a concrete environment |
| Supersession.DuplicateMeans | backend/app/rag/repository.py:104-112 | a duplicate is found if and only if an ACTIVE document has the content |
| Supersession.ReplacementIsTriedOnce | backend/app/rag/models.py:58-61 | once the row of a replacement was committed, every further replacement of that document is without effect, whatever became of the first |
| StoredText.RecordsArePieces | backend/app/rag/ingestion.py:156-190 | the records of a row are the pieces of the cleaned text of its file, or none exactly if it cannot be extracted or chunked |
| StoredText.StoredTextIsCleaned | backend/app/rag/ingestion.py:156-190 | in every state of every run a stored text is a plain piece of the cleaned text of its file, within both limits, under the data of its row |
| StoredText.ActiveTextIsStored | backend/app/rag/ingestion.py:156-190 | the records of an undamaged ACTIVE document hold the cleaned text: piece i under number i, in order, every character that is not space |
| Ingestion.KnowledgeIngestionService.BuildRecords | backend/app/rag/ingestion.py:156-190 | the loop builds exactly the specified records of a readable file, which are the pieces of its cleaned text; an unreadable one gives none |
| Ingestion.KnowledgeIngestionService.VerifyRecords | backend/app/rag/ingestion.py:192-200 | success exactly if the last of at most four answers shows every id; every id is then stored |
| Ingestion.ConfirmedIsWritten | backend/app/rag/ingestion.py:239-241 | if all keys are confirmed, exactly the records of the row were written, even if acknowledged writes can be lost |
| Ingestion.KnowledgeIngestionService.StoreRecords | backend/app/rag/ingestion.py:238-241 | confirmed only if exactly the records of the row are stored, be writes durable or not; and if nothing goes wrong, confirmed for every usable file |
| Ingestion.KnowledgeIngestionService.Fail | backend/app/rag/ingestion.py:257-276 | the row is FAILED, or unchanged where the handler itself fails or is interrupted; the compensation touches this row's records only |
| Ingestion.KnowledgeIngestionService.CommitResult | backend/app/rag/ingestion.py:242-256 | new version ACTIVE and previous SUPERSEDED together, or neither, or taken back, or stranded; a failed cleanup does not undo them |
| Ingestion.KnowledgeIngestionService.IngestSaved | backend/app/rag/ingestion.py:224-289 | the whole protocol is a step of the relation, what each reported outcome says of rows and records, and success if nothing goes wrong |
| Ingestion.KnowledgeIngestionService.Create | backend/app/rag/ingestion.py:291-318 | keeps the invariant; conflict exactly if the content is ACTIVE already; the row describes the request; if nothing goes wrong, success exactly for a usable file |
| Ingestion.KnowledgeIngestionService.Replace | backend/app/rag/ingestion.py:320-367 | keeps the invariant; not found, conflict and, if nothing goes wrong, success exactly when; the row describes the request and its predecessor |
| Ingestion.KnowledgeIngestionService.Retry | backend/app/rag/ingestion.py:369-403 | keeps the invariant; refused exactly if the row is not FAILED or the file differs; if nothing goes wrong, success exactly for a usable file, and otherwise the leftovers are gone |
| Ingestion.KnowledgeIngestionService.Delete | backend/app/rag/ingestion.py:405-424 | keeps the invariant; on success the row is DELETED and exactly its keys are gone; on failure the row is as it was; success if nothing goes wrong |
| Retrieval.QueryScope | backend/app/rag/retrieval.py:52-82 | who may search, exactly which departments and access scopes the query covers, and how many results it asks for |
| Retrieval.ManagersSeeTheirOwn | backend/app/rag/retrieval.py:52-82 | what a manager's query returns is shared or of his department, never restricted to the company account, at most rag_top_k |
| Retrieval.SearchTrusted | backend/app/rag/retrieval.py:115-175 | for any hits: a foreign tenant is refused, else each hit the caller is entitled to stands at its place in the answer, up to top_k, and malformed ones are counted |
| Retrieval.AllAnswers | backend/app/rag/retrieval.py:142-175 | that answer, said of the fields of hits and rows, is the specification of the search |
| Retrieval.ResultsAreTheAdmissibleHits | backend/app/rag/retrieval.py:142-175 | the results are all admissible hits, in hit order, and nothing else |
| Retrieval.SearchIsRight | backend/app/rag/repository.py:114-126 | hits found in one state of a run and checked in a later one: every result is a chunk of an ACTIVE, COMPLETED document at its version and within scope |
| ReportingLines.NewManagerKeepsAcyclic | backend/app/admin/service.py:177-202 | giving an employee a manager keeps the graph acyclic if and only if he is not above that manager |
| ReportingLines.WalkRejectsExactlySubordinates | backend/app/admin/service.py:177-202 | on an acyclic graph the walk succeeds exactly for managers that are not below the employee |
| ReportingLines.StepKeepsAcyclicExactlyWhen | backend/app/admin/service.py:85-250 | an operation keeps the graph acyclic if and only if it is not an accepted update below somebody whom the employee is above |
| ReportingLines.RunIsAcyclicExactlyWhen | backend/app/admin/service.py:85-250 | the graph is acyclic all along a run if and only if the run has no such update |
| ReportingLines.RunsStayAcyclic | backend/app/admin/service.py:177-202 | after creations inside companies the walk lets no such update through, so the graph stays acyclic and inside companies |
| ReportingLines.NobodyAboveHimself | backend/app/admin/service.py:177-202 | in an acyclic graph no chain of managers returns to its start |
| ReportingLines.AcyclicExactlyWhen | backend/app/admin/service.py:177-202 | a table is acyclic if and only if nobody is above himself |
| ReportingLines.CreateKeepsLocalExactlyWhen | backend/app/admin/service.py:85-136 | a creation keeps lines inside one company if and only if its manager belongs to it |
| ReportingLines.ForeignManagersCanCloseACircle | backend/app/admin/service.py:85-136 | four accepted calls that close a circle across two companies |
| AdminServices.AdminService.WalkUp | backend/app/admin/service.py:177-202 | the visited-set walk ends on any table, circular or not, and passes exactly if it leaves without meeting the employee |
| AdminServices.AdminService.CreateEmployee | backend/app/admin/service.py:85-136 | the new row, or an error and unchanged tables |
| AdminServices.AdminService.UpdateEmployee | backend/app/admin/service.py:138-209 | which error exactly when, among them terminating and circular managers; otherwise the updated row |
| AdminServices.AdminService.SoftDeleteEmployee | backend/app/admin/service.py:211-250 | refused while assets, a department or actions depend on the employee; otherwise TERMINATED with a closed account |
| AdminServices.AdminService.ValidateAssignment | backend/app/admin/service.py:345-364 | the rewritten status field or the error, for every combination of assignee and status |
| AdminServices.AdminService.CreateAsset | backend/app/admin/service.py:314-317 | the new row with version 1, or an error |
| AdminServices.AdminService.UpdateAsset | backend/app/admin/service.py:319-335 | retired and outdated rows are refused, otherwise the fields are written and the version grows by one |
| AdminServices.AdminService.SoftDeleteAsset | backend/app/admin/service.py:337-343 | retirement is refused while the asset has an assignee |
| AdminOutcomes.CreationIs | backend/app/admin/service.py:85-136 | which creations are accepted, and the row they leave |
| AdminOutcomes.UpdateIs | backend/app/admin/service.py:138-209 | on acyclic local tables: which updates are accepted, and what they write; the manager is an active colleague not below the employee |
| AdminOutcomes.DeactivationIs | backend/app/admin/service.py:211-250 | which deactivations are accepted; the employee is then TERMINATED with a closed account, and nothing else changes |
| AdminOutcomes.AssetCreationIs | backend/app/admin/service.py:314-317 | which assets are accepted, and the row they leave |
| AdminOutcomes.AssetUpdateIs | backend/app/admin/service.py:319-335 | the row that an accepted update leaves, field by field |
| AdminOutcomes.AssetUpdateIsRefusedExactlyWhen | backend/app/admin/service.py:319-335 | which error for which request |
| AdminOutcomes.RetirementIs | backend/app/admin/service.py:337-343 | an asset is retired exactly if nobody holds it |
| AssetRegister.ValidatedFields | backend/app/admin/service.py:345-364 | what validation lets through: ASSIGNED exactly with an assignee, who is ACTIVE and of the company |
| AssetRegister.StepKeepsOrder | backend/app/admin/service.py:211-364 | an ASSIGNED asset keeps an assignee who exists and is not TERMINATED, a RETIRED one has none, across both services |
| AssetRegister.RunsStayInOrder | backend/app/admin/service.py:85-364 | in every state of every run of both services |
| AssetRegister.RetiredIsFinal | backend/app/admin/service.py:319-343 | a RETIRED asset is never changed again |
| AssetRegister.NoLostUpdate | backend/app/admin/repository.py:251-270 | of two updates made from the same version the second is refused or changes nothing |
| StaffingRules.OverlapMeansSharedDay | backend/app/admin/service.py:604-630 | the query's overlap condition holds if and only if some day lies in both ranges, open-ended ones included |
| StaffingRules.TakenMeansSharedDay | backend/app/admin/service.py:604-630 | the check refuses exactly the periods that share a day with another active rule of the department |
| StaffingRules.CreationIs | backend/app/admin/service.py:562-564 | which rules are accepted, which are refused as overlapping, and what is stored |
| StaffingRules.ChangeIs | backend/app/admin/service.py:566-584 | an accepted change writes the fields of the request and nothing else |
| StaffingRules.ChangeAcceptedExactlyWhen | backend/app/admin/service.py:566-584 | which changes are accepted, and which are refused as overlapping |
| StaffingRules.WriteKeepsValid | backend/app/admin/service.py:562-584 | a row that passed the check can be written without giving a day two active rules |
| StaffingRules.StepKeepsValid | backend/alembic/versions/20260719_0012_hr_foundation.py:113 | every operation keeps ranges in order and active rules of a department disjoint |
| StaffingRules.RunsKeepOneRuleADay | backend/app/admin/service.py:562-630 | so does every run |
| StaffingRules.AdminStaffingRuleService.ValidateOverlap | backend/app/admin/service.py:604-630 | passes exactly if no other active rule of the department overlaps |
| StaffingRules.AdminStaffingRuleService.Create | backend/app/admin/service.py:562-564 | new state and error for every request |
| StaffingRules.AdminStaffingRuleService.Update | backend/app/admin/service.py:566-584 | new state and error, absent and null fields told apart |
| StaffingRules.AdminStaffingRuleService.HardDelete | backend/app/admin/service.py:586-590 | the row is gone, or was not there |
| TokenRotation.StepKeepsInv | backend/app/auth/service.py:143-204 | any single statement of any transaction keeps the lineage invariant |
| TokenRotation.RunKeepsInv | backend/app/auth/repository.py:54-76 | every interleaving does: revoked exactly if replaced, one predecessor each, same company and user along links |
| TokenRotation.LiveTokensAreConserved | backend/app/auth/service.py:105-204 | the number of unrevoked tokens equals the number of committed logins |
| TokenRotation.ReplacedOnce | backend/app/auth/repository.py:54-76 | a revoked row never changes again, and no row changes hands |
| TokenRotation.ChainEndsAlive | backend/app/auth/service.py:143-204 | from every token the links lead to one unrevoked token of the same owner, and to no other |
| TokenRotation.ChainsAreDisjoint | backend/app/auth/service.py:143-204 | chains of different logins never meet |
| TokenRotation.EveryTokenHasALogin | backend/app/auth/service.py:271-281 | every token is reached by links from the token of some login |
| TokenRotation.LockedUpdateSucceeds | backend/app/auth/repository.py:19-34 | if every read locks its row, the conditional update never finds the token revoked |
| TokenRotation.AuthenticationService.Login | backend/app/auth/service.py:105-141 | a fresh unrevoked token of the owner, or no change |
| TokenRotation.AuthenticationService.Refresh | backend/app/auth/service.py:143-204 | succeeds exactly for an unrevoked, unexpired token of the owner, whose row then names its replacement; nothing else changes |
| TokenRotation.AuthenticationService.Revoke | backend/app/auth/repository.py:54-76 | the conditional update reports truthfully whether it revoked |
| EventStream.PrefixIsWindow | backend/app/workflow/repository.py:69-95 | a limited query is exactly the visible events up to its last sequence number |
| EventStream.WindowHolds | backend/app/workflow/repository.py:79-89 | an event is in a window if and only if it is in the log, its number lies in it, and its visibility is allowed |
| EventStream.ListIsFirst | backend/app/workflow/repository.py:69-95 | a limited query returns visible events in order, and leaves one out only if the limit is used up before it |
| EventStream.PollKeepsExact | backend/app/realtime/service.py:250-276 | one round keeps the output exact and takes the first 50 waiting events |
| EventStream.LivePhaseIsExact | backend/app/realtime/service.py:247-280 | over every run of appends and polls the output is strictly increasing and holds exactly the visible events of the log behind the client's cursor up to the last cursor |
| EventStream.PollsCatchUp | backend/app/realtime/service.py:250-276 | after k rounds everything is sent if and only if at most 50 k events were waiting |
| EventStream.ReplayIsSentAgain | backend/app/realtime/service.py:228-247 | what the replay sent is what the live phase sends first |
| EventStream.WorkflowEventStream.constructor | backend/app/realtime/service.py:228-248 | the replay sends the first 250 visible events behind the cursor, said of the log, and leaves the live cursor at the client's |
| EventStream.WorkflowEventStream.PollNow | backend/app/realtime/service.py:250-276 | the loop body, filter and sort included, is a poll of the specification |
| NotificationStream.BatchIsNewest | backend/app/realtime/service.py:345-381 | a round sends the newest 50 rows behind the cursor, oldest first |
| NotificationStream.PollIsCompleteExactlyWhen | backend/app/notifications/repository.py:104-112 | a round sends everything behind the cursor if and only if that is at most 50 rows; the others are never sent |
| NotificationStream.LiveOutputIncreases | backend/app/realtime/service.py:345-381 | over every run the output is strictly increasing in (created_at, id) |
| NotificationStream.DeliveredExactlyWhen | backend/app/realtime/service.py:345-381 | over any run, a row is sent if and only if some poll finds it later than the cursor and among the newest 50, and never twice |
| NotificationStream.ReplayedExactlyWhen | backend/app/realtime/service.py:316-341 | the replay sends a row if and only if it is later than the cursor and among the newest 250 |
| NotificationStream.DeliveredExactlyOnce | backend/app/realtime/service.py:311-381 | if the stream keeps up and arrivals sort behind the cursor, each row is sent once |
| NotificationStream.ShortReplayThenLive | backend/app/realtime/service.py:316-381 | after a replay of fewer than 250 rows replay and live output together increase strictly |
| NotificationStream.FullReplayRepeatsItsLast | backend/app/realtime/service.py:335-341 | a replay of 250 rows leaves the cursor one row behind, so that the next poll repeats the last |
| NotificationStream.NotificationStream.Replay | backend/app/realtime/service.py:316-341 | the replay sends the newest 250 rows behind the cursor, and where it leaves the cursor |
| NotificationStream.NotificationStream.PollNow | backend/app/realtime/service.py:345-381 | the loop body is a poll of the specification |
| CapabilityGaps.StepKeepsOneUnresolved | backend/app/failures/models.py:120-126 | every operation keeps unresolved gaps pairwise different in (company, key), and who closed a gap is recorded exactly on closed ones |
| CapabilityGaps.ReopensExactlyWhen | backend/app/failures/service.py:475-501 | a closed gap can be reopened if and only if no gap with its key is unresolved |
| CapabilityGaps.StatusIsWritten | backend/app/failures/repository.py:259-280 | an accepted change is written as requested, with its author where it closes the gap, and nowhere else |
| CapabilityGaps.StepConserves | backend/app/failures/repository.py:173-225 | an operation adds one occurrence to a key exactly if it is a committed report of that key |
| CapabilityGaps.ReportsAreConserved | backend/app/failures/service.py:340-457 | over every run the occurrences of all gaps with a key sum to its committed reports |
| CapabilityGaps.CapabilityGapRepository.CreateOrIncrement | backend/app/failures/repository.py:173-225 | increments the unresolved gap of the key or inserts one, and says which |
| CapabilityGaps.CapabilityGapRepository.UpdateStatus | backend/app/failures/repository.py:259-280 | the status is overwritten exactly if the row is of the company and the index allows it |
| EmployeeImport.CountAfterUpdate | backend/app/onboarding/service.py:617-624 | how repairing one result changes the number of valid rows |
| EmployeeImport.FirstErrorsAre | backend/app/onboarding/service.py:548-586 | for each kind of error, the rows for which the first pass reports it |
| EmployeeImport.AllErrorsAre | backend/app/onboarding/service.py:610-624 | a manager is reported missing if and only if neither the company nor the file knows the address |
| EmployeeImport.InsertedExactlyWhen | backend/app/onboarding/service.py:694-737 | the first pass goes through if and only if addresses and codes are new and differ from each other |
| EmployeeImport.FirstPass | backend/app/onboarding/service.py:543-608 | results in file order, numbered from 1, with all their errors, and counters that agree |
| EmployeeImport.SecondPass | backend/app/onboarding/service.py:610-624 | the manager check is added to rows already counted and the counters are repaired |
| EmployeeImport.ValidateEmployeeRows | backend/app/onboarding/service.py:519-626 | results in file order numbered from 1 with all errors; valid is the number of rows without errors, valid + invalid the number of rows |
| EmployeeImport.AllCounted | backend/app/onboarding/service.py:396-398 | no row is invalid if and only if the valid count is the number of rows |
| EmployeeImport.InsertedIsAdded | backend/app/onboarding/service.py:694-737 | a first pass without constraint errors adds one account per row with a password hash, with pairwise different addresses and codes, and nothing else |
| EmployeeImport.OnboardingImportService.ValidateImport | backend/app/onboarding/service.py:358-408 | a file is refused exactly if its import was completed before; otherwise its job is READY if and only if no row has an error |
| EmployeeImport.OnboardingImportService.InsertRows | backend/app/onboarding/service.py:694-737 | the first pass inserts row by row and fails exactly at a taken address or code |
| EmployeeImport.OnboardingImportService.ResolveManagers | backend/app/onboarding/service.py:739-759 | afterwards each new employee has the manager that the last row of its address with a usable one names; others are untouched |
| EmployeeImport.OnboardingImportService.ExecuteEmployeeImport | backend/app/onboarding/service.py:682-780 | success exactly if all rows with a password hash could be inserted, and then those were processed |
| EmployeeImport.OnboardingImportService.ConfirmImport | backend/app/onboarding/service.py:443-495 | only READY jobs run; COMPLETED means processed = total and every row imported below the manager it names, FAILED or still PROCESSING means no new employee; if nothing else goes wrong, COMPLETED exactly if addresses and codes are new |
| LlmRetry.TotalDelayIs | backend/app/llm/client.py:72-158 | n pauses take (2^n - 1)/4 seconds for n up to 4 and 15/4 + 2(n - 4) beyond |
| LlmRetry.Generate | backend/app/llm/client.py:72-158 | at most llm_max_retries + 1 calls and one correction; the exact pauses; which failures are retried, and which result for which last outcome |

## Left out

- Interleaving inside the knowledge operations: they are serial steps here, although `session.rollback()` drops the
  row lock between their phases; interruption at those points is modelled.
- A commit that takes effect although it raises. (The relation of `Knowledge` allows for it; the methods do not
  produce it.)
- File upload, signatures and parsing. The bytes of a file determine its text; the same bytes under another extension
  are not modelled. Strings are sequences of Unicode scalar values, so lone surrogates do not occur.
- Hashing, token signing and UUID generation: hashes are injective, identifiers fresh.
- Authorization of callers, except for the query scopes of a search.
- The provider's own metadata filter: hits are arbitrary. Effective dates, document types, file names and the
  deterministic namespace of a company are not part of a record here; the model has one company per knowledge store.
- Pauses of the provider's retry loop and of verification; heartbeats, SSE formatting, the connection counter.
- Services outside administration that change employees, managers or assets, and the second pass of the import as a
  change of the reporting graph: both check self-management only.
- Checks of employee code, address, department and password in the administration: parameters of the operations.
- Staffing rules of several companies: departments are taken to belong to one.
- Deletion of token rows by foreign keys, and password changes.
- `normalize_operation` and the metadata of a gap; the deduplication key is a parameter.
- Department imports and other import types, the promotion of managers' accounts, and addresses that are stored in
  another spelling than the normalized one. One `PasswordRejected` stands for all complaints about a password.
- Transactions that a caller controls (`commit=False`): an operation here either commits or leaves nothing.
- StaffingRules.RunsKeepOneRuleADay: for serial runs; the source takes no lock between its overlap check and its
  insert.
- NotificationStream.DeliveredExactlyOnce: under the stated condition on arrivals, which the database does not
  enforce.
