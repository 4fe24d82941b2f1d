/**
 * The knowledge-document life cycle of `backend/app/rag` as a transition relation over two stores: the document rows
 * (`backend/app/rag/repository.py`) and the vector records (`backend/app/rag/pinecone.py`).
 *
 * A step is one operation of `backend/app/rag/ingestion.py` run to its end. The provider may fail in any call, the
 * compensation and the cleanup included, and an operation may be interrupted; hence a relation, not a function.
 */
module Knowledge {
  import opened Common
  import opened VectorIndex
  import Chunking
  import CleanText
  import ChunkId

  type DocId = string

  datatype DocumentStatus = DRAFT | ACTIVE | INACTIVE | SUPERSEDED | DELETED

  datatype IngestionStatus = PENDING | PROCESSING | COMPLETED | FAILED

  datatype Department = SHARED | CUSTOMER_SUPPORT | HR | IT | FINANCE | PROCUREMENT

  datatype AccessScope = ALL_AUTHENTICATED | EMPLOYEES | DEPARTMENT_MANAGERS | COMPANY_ACCOUNT | INTERNAL_SYSTEM

  datatype Metadata = Metadata(title: string, departments: seq<Department>, access: AccessScope)

  datatype Document = Document(
    version: nat,
    supersedes: Option<DocId>,
    checksum: string,
    metadata: Metadata,
    status: DocumentStatus,
    isActive: bool,
    ingestion: IngestionStatus,
    chunkCount: nat)

  datatype Record = Record(
    company: string,
    document: DocId,
    metadata: Metadata,
    version: nat,
    chunkIndex: nat,
    text: string)

  /** What stays fixed over a run: the tenant, the settings, and the text inside the file with a given checksum. */
  datatype Environment = Environment(
    company: string,
    extract: string -> Option<string>,
    chunkSize: int,
    overlap: int,
    model: string)
  {
    /** The chunks of a file; none where extraction or chunking raises. */
    function Chunks(checksum: string): seq<Chunking.TextChunk> {
      match extract(checksum)
      case None => []
      case Some(text) =>
        match Chunking.ChunkText(CleanText.Clean(text), chunkSize, overlap, model)
        case Ok(chunks) => chunks
        case Err(_) => []
    }
  }

  /**
   * Both stores. `damaged` is a record of the past that the code does not keep: the documents that lost vectors while
   * their row was, and remained, ACTIVE. `DeleteStep` and `StrandedStep` are the only ways into it.
   */
  datatype State = State(docs: map<DocId, Document>, store: Store<Record>, damaged: set<DocId>)

  const EMPTY := State(map[], map[], {})

  // ----- rows and records -----

  /** `create_pending` */
  function Pending(version: nat, supersedes: Option<DocId>, checksum: string, metadata: Metadata): Document {
    Document(version, supersedes, checksum, metadata, DRAFT, false, PENDING, 0)
  }

  /** `mark_completed` */
  function Completed(doc: Document, count: nat): Document {
    doc.(status := ACTIVE, isActive := true, ingestion := COMPLETED, chunkCount := count)
  }

  /** `mark_failed`; the chunk count stays. */
  function Failed(doc: Document): Document {
    doc.(status := DRAFT, isActive := false, ingestion := FAILED)
  }

  /** `mark_superseded` of the previous version, if there is one. */
  function Supersede(docs: map<DocId, Document>, previous: Option<DocId>): map<DocId, Document>
    requires previous.Some? ==> previous.value in docs
  {
    match previous
    case None => docs
    case Some(p) => docs[p := docs[p].(status := SUPERSEDED, isActive := false)]
  }

  /** `_record_ids` */
  function RecordIds(id: DocId, version: nat, count: nat): (ids: seq<string>)
    ensures |ids| == count
    ensures forall i | 0 <= i < count :: ids[i] == ChunkId.Key(id, version, i)
  {
    seq(count, i requires 0 <= i < count => ChunkId.Key(id, version, i))
  }

  /** `_records` */
  function Records(env: Environment, id: DocId, doc: Document): (records: seq<Entry<Record>>)
    ensures |records| == |env.Chunks(doc.checksum)|
    ensures forall i | 0 <= i < |records| :: records[i] == (ChunkId.Key(id, doc.version, i), RecordFor(env, id, doc, i))
  {
    seq(|env.Chunks(doc.checksum)|, i requires 0 <= i < |env.Chunks(doc.checksum)| =>
      (ChunkId.Key(id, doc.version, i), RecordFor(env, id, doc, i)))
  }

  function RecordFor(env: Environment, id: DocId, doc: Document, i: nat): Record
    requires i < |env.Chunks(doc.checksum)|
  {
    Record(env.company, id, doc.metadata, doc.version, i, env.Chunks(doc.checksum)[i].text)
  }

  predicate ActiveDuplicate(docs: map<DocId, Document>, checksum: string) {
    exists d | d in docs :: docs[d].checksum == checksum && docs[d].isActive && docs[d].ingestion == COMPLETED
  }

  /** Another row already names `p` in its unique column `supersedes_document_id`. */
  predicate HasSuccessor(docs: map<DocId, Document>, p: DocId) {
    exists d | d in docs :: docs[d].supersedes == Some(p)
  }

  // ----- the operations -----

  datatype Op =
    | Create(id: DocId, checksum: string, metadata: Metadata)
    | Replace(previous: DocId, id: DocId, checksum: string, metadata: Metadata)
    | Retry(id: DocId, checksum: string)
    | Delete(id: DocId)

  /** How `_ingest_saved` may end for the row `id` of state `s`; in the first case nothing was committed or stored. */
  ghost predicate IngestStep(env: Environment, s: State, id: DocId, previous: Option<DocId>, s': State)
    requires id in s.docs && (previous.Some? ==> previous.value in s.docs)
  {
    || s' == s
    || CompletedStep(env, s, id, previous, s')
    || IncompleteStep(env, s, id, previous, s')
    || StrandedStep(env, s, id, previous, s')
  }

  /** The rows once the result is committed. */
  ghost function CommittedRows(env: Environment, docs: map<DocId, Document>, id: DocId, previous: Option<DocId>): map<DocId, Document>
    requires id in docs && (previous.Some? ==> previous.value in docs)
  {
    Supersede(docs[id := Completed(docs[id], |Records(env, id, docs[id])|)], previous)
  }

  /** Completed, whatever became of the cleanup of the previous version, and whatever the caller is told. */
  ghost predicate CompletedStep(env: Environment, s: State, id: DocId, previous: Option<DocId>, s': State)
    requires id in s.docs && (previous.Some? ==> previous.value in s.docs)
  {
    var records := Records(env, id, s.docs[id]);
    && records != []
    && s'.docs == CommittedRows(env, s.docs, id, previous)
    && s'.damaged == s.damaged
    && Touched(WriteAll(s.store, records), s'.store, {}, if previous.None? then {} else Leftovers(s.docs, previous.value))
  }

  /**
   * Interrupted, or failed before or after the commit of the result. The compensation may have failed as well, or
   * marking the row as failed, which leaves it PROCESSING.
   */
  ghost predicate IncompleteStep(env: Environment, s: State, id: DocId, previous: Option<DocId>, s': State)
    requires id in s.docs && (previous.Some? ==> previous.value in s.docs)
  {
    var doc := s.docs[id];
    var records := Records(env, id, doc);
    && (|| s'.docs == s.docs[id := doc.(ingestion := PROCESSING)]
        || s'.docs == s.docs[id := Failed(doc)]
        || s'.docs == CommittedRows(env, s.docs, id, previous)[id := Failed(Completed(doc, |records|))])
    && s'.damaged == s.damaged
    && Touched(s.store, s'.store, Written(records), Ids(RecordIds(id, doc.version, |records|)))
  }

  /**
   * Failed after the commit of the result, and the mark of the failure was not committed: the row stays ACTIVE although
   * the compensation has deleted records of it.
   */
  ghost predicate StrandedStep(env: Environment, s: State, id: DocId, previous: Option<DocId>, s': State)
    requires id in s.docs && (previous.Some? ==> previous.value in s.docs)
  {
    var records := Records(env, id, s.docs[id]);
    && records != []
    && s'.docs == CommittedRows(env, s.docs, id, previous)
    && s'.damaged == s.damaged + {id}
    && Touched(WriteAll(s.store, records), s'.store, {}, Ids(RecordIds(id, s.docs[id].version, |records|)))
    && s'.store != WriteAll(s.store, records)
  }

  /** The keys that a cleanup of row `p` deletes. */
  ghost function Leftovers(docs: map<DocId, Document>, p: DocId): set<string>
    requires p in docs
  {
    Ids(RecordIds(p, docs[p].version, docs[p].chunkCount))
  }

  ghost predicate CreateStep(env: Environment, s: State, id: DocId, checksum: string, metadata: Metadata, s': State) {
    && id !in s.docs && ChunkId.NoColon(id)
    && (|| s' == s
        || (&& !ActiveDuplicate(s.docs, checksum)
            && IngestStep(env, s.(docs := s.docs[id := Pending(1, None, checksum, metadata)]), id, None, s')))
  }

  ghost predicate ReplaceStep(
    env: Environment, s: State, previous: DocId, id: DocId, checksum: string, metadata: Metadata, s': State)
  {
    && id !in s.docs && ChunkId.NoColon(id)
    && (|| s' == s
        || (&& previous in s.docs && s.docs[previous].status == ACTIVE
            && !ActiveDuplicate(s.docs, checksum)
            && !HasSuccessor(s.docs, previous)
            && IngestStep(env,
                 s.(docs := s.docs[id := Pending(s.docs[previous].version + 1, Some(previous), checksum, metadata)]),
                 id, Some(previous), s')))
  }

  ghost predicate RetryStep(env: Environment, s: State, id: DocId, checksum: string, s': State) {
    || s' == s
    || (&& id in s.docs && s.docs[id].ingestion == FAILED && s.docs[id].checksum == checksum
        && exists mid :: Touched(s.store, mid, {}, Leftovers(s.docs, id)) &&
             (s' == s.(store := mid) || IngestStep(env, s.(store := mid), id, None, s')))
  }

  /** A deletion that fails half-way leaves the row, but not necessarily its records. */
  ghost predicate DeleteStep(s: State, id: DocId, s': State) {
    || s' == s
    || (&& id in s.docs && s.docs[id].status != DELETED
        && Touched(s.store, s'.store, {}, Leftovers(s.docs, id))
        && (|| (&& s'.docs == s.docs
                && s'.damaged == if s.docs[id].status == ACTIVE && s'.store != s.store then s.damaged + {id} else s.damaged)
            || (&& s'.docs == s.docs[id := s.docs[id].(status := DELETED, isActive := false)]
                && s'.damaged == s.damaged
                && s'.store == s.store - Leftovers(s.docs, id))))
  }

  ghost predicate Next(env: Environment, s: State, op: Op, s': State) {
    match op
    case Create(id, checksum, metadata) => CreateStep(env, s, id, checksum, metadata, s')
    case Replace(previous, id, checksum, metadata) => ReplaceStep(env, s, previous, id, checksum, metadata, s')
    case Retry(id, checksum) => RetryStep(env, s, id, checksum, s')
    case Delete(id) => DeleteStep(s, id, s')
  }

  /** A serial run from the empty stores. */
  ghost predicate IsRun(env: Environment, ops: seq<Op>, states: seq<State>) {
    && |states| == |ops| + 1
    && states[0] == EMPTY
    && forall i | 0 <= i < |ops| :: Next(env, states[i], ops[i], states[i + 1])
  }

  // ----- the store agrees with the rows -----

  ghost predicate Identified(docs: map<DocId, Document>) {
    forall d | d in docs :: ChunkId.NoColon(d) && 1 <= docs[d].version
  }

  /** `is_active` says the same as the status, and only completed documents are active. */
  ghost predicate Flags(docs: map<DocId, Document>) {
    forall d | d in docs :: (docs[d].isActive <==> docs[d].status == ACTIVE) && (docs[d].status == ACTIVE ==> docs[d].ingestion == COMPLETED)
  }

  /** A row counts all chunks of its file or none, and a completed one counts at least one. */
  ghost predicate Counts(env: Environment, docs: map<DocId, Document>) {
    forall d | d in docs ::
      && docs[d].chunkCount in {0, |env.Chunks(docs[d].checksum)|}
      && (docs[d].ingestion == COMPLETED ==> 0 < docs[d].chunkCount)
  }

  ghost predicate RowsOk(env: Environment, docs: map<DocId, Document>) {
    Identified(docs) && Flags(docs) && Counts(env, docs)
  }

  /** A record under key `k` holds one chunk of the file of its document, and carries the metadata of its row. */
  ghost predicate SoundRecord(env: Environment, docs: map<DocId, Document>, k: string, r: Record) {
    && r.document in docs
    && r.chunkIndex < |env.Chunks(docs[r.document].checksum)|
    && r == RecordFor(env, r.document, docs[r.document], r.chunkIndex)
    && k == ChunkId.Key(r.document, docs[r.document].version, r.chunkIndex)
  }

  ghost predicate StoreSound(env: Environment, docs: map<DocId, Document>, store: Store<Record>) {
    forall k | k in store :: SoundRecord(env, docs, k, store[k])
  }

  ghost predicate HasAll(env: Environment, id: DocId, doc: Document, store: Store<Record>) {
    forall i | 0 <= i < |env.Chunks(doc.checksum)| :: ChunkId.Key(id, doc.version, i) in store
  }

  /** An ACTIVE document has all its records exactly if it was not damaged, and only completed rows ever were. */
  ghost predicate DamageRecorded(env: Environment, s: State) {
    && (forall d | d in s.damaged :: d in s.docs && s.docs[d].ingestion == COMPLETED)
    && (forall d | d in s.docs && s.docs[d].status == ACTIVE :: HasAll(env, d, s.docs[d], s.store) <==> d !in s.damaged)
  }

  ghost predicate Inv(env: Environment, s: State) {
    RowsOk(env, s.docs) && StoreSound(env, s.docs, s.store) && DamageRecorded(env, s)
  }

  /** Every ACTIVE document can be found by all of its chunks. */
  ghost predicate ActiveComplete(env: Environment, s: State) {
    forall d | d in s.docs && s.docs[d].status == ACTIVE :: HasAll(env, d, s.docs[d], s.store)
  }

  /** Rows are only added, and what names and fills the records of a row never changes. */
  ghost predicate Extends(docs: map<DocId, Document>, docs': map<DocId, Document>) {
    forall d | d in docs :: d in docs' && SameIdentity(docs[d], docs'[d])
  }

  predicate SameIdentity(a: Document, b: Document) {
    a.version == b.version && a.checksum == b.checksum && a.metadata == b.metadata && a.supersedes == b.supersedes
  }

  lemma SameRecords(env: Environment, id: DocId, a: Document, b: Document)
    requires SameIdentity(a, b)
    ensures Records(env, id, a) == Records(env, id, b)
  {
  }

  lemma SoundAfterTouch(env: Environment, docs: map<DocId, Document>, docs': map<DocId, Document>,
                        before: Store<Record>, after: Store<Record>, id: DocId, removed: set<string>)
    requires StoreSound(env, docs, before) && Extends(docs, docs') && id in docs'
    requires Touched(before, after, Written(Records(env, id, docs'[id])), removed)
    ensures StoreSound(env, docs', after)
  {
    var records := Records(env, id, docs'[id]);
    forall k | k in after ensures SoundRecord(env, docs', k, after[k]) {
      if k in before && before[k] == after[k] {
        assert SoundRecord(env, docs, k, before[k]);
      } else {
        assert (k, after[k]) in Written(records);
        var i :| 0 <= i < |records| && records[i] == (k, after[k]);
      }
    }
  }

  /** Writing and removing records of one document changes nothing for any other. */
  lemma OthersKeepAll(env: Environment, before: Store<Record>, after: Store<Record>, id: DocId, row: Document, count: nat,
                      other: DocId, doc: Document)
    requires Touched(before, after, Written(Records(env, id, row)), Ids(RecordIds(id, row.version, count)))
    requires ChunkId.NoColon(id) && ChunkId.NoColon(other) && other != id
    ensures HasAll(env, other, doc, before) <==> HasAll(env, other, doc, after)
  {
    hide ChunkId.Key, ChunkId.NoColon, RecordFor, Environment.Chunks;
    forall i: nat | i < |env.Chunks(doc.checksum)|
      ensures ChunkId.Key(other, doc.version, i) in before <==> ChunkId.Key(other, doc.version, i) in after
    {
      var k := ChunkId.Key(other, doc.version, i);
      KeyOfOther(env, id, row, count, other, doc.version, i);
    }
  }

  lemma KeyOfOther(env: Environment, id: DocId, row: Document, count: nat, other: DocId, version: nat, i: nat)
    requires ChunkId.NoColon(id) && ChunkId.NoColon(other) && other != id
    ensures ChunkId.Key(other, version, i) !in RecordIds(id, row.version, count)
    ensures forall e | e in Records(env, id, row) :: e.0 != ChunkId.Key(other, version, i)
  {
    hide ChunkId.Key, RecordFor, Environment.Chunks;
    ChunkId.KeyRoundTrip(other, version, i);
    var ids, records := RecordIds(id, row.version, count), Records(env, id, row);
    forall j | 0 <= j < count ensures ids[j] != ChunkId.Key(other, version, i) {
      ChunkId.KeyRoundTrip(id, row.version, j);
    }
    forall j | 0 <= j < |records| ensures records[j].0 != ChunkId.Key(other, version, i) {
      ChunkId.KeyRoundTrip(id, row.version, j);
    }
  }

  /** Where records of a complete document are missing, it is complete no longer. */
  lemma RemovalLosesOwn(env: Environment, before: Store<Record>, after: Store<Record>, id: DocId, doc: Document, count: nat)
    requires Touched(before, after, {}, Ids(RecordIds(id, doc.version, count)))
    requires count == |env.Chunks(doc.checksum)| && HasAll(env, id, doc, before)
    ensures HasAll(env, id, doc, after) <==> after == before
  {
    hide ChunkId.Key, Environment.Chunks;
    if HasAll(env, id, doc, after) {
      forall k | k in before ensures k in after {
        if k in RecordIds(id, doc.version, count) {
          var i :| 0 <= i < count && k == ChunkId.Key(id, doc.version, i);
        }
      }
    }
  }

  lemma WriteAllHasAll(env: Environment, id: DocId, doc: Document, store: Store<Record>)
    ensures HasAll(env, id, doc, WriteAll(store, Records(env, id, doc)))
  {
    var records := Records(env, id, doc);
    forall i | 0 <= i < |env.Chunks(doc.checksum)| ensures ChunkId.Key(id, doc.version, i) in WriteAll(store, records) {
      assert records[i].0 == ChunkId.Key(id, doc.version, i);
      WriteAllAt(store, store, records, ChunkId.Key(id, doc.version, i));
    }
  }

  lemma RemovalWidens(env: Environment, before: Store<Record>, after: Store<Record>, id: DocId, row: Document, removed: set<string>)
    requires Touched(before, after, {}, removed)
    ensures Touched(before, after, Written(Records(env, id, row)), removed)
  {
    hide Records, Touched;
    TouchedWiden(before, after, {}, removed, Written(Records(env, id, row)), removed);
  }

  /** The cleanup of a previous version changes nothing for any other document. */
  lemma CleanupKeepsAll(env: Environment, docs: map<DocId, Document>, previous: Option<DocId>,
                        before: Store<Record>, after: Store<Record>, other: DocId, doc: Document)
    requires previous.Some? ==> previous.value in docs && ChunkId.NoColon(previous.value) && previous.value != other
    requires ChunkId.NoColon(other)
    requires Touched(before, after, {}, if previous.None? then {} else Leftovers(docs, previous.value))
    ensures HasAll(env, other, doc, before) <==> HasAll(env, other, doc, after)
  {
    hide Records, ChunkId.Key, ChunkId.NoColon, Environment.Chunks;
    if previous.Some? {
      var p := previous.value;
      RemovalWidens(env, before, after, p, docs[p], Leftovers(docs, p));
      OthersKeepAll(env, before, after, p, docs[p], docs[p].chunkCount, other, doc);
    }
  }

  ghost predicate Ingestible(s: State, id: DocId, previous: Option<DocId>) {
    && id in s.docs && s.docs[id].status != ACTIVE && s.docs[id].ingestion != COMPLETED
    && (previous.Some? ==> previous.value in s.docs && previous.value != id)
  }

  /** Writing the records of one document changes nothing for any other. */
  lemma WritingKeepsAll(env: Environment, store: Store<Record>, id: DocId, row: Document, other: DocId, doc: Document)
    requires ChunkId.NoColon(id) && ChunkId.NoColon(other) && other != id
    ensures HasAll(env, other, doc, store) <==> HasAll(env, other, doc, WriteAll(store, Records(env, id, row)))
  {
    hide WriteAll, ChunkId.Key, ChunkId.NoColon, Records, Touched, HasAll;
    var full, w := WriteAll(store, Records(env, id, row)), Written(Records(env, id, row));
    WriteAllTouches(store, Records(env, id, row));
    TouchedWiden(store, full, w, {}, w, Ids(RecordIds(id, row.version, 0)));
    OthersKeepAll(env, store, full, id, row, 0, other, doc);
  }

  lemma CommittedRowsAre(env: Environment, docs: map<DocId, Document>, id: DocId, previous: Option<DocId>)
    requires id in docs && (previous.Some? ==> previous.value in docs && previous.value != id)
    ensures var docs' := CommittedRows(env, docs, id, previous);
      && Extends(docs, docs') && docs'.Keys == docs.Keys
      && docs'[id] == Completed(docs[id], |env.Chunks(docs[id].checksum)|)
      && (forall d | d in docs && d != id && previous != Some(d) :: docs'[d] == docs[d])
      && (previous.Some? ==> docs'[previous.value] == docs[previous.value].(status := SUPERSEDED, isActive := false))
  {
    hide RecordFor, ChunkId.Key, Environment.Chunks;
  }

  /** What both kinds of commit do to the rows. */
  lemma CommittedRowsOk(env: Environment, docs: map<DocId, Document>, id: DocId, previous: Option<DocId>)
    requires RowsOk(env, docs) && id in docs && Records(env, id, docs[id]) != []
    requires previous.Some? ==> previous.value in docs && previous.value != id
    ensures RowsOk(env, CommittedRows(env, docs, id, previous))
  {
    hide CommittedRows, ChunkId.NoColon, Environment.Chunks, RecordFor;
    CommittedRowsAre(env, docs, id, previous);
  }

  /** Sound records stay sound when the result is committed and records of any kind are removed. */
  lemma CommitKeepsSound(env: Environment, s: State, id: DocId, previous: Option<DocId>, after: Store<Record>, removed: set<string>)
    requires StoreSound(env, s.docs, s.store) && Ingestible(s, id, previous)
    requires Touched(WriteAll(s.store, Records(env, id, s.docs[id])), after, {}, removed)
    ensures StoreSound(env, CommittedRows(env, s.docs, id, previous), after)
  {
    hide SoundRecord, StoreSound, WriteAll, RecordFor, Touched, CommittedRows, Environment.Chunks, Records;
    var docs' := CommittedRows(env, s.docs, id, previous);
    var records := Records(env, id, s.docs[id]);
    var full := WriteAll(s.store, records);
    CommittedRowsAre(env, s.docs, id, previous);
    SameRecords(env, id, s.docs[id], docs'[id]);
    WriteAllTouches(s.store, records);
    SoundAfterTouch(env, s.docs, docs', s.store, full, id, {});
    RemovalWidens(env, full, after, id, docs'[id], removed);
    SoundAfterTouch(env, docs', docs', full, after, id, removed);
  }

  lemma CompletionKeepsDamage(env: Environment, s: State, id: DocId, previous: Option<DocId>, s': State)
    requires Identified(s.docs) && DamageRecorded(env, s) && Ingestible(s, id, previous)
    requires CompletedStep(env, s, id, previous, s')
    ensures DamageRecorded(env, s')
  {
    hide WriteAll, Records, Touched, CommittedRows, Environment.Chunks, HasAll, Leftovers, ChunkId.NoColon;
    var full := WriteAll(s.store, Records(env, id, s.docs[id]));
    CommittedRowsAre(env, s.docs, id, previous);
    WriteAllHasAll(env, id, s.docs[id], s.store);
    CleanupKeepsAll(env, s.docs, previous, full, s'.store, id, s.docs[id]);
    SameHasAll(env, id, s.docs[id], s'.docs[id], s'.store);
    forall d | d in s'.docs && s'.docs[d].status == ACTIVE && d != id
      ensures HasAll(env, d, s'.docs[d], s'.store) <==> d !in s'.damaged
    {
      WritingKeepsAll(env, s.store, id, s.docs[id], d, s.docs[d]);
      CleanupKeepsAll(env, s.docs, previous, full, s'.store, d, s.docs[d]);
    }
  }

  lemma StrandingKeepsDamage(env: Environment, s: State, id: DocId, previous: Option<DocId>, s': State)
    requires Identified(s.docs) && DamageRecorded(env, s) && Ingestible(s, id, previous)
    requires StrandedStep(env, s, id, previous, s')
    ensures DamageRecorded(env, s')
  {
    hide WriteAll, RecordFor, Touched, CommittedRows, Environment.Chunks, HasAll, RecordIds, ChunkId.NoColon;
    var doc := s.docs[id];
    var full, count := WriteAll(s.store, Records(env, id, doc)), |Records(env, id, doc)|;
    CommittedRowsAre(env, s.docs, id, previous);
    WriteAllHasAll(env, id, doc, s.store);
    RemovalLosesOwn(env, full, s'.store, id, doc, count);
    SameHasAll(env, id, doc, s'.docs[id], s'.store);
    RemovalWidens(env, full, s'.store, id, doc, Ids(RecordIds(id, doc.version, count)));
    forall d | d in s'.docs && s'.docs[d].status == ACTIVE && d != id
      ensures HasAll(env, d, s'.docs[d], s'.store) <==> d !in s'.damaged
    {
      WritingKeepsAll(env, s.store, id, doc, d, s.docs[d]);
      OthersKeepAll(env, full, s'.store, id, doc, count, d, s.docs[d]);
    }
  }

  lemma SameHasAll(env: Environment, id: DocId, a: Document, b: Document, store: Store<Record>)
    requires SameIdentity(a, b)
    ensures HasAll(env, id, a, store) == HasAll(env, id, b, store)
  {
  }

  lemma CommitKeepsInv(env: Environment, s: State, id: DocId, previous: Option<DocId>, s': State)
    requires Inv(env, s) && Ingestible(s, id, previous)
    requires CompletedStep(env, s, id, previous, s') || StrandedStep(env, s, id, previous, s')
    ensures Inv(env, s')
  {
    hide RowsOk, StoreSound, DamageRecorded, CommittedRows, WriteAll, Touched, Records, RecordIds;
    CommittedRowsOk(env, s.docs, id, previous);
    RowsAreIdentified(env, s.docs);
    if CompletedStep(env, s, id, previous, s') {
      CommitKeepsSound(env, s, id, previous, s'.store, if previous.None? then {} else Leftovers(s.docs, previous.value));
      CompletionKeepsDamage(env, s, id, previous, s');
    } else {
      var ids := Ids(RecordIds(id, s.docs[id].version, |Records(env, id, s.docs[id])|));
      CommitKeepsSound(env, s, id, previous, s'.store, ids);
      StrandingKeepsDamage(env, s, id, previous, s');
    }
  }

  lemma RowsAreIdentified(env: Environment, docs: map<DocId, Document>)
    requires RowsOk(env, docs)
    ensures Identified(docs) && Flags(docs)
  {
  }

  lemma InactiveRow(env: Environment, docs: map<DocId, Document>, id: DocId, row: Document)
    requires RowsOk(env, docs) && id in docs && SameIdentity(docs[id], row)
    requires row.status != ACTIVE && !row.isActive
    requires row.chunkCount == docs[id].chunkCount && (row.ingestion != COMPLETED || row.ingestion == docs[id].ingestion)
    ensures RowsOk(env, docs[id := row]) && Extends(docs, docs[id := row])
  {
    hide ChunkId.NoColon, Environment.Chunks;
  }

  /** The rows of an operation that did not complete: the row itself is not ACTIVE, and no other row became ACTIVE. */
  lemma IncompleteRows(env: Environment, s: State, id: DocId, previous: Option<DocId>, s': State)
    requires RowsOk(env, s.docs) && Ingestible(s, id, previous)
    requires IncompleteStep(env, s, id, previous, s')
    ensures RowsOk(env, s'.docs) && Extends(s.docs, s'.docs) && s'.docs.Keys == s.docs.Keys
    ensures s'.docs[id].status != ACTIVE
    ensures forall d | d in s'.docs && d != id :: s'.docs[d].ingestion == s.docs[d].ingestion
    ensures forall d | d in s'.docs && d != id && s'.docs[d].status == ACTIVE :: s'.docs[d] == s.docs[d]
  {
    hide Touched, Environment.Chunks, Records, RecordIds, CommittedRows, RowsOk, Extends, Flags, Identified;
    var doc := s.docs[id];
    var committed := CommittedRows(env, s.docs, id, previous);
    RowsAreIdentified(env, s.docs);
    FlagsOf(s.docs, id);
    CommittedRowsAre(env, s.docs, id, previous);
    if s'.docs == s.docs[id := doc.(ingestion := PROCESSING)] || s'.docs == s.docs[id := Failed(doc)] {
      InactiveRow(env, s.docs, id, s'.docs[id]);
    } else {
      FailedAfterCommit(env, s.docs, id, previous);
    }
  }

  /** A result that was committed and taken back. */
  lemma FailedAfterCommit(env: Environment, docs: map<DocId, Document>, id: DocId, previous: Option<DocId>)
    requires RowsOk(env, docs) && id in docs
    requires previous.Some? ==> previous.value in docs && previous.value != id
    ensures var docs' := CommittedRows(env, docs, id, previous)[id := Failed(Completed(docs[id], |Records(env, id, docs[id])|))];
      RowsOk(env, docs') && Extends(docs, docs')
  {
    hide CommittedRows, Environment.Chunks, Records, RowsOk, Extends;
    var count := |Records(env, id, docs[id])|;
    var failed := Failed(Completed(docs[id], count));
    CommittedRowsAre(env, docs, id, previous);
    CountedRowOk(env, docs, id, failed);
    if previous.Some? {
      var p := previous.value;
      var rest := docs[p].(status := SUPERSEDED, isActive := false);
      InactiveRow(env, docs[id := failed], p, rest);
      ExtendsTransitive(docs, docs[id := failed], docs[id := failed][p := rest]);
      assert CommittedRows(env, docs, id, previous)[id := failed] == docs[id := failed][p := rest];
    } else {
      assert CommittedRows(env, docs, id, previous)[id := failed] == docs[id := failed];
    }
  }

  lemma CountedRowOk(env: Environment, docs: map<DocId, Document>, id: DocId, row: Document)
    requires RowsOk(env, docs) && id in docs && SameIdentity(docs[id], row)
    requires row.status != ACTIVE && !row.isActive && row.ingestion != COMPLETED
    requires row.chunkCount == |env.Chunks(row.checksum)|
    ensures RowsOk(env, docs[id := row]) && Extends(docs, docs[id := row])
  {
    hide ChunkId.NoColon, Environment.Chunks;
  }

  lemma FlagsOf(docs: map<DocId, Document>, id: DocId)
    requires Flags(docs) && id in docs
    ensures docs[id].isActive <==> docs[id].status == ACTIVE
  {
  }

  lemma ExtendsTransitive(a: map<DocId, Document>, b: map<DocId, Document>, c: map<DocId, Document>)
    requires Extends(a, b) && Extends(b, c)
    ensures Extends(a, c)
  {
  }

  lemma IncompleteKeepsInv(env: Environment, s: State, id: DocId, previous: Option<DocId>, s': State)
    requires Inv(env, s) && Ingestible(s, id, previous)
    requires IncompleteStep(env, s, id, previous, s')
    ensures Inv(env, s')
  {
    hide RowsOk, StoreSound, Environment.Chunks, Records, RecordIds, CommittedRows, Touched, HasAll, ChunkId.NoColon;
    var doc := s.docs[id];
    var ids := Ids(RecordIds(id, doc.version, |Records(env, id, doc)|));
    RowsAreIdentified(env, s.docs);
    IncompleteRows(env, s, id, previous, s');
    SameRecords(env, id, doc, s'.docs[id]);
    SoundAfterTouch(env, s.docs, s'.docs, s.store, s'.store, id, ids);
    forall d | d in s'.docs && s'.docs[d].status == ACTIVE
      ensures HasAll(env, d, s'.docs[d], s'.store) <==> d !in s'.damaged
    {
      OthersKeepAll(env, s.store, s'.store, id, doc, |Records(env, id, doc)|, d, s.docs[d]);
    }
  }

  lemma IngestKeepsInv(env: Environment, s: State, id: DocId, previous: Option<DocId>, s': State)
    requires Inv(env, s) && Ingestible(s, id, previous)
    requires IngestStep(env, s, id, previous, s')
    ensures Inv(env, s')
  {
    hide Inv, CompletedStep, IncompleteStep, StrandedStep;
    if CompletedStep(env, s, id, previous, s') || StrandedStep(env, s, id, previous, s') {
      CommitKeepsInv(env, s, id, previous, s');
    } else if IncompleteStep(env, s, id, previous, s') {
      IncompleteKeepsInv(env, s, id, previous, s');
    }
  }

  /** An ingestion keeps every ACTIVE document complete exactly unless it strands its own. */
  lemma IngestKeepsCompleteExactlyWhen(env: Environment, s: State, id: DocId, previous: Option<DocId>, s': State)
    requires Inv(env, s) && ActiveComplete(env, s) && Ingestible(s, id, previous)
    requires IngestStep(env, s, id, previous, s')
    ensures ActiveComplete(env, s') <==> !StrandedStep(env, s, id, previous, s')
  {
    hide RowsOk, StoreSound, HasAll, CompletedStep, IncompleteStep, StrandedStep;
    IngestKeepsInv(env, s, id, previous, s');
    IngestDamages(env, s, id, previous, s');
    OthersBecomeNotActive(env, s, id, previous, s');
    if StrandedStep(env, s, id, previous, s') {
      StrandedIsActive(env, s, id, previous, s');
    }
  }

  /** Which of its ends damage which document. */
  lemma IngestDamages(env: Environment, s: State, id: DocId, previous: Option<DocId>, s': State)
    requires DamageRecorded(env, s) && Ingestible(s, id, previous)
    requires IngestStep(env, s, id, previous, s')
    ensures id !in s.damaged
    ensures if StrandedStep(env, s, id, previous, s') then s'.damaged == s.damaged + {id} else s'.damaged == s.damaged
  {
    hide Touched, Records, RecordIds, CommittedRows, HasAll, WriteAll, Leftovers;
  }

  lemma StrandedIsActive(env: Environment, s: State, id: DocId, previous: Option<DocId>, s': State)
    requires Ingestible(s, id, previous) && StrandedStep(env, s, id, previous, s')
    ensures id in s'.docs && s'.docs[id].status == ACTIVE
  {
    hide Touched, Records, RecordIds, CommittedRows, WriteAll;
    CommittedRowsAre(env, s.docs, id, previous);
  }

  /** No ingestion makes another row ACTIVE. */
  lemma OthersBecomeNotActive(env: Environment, s: State, id: DocId, previous: Option<DocId>, s': State)
    requires Ingestible(s, id, previous) && IngestStep(env, s, id, previous, s')
    ensures forall d | d in s'.docs && s'.docs[d].status == ACTIVE && d != id :: d in s.docs && s'.docs[d] == s.docs[d]
  {
    hide IngestStep, Records, Supersede;
    IngestRows(env, s, id, previous, s');
    SupersedeIs(s.docs[id := Completed(s.docs[id], |Records(env, id, s.docs[id])|)], previous);
  }

  lemma SupersedeIs(docs: map<DocId, Document>, previous: Option<DocId>)
    requires previous.Some? ==> previous.value in docs
    ensures var docs' := Supersede(docs, previous);
      && docs'.Keys == docs.Keys
      && (forall d | d in docs && Some(d) != previous :: docs'[d] == docs[d])
      && (previous.Some? ==> docs'[previous.value].status == SUPERSEDED)
  {
  }

  /** Adding a pending row changes nothing that is claimed about the others. */
  lemma PendingKeepsInv(env: Environment, s: State, id: DocId, version: nat, supersedes: Option<DocId>,
                        checksum: string, metadata: Metadata)
    requires Inv(env, s) && id !in s.docs && ChunkId.NoColon(id) && 1 <= version
    ensures Inv(env, s.(docs := s.docs[id := Pending(version, supersedes, checksum, metadata)]))
  {
    hide ChunkId.Key, Environment.Chunks, HasAll, RecordFor;
    var docs' := s.docs[id := Pending(version, supersedes, checksum, metadata)];
    forall k | k in s.store ensures SoundRecord(env, docs', k, s.store[k]) {
      assert SoundRecord(env, s.docs, k, s.store[k]);
    }
  }

  /** Deleting records of one row, completely or in part, as `retry` and `delete` do first. */
  lemma RemovalKeepsInv(env: Environment, s: State, id: DocId, s': State)
    requires Inv(env, s) && id in s.docs && Touched(s.store, s'.store, {}, Leftovers(s.docs, id))
    requires
      || (s'.docs == s.docs && s'.damaged ==
           if s.docs[id].status == ACTIVE && s'.store != s.store then s.damaged + {id} else s.damaged)
      || (s'.docs == s.docs[id := s.docs[id].(status := DELETED, isActive := false)] && s'.damaged == s.damaged)
    ensures Inv(env, s')
  {
    hide RowsOk, StoreSound, ChunkId.NoColon, Environment.Chunks, Records, HasAll, Touched, RecordIds;
    var removed := Leftovers(s.docs, id);
    RowsAreIdentified(env, s.docs);
    AlwaysExtends(s.docs);
    DeletedRowOk(env, s.docs, id);
    RemovalWidens(env, s.store, s'.store, id, s'.docs[id], removed);
    SoundAfterTouch(env, s.docs, s'.docs, s.store, s'.store, id, removed);
    if s.docs[id].status == ACTIVE && id !in s.damaged {
      CompletedCounts(env, s.docs, id);
      RemovalLosesOwn(env, s.store, s'.store, id, s.docs[id], s.docs[id].chunkCount);
    }
    StaysDamaged(env, s, id, s'.store);
    RemovalWidens(env, s.store, s'.store, id, s.docs[id], removed);
    forall d | d in s'.docs && s'.docs[d].status == ACTIVE && d != id
      ensures HasAll(env, d, s'.docs[d], s'.store) <==> d !in s'.damaged
    {
      OthersKeepAll(env, s.store, s'.store, id, s.docs[id], s.docs[id].chunkCount, d, s.docs[d]);
    }
  }

  lemma DeletedRowOk(env: Environment, docs: map<DocId, Document>, id: DocId)
    requires RowsOk(env, docs) && id in docs
    ensures var docs' := docs[id := docs[id].(status := DELETED, isActive := false)]; RowsOk(env, docs') && Extends(docs, docs')
  {
    InactiveRow(env, docs, id, docs[id].(status := DELETED, isActive := false));
  }

  lemma CompletedCounts(env: Environment, docs: map<DocId, Document>, id: DocId)
    requires RowsOk(env, docs) && id in docs && docs[id].ingestion == COMPLETED
    ensures 0 < docs[id].chunkCount == |env.Chunks(docs[id].checksum)|
  {
  }

  /** Removals do not repair. */
  lemma StaysDamaged(env: Environment, s: State, id: DocId, after: Store<Record>)
    requires id in s.docs && Touched(s.store, after, {}, Leftovers(s.docs, id))
    ensures HasAll(env, id, s.docs[id], after) ==> HasAll(env, id, s.docs[id], s.store)
  {
    hide ChunkId.Key, Environment.Chunks;
  }

  /** Every operation, with whatever failures, keeps the two stores in agreement. */
  lemma StepKeepsInv(env: Environment, s: State, op: Op, s': State)
    requires Inv(env, s) && Next(env, s, op, s')
    ensures Inv(env, s')
  {
    hide Inv, IngestStep, Leftovers, Touched;
    if s' == s {
      return;
    }
    match op
    case Create(id, checksum, metadata) =>
      PendingKeepsInv(env, s, id, 1, None, checksum, metadata);
      IngestKeepsInv(env, s.(docs := s.docs[id := Pending(1, None, checksum, metadata)]), id, None, s');
    case Replace(previous, id, checksum, metadata) =>
      var version := s.docs[previous].version + 1;
      PendingKeepsInv(env, s, id, version, Some(previous), checksum, metadata);
      IngestKeepsInv(env, s.(docs := s.docs[id := Pending(version, Some(previous), checksum, metadata)]), id, Some(previous), s');
    case Retry(id, checksum) =>
      FailedIsNotActive(env, s, id);
      var mid :| Touched(s.store, mid, {}, Leftovers(s.docs, id)) &&
        (s' == s.(store := mid) || IngestStep(env, s.(store := mid), id, None, s'));
      RemovalKeepsInv(env, s, id, s.(store := mid));
      if s' != s.(store := mid) {
        IngestKeepsInv(env, s.(store := mid), id, None, s');
      }
    case Delete(id) =>
      RemovalKeepsInv(env, s, id, s');
  }

  lemma FailedIsNotActive(env: Environment, s: State, id: DocId)
    requires Inv(env, s) && id in s.docs && s.docs[id].ingestion == FAILED
    ensures s.docs[id].status != ACTIVE
  {
  }

  /** No step loses a row or changes what its records are made of. */
  lemma StepExtends(env: Environment, s: State, op: Op, s': State)
    requires Next(env, s, op, s')
    ensures Extends(s.docs, s'.docs)
  {
    hide Touched, Leftovers, IngestStep, ActiveDuplicate, HasSuccessor, ChunkId.NoColon, Extends;
    AlwaysExtends(s.docs);
    if s' == s {
      return;
    }
    match op
    case Create(id, checksum, metadata) =>
      var row := Pending(1, None, checksum, metadata);
      RowExtends(s.docs, id, row);
      IngestExtends(env, s.(docs := s.docs[id := row]), id, None, s');
      ExtendsTransitive(s.docs, s.docs[id := row], s'.docs);
    case Replace(previous, id, checksum, metadata) =>
      var row := Pending(s.docs[previous].version + 1, Some(previous), checksum, metadata);
      RowExtends(s.docs, id, row);
      IngestExtends(env, s.(docs := s.docs[id := row]), id, Some(previous), s');
      ExtendsTransitive(s.docs, s.docs[id := row], s'.docs);
    case Retry(id, checksum) =>
      var mid :| Touched(s.store, mid, {}, Leftovers(s.docs, id)) &&
        (s' == s.(store := mid) || IngestStep(env, s.(store := mid), id, None, s'));
      if s' != s.(store := mid) {
        IngestExtends(env, s.(store := mid), id, None, s');
      }
    case Delete(id) =>
      RowExtends(s.docs, id, s.docs[id].(status := DELETED, isActive := false));
  }

  lemma AlwaysExtends(docs: map<DocId, Document>)
    ensures Extends(docs, docs)
  {
  }

  lemma RowExtends(docs: map<DocId, Document>, id: DocId, row: Document)
    requires id in docs ==> SameIdentity(docs[id], row)
    ensures Extends(docs, docs[id := row])
  {
  }

  /** What an ingestion may leave of the rows, whatever happens to the records. */
  ghost predicate RowsAfterIngest(env: Environment, docs: map<DocId, Document>, id: DocId, previous: Option<DocId>,
                                  docs': map<DocId, Document>)
    requires id in docs && (previous.Some? ==> previous.value in docs)
  {
    var done := Completed(docs[id], |Records(env, id, docs[id])|);
    || docs' == docs
    || docs' == docs[id := docs[id].(ingestion := PROCESSING)]
    || docs' == docs[id := Failed(docs[id])]
    || docs' == Supersede(docs[id := done], previous)
    || docs' == Supersede(docs[id := done], previous)[id := Failed(done)]
  }

  lemma IngestRows(env: Environment, s: State, id: DocId, previous: Option<DocId>, s': State)
    requires id in s.docs && (previous.Some? ==> previous.value in s.docs)
    requires IngestStep(env, s, id, previous, s')
    ensures RowsAfterIngest(env, s.docs, id, previous, s'.docs)
  {
    hide Touched, Leftovers, WriteAll, Records, RecordIds, Supersede, Written, Ids;
  }

  lemma IngestExtends(env: Environment, s: State, id: DocId, previous: Option<DocId>, s': State)
    requires id in s.docs && (previous.Some? ==> previous.value in s.docs && previous.value != id)
    requires IngestStep(env, s, id, previous, s')
    ensures Extends(s.docs, s'.docs)
  {
    hide IngestStep, Records, Extends;
    IngestRows(env, s, id, previous, s');
    var doc := s.docs[id];
    var done := Completed(doc, |Records(env, id, doc)|);
    AlwaysExtends(s.docs);
    RowExtends(s.docs, id, doc.(ingestion := PROCESSING));
    RowExtends(s.docs, id, Failed(doc));
    RowExtends(s.docs, id, done);
    var committed := Supersede(s.docs[id := done], previous);
    if previous.Some? {
      RowExtends(s.docs[id := done], previous.value, s.docs[previous.value].(status := SUPERSEDED, isActive := false));
      ExtendsTransitive(s.docs, s.docs[id := done], committed);
    }
    RowExtends(committed, id, Failed(done));
    ExtendsTransitive(s.docs, committed, committed[id := Failed(done)]);
  }

  /** The two stores agree after every step of every run. */
  lemma {:induction false} StoreAgreesWithRows(env: Environment, ops: seq<Op>, states: seq<State>, n: nat)
    requires IsRun(env, ops, states) && n < |states|
    ensures Inv(env, states[n])
  {
    hide Next;
    if n == 0 {
    } else {
      StoreAgreesWithRows(env, ops, states, n - 1);
      assert Next(env, states[n - 1], ops[n - 1], states[n - 1 + 1]);
      StepKeepsInv(env, states[n - 1], ops[n - 1], states[n]);
    }
  }

  lemma {:induction false} RunExtends(env: Environment, ops: seq<Op>, states: seq<State>, i: nat, j: nat)
    requires IsRun(env, ops, states) && i <= j < |states|
    ensures Extends(states[i].docs, states[j].docs)
    decreases j - i
  {
    hide Next;
    if i == j {
    } else {
      RunExtends(env, ops, states, i, j - 1);
      assert Next(env, states[j - 1], ops[j - 1], states[j - 1 + 1]);
      StepExtends(env, states[j - 1], ops[j - 1], states[j]);
      ExtendsTransitive(states[i].docs, states[j - 1].docs, states[j].docs);
    }
  }

  /** The keys that the cleanup of a row deletes are those of its records up to its chunk count. */
  lemma OwnKeys(env: Environment, docs: map<DocId, Document>, store: Store<Record>, id: DocId, k: string)
    requires Identified(docs) && StoreSound(env, docs, store) && id in docs && k in store
    ensures k in Leftovers(docs, id) <==> store[k].document == id && store[k].chunkIndex < docs[id].chunkCount
  {
    hide ChunkId.Key, ChunkId.NoColon, Environment.Chunks;
    var r := store[k];
    var ids := RecordIds(id, docs[id].version, docs[id].chunkCount);
    assert SoundRecord(env, docs, k, r);
    ChunkId.KeyRoundTrip(r.document, docs[r.document].version, r.chunkIndex);
    if r.document == id && r.chunkIndex < docs[id].chunkCount {
      assert ids[r.chunkIndex] == k;
    }
    if k in ids {
      var j :| 0 <= j < |ids| && ids[j] == k;
      ChunkId.KeyRoundTrip(id, docs[id].version, j);
    }
  }

  /** What remains of a document whose deletion succeeds: the records that its chunk count does not reach. */
  lemma DeletionIsCompleteExactlyWhen(env: Environment, s: State, id: DocId, s': State)
    requires Inv(env, s) && id in s.docs
    requires DeleteStep(s, id, s') && s'.docs != s.docs
    ensures (forall k | k in s'.store :: s'.store[k].document != id) <==>
      (forall k | k in s.store && s.store[k].document == id :: s.store[k].chunkIndex < s.docs[id].chunkCount)
    ensures forall k | k in s.store && s.store[k].document != id :: k in s'.store && s'.store[k] == s.store[k]
  {
    hide SoundRecord, ChunkId.NoColon, Environment.Chunks, Leftovers, Counts, Flags, DamageRecorded;
    forall k | k in s.store
      ensures k in Leftovers(s.docs, id) <==> s.store[k].document == id && s.store[k].chunkIndex < s.docs[id].chunkCount
    {
      OwnKeys(env, s.docs, s.store, id, k);
    }
    if k :| k in s.store && s.store[k].document == id && s.docs[id].chunkCount <= s.store[k].chunkIndex {
      assert k in s'.store && s'.store[k].document == id;
    }
  }

  /** So nothing remains of a row whose ingestion was completed, be it ACTIVE or SUPERSEDED. */
  lemma DeletionOfCompletedIsComplete(env: Environment, s: State, id: DocId, s': State)
    requires Inv(env, s) && id in s.docs && s.docs[id].ingestion == COMPLETED
    requires DeleteStep(s, id, s') && s'.docs != s.docs
    ensures forall k | k in s'.store :: s'.store[k].document != id
  {
    hide ChunkId.NoColon, ChunkId.Key, Environment.Chunks, Leftovers, Flags, DamageRecorded, DeleteStep, RecordFor;
    DeletionIsCompleteExactlyWhen(env, s, id, s');
    CompletedCounts(env, s.docs, id);
    forall k | k in s.store && s.store[k].document == id ensures s.store[k].chunkIndex < s.docs[id].chunkCount {
      assert SoundRecord(env, s.docs, k, s.store[k]);
    }
  }

  // ----- what damages a document -----

  /** A deletion that removed records and then failed. */
  ghost predicate LosesByDelete(s: State, op: Op, s': State, d: DocId) {
    op == Delete(d) && d in s.docs && s.docs[d].status == ACTIVE && s'.docs == s.docs && s'.store != s.store
  }

  /** An operation that made the document ACTIVE and nevertheless removed records of it. */
  ghost predicate LosesByIngest(env: Environment, s: State, op: Op, s': State, d: DocId) {
    && !op.Delete? && op.id == d
    && (d in s.docs ==> s.docs[d].status != ACTIVE)
    && d in s'.docs && s'.docs[d].status == ACTIVE && !HasAll(env, d, s'.docs[d], s'.store)
  }

  /** Seen from outside, the ingestion of a row damages that row exactly if it ends ACTIVE without all its records. */
  lemma IngestLoses(env: Environment, s: State, id: DocId, previous: Option<DocId>, s': State)
    requires DamageRecorded(env, s) && DamageRecorded(env, s') && Ingestible(s, id, previous)
    requires IngestStep(env, s, id, previous, s')
    ensures id !in s.damaged
    ensures s'.damaged == s.damaged || s'.damaged == s.damaged + {id}
    ensures id in s'.damaged <==> id in s'.docs && s'.docs[id].status == ACTIVE && !HasAll(env, id, s'.docs[id], s'.store)
  {
    hide HasAll, IngestStep, StrandedStep;
    IngestDamages(env, s, id, previous, s');
    if StrandedStep(env, s, id, previous, s') {
      StrandedIsActive(env, s, id, previous, s');
    }
  }

  lemma StepDamagesExactlyWhen(env: Environment, s: State, op: Op, s': State, d: DocId)
    requires Inv(env, s) && Next(env, s, op, s')
    ensures d in s'.damaged <==> d in s.damaged || LosesByDelete(s, op, s', d) || LosesByIngest(env, s, op, s', d)
  {
    hide RowsOk, StoreSound, HasAll, IngestStep, Leftovers, Touched;
    StepKeepsInv(env, s, op, s');
    if s' == s {
      return;
    }
    match op
    case Create(id, checksum, metadata) =>
      var row := Pending(1, None, checksum, metadata);
      PendingKeepsInv(env, s, id, 1, None, checksum, metadata);
      IngestLoses(env, s.(docs := s.docs[id := row]), id, None, s');
    case Replace(previous, id, checksum, metadata) =>
      var version := s.docs[previous].version + 1;
      PendingKeepsInv(env, s, id, version, Some(previous), checksum, metadata);
      IngestLoses(env, s.(docs := s.docs[id := Pending(version, Some(previous), checksum, metadata)]), id, Some(previous), s');
    case Retry(id, checksum) =>
      FailedIsNotActive(env, s, id);
      var mid :| Touched(s.store, mid, {}, Leftovers(s.docs, id)) &&
        (s' == s.(store := mid) || IngestStep(env, s.(store := mid), id, None, s'));
      RemovalKeepsInv(env, s, id, s.(store := mid));
      if s' != s.(store := mid) {
        IngestLoses(env, s.(store := mid), id, None, s');
      }
    case Delete(id) =>
  }

  /** Operation `i` of a run loses records of the document. */
  ghost predicate LosesAt(env: Environment, ops: seq<Op>, states: seq<State>, i: nat, d: DocId)
    requires |states| == |ops| + 1 && i < |ops|
  {
    LosesByDelete(states[i], ops[i], states[i + 1], d) || LosesByIngest(env, states[i], ops[i], states[i + 1], d)
  }

  /** Over every run: an ACTIVE document has all its records exactly if no operation of the run lost any. */
  lemma CompleteExactlyWhen(env: Environment, ops: seq<Op>, states: seq<State>, n: nat, d: DocId)
    requires IsRun(env, ops, states) && n < |states|
    requires d in states[n].docs && states[n].docs[d].status == ACTIVE
    ensures HasAll(env, d, states[n].docs[d], states[n].store) <==> !exists i: nat :: i < n && LosesAt(env, ops, states, i, d)
  {
    hide HasAll, RowsOk, StoreSound, LosesAt, Next;
    StoreAgreesWithRows(env, ops, states, n);
    DamagedExactlyWhen(env, ops, states, n, d);
  }

  lemma {:induction false} DamagedExactlyWhen(env: Environment, ops: seq<Op>, states: seq<State>, n: nat, d: DocId)
    requires IsRun(env, ops, states) && n < |states|
    ensures d in states[n].damaged <==> exists i: nat :: i < n && LosesAt(env, ops, states, i, d)
  {
    hide Next, Inv, LosesByDelete, LosesByIngest;
    if n == 0 {
    } else {
      var i := n - 1;
      DamagedExactlyWhen(env, ops, states, i, d);
      StoreAgreesWithRows(env, ops, states, i);
      assert Next(env, states[i], ops[i], states[i + 1]);
      StepDamagesExactlyWhen(env, states[i], ops[i], states[i + 1], d);
      assert LosesAt(env, ops, states, i, d) <==>
        LosesByDelete(states[i], ops[i], states[n], d) || LosesByIngest(env, states[i], ops[i], states[n], d);
    }
  }
}
