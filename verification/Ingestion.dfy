/**
 * `KnowledgeIngestionService` of `backend/app/rag/ingestion.py`, statement by statement.
 *
 * Each operation is proved to be a step of the relation of module `Knowledge`, for every behaviour of the provider,
 * of the database and of the caller, who may go away at any `await` behind the first write; before it, going away is
 * not having called. The handler of failures can fail itself. A warning in the log is an out-parameter.
 *
 * `DatabaseFailure` and `Interrupted` stand for what escapes from the handler or comes from outside of it;
 * a database error that the handler deals with reaches the caller as `ExtractionFailure`.
 */
module Ingestion {
  import opened Common
  import opened Knowledge
  import VectorIndex
  import Chunking
  import CleanText
  import ChunkId
  import StoredText

  datatype KnowledgeError = NotFound | Conflict | ExtractionFailure | ProviderFailure | DatabaseFailure | Interrupted

  datatype Attempt = CallerGone | Unreadable | Unconfirmed | Confirmed

  datatype Outcome = Done | Raised(error: KnowledgeError)

  class KnowledgeIngestionService {
    const env: Environment
    const index: VectorIndex.Provider<Record>
    var docs: map<DocId, Document>
    ghost var damaged: set<DocId>

    constructor (env: Environment, maxRetries: nat, durable: bool, calm: bool)
      ensures this.env == env && St() == EMPTY && Valid()
      ensures fresh(index) && index.durable == durable && index.calm == calm
    {
      this.env := env;
      index := new VectorIndex.Provider(maxRetries, durable, calm);
      docs := map[];
      damaged := {};
    }

    ghost function St(): State
      reads this, index
    {
      State(docs, index.records, damaged)
    }

    ghost predicate Valid()
      reads this, index
    {
      Inv(env, St())
    }

    /** Whether something goes wrong at this point; in a calm environment nothing does. */
    method Trouble() returns (trouble: bool)
      ensures index.calm ==> !trouble
    {
      trouble := *;
      trouble := trouble && !index.calm;
    }

    /** `_records`: extract, clean and chunk the file. The file may turn out to be unreadable at any time. */
    method BuildRecords(id: DocId, doc: Document) returns (records: seq<VectorIndex.Entry<Record>>, readable: bool)
      ensures records == if readable then Records(env, id, doc) else []
      ensures index.calm ==> readable
      ensures records != [] ==> env.extract(doc.checksum).Some? && exists at ::
        StoredText.PiecesAt(env, CleanText.Clean(env.extract(doc.checksum).value), StoredText.TextsOf(records), at)
    {
      hide Chunking.ChunkText, CleanText.Clean, ChunkId.Key, StoredText.PiecesAt;
      ghost var at := StoredText.RecordsArePieces(env, id, doc);
      records := [];
      var unreadable := Trouble();
      readable := !unreadable;
      if readable && env.extract(doc.checksum).Some? {
        var cleaned := CleanText.Clean(env.extract(doc.checksum).value);
        var chunks := Chunking.ChunkTextLoop(cleaned, env.chunkSize, env.overlap, env.model);
        if chunks.Ok? {
          assert chunks.value == env.Chunks(doc.checksum);
          for i := 0 to |chunks.value|
            invariant records == Records(env, id, doc)[..i]
          {
            records := records + [(ChunkId.Key(id, doc.version, i),
                                   Record(env.company, id, doc.metadata, doc.version, i, chunks.value[i].text))];
          }
        }
      }
    }

    /**
     * `_verify_records`: up to four looks at the index. `answers` are those of the fetches that succeeded; the verdict
     * rests on the last of them alone, and a look that shows all ids is the last.
     */
    method VerifyRecords(ids: seq<string>) returns (ok: bool, answers: seq<set<string>>, failed: bool)
      ensures ok ==> forall k | k in ids :: k in index.records
      ensures |answers| <= 4 && (ok || failed || |answers| == 4) && !(ok && failed)
      ensures ok <==> answers != [] && ShowsAll(ids, answers[|answers| - 1])
      ensures forall i | 0 <= i < |answers| - 1 :: !ShowsAll(ids, answers[i])
      ensures index.calm ==> !failed && (ok <==> forall k | k in ids :: k in index.records)
    {
      answers, failed := [], false;
      while |answers| < 4
        invariant |answers| <= 4
        invariant forall i | 0 <= i < |answers| :: !ShowsAll(ids, answers[i])
        invariant index.calm && answers != [] ==> !forall k | k in ids :: k in index.records
        decreases 4 - |answers|
      {
        var fetched, found := index.Fetch(ids);
        if !fetched {
          return false, answers, true;
        }
        answers := answers + [found];
        if ShowsAll(ids, found) {
          return true, answers, failed;
        }
      }
      ok := false;
    }

    /**
     * The `except` branch of `_ingest_saved`: roll back, compensate, mark the row as failed, commit. Only a failure of the
     * compensation is caught; whatever else goes wrong escapes and leaves the row as it was last committed.
     */
    method Fail(id: DocId, records: seq<VectorIndex.Entry<Record>>) returns (escaped: Option<KnowledgeError>, warned: bool)
      requires id in docs
      modifies this`docs, index
      ensures escaped in {None, Some(DatabaseFailure), Some(Interrupted)}
      ensures docs == if escaped.None? then old(docs)[id := Failed(old(docs)[id])] else old(docs)
      ensures VectorIndex.Touched(old(index.records), index.records, {}, VectorIndex.Ids(KeysOf(records)))
      ensures records == [] ==> !warned && index.records == old(index.records)
      ensures escaped.None? && !warned ==> index.records == old(index.records) - VectorIndex.Ids(KeysOf(records))
      ensures index.calm ==> escaped.None? && !warned
    {
      warned := false;
      var trouble := Trouble();
      if trouble {
        return Some(DatabaseFailure), warned;
      }
      if records != [] {
        var deleted := index.Delete(KeysOf(records));
        var gone := Trouble();
        if gone {
          return Some(Interrupted), warned;
        }
        warned := !deleted;
      }
      trouble := Trouble();
      if trouble {
        var gone := Trouble();
        return if gone then Some(Interrupted) else Some(DatabaseFailure), warned;
      }
      docs := docs[id := docs[id].(status := DRAFT, isActive := false, ingestion := FAILED)];
      escaped := None;
    }

    /** `_ingest_saved` */
    method IngestSaved(id: DocId, previous: Option<DocId>) returns (r: Outcome, warned: bool)
      requires Identified(docs) && StoreSound(env, docs, index.records)
      requires id in docs && (previous.Some? ==> previous.value in docs && previous.value != id)
      modifies this, index
      ensures IngestStep(env, old(St()), id, previous, St())
      ensures id in docs && (r.Raised? ==> r.error !in {NotFound, Conflict})
      ensures r.Done? ==> CompletedStep(env, old(St()), id, previous, St())
      ensures r.Done? ==> docs[id].status == ACTIVE
      ensures r.Done? && previous.Some? ==> previous.value in docs && docs[previous.value].status == SUPERSEDED
      ensures r.Done? && !warned && previous.Some? ==> index.records.Keys !! Leftovers(old(docs), previous.value)
      ensures r in {Raised(ExtractionFailure), Raised(ProviderFailure)} ==>
        docs[id].ingestion == FAILED && docs[id].status == DRAFT && damaged == old(damaged)
      ensures r == Raised(ProviderFailure) && !warned ==>
        index.records.Keys !! VectorIndex.Ids(RecordIds(id, docs[id].version, |Records(env, id, docs[id])|))
      ensures index.calm ==>
        !warned && r == if Records(env, id, old(docs)[id]) == [] then Raised(ExtractionFailure) else Done
      ensures index.calm && r.Raised? ==> index.records == old(index.records)
    {
      hide Records, Leftovers, RecordIds, CommittedRows, CompletedStep, IncompleteStep, StrandedStep, StoreSound;
      warned := false;
      var gone := Trouble();
      if gone {
        return Raised(Interrupted), warned;
      }
      var trouble := Trouble();
      if trouble {
        r, warned := FailedToBegin(id, previous);
      } else {
        r, warned := IngestBegun(id, previous);
      }
    }

    /** From the commit of PROCESSING on. */
    method IngestBegun(id: DocId, previous: Option<DocId>) returns (r: Outcome, warned: bool)
      requires Identified(docs) && StoreSound(env, docs, index.records)
      requires id in docs && (previous.Some? ==> previous.value in docs && previous.value != id)
      modifies this, index
      ensures CompletedStep(env, old(St()), id, previous, St()) || IncompleteStep(env, old(St()), id, previous, St())
        || StrandedStep(env, old(St()), id, previous, St())
      ensures id in docs && (r.Raised? ==> r.error !in {NotFound, Conflict})
      ensures r.Done? ==> CompletedStep(env, old(St()), id, previous, St()) && docs[id].status == ACTIVE
      ensures r.Done? && previous.Some? ==> previous.value in docs && docs[previous.value].status == SUPERSEDED
      ensures r.Done? && !warned && previous.Some? ==> index.records.Keys !! Leftovers(old(docs), previous.value)
      ensures r in {Raised(ExtractionFailure), Raised(ProviderFailure)} ==>
        docs[id].ingestion == FAILED && docs[id].status == DRAFT && damaged == old(damaged)
      ensures r == Raised(ProviderFailure) && !warned ==>
        index.records.Keys !! VectorIndex.Ids(RecordIds(id, docs[id].version, |Records(env, id, docs[id])|))
      ensures index.calm ==>
        !warned && r == if Records(env, id, old(docs)[id]) == [] then Raised(ExtractionFailure) else Done
      ensures index.calm && r.Raised? ==> index.records == old(index.records)
    {
      hide Records, VectorIndex.WriteAll, VectorIndex.Touched, ChunkId.Key, CommittedRows, CompletedStep, IncompleteStep, StrandedStep, StoreSound;
      warned := false;
      ghost var s := St();
      docs := docs[id := docs[id].(ingestion := PROCESSING)];
      SameRecords(env, id, s.docs[id], docs[id]);
      UpdateTwice(s.docs, id, docs[id], Failed(s.docs[id]));
      var attempt, records := StoreRecords(id, docs[id], s.docs);
      if attempt == Confirmed {
        r, warned := CommitResult(id, previous, records, s);
      } else {
        r, warned := GiveUp(id, previous, attempt, records, s);
      }
    }

    /** Nothing was stored for sure: the caller is gone, or the handler takes over. */
    method GiveUp(id: DocId, ghost previous: Option<DocId>, attempt: Attempt, records: seq<VectorIndex.Entry<Record>>, ghost s: State)
      returns (r: Outcome, warned: bool)
      requires attempt != Confirmed
      requires id in s.docs && (previous.Some? ==> previous.value in s.docs && previous.value != id)
      requires docs == s.docs[id := s.docs[id].(ingestion := PROCESSING)] && damaged == s.damaged
      requires records == [] || records == Records(env, id, s.docs[id])
      requires attempt == Unconfirmed ==> records != []
      requires VectorIndex.Touched(s.store, index.records, VectorIndex.Written(Records(env, id, s.docs[id])), {})
      modifies this`docs, index
      ensures IncompleteStep(env, s, id, previous, St())
      ensures id in docs && r.Raised? && r.error !in {NotFound, Conflict}
      ensures r.error in {ExtractionFailure, ProviderFailure} ==> docs[id].ingestion == FAILED && docs[id].status == DRAFT
      ensures r == Raised(ProviderFailure) && !warned ==>
        index.records.Keys !! VectorIndex.Ids(RecordIds(id, docs[id].version, |Records(env, id, docs[id])|))
      ensures index.calm && attempt == Unreadable && records == [] ==>
        !warned && r == Raised(ExtractionFailure) && index.records == old(index.records)
    {
      hide Records, VectorIndex.WriteAll, VectorIndex.Touched, ChunkId.Key, CommittedRows, IncompleteStep;
      warned := false;
      ghost var written := index.records;
      if attempt == CallerGone {
        VectorIndex.TouchedReflexive(written, VectorIndex.Ids(RecordIds(id, s.docs[id].version, |Records(env, id, s.docs[id])|)));
        IncompleteFrom(env, s, id, previous, St(), written);
        return Raised(Interrupted), warned;
      }
      UpdateTwice(s.docs, id, docs[id], Failed(s.docs[id]));
      SameRecords(env, id, s.docs[id], Failed(s.docs[id]));
      var escaped;
      escaped, warned := Fail(id, records);
      FailedFrom(env, s, id, previous, St(), written, records);
      return Raised(
        if escaped.Some? then escaped.value else if attempt == Unreadable then ExtractionFailure else ProviderFailure), warned;
    }

    /** The row could not even be marked as PROCESSING. */
    method FailedToBegin(id: DocId, ghost previous: Option<DocId>) returns (r: Outcome, warned: bool)
      requires id in docs && (previous.Some? ==> previous.value in docs && previous.value != id)
      modifies this`docs, index
      ensures IngestStep(env, old(St()), id, previous, St())
      ensures id in docs && r.Raised? && r.error in {ExtractionFailure, DatabaseFailure, Interrupted}
      ensures r.error == ExtractionFailure ==> docs[id].ingestion == FAILED && docs[id].status == DRAFT
    {
      hide Records, ChunkId.Key, CommittedRows, CompletedStep, IncompleteStep, StrandedStep, VectorIndex.WriteAll;
      ghost var s := St();
      var escaped;
      escaped, warned := Fail(id, []);
      if escaped.Some? {
        return Raised(escaped.value), warned;
      }
      FailedFrom(env, s, id, previous, St(), s.store, []);
      return Raised(ExtractionFailure), warned;
    }

    /** The end of `_ingest_saved`: complete the row, retire the previous version, commit, clean up. */
    method CommitResult(id: DocId, previous: Option<DocId>, records: seq<VectorIndex.Entry<Record>>, ghost s: State)
      returns (r: Outcome, warned: bool)
      requires id in s.docs && (previous.Some? ==> previous.value in s.docs && previous.value != id)
      requires docs == s.docs[id := s.docs[id].(ingestion := PROCESSING)] && damaged == s.damaged
      requires records != [] && records == Records(env, id, s.docs[id])
      requires index.records == VectorIndex.WriteAll(s.store, records)
      modifies this, index
      ensures CompletedStep(env, s, id, previous, St()) || IncompleteStep(env, s, id, previous, St())
        || StrandedStep(env, s, id, previous, St())
      ensures id in docs && (r.Raised? ==> r.error in {ExtractionFailure, DatabaseFailure, Interrupted})
      ensures r.Done? ==> CompletedStep(env, s, id, previous, St()) && docs[id].status == ACTIVE
      ensures r.Done? && previous.Some? ==> previous.value in docs && docs[previous.value].status == SUPERSEDED
      ensures r.Done? && !warned && previous.Some? ==> index.records.Keys !! Leftovers(s.docs, previous.value)
      ensures r == Raised(ExtractionFailure) ==>
        docs[id].ingestion == FAILED && docs[id].status == DRAFT && damaged == s.damaged
      ensures r == Raised(ExtractionFailure) && !warned ==> index.records.Keys !! VectorIndex.Ids(KeysOf(records))
      ensures index.calm ==> r == Done && !warned
    {
      hide Records, VectorIndex.WriteAll, VectorIndex.Touched, ChunkId.Key, CommittedRows, CompletedStep, IncompleteStep, StrandedStep;
      warned := false;
      ghost var written := index.records;
      VectorIndex.WriteAllTouches(s.store, records);
      var completed := docs[id].(status := ACTIVE, isActive := true, ingestion := COMPLETED, chunkCount := |records|);
      UpdateTwice(s.docs, id, docs[id], completed);
      UpdateTwice(s.docs, id, docs[id], Failed(s.docs[id]));
      var working := docs[id := completed];
      if previous.Some? {
        var p := previous.value;
        working := working[p := working[p].(status := SUPERSEDED, isActive := false)];
      }
      WorkingRowsAre(env, s.docs, id, previous, working, |records|);
      var trouble := Trouble();
      var committed := !trouble;
      if committed {
        docs := working;
      }
      var gone := Trouble();
      if gone {
        EscapedFrom(env, s, id, previous, St(), records, committed);
        return Raised(Interrupted), warned;
      }
      trouble := Trouble();
      if !committed || trouble {
        var escaped;
        escaped, warned := Fail(id, records);
        if escaped.Some? {
          if committed && index.records != written {
            damaged := damaged + {id};
          }
          EscapedFrom(env, s, id, previous, St(), records, committed);
          return Raised(escaped.value), warned;
        }
        FailedFrom(env, s, id, previous, St(), written, records);
        return Raised(ExtractionFailure), warned;
      }
      if previous.Some? {
        var p := previous.value;
        var cleaned := index.Delete(RecordIds(p, docs[p].version, docs[p].chunkCount));
        warned := !cleaned;
      } else {
        VectorIndex.TouchedReflexive(written, {});
      }
      CompletedFrom(env, s, id, previous, St(), records);
      gone := Trouble();
      r := if gone then Raised(Interrupted) else Done;
    }

    /**
     * The middle of `_ingest_saved`: build the records, write them, look whether they arrived. It is the look that makes
     * sure: an acknowledged write may be lost.
     */
    method StoreRecords(id: DocId, doc: Document, ghost rows: map<DocId, Document>)
      returns (attempt: Attempt, records: seq<VectorIndex.Entry<Record>>)
      requires Identified(rows) && StoreSound(env, rows, index.records) && id in rows && SameIdentity(rows[id], doc)
      modifies index
      ensures attempt == Unreadable ==> records == [] && index.records == old(index.records)
      ensures records == [] || records == Records(env, id, doc)
      ensures VectorIndex.Touched(old(index.records), index.records, VectorIndex.Written(Records(env, id, doc)), {})
      ensures attempt == Confirmed ==>
        records != [] && index.records == VectorIndex.WriteAll(old(index.records), Records(env, id, doc))
      ensures attempt == Unconfirmed ==> records != []
      ensures index.calm ==> attempt == if Records(env, id, doc) == [] then Unreadable else Confirmed
    {
      hide Records, VectorIndex.WriteAll, VectorIndex.Touched, ChunkId.Key, StoreSound, SameIdentity;
      var readable;
      records, readable := BuildRecords(id, doc);
      VectorIndex.TouchedReflexive(index.records, {});
      VectorIndex.TouchedWiden(index.records, index.records, {}, {}, VectorIndex.Written(Records(env, id, doc)), {});
      if records == [] {
        return Unreadable, records;
      }
      var gone := Trouble();
      if gone {
        return CallerGone, records;
      }
      var stored := index.Upsert(records);
      if !stored {
        return Unconfirmed, records;
      }
      var confirmed, answers, failed := VerifyRecords(KeysOf(records));
      gone := Trouble();
      AllStored(index.records, old(index.records), records);
      if confirmed {
        ConfirmedIsWritten(env, rows, old(index.records), index.records, id, doc);
      }
      return if gone then CallerGone else if confirmed then Confirmed else Unconfirmed, records;
    }

    /** `create` */
    method Create(id: DocId, checksum: string, metadata: Metadata) returns (r: Outcome, warned: bool)
      requires Valid() && id !in docs && ChunkId.NoColon(id)
      modifies this, index
      ensures Valid() && Next(env, old(St()), Op.Create(id, checksum, metadata), St())
      ensures ActiveDuplicate(old(docs), checksum) <==> r == Raised(Conflict)
      ensures r == Raised(Conflict) ==> St() == old(St())
      ensures r.Done? ==> id in docs && docs[id].status == ACTIVE
      ensures id in docs ==> Describes(docs[id], 1, None, checksum, metadata)
      ensures index.calm && r != Raised(Conflict) ==> (r.Done? <==> Usable(env, checksum)) && !warned
    {
      hide IngestStep, CompletedStep, Leftovers, Records, RecordIds, Inv;
      warned := false;
      ghost var s0 := St();
      if ActiveDuplicate(docs, checksum) {
        return Raised(Conflict), warned;
      }
      var trouble := Trouble();
      if trouble {
        return Raised(DatabaseFailure), warned;
      }
      docs := docs[id := Document(1, None, checksum, metadata, DRAFT, false, PENDING, 0)];
      ghost var s := St();
      PendingKeepsInv(env, s0, id, 1, None, checksum, metadata);
      SoundOf(env, s);
      r, warned := IngestSaved(id, None);
      IngestExtends(env, s, id, None, St());
      UsableMeans(env, id, s.docs[id]);
      StepKeepsInv(env, s0, Op.Create(id, checksum, metadata), St());
    }

    /** `replace` */
    method Replace(previous: DocId, id: DocId, checksum: string, metadata: Metadata) returns (r: Outcome, warned: bool)
      requires Valid() && id !in docs && ChunkId.NoColon(id)
      modifies this, index
      ensures Valid() && Next(env, old(St()), Op.Replace(previous, id, checksum, metadata), St())
      ensures r == Raised(NotFound) <==> previous !in old(docs) || old(docs)[previous].status == DELETED
      ensures r == Raised(Conflict) <==>
        && previous in old(docs) && old(docs)[previous].status != DELETED
        && (|| old(docs)[previous].status != ACTIVE
            || ActiveDuplicate(old(docs), checksum)
            || exists d | d in old(docs) :: old(docs)[d].supersedes == Some(previous))
      ensures r == Raised(NotFound) || r == Raised(Conflict) ==> St() == old(St())
      ensures r.Done? ==> id in docs && previous in docs && docs[id].status == ACTIVE && docs[previous].status == SUPERSEDED
      ensures id in docs ==> previous in old(docs) && Describes(docs[id], old(docs)[previous].version + 1, Some(previous), checksum, metadata)
      ensures index.calm && r !in {Raised(NotFound), Raised(Conflict)} ==> (r.Done? <==> Usable(env, checksum)) && !warned
    {
      hide IngestStep, CompletedStep, Leftovers, Records, RecordIds, Inv;
      warned := false;
      ghost var s0 := St();
      if previous !in docs || docs[previous].status == DELETED {
        return Raised(NotFound), warned;
      }
      if docs[previous].status != ACTIVE {
        return Raised(Conflict), warned;
      }
      if ActiveDuplicate(docs, checksum) {
        return Raised(Conflict), warned;
      }
      if HasSuccessor(docs, previous) {
        return Raised(Conflict), warned;
      }
      var trouble := Trouble();
      if trouble {
        return Raised(DatabaseFailure), warned;
      }
      docs := docs[id := Document(docs[previous].version + 1, Some(previous), checksum, metadata, DRAFT, false, PENDING, 0)];
      ghost var s := St();
      PendingKeepsInv(env, s0, id, docs[id].version, Some(previous), checksum, metadata);
      SoundOf(env, s);
      r, warned := IngestSaved(id, Some(previous));
      IngestExtends(env, s, id, Some(previous), St());
      UsableMeans(env, id, s.docs[id]);
      StepKeepsInv(env, s0, Op.Replace(previous, id, checksum, metadata), St());
    }

    /** `retry` */
    method Retry(id: DocId, checksum: string) returns (r: Outcome, warned: bool)
      requires Valid()
      modifies this, index
      ensures Valid() && Next(env, old(St()), Op.Retry(id, checksum), St())
      ensures r == Raised(NotFound) <==> id !in old(docs)
      ensures r == Raised(Conflict) <==>
        id in old(docs) && (old(docs)[id].ingestion != FAILED || old(docs)[id].checksum != checksum)
      ensures r == Raised(NotFound) || r == Raised(Conflict) ==> St() == old(St())
      ensures r.Done? ==> id in docs && docs[id].status == ACTIVE
      ensures index.calm && r !in {Raised(NotFound), Raised(Conflict)} ==> (r.Done? <==> Usable(env, checksum)) && !warned
      ensures index.calm && r == Raised(ExtractionFailure) ==> index.records == old(index.records) - Leftovers(old(docs), id)
    {
      hide IngestStep, CompletedStep, Records, Inv, RowsOk, DamageRecorded;
      warned := false;
      if id !in docs {
        return Raised(NotFound), warned;
      }
      if docs[id].ingestion != FAILED {
        return Raised(Conflict), warned;
      }
      if docs[id].checksum != checksum {
        return Raised(Conflict), warned;
      }
      ghost var s := St();
      var deleted := index.Delete(RecordIds(id, docs[id].version, docs[id].chunkCount));
      ghost var mid := index.records;
      assert St() == s.(store := mid);
      assert VectorIndex.Touched(s.store, mid, {}, Leftovers(s.docs, id));
      FailedIsNotActive(env, s, id);
      RemovalKeepsInv(env, s, id, St());
      SoundOf(env, St());
      var gone := Trouble();
      if gone || !deleted {
        return Raised(if gone then Interrupted else ProviderFailure), warned;
      }
      UsableMeans(env, id, docs[id]);
      r, warned := IngestSaved(id, None);
      assert s.(store := mid) == s.(store := mid) && IngestStep(env, s.(store := mid), id, None, St());
      StepKeepsInv(env, s, Op.Retry(id, checksum), St());
    }

    /** `delete` */
    method Delete(id: DocId) returns (r: Outcome)
      requires Valid()
      modifies this, index
      ensures Valid() && Next(env, old(St()), Op.Delete(id), St())
      ensures id !in old(docs) || old(docs)[id].status == DELETED ==> r.Done? && St() == old(St())
      ensures r.Done? && id in old(docs) ==> id in docs && docs[id].status == DELETED
      ensures r.Done? && id in old(docs) && old(docs)[id].status != DELETED ==>
        index.records == old(index.records) - Leftovers(old(docs), id)
      ensures r.Raised? ==> docs == old(docs)
      ensures index.calm ==> r.Done?
    {
      hide Inv;
      ghost var s := St();
      if id !in docs {
        return Done;
      }
      if docs[id].status == DELETED {
        return Done;
      }
      ghost var before := index.records;
      var deleted := index.Delete(RecordIds(id, docs[id].version, docs[id].chunkCount));
      var gone := Trouble();
      var trouble := Trouble();
      if gone || !deleted || trouble {
        if docs[id].status == ACTIVE && index.records != before {
          damaged := damaged + {id};
        }
        RemovalKeepsInv(env, s, id, St());
        return Raised(if gone then Interrupted else if !deleted then ProviderFailure else DatabaseFailure);
      }
      docs := docs[id := docs[id].(status := DELETED, isActive := false)];
      RemovalKeepsInv(env, s, id, St());
      return Done;
    }
  }

  /** A file from which text can be extracted that, once cleaned, can be chunked. */
  predicate Usable(env: Environment, checksum: string) {
    match env.extract(checksum)
    case None => false
    case Some(text) => Chunking.ChunkText(CleanText.Clean(text), env.chunkSize, env.overlap, env.model).Ok?
  }

  lemma UsableMeans(env: Environment, id: DocId, doc: Document)
    ensures Usable(env, doc.checksum) <==> Records(env, id, doc) != []
  {
    hide Chunking.ChunkText, CleanText.Clean, Records, StoredText.PiecesAt;
    var at := StoredText.RecordsArePieces(env, id, doc);
  }

  lemma AllStored(store: VectorIndex.Store<Record>, before: VectorIndex.Store<Record>, records: seq<VectorIndex.Entry<Record>>)
    ensures store == VectorIndex.WriteAll(before, records) ==> forall k | k in KeysOf(records) :: k in store
  {
    hide VectorIndex.WriteAll;
    if store == VectorIndex.WriteAll(before, records) {
      forall k | k in KeysOf(records) ensures k in store {
        var i :| 0 <= i < |records| && KeysOf(records)[i] == k;
        VectorIndex.WriteAllAt(before, before, records, k);
      }
    }
  }

  lemma SoundOf(env: Environment, s: State)
    requires Inv(env, s)
    ensures Identified(s.docs) && StoreSound(env, s.docs, s.store)
  {
  }

  /**
   * If every key is there, every record is the right one, whether it was written now or left from an earlier attempt: the
   * record under a key is determined by the row.
   */
  lemma ConfirmedIsWritten(env: Environment, rows: map<DocId, Document>, before: VectorIndex.Store<Record>,
                           after: VectorIndex.Store<Record>, id: DocId, doc: Document)
    requires Identified(rows) && StoreSound(env, rows, before) && id in rows && SameIdentity(rows[id], doc)
    requires VectorIndex.Touched(before, after, VectorIndex.Written(Records(env, id, doc)), {})
    requires forall k | k in KeysOf(Records(env, id, doc)) :: k in after
    ensures after == VectorIndex.WriteAll(before, Records(env, id, doc))
  {
    hide VectorIndex.WriteAll, ChunkId.Key, ChunkId.NoColon, Environment.Chunks, Records, StoreSound, SameIdentity, Identified;
    var records := Records(env, id, doc);
    var full := VectorIndex.WriteAll(before, records);
    VectorIndex.WriteAllTouches(before, records);
    forall k ensures (k in after <==> k in full) && (k in after ==> after[k] == full[k]) {
      VectorIndex.WriteAllAt(before, before, records, k);
      assert k in KeysOf(records) <==> exists i :: 0 <= i < |records| && records[i].0 == k;
      if k in KeysOf(records) {
        KeyDetermines(env, rows, before, after, id, doc, k);
        KeyDetermines(env, rows, before, full, id, doc, k);
      }
    }
  }

  function RecordAt(env: Environment, id: DocId, doc: Document, k: string): Option<Record> {
    var i := ChunkId.ParseChunkId(k).2;
    if i < |Records(env, id, doc)| then Some(Records(env, id, doc)[i].1) else None
  }

  lemma KeyDetermines(env: Environment, rows: map<DocId, Document>, before: VectorIndex.Store<Record>,
                      store: VectorIndex.Store<Record>, id: DocId, doc: Document, k: string)
    requires Identified(rows) && StoreSound(env, rows, before) && id in rows && SameIdentity(rows[id], doc)
    requires VectorIndex.Touched(before, store, VectorIndex.Written(Records(env, id, doc)), {})
    requires k in KeysOf(Records(env, id, doc)) && k in store
    ensures Some(store[k]) == RecordAt(env, id, doc, k)
  {
    hide ChunkId.Key, ChunkId.NoColon, Environment.Chunks;
    var records := Records(env, id, doc);
    var i :| 0 <= i < |records| && KeysOf(records)[i] == k;
    ChunkId.KeyRoundTrip(id, doc.version, i);
    if (k, store[k]) in VectorIndex.Written(records) {
      var j :| 0 <= j < |records| && records[j] == (k, store[k]);
      ChunkId.KeyRoundTrip(id, doc.version, j);
    } else {
      var r := store[k];
      assert SoundRecord(env, rows, k, r);
      ChunkId.KeyRoundTrip(r.document, rows[r.document].version, r.chunkIndex);
    }
  }

  predicate ShowsAll(ids: seq<string>, answer: set<string>) {
    forall k | k in ids :: k in answer
  }

  /** The part of a row that its creation fixes. */
  predicate Describes(doc: Document, version: nat, supersedes: Option<DocId>, checksum: string, metadata: Metadata) {
    doc.version == version && doc.supersedes == supersedes && doc.checksum == checksum && doc.metadata == metadata
  }

  /** Writing part of the records and deleting part of them again touches nothing else. */
  lemma IncompleteFrom(env: Environment, s: State, id: DocId, previous: Option<DocId>, s': State, written: VectorIndex.Store<Record>)
    requires id in s.docs && (previous.Some? ==> previous.value in s.docs && previous.value != id)
    requires var doc, records := s.docs[id], Records(env, id, s.docs[id]);
      && (|| s'.docs == s.docs[id := doc.(ingestion := PROCESSING)]
          || s'.docs == s.docs[id := Failed(doc)]
          || s'.docs == CommittedRows(env, s.docs, id, previous)[id := Failed(Completed(doc, |records|))])
      && s'.damaged == s.damaged
      && VectorIndex.Touched(s.store, written, VectorIndex.Written(records), {})
      && VectorIndex.Touched(written, s'.store, {}, VectorIndex.Ids(RecordIds(id, doc.version, |records|)))
    ensures IncompleteStep(env, s, id, previous, s')
  {
    hide CommittedRows;
    var records := Records(env, id, s.docs[id]);
    var w, ids := VectorIndex.Written(records), VectorIndex.Ids(RecordIds(id, s.docs[id].version, |records|));
    VectorIndex.TouchedWiden(s.store, written, w, {}, w, ids);
    VectorIndex.TouchedWiden(written, s'.store, {}, ids, w, ids);
    VectorIndex.TouchedCompose(s.store, written, s'.store, w, ids);
  }

  function KeysOf(records: seq<VectorIndex.Entry<Record>>): (ids: seq<string>)
    ensures |ids| == |records| && forall i | 0 <= i < |ids| :: ids[i] == records[i].0
  {
    seq(|records|, i requires 0 <= i < |records| => records[i].0)
  }

  lemma KeysAreIds(env: Environment, id: DocId, doc: Document, records: seq<VectorIndex.Entry<Record>>)
    requires records == Records(env, id, doc)
    ensures KeysOf(records) == RecordIds(id, doc.version, |records|)
  {
  }

  lemma UpdateTwice(docs: map<DocId, Document>, id: DocId, first: Document, second: Document)
    ensures docs[id := first][id := second] == docs[id := second]
  {
  }

  lemma FailedFrom(env: Environment, s: State, id: DocId, previous: Option<DocId>, s': State,
                   written: VectorIndex.Store<Record>, records: seq<VectorIndex.Entry<Record>>)
    requires id in s.docs && (previous.Some? ==> previous.value in s.docs && previous.value != id)
    requires records == [] || records == Records(env, id, s.docs[id])
    requires
      || s'.docs == s.docs[id := s.docs[id].(ingestion := PROCESSING)]
      || s'.docs == s.docs[id := Failed(s.docs[id])]
      || s'.docs == CommittedRows(env, s.docs, id, previous)[id := Failed(Completed(s.docs[id], |Records(env, id, s.docs[id])|))]
    requires s'.damaged == s.damaged
    requires VectorIndex.Touched(s.store, written, VectorIndex.Written(Records(env, id, s.docs[id])), {})
    requires VectorIndex.Touched(written, s'.store, {}, VectorIndex.Ids(KeysOf(records)))
    ensures IncompleteStep(env, s, id, previous, s')
    ensures records != [] ==>
      VectorIndex.Ids(KeysOf(records)) == VectorIndex.Ids(RecordIds(id, s.docs[id].version, |Records(env, id, s.docs[id])|))
  {
    hide CommittedRows, Records, VectorIndex.Touched, ChunkId.Key;
    var ids := VectorIndex.Ids(RecordIds(id, s.docs[id].version, |Records(env, id, s.docs[id])|));
    if records != [] {
      KeysAreIds(env, id, s.docs[id], records);
    }
    VectorIndex.TouchedWiden(written, s'.store, {}, VectorIndex.Ids(KeysOf(records)), {}, ids);
    IncompleteFrom(env, s, id, previous, s', written);
  }

  /** The result was committed or not, and nothing that happened afterwards reached the rows. */
  lemma EscapedFrom(env: Environment, s: State, id: DocId, previous: Option<DocId>, s': State,
                    records: seq<VectorIndex.Entry<Record>>, committed: bool)
    requires id in s.docs && (previous.Some? ==> previous.value in s.docs && previous.value != id)
    requires records != [] && records == Records(env, id, s.docs[id])
    requires VectorIndex.Touched(VectorIndex.WriteAll(s.store, records), s'.store, {}, VectorIndex.Ids(KeysOf(records)))
      || s'.store == VectorIndex.WriteAll(s.store, records)
    requires s'.docs == if committed then CommittedRows(env, s.docs, id, previous) else s.docs[id := s.docs[id].(ingestion := PROCESSING)]
    requires s'.damaged ==
      if committed && s'.store != VectorIndex.WriteAll(s.store, records) then s.damaged + {id} else s.damaged
    ensures CompletedStep(env, s, id, previous, s') || IncompleteStep(env, s, id, previous, s')
      || StrandedStep(env, s, id, previous, s')
  {
    hide CommittedRows, Records, RecordIds, Leftovers, VectorIndex.Touched, VectorIndex.WriteAll, IncompleteStep, KeysOf;
    var full := VectorIndex.WriteAll(s.store, records);
    KeysAreIds(env, id, s.docs[id], records);
    VectorIndex.TouchedReflexive(full, VectorIndex.Ids(KeysOf(records)));
    if committed {
      VectorIndex.TouchedReflexive(full, if previous.None? then {} else Leftovers(s.docs, previous.value));
    } else {
      VectorIndex.WriteAllTouches(s.store, records);
      IncompleteFrom(env, s, id, previous, s', full);
    }
  }

  lemma WorkingRowsAre(env: Environment, docs: map<DocId, Document>, id: DocId, previous: Option<DocId>,
                       working: map<DocId, Document>, count: nat)
    requires id in docs && (previous.Some? ==> previous.value in docs && previous.value != id)
    requires count == |Records(env, id, docs[id])|
    requires var docs1 := docs[id := Completed(docs[id], count)];
      working == if previous.None? then docs1 else docs1[previous.value := docs[previous.value].(status := SUPERSEDED, isActive := false)]
    ensures working == CommittedRows(env, docs, id, previous)
    ensures working[id := Failed(working[id])] == CommittedRows(env, docs, id, previous)[id := Failed(Completed(docs[id], count))]
  {
    hide Records;
  }

  lemma CompletedFrom(env: Environment, s: State, id: DocId, previous: Option<DocId>, s': State,
                      records: seq<VectorIndex.Entry<Record>>)
    requires id in s.docs && (previous.Some? ==> previous.value in s.docs && previous.value != id)
    requires records != [] && records == Records(env, id, s.docs[id])
    requires s'.docs == CommittedRows(env, s.docs, id, previous) && s'.damaged == s.damaged
    requires VectorIndex.Touched(VectorIndex.WriteAll(s.store, records), s'.store, {},
               if previous.None? then {} else Leftovers(s.docs, previous.value))
    ensures CompletedStep(env, s, id, previous, s')
    ensures id in s'.docs && s'.docs[id].status == ACTIVE
    ensures previous.Some? ==> previous.value in s'.docs && s'.docs[previous.value].status == SUPERSEDED
  {
    hide Records, VectorIndex.Touched;
  }
}
