/**
 * Runs of the knowledge life cycle after which the two stores do not serve a document as its row promises. The exact
 * conditions are `Knowledge.IngestKeepsCompleteExactlyWhen` and `Knowledge.DeletionIsCompleteExactlyWhen`.
 */
module LifecycleFailures {
  import opened Common
  import opened Knowledge
  import opened VectorIndex
  import Chunking
  import CleanText
  import ChunkId

  /** An environment in which every file holds one letter, and hence one chunk. */
  const LETTERS := Environment("company", (checksum: string) => Some("x"), 1000, 100, "multilingual-e5-large")

  lemma OneLetterHasAChunk()
    ensures var r := Chunking.ChunkText(CleanText.Clean("x"), 1000, 100, "multilingual-e5-large"); r.Ok? && r.value != []
  {
    hide CleanText.Clean, Chunking.Emitted, Chunking.Iterations, Chunking.ChunksOf;
    CleanText.TidyIsUnchanged("x");
    Chunking.ChunkTextOutcome("x", 1000, 100, "multilingual-e5-large");
    Chunking.ChunkCountBound("x", Chunking.Config(1000, 100, 480), 0);
  }

  lemma LettersHaveChunks(checksum: string)
    ensures LETTERS.Chunks(checksum) != []
  {
    OneLetterHasAChunk();
  }

  /**
   * One creation: the records are written and confirmed, the result is committed, reading the row back fails, the
   * compensation succeeds, and the mark of the failure is not committed. The document is ACTIVE and cannot be found.
   */
  lemma FailureAfterCommitStrands(id: DocId, checksum: string, m: Metadata) returns (ops: seq<Op>, states: seq<State>)
    requires ChunkId.NoColon(id)
    ensures IsRun(LETTERS, ops, states) && |ops| == 1
    ensures id in states[1].docs && states[1].docs[id].status == ACTIVE && states[1].store == map[] && !ActiveComplete(LETTERS, states[1])
  {
    hide RecordFor, Environment.Chunks, ChunkId.Key, Touched, WriteAll, HasAll;
    LettersHaveChunks(checksum);
    var row := Pending(1, None, checksum, m);
    var s := EMPTY.(docs := map[id := row]);
    var records := Records(LETTERS, id, row);
    var full := WriteAll(map[], records);
    var s' := State(CommittedRows(LETTERS, s.docs, id, None), map[], {id});
    WriteAllHasAll(LETTERS, id, row, map[]);
    NothingHasAll(LETTERS, id, row);
    OwnRecordsOnly(id, row, full);
    assert StrandedStep(LETTERS, s, id, None, s');
    assert CreateStep(LETTERS, EMPTY, id, checksum, m, s');
    ops, states := [Create(id, checksum, m)], [EMPTY, s'];
    SameHasAll(LETTERS, id, row, s'.docs[id], map[]);
  }

  lemma NothingHasAll(env: Environment, id: DocId, doc: Document)
    requires env.Chunks(doc.checksum) != []
    ensures !HasAll(env, id, doc, map[])
  {
    var empty: Store<Record> := map[];
    assert ChunkId.Key(id, doc.version, 0) !in empty;
  }

  lemma OwnRecordsOnly(id: DocId, row: Document, full: Store<Record>)
    requires full == WriteAll(map[], Records(LETTERS, id, row))
    ensures Touched(full, map[], {}, Ids(RecordIds(id, row.version, |Records(LETTERS, id, row)|)))
  {
    hide RecordFor, Environment.Chunks, ChunkId.Key;
    var records := Records(LETTERS, id, row);
    WriteAllTouches(map[], records);
    forall k | k in full ensures k in RecordIds(id, row.version, |records|) {
      assert (k, full[k]) in records;
      var i :| 0 <= i < |records| && records[i] == (k, full[k]);
      assert RecordIds(id, row.version, |records|)[i] == k;
    }
  }

  /**
   * A creation whose records are written but not confirmed, and whose compensation fails, leaves a FAILED row that counts
   * no chunks. Its deletion succeeds and removes nothing.
   */
  lemma DeletionCanLeaveOrphans(id: DocId, checksum: string, m: Metadata) returns (ops: seq<Op>, states: seq<State>)
    requires ChunkId.NoColon(id)
    ensures IsRun(LETTERS, ops, states) && |ops| == 2
    ensures id in states[2].docs && states[2].docs[id].status == DELETED
    ensures exists k :: k in states[2].store && states[2].store[k].document == id
  {
    hide RecordFor, Environment.Chunks, ChunkId.Key, Touched, WriteAll;
    LettersHaveChunks(checksum);
    var row := Pending(1, None, checksum, m);
    var s := EMPTY.(docs := map[id := row]);
    var records := Records(LETTERS, id, row);
    var full := WriteAll(map[], records);
    var s1 := State(map[id := Failed(row)], full, {});
    var s2 := State(map[id := Failed(row).(status := DELETED)], full, {});
    WriteAllTouches(map[], records);
    TouchedWiden(map[], full, Written(records), {}, Written(records), Ids(RecordIds(id, 1, |records|)));
    assert s1.docs == s.docs[id := Failed(row)];
    assert IncompleteStep(LETTERS, s, id, None, s1);
    assert CreateStep(LETTERS, EMPTY, id, checksum, m, s1);
    TouchedReflexive(full, {});
    NoCountNoLeftovers(s1.docs, id);
    assert s2.docs == s1.docs[id := s1.docs[id].(status := DELETED, isActive := false)];
    assert DeleteStep(s1, id, s2);
    ops, states := [Create(id, checksum, m), Delete(id)], [EMPTY, s1, s2];
    FirstRecordStored(id, row, full);
  }

  lemma NoCountNoLeftovers(docs: map<DocId, Document>, id: DocId)
    requires id in docs && docs[id].chunkCount == 0
    ensures Leftovers(docs, id) == {}
  {
  }

  lemma FirstRecordStored(id: DocId, row: Document, full: Store<Record>)
    requires LETTERS.Chunks(row.checksum) != [] && full == WriteAll(map[], Records(LETTERS, id, row))
    ensures exists k :: k in full && full[k].document == id
  {
    hide Environment.Chunks, ChunkId.Key;
    var records := Records(LETTERS, id, row);
    var k := records[0].0;
    WriteAllAt(map[], map[], records, k);
    var i :| 0 <= i < |records| && records[i] == (k, full[k]);
    assert full[k] == RecordFor(LETTERS, id, row, i);
  }
}
