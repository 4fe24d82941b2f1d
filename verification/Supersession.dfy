/**
 * Versions of a document: what the life cycle of module `Knowledge` guarantees about chains of `supersedes` links.
 *
 * The links themselves are always in order. That a chain has at most one ACTIVE version, and that ACTIVE documents
 * have different checksums, holds as long as no retry revives a row whose predecessor or twin is ACTIVE: `retry`
 * neither passes a previous document nor looks for duplicates. `RetryIsSafeExactlyWhen` states the condition.
 */
module Supersession {
  import opened Common
  import opened Knowledge
  import VectorIndex
  import ChunkId
  import LifecycleFailures

  type Rows = map<DocId, Document>

  /** Each link leads to an existing row of the version before, whose own ingestion was completed. */
  ghost predicate Links(docs: Rows) {
    forall d | d in docs ::
      match docs[d].supersedes
      case None => docs[d].version == 1
      case Some(p) => p in docs && docs[d].version == docs[p].version + 1 && docs[p].ingestion == COMPLETED
  }

  ghost predicate OneSuccessor(docs: Rows) {
    forall d, e | d in docs && e in docs && d != e :: docs[d].supersedes.Some? ==> docs[d].supersedes != docs[e].supersedes
  }

  ghost predicate Lineage(docs: Rows) {
    Links(docs) && OneSuccessor(docs)
  }

  /** A completed version has displaced its predecessor. */
  ghost predicate PredecessorsRest(docs: Rows) {
    forall d | d in docs && docs[d].supersedes.Some? && docs[d].ingestion == COMPLETED ::
      docs[d].supersedes.value in docs && docs[docs[d].supersedes.value].status != ACTIVE
  }

  ghost predicate DistinctChecksums(docs: Rows) {
    forall d, e | d in docs && e in docs && d != e && docs[d].status == ACTIVE && docs[e].status == ACTIVE ::
      docs[d].checksum != docs[e].checksum
  }

  /** The `n`-th predecessor of a row. */
  function Ancestor(docs: Rows, d: DocId, n: nat): Option<DocId>
    decreases n
  {
    if d !in docs then None
    else if n == 0 then Some(d)
    else match docs[d].supersedes
      case None => None
      case Some(p) => Ancestor(docs, p, n - 1)
  }

  /** No chain holds two ACTIVE documents. */
  ghost predicate OneActivePerChain(docs: Rows) {
    forall d, n: nat | d in docs && n > 0 :: match Ancestor(docs, d, n)
      case None => true
      case Some(a) => a in docs && !(docs[d].status == ACTIVE && docs[a].status == ACTIVE)
  }

  /** What a caller can check before a retry: neither the predecessor nor a document of the same content is ACTIVE. */
  predicate RetryIsSafe(docs: Rows, id: DocId)
    requires id in docs
  {
    && !ActiveDuplicate(docs, docs[id].checksum)
    && match docs[id].supersedes
       case None => true
       case Some(p) => p in docs ==> docs[p].status != ACTIVE
  }

  lemma {:induction false} AncestorIsCompleted(docs: Rows, d: DocId, n: nat, a: DocId)
    requires Links(docs) && PredecessorsRest(docs) && n > 0 && Ancestor(docs, d, n) == Some(a)
    requires d in docs && docs[d].ingestion == COMPLETED
    ensures a in docs && docs[a].status != ACTIVE
    decreases n
  {
    var p := docs[d].supersedes.value;
    if n == 1 {
      assert Ancestor(docs, p, 0) == Some(p);
    } else {
      AncestorIsCompleted(docs, p, n - 1, a);
    }
  }

  lemma ChainsHaveOneActive(docs: Rows)
    requires Flags(docs) && Links(docs) && PredecessorsRest(docs)
    ensures OneActivePerChain(docs)
  {
    forall d, n: nat | d in docs && n > 0 && Ancestor(docs, d, n).Some?
      ensures var a := Ancestor(docs, d, n).value; a in docs && !(docs[d].status == ACTIVE && docs[a].status == ACTIVE)
    {
      AncestorIsRow(docs, d, n);
      if docs[d].status == ACTIVE {
        AncestorIsCompleted(docs, d, n, Ancestor(docs, d, n).value);
      }
    }
  }

  lemma {:induction false} AncestorIsRow(docs: Rows, d: DocId, n: nat)
    requires Ancestor(docs, d, n).Some?
    ensures Ancestor(docs, d, n).value in docs
    decreases n
  {
    if n == 0 {
    } else {
      AncestorIsRow(docs, docs[d].supersedes.value, n - 1);
    }
  }

  // ----- rows change in a few ways only -----

  /** A row without successors may take part in an ingestion. */
  ghost predicate NoSuccessor(docs: Rows, id: DocId) {
    forall d | d in docs :: docs[d].supersedes != Some(id)
  }

  lemma FailedHasNoSuccessor(docs: Rows, id: DocId)
    requires Links(docs) && id in docs && docs[id].ingestion != COMPLETED
    ensures NoSuccessor(docs, id)
  {
  }

  lemma RowUpdateKeepsLineage(docs: Rows, id: DocId, row: Document)
    requires Lineage(docs) && id in docs && SameIdentity(docs[id], row)
    requires NoSuccessor(docs, id) || row.ingestion == docs[id].ingestion
    ensures Lineage(docs[id := row])
  {
  }

  lemma PendingKeepsLineage(docs: Rows, id: DocId, version: nat, supersedes: Option<DocId>, checksum: string, metadata: Metadata)
    requires Lineage(docs) && id !in docs
    requires supersedes.None? ==> version == 1
    requires supersedes.Some? ==>
      && supersedes.value in docs && version == docs[supersedes.value].version + 1
      && docs[supersedes.value].ingestion == COMPLETED && !HasSuccessor(docs, supersedes.value)
    ensures var docs' := docs[id := Pending(version, supersedes, checksum, metadata)]; Lineage(docs') && NoSuccessor(docs', id)
  {
  }

  lemma IngestKeepsLineage(env: Environment, s: State, id: DocId, previous: Option<DocId>, s': State)
    requires Lineage(s.docs) && Ingestible(s, id, previous) && NoSuccessor(s.docs, id)
    requires IngestStep(env, s, id, previous, s')
    ensures Lineage(s'.docs)
  {
    hide Lineage, NoSuccessor, Records, IngestStep;
    IngestRows(env, s, id, previous, s');
    var doc := s.docs[id];
    var done := Completed(doc, |Records(env, id, doc)|);
    RowUpdateKeepsLineage(s.docs, id, done);
    RowUpdateKeepsLineage(s.docs, id, doc.(ingestion := PROCESSING));
    RowUpdateKeepsLineage(s.docs, id, Failed(doc));
    KeepsNoSuccessor(s.docs, id, id, done);
    var docs1 := s.docs[id := done];
    if previous.Some? {
      var p := previous.value;
      var rest := docs1[p].(status := SUPERSEDED, isActive := false);
      RowUpdateKeepsLineage(docs1, p, rest);
      KeepsNoSuccessor(docs1, id, p, rest);
      RowUpdateKeepsLineage(docs1[p := rest], id, Failed(done));
    } else {
      RowUpdateKeepsLineage(docs1, id, Failed(done));
    }
  }

  lemma KeepsNoSuccessor(docs: Rows, id: DocId, d: DocId, row: Document)
    requires NoSuccessor(docs, id) && d in docs && SameIdentity(docs[d], row)
    ensures NoSuccessor(docs[d := row], id)
  {
  }

  /** Links stay in order under every operation. */
  lemma StepKeepsLineage(env: Environment, s: State, op: Op, s': State)
    requires Flags(s.docs) && Lineage(s.docs) && Next(env, s, op, s')
    ensures Lineage(s'.docs)
  {
    hide Lineage, NoSuccessor, IngestStep, VectorIndex.Touched, Leftovers;
    if s' == s {
      return;
    }
    match op
    case Create(id, checksum, metadata) =>
      PendingKeepsLineage(s.docs, id, 1, None, checksum, metadata);
      IngestKeepsLineage(env, s.(docs := s.docs[id := Pending(1, None, checksum, metadata)]), id, None, s');
    case Replace(previous, id, checksum, metadata) =>
      var version := s.docs[previous].version + 1;
      PendingKeepsLineage(s.docs, id, version, Some(previous), checksum, metadata);
      IngestKeepsLineage(env, s.(docs := s.docs[id := Pending(version, Some(previous), checksum, metadata)]), id, Some(previous), s');
    case Retry(id, checksum) =>
      LineageHasLinks(s.docs);
      FailedHasNoSuccessor(s.docs, id);
      var mid :| VectorIndex.Touched(s.store, mid, {}, Leftovers(s.docs, id)) &&
        (s' == s.(store := mid) || IngestStep(env, s.(store := mid), id, None, s'));
      if s' != s.(store := mid) {
        IngestKeepsLineage(env, s.(store := mid), id, None, s');
      }
    case Delete(id) =>
      RowUpdateKeepsLineage(s.docs, id, s.docs[id].(status := DELETED, isActive := false));
  }

  lemma LineageHasLinks(docs: Rows)
    requires Lineage(docs)
    ensures Links(docs)
  {
  }

  // ----- at most one ACTIVE version -----

  ghost predicate Settled(docs: Rows) {
    Flags(docs) && Lineage(docs) && PredecessorsRest(docs) && DistinctChecksums(docs)
  }

  /** Nothing ACTIVE stands beside a row that is about to complete: no predecessor is left, and no twin. */
  ghost predicate ReadyToComplete(docs: Rows, id: DocId, previous: Option<DocId>)
    requires id in docs
  {
    && NoSuccessor(docs, id)
    && !ActiveDuplicate(docs, docs[id].checksum)
    && match docs[id].supersedes
       case None => true
       case Some(p) => previous == Some(p) || (p in docs && docs[p].status != ACTIVE)
  }

  lemma QuietRowKeepsSettled(docs: Rows, id: DocId, row: Document)
    requires Settled(docs) && id in docs && SameIdentity(docs[id], row)
    requires row.status != ACTIVE && !row.isActive
    requires row.ingestion == docs[id].ingestion || (NoSuccessor(docs, id) && row.ingestion != COMPLETED)
    ensures Settled(docs[id := row])
  {
    RowUpdateKeepsLineage(docs, id, row);
  }

  lemma CompletedRowKeepsSettled(docs: Rows, id: DocId, count: nat)
    requires Settled(docs) && id in docs && ReadyToComplete(docs, id, None)
    ensures Settled(docs[id := Completed(docs[id], count)])
  {
    var row := Completed(docs[id], count);
    RowUpdateKeepsLineage(docs, id, row);
    CompletedRowRests(docs, id, count);
    assert DistinctChecksums(docs[id := row]) by {
      hide Lineage, PredecessorsRest, NoSuccessor;
    }
  }

  lemma CompletedRowRests(docs: Rows, id: DocId, count: nat)
    requires Settled(docs) && id in docs && ReadyToComplete(docs, id, None)
    ensures PredecessorsRest(docs[id := Completed(docs[id], count)])
  {
    hide DistinctChecksums, OneSuccessor, ActiveDuplicate;
  }

  /** The predecessor goes to rest first; the order of the two updates makes no difference. */
  lemma CompletionKeepsSettled(docs: Rows, id: DocId, previous: Option<DocId>, count: nat)
    requires Settled(docs) && id in docs && ReadyToComplete(docs, id, previous)
    requires previous.Some? ==> previous.value in docs && previous.value != id
    ensures Settled(Supersede(docs[id := Completed(docs[id], count)], previous))
  {
    hide Settled, DistinctChecksums, PredecessorsRest, Lineage;
    if previous.None? {
      CompletedRowKeepsSettled(docs, id, count);
    } else {
      var p := previous.value;
      var row := docs[p].(status := SUPERSEDED, isActive := false);
      QuietRowKeepsSettled(docs, p, row);
      CompletedRowKeepsSettled(docs[p := row], id, count);
      assert docs[p := row][id := Completed(docs[id], count)] == Supersede(docs[id := Completed(docs[id], count)], previous);
    }
  }

  lemma IngestKeepsSettled(env: Environment, s: State, id: DocId, previous: Option<DocId>, s': State)
    requires Settled(s.docs) && Ingestible(s, id, previous) && ReadyToComplete(s.docs, id, previous)
    requires IngestStep(env, s, id, previous, s')
    ensures Settled(s'.docs)
  {
    hide Settled, NoSuccessor, ReadyToComplete, Records, IngestStep, Supersede;
    IngestRows(env, s, id, previous, s');
    var doc := s.docs[id];
    FlagsOfSettled(s.docs, id);
    ReadyHasNoSuccessor(s.docs, id, previous);
    var done := Completed(doc, |Records(env, id, doc)|);
    var committed := Supersede(s.docs[id := done], previous);
    CompletionKeepsSettled(s.docs, id, previous, |Records(env, id, doc)|);
    QuietRowKeepsSettled(s.docs, id, doc.(ingestion := PROCESSING));
    QuietRowKeepsSettled(s.docs, id, Failed(doc));
    CommittedHasNoSuccessor(s.docs, id, previous, done);
    QuietRowKeepsSettled(committed, id, Failed(done));
  }

  lemma ReadyHasNoSuccessor(docs: Rows, id: DocId, previous: Option<DocId>)
    requires id in docs && ReadyToComplete(docs, id, previous)
    ensures NoSuccessor(docs, id)
  {
  }

  lemma FlagsOfSettled(docs: Rows, id: DocId)
    requires Settled(docs) && id in docs
    ensures docs[id].isActive <==> docs[id].status == ACTIVE
  {
  }

  lemma CommittedHasNoSuccessor(docs: Rows, id: DocId, previous: Option<DocId>, done: Document)
    requires id in docs && NoSuccessor(docs, id) && SameIdentity(docs[id], done)
    requires previous.Some? ==> previous.value in docs && previous.value != id
    ensures var committed := Supersede(docs[id := done], previous);
      id in committed && NoSuccessor(committed, id) && committed[id] == done
  {
    hide NoSuccessor;
    KeepsNoSuccessor(docs, id, id, done);
    if previous.Some? {
      var p := previous.value;
      KeepsNoSuccessor(docs[id := done], id, p, docs[p].(status := SUPERSEDED, isActive := false));
    }
  }

  /** Create, replace and delete keep the claims; a retry does when it is safe. */
  lemma StepKeepsSettled(env: Environment, s: State, op: Op, s': State)
    requires Settled(s.docs) && Next(env, s, op, s')
    requires op.Retry? && op.id in s.docs ==> RetryIsSafe(s.docs, op.id)
    ensures Settled(s'.docs)
  {
    hide IngestStep, VectorIndex.Touched, Leftovers;
    if s' == s {
      return;
    }
    match op
    case Create(id, checksum, metadata) =>
      PendingIsReady(s.docs, id, 1, None, checksum, metadata);
      IngestKeepsSettled(env, s.(docs := s.docs[id := Pending(1, None, checksum, metadata)]), id, None, s');
    case Replace(previous, id, checksum, metadata) =>
      var version := s.docs[previous].version + 1;
      PendingIsReady(s.docs, id, version, Some(previous), checksum, metadata);
      IngestKeepsSettled(env, s.(docs := s.docs[id := Pending(version, Some(previous), checksum, metadata)]), id, Some(previous), s');
    case Retry(id, checksum) =>
      FailedHasNoSuccessor(s.docs, id);
      var mid :| VectorIndex.Touched(s.store, mid, {}, Leftovers(s.docs, id)) &&
        (s' == s.(store := mid) || IngestStep(env, s.(store := mid), id, None, s'));
      if s' != s.(store := mid) {
        IngestKeepsSettled(env, s.(store := mid), id, None, s');
      }
    case Delete(id) =>
      QuietRowKeepsSettled(s.docs, id, s.docs[id].(status := DELETED, isActive := false));
  }

  lemma PendingIsReady(docs: Rows, id: DocId, version: nat, supersedes: Option<DocId>, checksum: string, metadata: Metadata)
    requires Settled(docs) && id !in docs && !ActiveDuplicate(docs, checksum)
    requires supersedes.None? ==> version == 1
    requires supersedes.Some? ==>
      && supersedes.value in docs && version == docs[supersedes.value].version + 1
      && docs[supersedes.value].status == ACTIVE && !HasSuccessor(docs, supersedes.value)
    ensures var docs' := docs[id := Pending(version, supersedes, checksum, metadata)];
      Settled(docs') && ReadyToComplete(docs', id, supersedes)
  {
    PendingKeepsLineage(docs, id, version, supersedes, checksum, metadata);
  }

  /** The retries of the first `n` operations come when nothing ACTIVE stands beside the row. */
  ghost predicate RetriesSafe(ops: seq<Op>, states: seq<State>, n: nat)
    requires n <= |ops| <= |states|
  {
    forall i | 0 <= i < n :: ops[i].Retry? && ops[i].id in states[i].docs ==> RetryIsSafe(states[i].docs, ops[i].id)
  }

  /** Over every run links are in order; if its retries are safe, chains and checksums are as well. */
  lemma {:induction false} RunKeepsVersions(env: Environment, ops: seq<Op>, states: seq<State>, n: nat)
    requires IsRun(env, ops, states) && n < |states|
    ensures Flags(states[n].docs) && Lineage(states[n].docs)
    ensures RetriesSafe(ops, states, n) ==> Settled(states[n].docs) && OneActivePerChain(states[n].docs)
  {
    hide Next, RetryIsSafe, Lineage, OneActivePerChain, DistinctChecksums, PredecessorsRest;
    if n == 0 {
      NoRowsAreSettled(states[0].docs);
    } else {
      RunKeepsVersions(env, ops, states, n - 1);
      assert Next(env, states[n - 1], ops[n - 1], states[n - 1 + 1]);
      StoreAgreesWithRows(env, ops, states, n);
      StepKeepsLineage(env, states[n - 1], ops[n - 1], states[n]);
      if RetriesSafe(ops, states, n) {
        StepKeepsSettled(env, states[n - 1], ops[n - 1], states[n]);
      }
    }
    if Settled(states[n].docs) {
      SettledChains(states[n].docs);
    }
  }

  lemma SettledChains(docs: Rows)
    requires Settled(docs)
    ensures OneActivePerChain(docs)
  {
    ChainsHaveOneActive(docs);
  }

  lemma NoRowsAreSettled(docs: Rows)
    requires docs == map[]
    ensures Settled(docs)
  {
  }

  // ----- what a failed replacement leaves -----

  /** An active duplicate is an ACTIVE document of the same content, no more and no less. */
  lemma DuplicateMeans(docs: Rows, checksum: string)
    requires Flags(docs)
    ensures ActiveDuplicate(docs, checksum) <==> exists d | d in docs :: docs[d].checksum == checksum && docs[d].status == ACTIVE
  {
  }

  /**
   * A document can be replaced once. After the row of a replacement was committed, every later replacement of the same
   * document is without effect, whatever became of the first: only a retry of that row can go on.
   */
  lemma ReplacementIsTriedOnce(env: Environment, ops: seq<Op>, states: seq<State>, i: nat, j: nat, p: DocId, d: DocId,
                               id: DocId, checksum: string, m: Metadata, s': State)
    requires IsRun(env, ops, states) && i <= j < |states|
    requires d in states[i].docs && states[i].docs[d].supersedes == Some(p)
    requires Next(env, states[j], Replace(p, id, checksum, m), s')
    ensures s' == states[j]
  {
    hide IsRun, IngestStep;
    RunExtends(env, ops, states, i, j);
    assert SameIdentity(states[i].docs[d], states[j].docs[d]);
  }

  // ----- when a retry breaks them -----

  /** A retry that commits its result leaves chains and checksums in order exactly when it was safe before the call. */
  lemma RetryIsSafeExactlyWhen(env: Environment, docs: Rows, id: DocId)
    requires Settled(docs) && id in docs && docs[id].ingestion == FAILED
    ensures var docs' := CommittedRows(env, docs, id, None);
      OneActivePerChain(docs') && DistinctChecksums(docs') <==> RetryIsSafe(docs, id)
  {
    hide Records;
    var doc, docs' := docs[id], CommittedRows(env, docs, id, None);
    FailedHasNoSuccessor(docs, id);
    if RetryIsSafe(docs, id) {
      CompletionKeepsSettled(docs, id, None, |Records(env, id, doc)|);
      ChainsHaveOneActive(docs');
    } else if ActiveDuplicate(docs, doc.checksum) {
      var e :| e in docs && docs[e].checksum == doc.checksum && docs[e].isActive && docs[e].ingestion == COMPLETED;
      assert e != id && docs'[e] == docs[e] && docs'[id].checksum == docs'[e].checksum;
    } else {
      var p := doc.supersedes.value;
      assert p != id && docs'[p] == docs[p];
      assert Ancestor(docs', p, 0) == Some(p);
      assert Ancestor(docs', id, 1) == Some(p);
    }
  }

  /** Create, a replacement that fails, and its retry: two versions of one chain are ACTIVE at the end. */
  lemma RetriedReplacementLeavesTwoActive(env: Environment, c1: string, c2: string, m: Metadata)
    returns (ops: seq<Op>, states: seq<State>)
    requires env.Chunks(c1) != [] && env.Chunks(c2) != [] && c1 != c2
    ensures IsRun(env, ops, states) && |ops| == 3
    ensures !OneActivePerChain(states[3].docs)
  {
    hide VectorIndex.WriteAll, ChunkId.Key, RecordFor, Environment.Chunks, CreateStep, ReplaceStep, RetryStep, Records;
    var a1 := Pending(1, None, c1, m);
    var a2 := Completed(a1, |Records(env, "a", a1)|);
    var b1 := Pending(2, Some("a"), c2, m);
    var b2 := Failed(b1);
    var b3 := Completed(b2, |Records(env, "b", b2)|);
    var store1 := VectorIndex.WriteAll(map[], Records(env, "a", a1));
    var store3 := VectorIndex.WriteAll(store1, Records(env, "b", b2));
    var s1 := State(map["a" := a2], store1, {});
    var s2 := State(map["a" := a2, "b" := b2], store1, {});
    var s3 := State(map["a" := a2, "b" := b3], store3, {});
    ops := [Create("a", c1, m), Replace("a", "b", c2, m), Retry("b", c2)];
    states := [EMPTY, s1, s2, s3];
    FirstCreate(env, "a", c1, m, s1);
    FailedReplace(env, s1, "a", "b", c2, m, s2);
    CompletedRetry(env, s2, "b", c2, s3);
    assert Ancestor(s3.docs, "a", 0) == Some("a");
    assert Ancestor(s3.docs, "b", 1) == Some("a");
  }

  /** Such a run exists: two files of one letter each are enough. */
  lemma RetryCanBreakAChain(m: Metadata) returns (env: Environment, ops: seq<Op>, states: seq<State>)
    ensures IsRun(env, ops, states) && |ops| == 3
    ensures !OneActivePerChain(states[3].docs)
  {
    hide IsRun, OneActivePerChain;
    env := LifecycleFailures.LETTERS;
    LifecycleFailures.LettersHaveChunks("one");
    LifecycleFailures.LettersHaveChunks("two");
    assert "one"[0] != "two"[0];
    ops, states := RetriedReplacementLeavesTwoActive(env, "one", "two", m);
  }

  lemma FirstCreate(env: Environment, id: DocId, checksum: string, m: Metadata, s': State)
    requires ChunkId.NoColon(id) && env.Chunks(checksum) != []
    requires var row := Pending(1, None, checksum, m);
      s' == State(map[id := Completed(row, |Records(env, id, row)|)], VectorIndex.WriteAll(map[], Records(env, id, row)), {})
    ensures Next(env, EMPTY, Create(id, checksum, m), s')
  {
    hide VectorIndex.WriteAll, ChunkId.Key, RecordFor, Environment.Chunks;
    var row := Pending(1, None, checksum, m);
    var s1 := EMPTY.(docs := EMPTY.docs[id := row]);
    assert s'.docs == s1.docs[id := Completed(row, |Records(env, id, row)|)];
    assert CompletedStep(env, s1, id, None, s');
  }

  lemma FailedReplace(env: Environment, s: State, p: DocId, id: DocId, checksum: string, m: Metadata, s': State)
    requires p in s.docs && s.docs[p].status == ACTIVE && id !in s.docs && ChunkId.NoColon(id)
    requires !ActiveDuplicate(s.docs, checksum) && !HasSuccessor(s.docs, p)
    requires s' == s.(docs := s.docs[id := Failed(Pending(s.docs[p].version + 1, Some(p), checksum, m))])
    ensures Next(env, s, Replace(p, id, checksum, m), s')
  {
    hide ChunkId.Key, RecordFor, Environment.Chunks;
    var row := Pending(s.docs[p].version + 1, Some(p), checksum, m);
    var s1 := s.(docs := s.docs[id := row]);
    assert s'.docs == s1.docs[id := Failed(row)];
    assert IncompleteStep(env, s1, id, Some(p), s');
  }

  lemma CompletedRetry(env: Environment, s: State, id: DocId, checksum: string, s': State)
    requires id in s.docs && s.docs[id].ingestion == FAILED && s.docs[id].checksum == checksum
    requires env.Chunks(checksum) != [] && s.damaged == {}
    requires var records := Records(env, id, s.docs[id]);
      s' == State(s.docs[id := Completed(s.docs[id], |records|)], VectorIndex.WriteAll(s.store, records), {})
    ensures Next(env, s, Retry(id, checksum), s')
  {
    hide VectorIndex.WriteAll, ChunkId.Key, RecordFor, Environment.Chunks;
    var mid := s.store;
    assert s.(store := mid) == s;
    assert CompletedStep(env, s.(store := mid), id, None, s');
    assert VectorIndex.Touched(s.store, mid, {}, Leftovers(s.docs, id));
  }
}
