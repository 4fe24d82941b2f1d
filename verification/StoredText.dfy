/**
 * What the vector store holds, said of the text of the files: `_records` of `backend/app/rag/ingestion.py` cleans the
 * extracted text and stores the pieces that `chunk_text` cuts it into.
 */
module StoredText {
  import opened Common
  import opened PyText
  import opened Knowledge
  import opened VectorIndex
  import Chunking
  import CleanText
  import ChunkId

  /**
   * `texts` are the pieces of a cleaned text at the spans `at`: stripped, within both limits, in order, and together they
   * hold every character that is not space.
   */
  ghost predicate PiecesAt(env: Environment, cleaned: string, texts: seq<string>, at: seq<Span>) {
    && |at| == |texts|
    && (forall i | 0 <= i < |at| ::
          && at[i].lo < at[i].hi <= |cleaned|
          && texts[i] == cleaned[at[i].lo..at[i].hi]
          && !IsSpace(cleaned[at[i].lo]) && !IsSpace(cleaned[at[i].hi - 1])
          && |texts[i]| <= env.chunkSize
          && Utf8Bytes(texts[i]) <= Chunking.ByteLimit(env.chunkSize, env.model))
    && (forall i, j | 0 <= i < j < |at| :: at[i].lo <= at[j].lo)
    && (forall k | 0 <= k < |cleaned| && !IsSpace(cleaned[k]) :: exists i :: 0 <= i < |at| && at[i].lo <= k < at[i].hi)
  }

  function TextsOf(records: seq<Entry<Record>>): (texts: seq<string>)
    ensures |texts| == |records| && forall i | 0 <= i < |records| :: texts[i] == records[i].1.text
  {
    seq(|records|, i requires 0 <= i < |records| => records[i].1.text)
  }

  /** The records of a row are the pieces of its cleaned file, or there are none because the file is of no use. */
  lemma RecordsArePieces(env: Environment, id: DocId, doc: Document) returns (at: seq<Span>)
    ensures var records := Records(env, id, doc);
      match env.extract(doc.checksum)
      case None => records == []
      case Some(text) =>
        var cleaned := CleanText.Clean(text);
        && (records == [] <==> Chunking.ChunkText(cleaned, env.chunkSize, env.overlap, env.model).Err?)
        && (records != [] ==> PiecesAt(env, cleaned, TextsOf(records), at))
  {
    hide Chunking.ChunkText, CleanText.Clean, ChunkId.Key, PiecesAt;
    at := [];
    var records := Records(env, id, doc);
    if env.extract(doc.checksum).Some? {
      var cleaned := CleanText.Clean(env.extract(doc.checksum).value);
      var r := Chunking.ChunkText(cleaned, env.chunkSize, env.overlap, env.model);
      if r.Ok? {
        at := ChunksArePieces(env, cleaned, r.value, TextsOf(records));
      }
    }
  }

  lemma ChunksArePieces(env: Environment, cleaned: string, chunks: seq<Chunking.TextChunk>, texts: seq<string>) returns (at: seq<Span>)
    requires Chunking.ChunkText(cleaned, env.chunkSize, env.overlap, env.model) == Ok(chunks)
    requires |texts| == |chunks| && forall i | 0 <= i < |chunks| :: texts[i] == chunks[i].text
    ensures chunks != [] && PiecesAt(env, cleaned, texts, at)
  {
    hide Chunking.ChunkText, Chunking.ByteLimit, Utf8Bytes;
    at := Chunking.ChunkTextIsLossless(cleaned, env.chunkSize, env.overlap, env.model, chunks);
    var c := Chunking.Config(env.chunkSize, env.overlap, Chunking.ByteLimit(env.chunkSize, env.model));
    forall i | 0 <= i < |at|
      ensures Chunking.GoodChunkSpan(cleaned, c, at[i]) && texts[i] == cleaned[at[i].lo..at[i].hi]
    {
      assert chunks[i] == Chunking.TextChunk(i, Chunking.Slice(cleaned, at[i]));
    }
  }

  /** What every stored text is free of. */
  ghost predicate Plain(s: string) {
    && (forall i | 0 <= i < |s| :: s[i] != '\0' && s[i] != '\r' && s[i] != '\t')
    && (forall i | 0 < i < |s| :: !(s[i - 1] == ' ' && s[i] == ' '))
    && (forall i | 1 < i < |s| :: !(s[i - 2] == '\n' && s[i - 1] == '\n' && s[i] == '\n'))
  }

  lemma PiecesArePlain(text: string, lo: nat, hi: nat)
    requires lo <= hi <= |CleanText.Clean(text)|
    ensures Plain(CleanText.Clean(text)[lo..hi])
  {
    hide CleanText.Clean;
    CleanText.CleanIsTidy(text);
    var cleaned := CleanText.Clean(text);
    var s := cleaned[lo..hi];
    assert forall i | 0 <= i < |s| :: s[i] == cleaned[lo + i];
    forall i | 0 < i < |s| ensures !(s[i - 1] == ' ' && s[i] == ' ') {
      assert CleanText.PairOk(cleaned[lo + i - 1], cleaned[lo + i]);
    }
    forall i | 1 < i < |s| ensures !(s[i - 2] == '\n' && s[i - 1] == '\n' && s[i] == '\n') {
      var j := lo + i;
      assert !(cleaned[j - 2] == '\n' && cleaned[j - 1] == '\n' && cleaned[j] == '\n');
    }
  }

  /**
   * In every state of every run, a record carries the company, the metadata and the version of its row, and its text is a
   * plain piece of the cleaned text of the row's file, within both limits.
   */
  lemma StoredTextIsCleaned(env: Environment, ops: seq<Op>, states: seq<State>, n: nat, k: string) returns (text: string, piece: Span)
    requires IsRun(env, ops, states) && n < |states| && k in states[n].store
    ensures var r, docs := states[n].store[k], states[n].docs;
      && r.document in docs && env.extract(docs[r.document].checksum) == Some(text)
      && r.company == env.company && r.metadata == docs[r.document].metadata && r.version == docs[r.document].version
      && piece.lo < piece.hi <= |CleanText.Clean(text)| && r.text == CleanText.Clean(text)[piece.lo..piece.hi]
      && |r.text| <= env.chunkSize && Utf8Bytes(r.text) <= Chunking.ByteLimit(env.chunkSize, env.model)
      && Plain(r.text)
  {
    hide IsRun, RowsOk, DamageRecorded, Environment.Chunks, CleanText.Clean, ChunkId.Key, Plain, Chunking.ChunkText, Utf8Bytes;
    StoreAgreesWithRows(env, ops, states, n);
    var r, docs := states[n].store[k], states[n].docs;
    assert SoundRecord(env, docs, k, r);
    var doc := docs[r.document];
    var records := Records(env, r.document, doc);
    assert records[r.chunkIndex].1 == r;
    var at := RecordsArePieces(env, r.document, doc);
    text := env.extract(doc.checksum).value;
    piece := at[r.chunkIndex];
    assert TextsOf(records)[r.chunkIndex] == r.text;
    PiecesArePlain(text, piece.lo, piece.hi);
  }

  /**
   * The records of an ACTIVE document that lost none hold the cleaned text of its file: piece `i` under the key of number
   * `i`, in order, and together every character that is not space.
   */
  lemma ActiveTextIsStored(env: Environment, ops: seq<Op>, states: seq<State>, n: nat, d: DocId) returns (text: string, at: seq<Span>)
    requires IsRun(env, ops, states) && n < |states|
    requires d in states[n].docs && states[n].docs[d].status == ACTIVE && d !in states[n].damaged
    ensures var doc, store := states[n].docs[d], states[n].store;
      && env.extract(doc.checksum) == Some(text)
      && 0 < doc.chunkCount
      && (forall i: nat | i < doc.chunkCount :: ChunkId.Key(d, doc.version, i) in store)
      && PiecesAt(env, CleanText.Clean(text),
           seq(doc.chunkCount, (i: nat) => TextAt(store, ChunkId.Key(d, doc.version, i))), at)
  {
    hide IsRun, SoundRecord, Environment.Chunks, CleanText.Clean, ChunkId.Key, ChunkId.NoColon, Chunking.ChunkText, PiecesAt;
    StoreAgreesWithRows(env, ops, states, n);
    var doc, store := states[n].docs[d], states[n].store;
    CompletedCounts(env, states[n].docs, d);
    var records := Records(env, d, doc);
    at := RecordsArePieces(env, d, doc);
    text := env.extract(doc.checksum).value;
    var texts := seq(doc.chunkCount, (i: nat) => TextAt(store, ChunkId.Key(d, doc.version, i)));
    forall i: nat | i < doc.chunkCount ensures ChunkId.Key(d, doc.version, i) in store && texts[i] == TextsOf(records)[i] {
      StoredUnderKey(env, states[n].docs, store, d, i);
      assert texts[i] == TextAt(store, ChunkId.Key(d, doc.version, i));
    }
    assert texts == TextsOf(records);
  }

  function TextAt(store: Store<Record>, k: string): string {
    if k in store then store[k].text else ""
  }

  /** The record under a key of a document is the one built for it. */
  lemma StoredUnderKey(env: Environment, docs: map<DocId, Document>, store: Store<Record>, d: DocId, i: nat)
    requires Identified(docs) && StoreSound(env, docs, store) && d in docs && HasAll(env, d, docs[d], store)
    requires i < |env.Chunks(docs[d].checksum)|
    ensures ChunkId.Key(d, docs[d].version, i) in store
    ensures store[ChunkId.Key(d, docs[d].version, i)] == Records(env, d, docs[d])[i].1
  {
    hide Environment.Chunks, ChunkId.Key, ChunkId.NoColon;
    var k := ChunkId.Key(d, docs[d].version, i);
    var r := store[k];
    assert SoundRecord(env, docs, k, r);
    ChunkId.KeyRoundTrip(d, docs[d].version, i);
    ChunkId.KeyRoundTrip(r.document, docs[r.document].version, r.chunkIndex);
  }
}
