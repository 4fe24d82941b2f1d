/**
 * `backend/app/rag/chunking.py`: splitting a cleaned text into overlapping chunks.
 *
 * The functions say which spans of the text the loops visit; the methods are the loops. The lemmas say what the
 * spans are worth: nothing but whitespace is lost, every chunk obeys both size limits, and the loop makes progress.
 */
module Chunking {
  import opened Common
  import opened PyText

  const MAX_CHUNKS_PER_DOCUMENT := 10_000
  const MULTILINGUAL_E5_SAFE_UTF8_BYTES := 480

  datatype TextChunk = TextChunk(index: nat, text: string)

  datatype ChunkError = NoUsableText | InvalidConfiguration | CannotBeSafelyChunked | TooManyChunks | NoUsableChunks

  /** Settings that passed the checks at the top of `chunk_text`. */
  datatype Config = Config(size: nat, overlap: nat, byteLimit: nat) {
    predicate Valid() {
      0 < size && overlap < size && 4 <= byteLimit
    }

    /** How far every iteration but the last one moves the start of the window. */
    function MinimumStep(): (step: nat)
      ensures step >= 1
    {
      Max(1, Min(size, byteLimit / 4) / 2 - overlap)
    }
  }

  function ByteLimit(chunkSize: nat, model: string): nat {
    if model == "multilingual-e5-large" then MULTILINGUAL_E5_SAFE_UTF8_BYTES else chunkSize * 4
  }

  function Min(a: int, b: int): int { if a < b then a else b }

  function Max(a: int, b: int): int { if a < b then b else a }

  /**
   * The limit of the model that counts bytes strictly is 480. For any other, no slice of `chunkSize` characters exceeds
   * the limit, and some slice reaches it.
   */
  lemma ByteLimitIs(chunkSize: nat, model: string) returns (widest: string)
    ensures model == "multilingual-e5-large" ==> ByteLimit(chunkSize, model) == 480
    ensures model != "multilingual-e5-large" ==>
      && (forall s: string | |s| <= chunkSize :: Utf8Bytes(s) <= ByteLimit(chunkSize, model))
      && |widest| == chunkSize && Utf8Bytes(widest) == ByteLimit(chunkSize, model)
  {
    widest := WideText(chunkSize);
  }

  lemma {:induction false} WideText(n: nat) returns (s: string)
    ensures |s| == n && Utf8Bytes(s) == 4 * n
  {
    if n == 0 {
      s := "";
    } else {
      var front := WideText(n - 1);
      s := front + ['\U{1F600}'];
      assert s[..n - 1] == front;
    }
  }

  // ----- where a chunk ends -----

  function FitEnd(text: string, start: nat, end: nat, limit: nat): (r: nat)
    requires start <= end <= |text|
    ensures start <= r <= end
  {
    if end > start && Utf8Bytes(text[start..end]) > limit then FitEnd(text, start, end - 1, limit) else end
  }

  /** `FitEnd` is the largest end not beyond `end` at which the slice fits into the byte limit. */
  lemma {:induction false} FitEndIsGreatest(text: string, start: nat, end: nat, limit: nat)
    requires start <= end <= |text|
    ensures Utf8Bytes(text[start..FitEnd(text, start, end, limit)]) <= limit
    ensures forall e | FitEnd(text, start, end, limit) < e <= end :: Utf8Bytes(text[start..e]) > limit
  {
    if end > start && Utf8Bytes(text[start..end]) > limit {
      FitEndIsGreatest(text, start, end - 1, limit);
    } else {
      assert end == start ==> text[start..end] == "";
    }
  }

  /** A slice that stops before `end` holds at least `limit / 4` characters. */
  lemma FitEndIsWide(text: string, start: nat, end: nat, limit: nat)
    requires start <= end <= |text|
    ensures FitEnd(text, start, end, limit) >= Min(end, start + limit / 4)
  {
    var r := FitEnd(text, start, end, limit);
    FitEndIsGreatest(text, start, end, limit);
    if r < end {
      assert Utf8Bytes(text[start..r + 1]) > limit;
    }
  }

  /** `_bounded_end`. It raises exactly when not even the first character fits. */
  method BoundedEnd(text: string, start: nat, desired: nat, limit: nat) returns (r: Result<nat, ChunkError>)
    requires start < |text| && start < desired
    ensures r.Err? <==> Utf8Length(text[start]) > limit
    ensures r.Err? ==> r.error == CannotBeSafelyChunked
    ensures r.Ok? ==> start < r.value == FitEnd(text, start, Min(desired, |text|), limit)
  {
    var end := Min(desired, |text|);
    ghost var top := end;
    while end > start && Utf8Bytes(text[start..end]) > limit
      invariant start <= end <= top
      invariant FitEnd(text, start, end, limit) == FitEnd(text, start, top, limit)
    {
      end := end - 1;
    }
    FirstCharacterFits(text, start, top, limit);
    if end == start {
      return Err(CannotBeSafelyChunked);
    }
    return Ok(end);
  }

  lemma FirstCharacterFits(text: string, start: nat, end: nat, limit: nat)
    requires start < end <= |text|
    ensures start < FitEnd(text, start, end, limit) <==> Utf8Length(text[start]) <= limit
  {
    var r := FitEnd(text, start, end, limit);
    FitEndIsGreatest(text, start, end, limit);
    var first := text[start..start + 1];
    assert first == [text[start]] && first[..0] == "";
    assert Utf8Bytes(first) == Utf8Length(text[start]);
    if start < r {
      Utf8BytesSlice(text[start..r], 0, 1);
      assert text[start..r][0..1] == first;
    }
  }

  predicate IsSentenceEnd(c: char) {
    c == '.' || c == '!' || c == '?'
  }

  /** What `_BOUNDARY` matches at position `p` of a search that stops at `hi`: the end of the match. */
  function MatchAt(text: string, p: nat, hi: nat): (r: Option<nat>)
    requires p < hi <= |text|
    ensures r.Some? ==> p < r.value <= hi
  {
    if p + 2 <= hi && text[p] == '\n' && text[p + 1] == '\n' then Some(p + 2)
    else if p > 0 && IsSentenceEnd(text[p - 1]) && IsSpace(text[p]) then Some(SkipSpaces(text, p, hi))
    else None
  }

  /** The ends that `_BOUNDARY.finditer(text, p, hi)` produces: leftmost matches that do not overlap. */
  function MatchEnds(text: string, p: nat, hi: nat): (ends: seq<nat>)
    requires p <= hi <= |text|
    decreases hi - p
  {
    if p == hi then [] else
    match MatchAt(text, p, hi)
    case None => MatchEnds(text, p + 1, hi)
    case Some(e) => [e] + MatchEnds(text, e, hi)
  }

  /** `[candidate for candidate in candidates if candidate >= minimum]` */
  function Useful(candidates: seq<nat>, minimum: nat): seq<nat> {
    if candidates == [] then []
    else (if candidates[0] >= minimum then [candidates[0]] else []) + Useful(candidates[1..], minimum)
  }

  /** The end of a match lies right behind a paragraph break, or behind all the space that follows a sentence. */
  ghost predicate IsBoundary(text: string, e: nat, hi: nat)
    requires e <= hi <= |text|
  {
    || (2 <= e && text[e - 2] == '\n' && text[e - 1] == '\n')
    || (exists p :: 0 < p < e && IsSentenceEnd(text[p - 1]) && SkipSpaces(text, p, hi) == e)
  }

  ghost predicate BoundaryEnds(text: string, p: nat, hi: nat, ends: seq<nat>)
    requires hi <= |text|
  {
    && Increasing(ends)
    && forall i | 0 <= i < |ends| :: p < ends[i] <= hi && IsBoundary(text, ends[i], hi)
  }

  ghost predicate Increasing(ends: seq<nat>) {
    forall i, j | 0 <= i < j < |ends| :: ends[i] < ends[j]
  }

  lemma {:induction false} MatchEndsAreBoundaries(text: string, p: nat, hi: nat)
    requires p <= hi <= |text|
    ensures BoundaryEnds(text, p, hi, MatchEnds(text, p, hi))
    decreases hi - p
  {
    if p == hi {
    } else {
      var m := MatchAt(text, p, hi);
      var next := if m.Some? then m.value else p + 1;
      MatchEndsAreBoundaries(text, next, hi);
      if m.Some? {
        assert IsBoundary(text, next, hi);
        var rest := MatchEnds(text, next, hi);
        var ends := MatchEnds(text, p, hi);
        assert ends == [next] + rest;
      }
    }
  }

  /** A paragraph break, or space behind the end of a sentence, at position `q` of a slice that ends at `hi`. */
  ghost predicate BreakAt(text: string, q: nat, hi: nat)
    requires q < hi <= |text|
  {
    || (q + 1 < hi && text[q] == '\n' && text[q + 1] == '\n')
    || (0 < q && text[q - 1] in {'.', '!', '?'} && IsSpace(text[q]))
  }

  /** Such a break ends behind its two line feeds, or else at the next character that is not space. */
  ghost predicate BreaksAtUntil(text: string, q: nat, e: nat, hi: nat)
    requires q < hi <= |text|
  {
    && BreakAt(text, q, hi) && q < e <= hi
    && if q + 1 < hi && text[q] == '\n' && text[q + 1] == '\n' then e == q + 2
       else (forall k | q <= k < e :: IsSpace(text[k])) && (e < hi ==> !IsSpace(text[e]))
  }

  /** The breaks of a scan from `p`: each is the first one behind the end of the one before, and none is left out. */
  ghost predicate IsScan(text: string, p: nat, hi: nat, starts: seq<nat>, ends: seq<nat>)
    requires p <= hi <= |text|
  {
    && |starts| == |ends|
    && (forall i | 0 <= i < |starts| :: starts[i] < hi && BreaksAtUntil(text, starts[i], ends[i], hi))
    && (forall i | 0 <= i < |starts| :: FromWhere(p, ends, i) <= starts[i])
    && (forall i, q: nat | 0 <= i < |starts| && FromWhere(p, ends, i) <= q < starts[i] :: !BreakAt(text, q, hi))
    && (forall q: nat | FromWhere(p, ends, |ends|) <= q < hi :: !BreakAt(text, q, hi))
  }

  ghost function FromWhere(p: nat, ends: seq<nat>, i: nat): nat
    requires i <= |ends|
  {
    if i == 0 then p else ends[i - 1]
  }

  lemma MatchIsBreak(text: string, p: nat, hi: nat)
    requires p < hi <= |text|
    ensures MatchAt(text, p, hi).Some? <==> BreakAt(text, p, hi)
    ensures MatchAt(text, p, hi).Some? ==> BreaksAtUntil(text, p, MatchAt(text, p, hi).value, hi)
  {
  }

  /** `MatchEnds` finds the breaks of the text from left to right without overlap, every one of them. */
  lemma {:induction false} MatchEndsScan(text: string, p: nat, hi: nat) returns (starts: seq<nat>)
    requires p <= hi <= |text|
    ensures IsScan(text, p, hi, starts, MatchEnds(text, p, hi))
    decreases hi - p
  {
    hide BreakAt, BreaksAtUntil, MatchAt;
    starts := [];
    if p == hi {
    } else {
      MatchIsBreak(text, p, hi);
      var m := MatchAt(text, p, hi);
      var next := if m.Some? then m.value else p + 1;
      BreakIsAhead(text, p, hi);
      var rest := MatchEndsScan(text, next, hi);
      if m.Some? {
        starts := [p] + rest;
        ScanStartsWith(text, p, hi, next, rest, MatchEnds(text, next, hi));
      } else {
        starts := rest;
        ScanStartsLater(text, p, hi, rest, MatchEnds(text, p + 1, hi));
      }
    }
  }

  lemma BreakIsAhead(text: string, p: nat, hi: nat)
    requires p < hi <= |text|
    ensures MatchAt(text, p, hi).Some? ==> p < MatchAt(text, p, hi).value <= hi
  {
  }

  lemma ScanStartsWith(text: string, p: nat, hi: nat, e: nat, starts: seq<nat>, ends: seq<nat>)
    requires p < e <= hi <= |text| && BreaksAtUntil(text, p, e, hi) && IsScan(text, e, hi, starts, ends)
    ensures IsScan(text, p, hi, [p] + starts, [e] + ends)
  {
    hide BreakAt, BreaksAtUntil;
    var starts', ends' := [p] + starts, [e] + ends;
    forall i: nat | i < |starts'|
      ensures starts'[i] < hi && BreaksAtUntil(text, starts'[i], ends'[i], hi) && FromWhere(p, ends', i) <= starts'[i]
      ensures forall q: nat | FromWhere(p, ends', i) <= q < starts'[i] :: !BreakAt(text, q, hi)
    {
      if i > 0 {
        assert starts'[i] == starts[i - 1] && FromWhere(p, ends', i) == FromWhere(e, ends, i - 1);
      }
    }
    assert FromWhere(p, ends', |ends'|) == FromWhere(e, ends, |ends|);
  }

  lemma ScanStartsLater(text: string, p: nat, hi: nat, starts: seq<nat>, ends: seq<nat>)
    requires p < hi <= |text| && !BreakAt(text, p, hi) && IsScan(text, p + 1, hi, starts, ends)
    ensures IsScan(text, p, hi, starts, ends)
  {
    hide BreakAt, BreaksAtUntil;
    forall i: nat | i <= |ends| ensures FromWhere(p, ends, i) == if i == 0 then p else FromWhere(p + 1, ends, i) {
    }
  }

  /** A text has one scan only. */
  lemma {:induction false} ScanIsUnique(text: string, p: nat, hi: nat, starts: seq<nat>, ends: seq<nat>,
                                        starts': seq<nat>, ends': seq<nat>)
    requires p <= hi <= |text| && IsScan(text, p, hi, starts, ends) && IsScan(text, p, hi, starts', ends')
    ensures starts == starts' && ends == ends'
    decreases |starts|
  {
    hide IsScan;
    ScansBeginAlike(text, p, hi, starts, ends, starts', ends');
    if starts == [] {
    } else {
      ScanGoesOn(text, p, hi, starts, ends);
      ScanGoesOn(text, p, hi, starts', ends');
      ScanIsUnique(text, ends[0], hi, starts[1..], ends[1..], starts'[1..], ends'[1..]);
      assert starts == [starts[0]] + starts[1..] && starts' == [starts[0]] + starts'[1..];
      assert ends == [ends[0]] + ends[1..] && ends' == [ends[0]] + ends'[1..];
    }
  }

  lemma ScansBeginAlike(text: string, p: nat, hi: nat, starts: seq<nat>, ends: seq<nat>, starts': seq<nat>, ends': seq<nat>)
    requires p <= hi <= |text| && IsScan(text, p, hi, starts, ends) && IsScan(text, p, hi, starts', ends')
    ensures |starts| == |ends| && |starts'| == |ends'| && (starts == [] <==> starts' == [])
    ensures starts != [] ==> starts[0] == starts'[0] && ends[0] == ends'[0]
  {
    ScanBegins(text, p, hi, starts, ends);
    ScanBegins(text, p, hi, starts', ends');
    hide IsScan, BreakAt, BreaksAtUntil;
    if starts != [] && starts' != [] {
      assert starts[0] == starts'[0];
      BreakEndIsUnique(text, starts[0], ends[0], ends'[0], hi);
    }
  }

  /** A scan begins with the first break there is. */
  lemma ScanBegins(text: string, p: nat, hi: nat, starts: seq<nat>, ends: seq<nat>)
    requires p <= hi <= |text| && IsScan(text, p, hi, starts, ends)
    ensures |starts| == |ends|
    ensures if starts == [] then ends == [] && (forall q: nat | p <= q < hi :: !BreakAt(text, q, hi))
      else
        && p <= starts[0] < hi && starts[0] < ends[0] <= hi
        && BreakAt(text, starts[0], hi) && BreaksAtUntil(text, starts[0], ends[0], hi)
        && (forall q: nat | p <= q < starts[0] :: !BreakAt(text, q, hi))
  {
    hide BreakAt;
    assert FromWhere(p, ends, 0) == p;
  }

  lemma BreakEndIsUnique(text: string, q: nat, e: nat, e': nat, hi: nat)
    requires q < hi <= |text| && BreaksAtUntil(text, q, e, hi) && BreaksAtUntil(text, q, e', hi)
    ensures e == e'
  {
  }

  lemma ScanGoesOn(text: string, p: nat, hi: nat, starts: seq<nat>, ends: seq<nat>)
    requires p <= hi <= |text| && IsScan(text, p, hi, starts, ends) && starts != []
    ensures ends[0] <= hi && IsScan(text, ends[0], hi, starts[1..], ends[1..])
  {
    hide BreakAt;
    assert BreaksAtUntil(text, starts[0], ends[0], hi);
    hide BreaksAtUntil;
    var starts', ends' := starts[1..], ends[1..];
    forall i: nat | i <= |ends'| ensures FromWhere(ends[0], ends', i) == FromWhere(p, ends, i + 1) {
    }
    forall i: nat | i < |starts'|
      ensures starts'[i] < hi && BreaksAtUntil(text, starts'[i], ends'[i], hi) && FromWhere(ends[0], ends', i) <= starts'[i]
      ensures forall q: nat | FromWhere(ends[0], ends', i) <= q < starts'[i] :: !BreakAt(text, q, hi)
    {
      assert starts'[i] == starts[i + 1] && ends'[i] == ends[i + 1];
    }
  }

  /** So no break is overlooked: behind each there is a match end, and no further than its own space reaches. */
  lemma BreaksAreFound(text: string, p: nat, hi: nat, q: nat) returns (e: nat)
    requires p <= q < hi <= |text|
    requires
      || (q + 1 < hi && text[q] == '\n' && text[q + 1] == '\n')
      || (q > 0 && text[q - 1] in {'.', '!', '?'} && IsSpace(text[q]))
    ensures e in MatchEnds(text, p, hi)
    ensures q < e <= SkipSpaces(text, q, hi)
  {
    e := FindBreak(text, p, hi, q);
  }

  lemma {:induction false} FindBreak(text: string, p: nat, hi: nat, q: nat) returns (e: nat)
    requires p <= q < hi <= |text| && BreakAt(text, q, hi)
    ensures e in MatchEnds(text, p, hi) && q < e <= SkipSpaces(text, q, hi)
    decreases hi - p
  {
    var m := MatchAt(text, p, hi);
    if m.Some? && q < m.value {
      e := m.value;
      SkipIsOwn(text, p, q, hi, e);
    } else {
      e := FindBreak(text, if m.Some? then m.value else p + 1, hi, q);
    }
  }

  lemma SkipIsOwn(text: string, p: nat, q: nat, hi: nat, e: nat)
    requires p <= q < e <= hi <= |text| && MatchAt(text, p, hi) == Some(e)
    ensures e <= SkipSpaces(text, q, hi)
  {
    assert forall k | p <= k < e :: IsSpace(text[k]);
  }

  lemma {:induction false} LastUseful(candidates: seq<nat>, minimum: nat)
    requires Increasing(candidates)
    ensures var useful := Useful(candidates, minimum);
      if candidates != [] && candidates[|candidates| - 1] >= minimum
      then useful != [] && useful[|useful| - 1] == candidates[|candidates| - 1]
      else useful == []
  {
    if candidates == [] {
    } else {
      LastUseful(candidates[1..], minimum);
    }
  }

  /** The end chosen once the hard end is known: the last boundary in the second half, if there is one. */
  function ChooseEnd(text: string, start: nat, hardEnd: nat): (end: nat)
    requires start < hardEnd <= |text|
    ensures start < end <= hardEnd
    ensures start + (hardEnd - start) / 2 <= end
  {
    if hardEnd == |text| then hardEnd else
    var ends := MatchEnds(text, start, hardEnd);
    var minimum := start + Max(1, (hardEnd - start) / 2);
    var useful := Useful(ends, minimum);
    MatchEndsAreBoundaries(text, start, hardEnd);
    LastUseful(ends, minimum);
    if useful == [] then hardEnd else useful[|useful| - 1]
  }

  /**
   * Where text follows and the last break of the slice ends in its second half, the slice is cut behind that break. It is
   * cut at its hard end in every other case.
   */
  lemma ChooseEndIsBoundary(text: string, start: nat, hardEnd: nat, starts: seq<nat>, ends: seq<nat>)
    requires start < hardEnd <= |text| && IsScan(text, start, hardEnd, starts, ends)
    ensures var end := ChooseEnd(text, start, hardEnd);
      if hardEnd < |text| && ends != [] && ends[|ends| - 1] >= start + Max(1, (hardEnd - start) / 2)
      then end == ends[|ends| - 1] else end == hardEnd
  {
    hide IsScan;
    var starts' := MatchEndsScan(text, start, hardEnd);
    ScanIsUnique(text, start, hardEnd, starts, ends, starts', MatchEnds(text, start, hardEnd));
    MatchEndsAreBoundaries(text, start, hardEnd);
    LastUseful(ends, start + Max(1, (hardEnd - start) / 2));
  }

  /** No break in the second half of the slice is passed over: the cut comes behind it, and at a boundary. */
  lemma BreaksAreRespected(text: string, start: nat, hardEnd: nat, q: nat)
    requires start + Max(1, (hardEnd - start) / 2) <= q + 1 && start <= q < hardEnd < |text|
    requires
      || (q + 1 < hardEnd && text[q] == '\n' && text[q + 1] == '\n')
      || (q > 0 && text[q - 1] in {'.', '!', '?'} && IsSpace(text[q]))
    ensures var end := ChooseEnd(text, start, hardEnd); q < end && IsBoundary(text, end, hardEnd)
  {
    hide MatchEnds, ChooseEnd, IsBoundary, SkipSpaces;
    var e := BreaksAreFound(text, start, hardEnd, q);
    LateEndIsTaken(text, start, hardEnd, e);
  }

  lemma LateEndIsTaken(text: string, start: nat, hardEnd: nat, e: nat)
    requires start < hardEnd < |text| && e in MatchEnds(text, start, hardEnd) && start + Max(1, (hardEnd - start) / 2) <= e
    ensures var end := ChooseEnd(text, start, hardEnd); e <= end && IsBoundary(text, end, hardEnd)
  {
    hide MatchEnds, IsBoundary;
    var ends := MatchEnds(text, start, hardEnd);
    var i :| 0 <= i < |ends| && ends[i] == e;
    MatchEndsAreBoundaries(text, start, hardEnd);
    assert i < |ends| - 1 ==> ends[i] < ends[|ends| - 1];
    LastUseful(ends, start + Max(1, (hardEnd - start) / 2));
  }

  // ----- the spans the loop visits -----

  lemma ShorterFits(text: string, start: nat, end: nat, hardEnd: nat)
    requires start <= end <= hardEnd <= |text|
    ensures Utf8Bytes(text[start..end]) <= Utf8Bytes(text[start..hardEnd])
  {
    var hard := text[start..hardEnd];
    Utf8BytesSlice(hard, 0, end - start);
    SliceOfSlice(text, start, hardEnd, 0, end - start);
  }

  function HardEnd(text: string, c: Config, start: nat): (end: nat)
    requires c.Valid() && start < |text|
    ensures start < end <= |text|
    ensures end - start <= c.size
    ensures end < |text| ==> start + Min(c.size, c.byteLimit / 4) <= end
  {
    FitEndIsWide(text, start, Min(start + c.size, |text|), c.byteLimit);
    FitEnd(text, start, Min(start + c.size, |text|), c.byteLimit)
  }

  /** The hard end is the last one that both limits allow. */
  lemma HardEndIsGreatest(text: string, c: Config, start: nat, e: nat)
    requires c.Valid() && start < e <= |text|
    ensures e <= HardEnd(text, c, start) <==> e - start <= c.size && Utf8Bytes(text[start..e]) <= c.byteLimit
  {
    var top := Min(start + c.size, |text|);
    FitEndIsGreatest(text, start, top, c.byteLimit);
    if e <= HardEnd(text, c, start) {
      ShorterFits(text, start, e, HardEnd(text, c, start));
    }
  }

  function SpanEnd(text: string, c: Config, start: nat): (end: nat)
    requires c.Valid() && start < |text|
    ensures start < end <= |text|
    ensures end - start <= c.size
    ensures end < |text| ==> start + Min(c.size, c.byteLimit / 4) / 2 <= end
  {
    ChooseEnd(text, start, HardEnd(text, c, start))
  }

  lemma SpanFits(text: string, c: Config, start: nat)
    requires c.Valid() && start < |text|
    ensures Utf8Bytes(text[start..SpanEnd(text, c, start)]) <= c.byteLimit
  {
    FitEndIsGreatest(text, start, Min(start + c.size, |text|), c.byteLimit);
    ShorterFits(text, start, SpanEnd(text, c, start), HardEnd(text, c, start));
  }

  function NextStart(text: string, c: Config, start: nat, end: nat): (next: nat)
    requires start < end <= |text|
    ensures Max(start + 1, end - c.overlap) <= next <= end
    ensures next < end ==> !IsSpace(text[next])
    ensures forall k | Max(start + 1, end - c.overlap) <= k < next :: IsSpace(text[k])
  {
    SkipSpaces(text, Max(start + 1, end - c.overlap), end)
  }

  /** The stripped slices that hold text, from the iteration that starts at `start` on. */
  function Emitted(text: string, c: Config, start: nat): (r: seq<Span>)
    requires c.Valid() && start < |text|
    decreases |text| - start
  {
    var end := SpanEnd(text, c, start);
    EmitOne(text, start, end)
      + if end >= |text| then [] else Emitted(text, c, NextStart(text, c, start, end))
  }

  function EmitOne(text: string, start: nat, end: nat): (r: seq<Span>)
    requires start < end <= |text|
  {
    var stripped := StripSpan(text, start, end);
    if stripped.lo < stripped.hi then [stripped] else []
  }

  /** A slice is emitted if and only if it holds text, and from the first character that is not space to the last one. */
  lemma EmitOneIs(text: string, start: nat, end: nat)
    requires start < end <= |text|
    ensures EmitOne(text, start, end) == [] <==> forall k | start <= k < end :: IsSpace(text[k])
    ensures forall e | e in EmitOne(text, start, end) ::
      && start <= e.lo < e.hi <= end && !IsSpace(text[e.lo]) && !IsSpace(text[e.hi - 1])
      && (forall k | start <= k < e.lo :: IsSpace(text[k])) && (forall k | e.hi <= k < end :: IsSpace(text[k]))
    ensures |EmitOne(text, start, end)| <= 1
  {
  }

  /** How often the loop body runs. */
  function Iterations(text: string, c: Config, start: nat): (n: nat)
    requires c.Valid() && start < |text|
    ensures 1 <= n
    decreases |text| - start
  {
    var end := SpanEnd(text, c, start);
    1 + if end >= |text| then 0 else Iterations(text, c, NextStart(text, c, start, end))
  }

  function ChunksOf(text: string, emitted: seq<Span>): (chunks: seq<TextChunk>)
    ensures |chunks| == |emitted|
    ensures forall i | 0 <= i < |chunks| :: chunks[i] == TextChunk(i, Slice(text, emitted[i]))
  {
    seq(|emitted|, i requires 0 <= i < |emitted| => TextChunk(i, Slice(text, emitted[i])))
  }

  function Slice(text: string, s: Span): string {
    if s.lo <= s.hi <= |text| then text[s.lo..s.hi] else ""
  }

  ghost predicate GoodSpan(text: string, c: Config, s: Span) {
    s.lo < s.hi <= |text| && s.hi - s.lo <= c.size && Utf8Bytes(text[s.lo..s.hi]) <= c.byteLimit
  }

  ghost predicate GoodChunkSpan(text: string, c: Config, s: Span) {
    GoodSpan(text, c, s) && !IsSpace(text[s.lo]) && !IsSpace(text[s.hi - 1])
  }

  // ----- chunk_text -----

  /** `chunk_text` as a function of its arguments. */
  function ChunkText(text: string, chunkSize: int, overlap: int, model: string): Result<seq<TextChunk>, ChunkError> {
    if Strip(text) == "" then Err(NoUsableText)
    else if chunkSize <= 0 || overlap < 0 || overlap >= chunkSize then Err(InvalidConfiguration)
    else
      CheckNumber(ChunksOf(text, Emitted(text, Config(chunkSize, overlap, ByteLimit(chunkSize, model)), 0)))
  }

  function CheckNumber(chunks: seq<TextChunk>): Result<seq<TextChunk>, ChunkError> {
    if |chunks| > MAX_CHUNKS_PER_DOCUMENT then Err(TooManyChunks)
    else if chunks == [] then Err(NoUsableChunks)
    else Ok(chunks)
  }

  /** The part of the loop body that fixes the end of the current slice. */
  method CutAt(text: string, start: nat, c: Config) returns (end: nat)
    requires c.Valid() && start < |text|
    ensures end == SpanEnd(text, c, start)
  {
    var bounded := BoundedEnd(text, start, start + c.size, c.byteLimit);
    if bounded.Err? {
      assert false;
    }
    var hardEnd := bounded.value;
    end := hardEnd;
    if hardEnd < |text| {
      var useful := Useful(MatchEnds(text, start, hardEnd), start + Max(1, (hardEnd - start) / 2));
      if useful != [] {
        assert useful[|useful| - 1] in useful;
        end := useful[|useful| - 1];
      }
    }
  }

  method MoveStart(text: string, c: Config, start: nat, end: nat) returns (nextStart: nat)
    requires start < end <= |text|
    ensures nextStart == NextStart(text, c, start, end)
    ensures Max(start + 1, end - c.overlap) <= nextStart <= end
    ensures forall k | Max(start + 1, end - c.overlap) <= k < nextStart :: IsSpace(text[k])
    ensures nextStart < end ==> !IsSpace(text[nextStart])
  {
    nextStart := Max(start + 1, end - c.overlap);
    while nextStart < end && IsSpace(text[nextStart])
      invariant nextStart <= end
      invariant NextStart(text, c, start, end) == SkipSpaces(text, nextStart, end)
    {
      nextStart := nextStart + 1;
    }
  }

  method ChunkTextLoop(text: string, chunkSize: int, overlap: int, model: string)
    returns (r: Result<seq<TextChunk>, ChunkError>)
    ensures r == ChunkText(text, chunkSize, overlap, model)
    ensures r != Err(CannotBeSafelyChunked)
  {
    hide SpanEnd, NextStart, EmitOne, Emitted, ChunksOf, StripSpan;
    if Strip(text) == "" {
      return Err(NoUsableText);
    }
    if chunkSize <= 0 || overlap < 0 || overlap >= chunkSize {
      return Err(InvalidConfiguration);
    }
    var c := Config(chunkSize, overlap, ByteLimit(chunkSize, model));
    ghost var all := Emitted(text, c, 0);
    assert ChunkText(text, chunkSize, overlap, model) == CheckNumber(ChunksOf(text, all));
    hide ChunkText;
    ghost var seen: seq<Span>, rest := [], all;
    var chunks: seq<TextChunk> := [];
    var start := 0;
    while start < |text|
      invariant start <= |text|
      invariant all == seen + rest
      invariant rest == Rest(text, c, start)
      invariant chunks == ChunksOf(text, seen)
      invariant |chunks| <= MAX_CHUNKS_PER_DOCUMENT
      decreases |text| - start
    {
      var end := CutAt(text, start, c);
      var value := Strip(text[start..end]);
      AppendChunk(text, seen, start, end);
      RestUnfolds(text, c, start);
      ghost var one := EmitOne(text, start, end);
      ghost var tail := Rest(text, c, if end < |text| then NextStart(text, c, start, end) else |text|);
      ConcatAssociative(seen, one, tail);
      seen, rest := seen + one, tail;
      if value != "" {
        chunks := chunks + [TextChunk(|chunks|, value)];
      }
      assert chunks == ChunksOf(text, seen);
      if |chunks| > MAX_CHUNKS_PER_DOCUMENT {
        TooManyAlready(text, seen, rest);
        return Err(TooManyChunks);
      }
      if end >= |text| {
        start := |text|;
        break;
      }
      start := MoveStart(text, c, start, end);
    }
    assert rest == [] && seen + [] == seen;
    if chunks == [] {
      return Err(NoUsableChunks);
    }
    return Ok(chunks);
  }

  lemma TooManyAlready(text: string, seen: seq<Span>, rest: seq<Span>)
    requires |ChunksOf(text, seen)| > MAX_CHUNKS_PER_DOCUMENT
    ensures CheckNumber(ChunksOf(text, seen + rest)) == Err(TooManyChunks)
  {
  }

  lemma ConcatAssociative(a: seq<Span>, b: seq<Span>, c: seq<Span>)
    ensures a + (b + c) == (a + b) + c
  {
  }

  ghost function Rest(text: string, c: Config, start: nat): seq<Span>
    requires c.Valid()
  {
    if start < |text| then Emitted(text, c, start) else []
  }

  lemma RestUnfolds(text: string, c: Config, start: nat)
    requires c.Valid() && start < |text|
    ensures var end := SpanEnd(text, c, start);
      var next := if end < |text| then NextStart(text, c, start, end) else |text|;
      Rest(text, c, start) == EmitOne(text, start, end) + Rest(text, c, next)
  {
  }

  lemma AppendChunk(text: string, seen: seq<Span>, start: nat, end: nat)
    requires start < end <= |text|
    ensures var value := Strip(text[start..end]);
      ChunksOf(text, seen + EmitOne(text, start, end)) ==
      ChunksOf(text, seen) + if value == "" then [] else [TextChunk(|seen|, value)]
  {
    StripOfSlice(text, start, end);
  }

  // ----- what the chunks are worth -----

  /** One iteration emits at most one slice, and a good one. */
  lemma EmitOneIsGood(text: string, c: Config, start: nat)
    requires c.Valid() && start < |text|
    ensures forall e | e in EmitOne(text, start, SpanEnd(text, c, start)) :: start <= e.lo && GoodChunkSpan(text, c, e)
  {
    var end := SpanEnd(text, c, start);
    SpanFits(text, c, start);
    var stripped := StripSpan(text, start, end);
    InnerFits(text, start, end, stripped);
  }

  lemma InnerFits(text: string, start: nat, end: nat, inner: Span)
    requires start <= inner.lo <= inner.hi <= end <= |text|
    ensures Utf8Bytes(text[inner.lo..inner.hi]) <= Utf8Bytes(text[start..end])
  {
    var whole := text[start..end];
    Utf8BytesSlice(whole, inner.lo - start, inner.hi - start);
    SliceOfSlice(text, start, end, inner.lo - start, inner.hi - start);
  }

  lemma {:induction false} EmittedIsGood(text: string, c: Config, start: nat)
    requires c.Valid() && start < |text|
    ensures forall e | e in Emitted(text, c, start) :: start <= e.lo && GoodChunkSpan(text, c, e)
    decreases |text| - start
  {
    var end := SpanEnd(text, c, start);
    EmitOneIsGood(text, c, start);
    if end == |text| {
    } else {
      EmittedIsGood(text, c, NextStart(text, c, start, end));
    }
  }

  ghost predicate InOrder(spans: seq<Span>) {
    forall i, j | 0 <= i < j < |spans| :: spans[i].lo <= spans[j].lo
  }

  /** Stripping can move two neighbouring starts together, never past each other. */
  lemma {:induction false} EmittedInOrder(text: string, c: Config, start: nat)
    requires c.Valid() && start < |text|
    ensures InOrder(Emitted(text, c, start))
    decreases |text| - start
  {
    var end := SpanEnd(text, c, start);
    var first := EmitOne(text, start, end);
    if end == |text| {
    } else {
      var next := NextStart(text, c, start, end);
      EmittedInOrder(text, c, next);
      EmittedIsGood(text, c, next);
      EmitOneNotPast(text, start, end, next);
      AppendInOrder(first, Emitted(text, c, next), next);
    }
  }

  lemma EmitOneNotPast(text: string, start: nat, end: nat, next: nat)
    requires start < next <= end <= |text| && (next < end ==> !IsSpace(text[next]))
    ensures forall e | e in EmitOne(text, start, end) :: e.lo <= next
  {
  }

  lemma AppendInOrder(first: seq<Span>, rest: seq<Span>, next: nat)
    requires |first| <= 1 && InOrder(rest)
    requires forall e | e in first :: e.lo <= next
    requires forall e | e in rest :: next <= e.lo
    ensures InOrder(first + rest)
  {
  }

  /** No character that is not whitespace is lost. */
  lemma {:induction false} EmittedCovers(text: string, c: Config, start: nat, k: nat) returns (i: nat)
    requires c.Valid() && start <= k < |text| && !IsSpace(text[k])
    ensures i < |Emitted(text, c, start)|
    ensures var e := Emitted(text, c, start)[i]; e.lo <= k < e.hi
    decreases |text| - start
  {
    var end := SpanEnd(text, c, start);
    var first := EmitOne(text, start, end);
    if k < end {
      i := 0;
      assert first != [];
    } else {
      var j := EmittedCovers(text, c, NextStart(text, c, start, end), k);
      i := |first| + j;
    }
  }

  /** Every iteration but the last one moves the start forward by at least `MinimumStep`. */
  lemma StartMoves(text: string, c: Config, start: nat)
    requires c.Valid() && start < |text| && SpanEnd(text, c, start) < |text|
    ensures start + c.MinimumStep() <= NextStart(text, c, start, SpanEnd(text, c, start))
  {
  }

  lemma {:induction false} EmittedAtMostIterations(text: string, c: Config, start: nat)
    requires c.Valid() && start < |text|
    ensures |Emitted(text, c, start)| <= Iterations(text, c, start)
    decreases |text| - start
  {
    var end := SpanEnd(text, c, start);
    if end == |text| {
    } else {
      EmittedAtMostIterations(text, c, NextStart(text, c, start, end));
    }
  }

  /** `n` starts that lie at least `step` apart fit into `room` positions. */
  ghost predicate Paced(n: nat, step: nat, room: int) {
    0 <= room && (n <= 1 || Paced(n - 1, step, room - step))
  }

  lemma {:induction false} PacedMonotone(n: nat, step: nat, room: int, more: int)
    requires Paced(n, step, room) && room <= more
    ensures Paced(n, step, more)
  {
    if n <= 1 {
    } else {
      PacedMonotone(n - 1, step, room - step, more - step);
    }
  }

  lemma {:induction false} PacedBound(n: nat, step: nat, room: int)
    requires 1 <= n && Paced(n, step, room)
    ensures (n - 1) * step <= room
  {
    if n <= 1 {
    } else {
      PacedBound(n - 1, step, room - step);
      assert (n - 1) * step == (n - 1 - 1) * step + step;
    }
  }

  lemma {:induction false} IterationsArePaced(text: string, c: Config, start: nat)
    requires c.Valid() && start < |text|
    ensures Paced(Iterations(text, c, start), c.MinimumStep(), |text| - 1 - start)
    decreases |text| - start
  {
    hide SpanEnd, NextStart, Config.MinimumStep;
    var end := SpanEnd(text, c, start);
    if end == |text| {
    } else {
      var next := NextStart(text, c, start, end);
      StartMoves(text, c, start);
      IterationsArePaced(text, c, next);
      OneMorePace(Iterations(text, c, next), c.MinimumStep(), |text| - 1, start, next);
    }
  }

  lemma OneMorePace(n: nat, step: nat, last: nat, start: nat, next: nat)
    requires 1 <= n && start + step <= next && Paced(n, step, last - next)
    ensures Paced(1 + n, step, last - start)
  {
    PacedMonotone(n, step, last - next, last - start - step);
  }

  ghost predicate AllGood(text: string, c: Config, spans: seq<Span>) {
    forall i | 0 <= i < |spans| :: GoodChunkSpan(text, c, spans[i])
  }

  ghost predicate Covers(text: string, spans: seq<Span>) {
    forall k | 0 <= k < |text| && !IsSpace(text[k]) :: exists i :: 0 <= i < |spans| && spans[i].lo <= k < spans[i].hi
  }

  lemma EmittedIsLossless(text: string, c: Config)
    requires c.Valid() && text != ""
    ensures var at := Emitted(text, c, 0); AllGood(text, c, at) && InOrder(at) && Covers(text, at)
  {
    var at := Emitted(text, c, 0);
    EmittedInOrder(text, c, 0);
    assert AllGood(text, c, at) by {
      EmittedIsGood(text, c, 0);
      assert forall i | 0 <= i < |at| :: at[i] in at;
    }
    forall k | 0 <= k < |text| && !IsSpace(text[k]) ensures exists i :: 0 <= i < |at| && at[i].lo <= k < at[i].hi {
      var i := EmittedCovers(text, c, 0, k);
    }
  }

  /**
   * On success the chunks are stripped nonempty slices of the text, at most `chunkSize` characters and the byte limit
   * long, numbered from 0 and in source order, and together they hold every character that is not whitespace.
   */
  lemma ChunkTextIsLossless(text: string, chunkSize: int, overlap: int, model: string, chunks: seq<TextChunk>)
    returns (at: seq<Span>)
    requires ChunkText(text, chunkSize, overlap, model) == Ok(chunks)
    ensures 0 <= overlap < chunkSize
    ensures chunks == ChunksOf(text, at) && 0 < |chunks| <= 10_000
    ensures AllGood(text, Config(chunkSize, overlap, ByteLimit(chunkSize, model)), at)
    ensures InOrder(at)
    ensures Covers(text, at)
  {
    hide Emitted, AllGood, InOrder, Covers, StripSpan, ChunksOf;
    var c := Config(chunkSize, overlap, ByteLimit(chunkSize, model));
    at := Emitted(text, c, 0);
    EmittedIsLossless(text, c);
  }

  /**
   * `chunk_text` fails for three reasons only; its two other errors cannot occur. With usable text and settings it fails
   * exactly if the loop emits too many slices.
   */
  lemma ChunkTextOutcome(text: string, chunkSize: int, overlap: int, model: string)
    ensures var r := ChunkText(text, chunkSize, overlap, model);
      && (r == Err(NoUsableText) <==> AllSpace(text))
      && (r == Err(InvalidConfiguration) <==> !AllSpace(text) && !(0 <= overlap < chunkSize))
      && (r == Err(TooManyChunks) <==>
            && !AllSpace(text) && 0 <= overlap < chunkSize
            && |Emitted(text, Config(chunkSize, overlap, ByteLimit(chunkSize, model)), 0)| > 10_000)
      && r != Err(NoUsableChunks) && r != Err(CannotBeSafelyChunked)
  {
    StripEmpty(text);
    if !AllSpace(text) && 0 <= overlap < chunkSize {
      var k :| 0 <= k < |text| && !IsSpace(text[k]);
      var i := EmittedCovers(text, Config(chunkSize, overlap, ByteLimit(chunkSize, model)), 0, k);
    }
  }

  /** Only a text longer than 10000 minimum steps can produce too many chunks. */
  lemma TooManyChunksNeedLongText(text: string, chunkSize: int, overlap: int, model: string)
    requires ChunkText(text, chunkSize, overlap, model) == Err(TooManyChunks)
    ensures 0 <= overlap < chunkSize
    ensures |text| > 10_000 * Config(chunkSize, overlap, ByteLimit(chunkSize, model)).MinimumStep()
  {
    hide Emitted, Iterations, ChunkText, Config.MinimumStep;
    ChunkTextOutcome(text, chunkSize, overlap, model);
    var c := Config(chunkSize, overlap, ByteLimit(chunkSize, model));
    var n, step := Iterations(text, c, 0), c.MinimumStep();
    ChunkCountBound(text, c, 0);
    assert MAX_CHUNKS_PER_DOCUMENT * step <= (n - 1) * step by {
      assert (n - 1) * step == MAX_CHUNKS_PER_DOCUMENT * step + (n - 1 - MAX_CHUNKS_PER_DOCUMENT) * step;
    }
  }

  /** The number of chunks is bounded by the number of iterations, and that by the length of the text. */
  lemma ChunkCountBound(text: string, c: Config, start: nat)
    requires c.Valid() && start < |text|
    ensures |Emitted(text, c, start)| <= Iterations(text, c, start)
    ensures (Iterations(text, c, start) - 1) * c.MinimumStep() <= |text| - 1 - start
  {
    hide SpanEnd, NextStart, Emitted, Iterations, Paced, Config.MinimumStep;
    EmittedAtMostIterations(text, c, start);
    IterationsArePaced(text, c, start);
    PacedBound(Iterations(text, c, start), c.MinimumStep(), |text| - 1 - start);
  }
}
