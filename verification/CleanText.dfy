/**
 * `clean_text` of `backend/app/rag/extractors.py`: every extracted document passes through it before it is chunked.
 *
 * Cleaning changes layout only. The words of the text stay the same (`CleanKeepsTokens`), the result is in a normal
 * form (`CleanIsTidy`), and a text in that form is left alone (`TidyIsUnchanged`), so cleaning twice is cleaning once.
 */
module CleanText {
  import opened PyText

  // ----- the steps of clean_text -----

  function RemoveNul(s: string): string {
    if s == "" then "" else (if s[0] == '\0' then "" else [s[0]]) + RemoveNul(s[1..])
  }

  /** `value.replace("\r\n", "\n")` */
  function ReplaceCrLf(s: string): string {
    if s == "" then ""
    else if |s| >= 2 && s[0] == '\r' && s[1] == '\n' then "\n" + ReplaceCrLf(s[2..])
    else [s[0]] + ReplaceCrLf(s[1..])
  }

  /** `value.replace("\r", "\n")` */
  function ReplaceCr(s: string): string {
    if s == "" then "" else [if s[0] == '\r' then '\n' else s[0]] + ReplaceCr(s[1..])
  }

  /** The index of the first line feed, or the length. */
  function LineEnd(s: string): (n: nat)
    ensures n <= |s|
    ensures forall i | 0 <= i < n :: s[i] != '\n'
    ensures n < |s| ==> s[n] == '\n'
  {
    if s == "" || s[0] == '\n' then 0 else 1 + LineEnd(s[1..])
  }

  /** `value.split("\n")` */
  function Lines(s: string): (lines: seq<string>)
    ensures lines != []
  {
    var n := LineEnd(s);
    if n == |s| then [s] else [s[..n]] + Lines(s[n + 1..])
  }

  /** `"\n".join(lines)` */
  function Join(lines: seq<string>): string
    requires lines != []
  {
    if |lines| == 1 then lines[0] else lines[0] + ("\n" + Join(lines[1..]))
  }

  /** Runs of spaces and tabs become one space; `open` says that the run already produced its space. */
  function Collapse(s: string, open: bool): string {
    if s == "" then ""
    else if s[0] == ' ' || s[0] == '\t' then (if open then "" else " ") + Collapse(s[1..], true)
    else [s[0]] + Collapse(s[1..], false)
  }

  function TidyLine(line: string): string {
    Strip(Collapse(line, false))
  }

  function TidyLines(lines: seq<string>): (r: seq<string>)
    ensures |r| == |lines|
  {
    if lines == [] then [] else [TidyLine(lines[0])] + TidyLines(lines[1..])
  }

  /** Runs of three or more line feeds become two; `run` counts the line feeds just kept. */
  function LimitBlank(s: string, run: nat): string {
    if s == "" then ""
    else if s[0] != '\n' then [s[0]] + LimitBlank(s[1..], 0)
    else if run < 2 then "\n" + LimitBlank(s[1..], run + 1)
    else LimitBlank(s[1..], run)
  }

  function Normalize(s: string): string {
    ReplaceCr(ReplaceCrLf(RemoveNul(s)))
  }

  function Clean(value: string): string {
    Strip(LimitBlank(Join(TidyLines(Lines(Normalize(value)))), 0))
  }

  // ----- the words of a text -----

  function Flush(word: string): seq<string> {
    if word == "" then [] else [word]
  }

  /** `str.split()` of `word + s`, where `word` is the beginning of the current word. */
  function Tokens(s: string, word: string): seq<string> {
    if s == "" then Flush(word)
    else if IsSpace(s[0]) then Flush(word) + Tokens(s[1..], "")
    else Tokens(s[1..], word + [s[0]])
  }

  /** Whitespace separates: the words before and behind it do not depend on each other. */
  lemma {:induction false} TokensSplit(a: string, space: char, b: string, word: string)
    requires IsSpace(space)
    ensures Tokens(a + ([space] + b), word) == Tokens(a, word) + Tokens(b, "")
  {
    var whole := a + ([space] + b);
    if a == "" {
      assert whole == [space] + b && whole[1..] == b;
    } else {
      assert whole[0] == a[0] && whole[1..] == a[1..] + ([space] + b);
      if IsSpace(a[0]) {
        TokensSplit(a[1..], space, b, "");
      } else {
        TokensSplit(a[1..], space, b, word + [a[0]]);
      }
    }
  }

  lemma {:induction false} TokensOfSpace(s: string)
    requires AllSpace(s)
    ensures Tokens(s, "") == []
  {
    if s == "" {
    } else {
      TokensOfSpace(s[1..]);
    }
  }

  lemma TokensDropEnds(front: string, middle: string, back: string)
    requires AllSpace(front) && AllSpace(back)
    ensures Tokens(front + middle + back, "") == Tokens(middle, "")
  {
    var rest := middle + back;
    if back == "" {
      assert rest == middle;
    } else {
      assert rest == middle + ([back[0]] + back[1..]);
      TokensSplit(middle, back[0], back[1..], "");
      TokensOfSpace(back[1..]);
    }
    if front == "" {
      assert front + middle + back == rest;
    } else {
      var n := |front| - 1;
      assert front + middle + back == front[..n] + ([front[n]] + rest);
      TokensSplit(front[..n], front[n], rest, "");
      TokensOfSpace(front[..n]);
    }
  }

  lemma StripKeepsTokens(s: string)
    ensures Tokens(Strip(s), "") == Tokens(s, "")
  {
    hide Tokens, SkipSpaces, TrimRight;
    var span := StripSpan(s, 0, |s|);
    var front, back := s[..span.lo], s[span.hi..];
    assert AllSpace(front) && AllSpace(back) by {
      assert forall i | 0 <= i < |front| :: front[i] == s[i];
      assert forall i | 0 <= i < |back| :: back[i] == s[span.hi + i];
    }
    assert front + s[span.lo..span.hi] + back == s;
    TokensDropEnds(front, s[span.lo..span.hi], back);
  }

  lemma {:induction false} ReplaceCrLfKeepsTokens(s: string, word: string)
    ensures Tokens(ReplaceCrLf(s), word) == Tokens(s, word)
  {
    if s == "" {
    } else if |s| >= 2 && s[0] == '\r' && s[1] == '\n' {
      ReplaceCrLfKeepsTokens(s[2..], "");
      assert s[1..][1..] == s[2..] && s[1..][0] == '\n';
      assert Tokens(s[1..], "") == Flush("") + Tokens(s[2..], "");
    } else {
      ReplaceCrLfKeepsTokens(s[1..], if IsSpace(s[0]) then "" else word + [s[0]]);
    }
  }

  lemma {:induction false} ReplaceCrKeepsTokens(s: string, word: string)
    ensures Tokens(ReplaceCr(s), word) == Tokens(s, word)
  {
    if s == "" {
    } else {
      ReplaceCrKeepsTokens(s[1..], if IsSpace(s[0]) then "" else word + [s[0]]);
    }
  }

  lemma {:induction false} CollapseKeepsTokens(s: string, open: bool, word: string)
    requires open ==> word == ""
    ensures Tokens(Collapse(s, open), word) == Tokens(s, word)
  {
    if s == "" {
    } else if s[0] == ' ' || s[0] == '\t' {
      CollapseKeepsTokens(s[1..], true, "");
      var rest := Collapse(s[1..], true);
      assert open ==> Collapse(s, open) == rest;
      assert !open ==> Collapse(s, open)[0] == ' ' && Collapse(s, open)[1..] == rest;
    } else {
      var out := [s[0]] + Collapse(s[1..], false);
      assert out[1..] == Collapse(s[1..], false);
      CollapseKeepsTokens(s[1..], false, if IsSpace(s[0]) then "" else word + [s[0]]);
    }
  }

  lemma {:induction false} LimitBlankKeepsTokens(s: string, run: nat, word: string)
    requires run > 0 ==> word == ""
    ensures Tokens(LimitBlank(s, run), word) == Tokens(s, word)
  {
    if s == "" {
    } else if s[0] != '\n' {
      var out := [s[0]] + LimitBlank(s[1..], 0);
      assert out[1..] == LimitBlank(s[1..], 0);
      LimitBlankKeepsTokens(s[1..], 0, if IsSpace(s[0]) then "" else word + [s[0]]);
    } else if run < 2 {
      var out := "\n" + LimitBlank(s[1..], run + 1);
      assert out[1..] == LimitBlank(s[1..], run + 1);
      LimitBlankKeepsTokens(s[1..], run + 1, "");
    } else {
      LimitBlankKeepsTokens(s[1..], run, "");
    }
  }

  lemma {:induction false} JoinLines(s: string)
    ensures Join(Lines(s)) == s
  {
    hide LineEnd;
    var n := LineEnd(s);
    if n == |s| {
    } else {
      JoinLines(s[n + 1..]);
      JoinCons(s[..n], Lines(s[n + 1..]));
      assert s == s[..n] + ("\n" + s[n + 1..]);
    }
  }

  lemma JoinCons(line: string, rest: seq<string>)
    requires rest != []
    ensures Join([line] + rest) == line + ("\n" + Join(rest))
  {
    assert ([line] + rest)[1..] == rest;
  }

  lemma {:induction false} TidyLinesKeepTokens(lines: seq<string>)
    requires lines != []
    ensures Tokens(Join(TidyLines(lines)), "") == Tokens(Join(lines), "")
  {
    var line, rest := lines[0], lines[1..];
    StripKeepsTokens(Collapse(line, false));
    CollapseKeepsTokens(line, false, "");
    if rest == [] {
      assert TidyLines(lines) == [TidyLine(line)];
    } else {
      TidyLinesKeepTokens(rest);
      assert TidyLines(lines)[1..] == TidyLines(rest);
      TokensSplit(line, '\n', Join(rest), "");
      TokensSplit(TidyLine(line), '\n', Join(TidyLines(rest)), "");
    }
  }

  /** Cleaning keeps every word and their order; only NUL characters disappear from them. */
  lemma CleanKeepsTokens(value: string)
    ensures Tokens(Clean(value), "") == Tokens(RemoveNul(value), "")
  {
    hide Tokens, RemoveNul, ReplaceCr, ReplaceCrLf, Lines, TidyLines, Join, LimitBlank, Strip;
    var plain := RemoveNul(value);
    ReplaceCrLfKeepsTokens(plain, "");
    ReplaceCrKeepsTokens(ReplaceCrLf(plain), "");
    var text := Normalize(value);
    JoinLines(text);
    TidyLinesKeepTokens(Lines(text));
    var joined := Join(TidyLines(Lines(text)));
    LimitBlankKeepsTokens(joined, 0, "");
    StripKeepsTokens(LimitBlank(joined, 0));
  }

  // ----- the normal form -----

  /** Neighbouring characters of a cleaned text: no double space, and no space at either side of a line feed. */
  predicate PairOk(a: char, b: char) {
    && !(a == ' ' && b == ' ')
    && (a == '\n' ==> b == '\n' || !IsSpace(b))
    && (b == '\n' ==> a == '\n' || !IsSpace(a))
  }

  ghost predicate PairsOk(s: string) {
    forall i | 0 < i < |s| :: PairOk(s[i - 1], s[i])
  }

  predicate CharOk(c: char) {
    c != '\0' && c != '\r' && c != '\t'
  }

  ghost predicate CharsOk(s: string) {
    forall i | 0 <= i < |s| :: CharOk(s[i])
  }

  ghost predicate NoTriple(s: string) {
    forall i | 1 < i < |s| :: !(s[i - 2] == '\n' && s[i - 1] == '\n' && s[i] == '\n')
  }

  ghost predicate EndsInk(s: string) {
    s != "" ==> !IsSpace(s[0]) && !IsSpace(s[|s| - 1])
  }

  /** The normal form: no NUL, CR or tab, no double space, no blank at a line end, no triple line feed, stripped. */
  ghost predicate Tidy(s: string) {
    CharsOk(s) && PairsOk(s) && NoTriple(s) && EndsInk(s)
  }

  ghost predicate NoLineFeed(s: string) {
    forall i | 0 <= i < |s| :: s[i] != '\n'
  }

  ghost predicate LineOk(s: string) {
    CharsOk(s) && NoLineFeed(s) && EndsInk(s) && PairsOk(s)
  }

  ghost predicate NoNulOrCr(s: string) {
    forall i | 0 <= i < |s| :: s[i] != '\0' && s[i] != '\r'
  }

  lemma {:induction false} NormalizeRemoves(s: string)
    ensures forall i | 0 <= i < |RemoveNul(s)| :: RemoveNul(s)[i] != '\0'
  {
    if s == "" {
    } else {
      NormalizeRemoves(s[1..]);
    }
  }

  lemma {:induction false} ReplaceCrLfNoNul(s: string)
    requires forall i | 0 <= i < |s| :: s[i] != '\0'
    ensures forall i | 0 <= i < |ReplaceCrLf(s)| :: ReplaceCrLf(s)[i] != '\0'
  {
    if s == "" {
    } else {
      ReplaceCrLfNoNul(s[if |s| >= 2 && s[0] == '\r' && s[1] == '\n' then 2 else 1..]);
    }
  }

  lemma {:induction false} ReplaceCrClean(s: string)
    requires forall i | 0 <= i < |s| :: s[i] != '\0'
    ensures NoNulOrCr(ReplaceCr(s))
  {
    if s == "" {
    } else {
      ReplaceCrClean(s[1..]);
    }
  }

  lemma NormalizeIsClean(s: string)
    ensures NoNulOrCr(Normalize(s))
  {
    NormalizeRemoves(s);
    ReplaceCrLfNoNul(RemoveNul(s));
    ReplaceCrClean(ReplaceCrLf(RemoveNul(s)));
  }

  lemma {:induction false} CollapseIsOk(s: string, open: bool)
    requires NoNulOrCr(s) && NoLineFeed(s)
    ensures var r := Collapse(s, open); CharsOk(r) && NoLineFeed(r) && PairsOk(r) && (open && r != "" ==> r[0] != ' ')
  {
    if s == "" {
    } else {
      if s[0] == ' ' || s[0] == '\t' {
        CollapseIsOk(s[1..], true);
        assert !open ==> Collapse(s, open) == " " + Collapse(s[1..], true);
      } else {
        CollapseIsOk(s[1..], false);
        assert Collapse(s, open) == [s[0]] + Collapse(s[1..], false);
      }
    }
  }

  lemma TidyLineIsOk(line: string)
    requires NoNulOrCr(line) && NoLineFeed(line)
    ensures LineOk(TidyLine(line))
  {
    hide Collapse, SkipSpaces, TrimRight;
    CollapseIsOk(line, false);
    var s := Collapse(line, false);
    var span := StripSpan(s, 0, |s|);
    var r := s[span.lo..span.hi];
    assert forall i | 0 <= i < |r| :: r[i] == s[span.lo + i];
  }

  lemma {:induction false} LinesAreClean(s: string)
    requires NoNulOrCr(s)
    ensures forall i | 0 <= i < |Lines(s)| :: NoNulOrCr(Lines(s)[i]) && NoLineFeed(Lines(s)[i])
  {
    var n := LineEnd(s);
    if n == |s| {
    } else {
      LinesAreClean(s[n + 1..]);
    }
  }

  lemma {:induction false} TidyLinesAreOk(lines: seq<string>)
    requires forall i | 0 <= i < |lines| :: NoNulOrCr(lines[i]) && NoLineFeed(lines[i])
    ensures forall i | 0 <= i < |lines| :: LineOk(TidyLines(lines)[i])
  {
    if lines == [] {
    } else {
      TidyLineIsOk(lines[0]);
      TidyLinesAreOk(lines[1..]);
    }
  }

  lemma {:induction false} JoinIsOk(lines: seq<string>)
    requires lines != [] && forall i | 0 <= i < |lines| :: LineOk(lines[i])
    ensures var r := Join(lines); CharsOk(r) && PairsOk(r) && (r != "" ==> r[0] == '\n' || !IsSpace(r[0]))
  {
    if |lines| > 1 {
      JoinIsOk(lines[1..]);
      var first, rest := lines[0], Join(lines[1..]);
      var tail := "\n" + rest;
      assert LineOk(first);
      assert PairsOk(tail) && CharsOk(tail);
      ConcatOk(first, tail);
    } else {
      assert LineOk(lines[0]);
    }
  }

  lemma ConcatOk(first: string, tail: string)
    requires LineOk(first) && CharsOk(tail) && PairsOk(tail) && tail != "" && tail[0] == '\n'
    ensures CharsOk(first + tail) && PairsOk(first + tail)
  {
    var r := first + tail;
    forall i | 0 < i < |r| ensures PairOk(r[i - 1], r[i]) {
      if i < |first| {
        assert r[i - 1] == first[i - 1] && r[i] == first[i];
      } else if i > |first| {
        assert r[i - 1] == tail[i - 1 - |first|] && r[i] == tail[i - |first|];
      }
    }
  }

  /** How many line feeds a text begins with, up to two. */
  function LeadingBlank(s: string): nat {
    if s == "" || s[0] != '\n' then 0 else if |s| == 1 || s[1] != '\n' then 1 else if |s| == 2 || s[2] != '\n' then 2 else 3
  }

  lemma {:induction false} LimitBlankIsOk(s: string, run: nat, prev: char)
    requires CharsOk(s) && PairsOk([prev] + s) && run <= 2 && (run > 0 ==> prev == '\n')
    ensures var r := LimitBlank(s, run);
      CharsOk(r) && PairsOk([prev] + r) && NoTriple(r) && LeadingBlank(r) <= 2 - run
  {
    if s == "" {
    } else {
      assert ([prev] + s)[1] == s[0];
      PairsTail(prev, s);
      if s[0] != '\n' {
        LimitBlankIsOk(s[1..], 0, s[0]);
        PrependOk(prev, s[0], LimitBlank(s[1..], 0));
      } else if run < 2 {
        LimitBlankIsOk(s[1..], run + 1, '\n');
        PrependOk(prev, '\n', LimitBlank(s[1..], run + 1));
      } else {
        LimitBlankIsOk(s[1..], run, prev);
      }
    }
  }

  lemma PairsTail(prev: char, s: string)
    requires s != "" && PairsOk([prev] + s)
    ensures PairOk(prev, s[0]) && PairsOk([s[0]] + s[1..])
  {
    var all := [prev] + s;
    assert PairOk(all[1 - 1], all[1]);
    assert [s[0]] + s[1..] == s;
    forall i | 0 < i < |s| ensures PairOk(s[i - 1], s[i]) {
      assert PairOk(all[i + 1 - 1], all[i + 1]);
    }
  }

  lemma PrependOk(prev: char, c: char, r: string)
    requires CharOk(c) && CharsOk(r) && PairOk(prev, c) && PairsOk([c] + r) && NoTriple(r)
    requires c == '\n' ==> LeadingBlank(r) <= 1
    ensures CharsOk([c] + r) && PairsOk([prev] + ([c] + r)) && NoTriple([c] + r)
  {
    var s := [c] + r;
    var all := [prev] + s;
    forall i | 0 < i < |all| ensures PairOk(all[i - 1], all[i]) {
      if i > 1 { assert all[i - 1] == s[i - 1 - 1] && all[i] == s[i - 1]; }
    }
    forall i | 1 < i < |s| ensures !(s[i - 2] == '\n' && s[i - 1] == '\n' && s[i] == '\n') {
      if i > 2 { assert s[i - 2] == r[i - 1 - 2] && s[i - 1] == r[i - 1 - 1] && s[i] == r[i - 1]; }
    }
  }

  /** The output of `clean_text` is always in normal form. */
  lemma CleanIsTidy(value: string)
    ensures Tidy(Clean(value))
  {
    hide RemoveNul, ReplaceCr, ReplaceCrLf, Lines, TidyLines, Join, LimitBlank, SkipSpaces, TrimRight, Normalize;
    var text := Normalize(value);
    NormalizeIsClean(value);
    LinesAreClean(text);
    TidyLinesAreOk(Lines(text));
    var joined := Join(TidyLines(Lines(text)));
    JoinIsOk(TidyLines(Lines(text)));
    assert PairsOk(['a'] + joined);
    LimitBlankIsOk(joined, 0, 'a');
    StripIsTidy(LimitBlank(joined, 0), 'a');
  }

  lemma StripIsTidy(s: string, prev: char)
    requires CharsOk(s) && PairsOk([prev] + s) && NoTriple(s)
    ensures Tidy(Strip(s))
  {
    hide SkipSpaces, TrimRight;
    var span := StripSpan(s, 0, |s|);
    var r := s[span.lo..span.hi];
    var all := [prev] + s;
    assert forall i | 0 <= i < |r| :: r[i] == s[span.lo + i];
    assert CharsOk(r) && EndsInk(r);
    forall i | 0 < i < |r| ensures PairOk(r[i - 1], r[i]) {
      var j := span.lo + i + 1;
      assert PairOk(all[j - 1], all[j]);
    }
    assert NoTriple(r) by {
      forall i | 1 < i < |r| ensures !(r[i - 2] == '\n' && r[i - 1] == '\n' && r[i] == '\n') {
        var j := span.lo + i;
        assert r[i - 2] == s[j - 2] && r[i - 1] == s[j - 1] && r[i] == s[j];
      }
    }
    assert Strip(s) == r;
  }

  // ----- a text in normal form stays as it is -----

  lemma {:induction false} NormalizeFixed(s: string)
    requires CharsOk(s)
    ensures RemoveNul(s) == s && ReplaceCrLf(s) == s && ReplaceCr(s) == s
  {
    if s == "" {
    } else {
      NormalizeFixed(s[1..]);
      assert s == [s[0]] + s[1..];
    }
  }

  lemma {:induction false} CollapseFixed(s: string, open: bool)
    requires CharsOk(s) && PairsOk(s) && (open && s != "" ==> s[0] != ' ')
    ensures Collapse(s, open) == s
  {
    if s == "" {
    } else {
      assert s == [s[0]] + s[1..];
      assert PairsOk(s[1..]) by {
        forall i | 0 < i < |s[1..]| ensures PairOk(s[1..][i - 1], s[1..][i]) {
          assert PairOk(s[i + 1 - 1], s[i + 1]);
        }
      }
      if |s| > 1 {
        assert PairOk(s[1 - 1], s[1]);
      }
      CollapseFixed(s[1..], s[0] == ' ');
    }
  }

  lemma StripFixed(s: string)
    requires EndsInk(s)
    ensures Strip(s) == s
  {
    if s != "" {
      var span := StripSpan(s, 0, |s|);
      assert span.lo == 0 && span.hi == |s|;
    }
  }

  /** What every suffix of a tidy text behind a line feed satisfies. */
  ghost predicate TidyTail(s: string) {
    && CharsOk(s) && PairsOk(s)
    && (s != "" ==> (s[0] == '\n' || !IsSpace(s[0])) && !IsSpace(s[|s| - 1]))
  }

  lemma FirstLineFixed(s: string)
    requires TidyTail(s)
    ensures TidyLine(s[..LineEnd(s)]) == s[..LineEnd(s)]
  {
    hide Strip, SkipSpaces, TrimRight;
    var n := LineEnd(s);
    var line := s[..n];
    assert forall i | 0 <= i < n :: line[i] == s[i];
    assert EndsInk(line) by {
      if 0 < n < |s| {
        assert PairOk(s[n - 1], s[n]);
      }
    }
    CollapseFixed(line, false);
    StripFixed(line);
  }

  lemma RestIsTidyTail(s: string, n: nat)
    requires TidyTail(s) && n < |s| && s[n] == '\n'
    ensures TidyTail(s[n + 1..])
  {
    var rest := s[n + 1..];
    forall i | 0 < i < |rest| ensures PairOk(rest[i - 1], rest[i]) {
      assert PairOk(s[n + 1 + i - 1], s[n + 1 + i]);
    }
    if rest != "" {
      assert PairOk(s[n + 1 - 1], s[n + 1]);
    }
  }

  lemma {:induction false} LinesFixed(s: string)
    requires TidyTail(s)
    ensures TidyLines(Lines(s)) == Lines(s)
  {
    hide LineEnd, TidyLine, TidyTail;
    var n := LineEnd(s);
    FirstLineFixed(s);
    if n < |s| {
      RestIsTidyTail(s, n);
      LinesFixed(s[n + 1..]);
      assert Lines(s)[1..] == Lines(s[n + 1..]);
    } else {
      assert s[..n] == s && TidyLines([s]) == [TidyLine(s)] + TidyLines([]);
    }
  }

  lemma {:induction false} LimitBlankFixed(s: string, run: nat)
    requires NoTriple(s) && run <= 2 && LeadingBlank(s) <= 2 - run
    ensures LimitBlank(s, run) == s
  {
    if s == "" {
    } else {
      assert s == [s[0]] + s[1..];
      var rest := s[1..];
      assert NoTriple(rest) by {
        forall i | 1 < i < |rest| ensures !(rest[i - 2] == '\n' && rest[i - 1] == '\n' && rest[i] == '\n') {
          assert rest[i - 2] == s[i + 1 - 2] && rest[i - 1] == s[i + 1 - 1] && rest[i] == s[i + 1];
        }
      }
      NoTripleLeads(rest);
      LimitBlankFixed(rest, if s[0] == '\n' then run + 1 else 0);
    }
  }

  lemma NoTripleLeads(s: string)
    requires NoTriple(s)
    ensures LeadingBlank(s) <= 2
  {
    if |s| > 2 {
      assert !(s[2 - 2] == '\n' && s[2 - 1] == '\n' && s[2] == '\n');
    }
  }

  lemma TidyIsUnchanged(s: string)
    requires Tidy(s)
    ensures Clean(s) == s
  {
    hide RemoveNul, ReplaceCr, ReplaceCrLf, Lines, TidyLines, Join, LimitBlank, Strip;
    NormalizeFixed(s);
    LinesFixed(s);
    JoinLines(s);
    NoTripleLeads(s);
    LimitBlankFixed(s, 0);
    StripFixed(s);
  }

  /** Cleaning a cleaned text changes nothing. */
  lemma CleanIsIdempotent(value: string)
    ensures Clean(Clean(value)) == Clean(value)
  {
    hide Clean, Tidy;
    CleanIsTidy(value);
    TidyIsUnchanged(Clean(value));
  }
}
