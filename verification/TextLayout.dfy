/**
 * A second definition of `clean_text` (`backend/app/rag/extractors.py`), in one pass: the characters that are not space,
 * and between two of them what their gap comes to. `CleanIsLayout` proves that it is the same function.
 */
module TextLayout {
  import opened PyText
  import opened CleanText

  // ----- the definition -----

  predicate IsBlank(c: char) {
    c == ' ' || c == '\t'
  }

  /** Line breaks of any convention: CR LF, CR, or LF. */
  function LineBreaks(gap: string): nat {
    if gap == "" then 0
    else if |gap| >= 2 && gap[0] == '\r' && gap[1] == '\n' then 1 + LineBreaks(gap[2..])
    else (if gap[0] == '\r' || gap[0] == '\n' then 1 else 0) + LineBreaks(gap[1..])
  }

  /** A run of blanks shrinks to one space. */
  function Squeeze(s: string): string {
    if s == "" then ""
    else if !IsBlank(s[0]) then [s[0]] + Squeeze(s[1..])
    else if |s| >= 2 && IsBlank(s[1]) then Squeeze(s[1..])
    else " " + Squeeze(s[1..])
  }

  /** One line break stays one, more become an empty line, and without any the blanks are squeezed. */
  function Gap(gap: string): string {
    match LineBreaks(gap)
    case 0 => Squeeze(gap)
    case 1 => "\n"
    case _ => "\n\n"
  }

  function Layout(s: string): string {
    if s == "" then ""
    else if IsSpace(s[0]) then Layout(s[1..])
    else
      var n := SkipSpaces(s, 1, |s|);
      [s[0]] + if n == |s| then "" else Gap(s[1..n]) + Layout(s[n..])
  }

  /** Empty, or beginning with text. */
  predicate Inky(s: string) {
    s == "" || !IsSpace(s[0])
  }

  // ----- line breaks become line feeds -----

  function Feeds(s: string): string {
    ReplaceCr(ReplaceCrLf(s))
  }

  lemma CrLfPair(x: string)
    ensures ReplaceCrLf("\r\n" + x) == "\n" + ReplaceCrLf(x)
  {
    assert ("\r\n" + x)[2..] == x;
  }

  lemma CrLfOther(c: char, x: string)
    requires c == '\r' ==> x == "" || x[0] != '\n'
    ensures ReplaceCrLf([c] + x) == [c] + ReplaceCrLf(x)
  {
    assert ([c] + x)[1..] == x;
  }

  lemma {:induction false} CrLfConcat(a: string, b: string)
    requires (a != "" && a[|a| - 1] == '\r') ==> b == "" || b[0] != '\n'
    ensures ReplaceCrLf(a + b) == ReplaceCrLf(a) + ReplaceCrLf(b)
    decreases |a|, 1
  {
    if a == "" {
      assert a + b == b;
    } else if |a| >= 2 && a[0] == '\r' && a[1] == '\n' {
      CrLfConcatPair(a, b);
    } else {
      CrLfConcatOther(a, b);
    }
  }

  lemma {:induction false} CrLfConcatPair(a: string, b: string)
    requires (a != "" && a[|a| - 1] == '\r') ==> b == "" || b[0] != '\n'
    requires |a| >= 2 && a[0] == '\r' && a[1] == '\n'
    ensures ReplaceCrLf(a + b) == ReplaceCrLf(a) + ReplaceCrLf(b)
    decreases |a|, 0
  {
    hide ReplaceCrLf;
    var x := a[2..];
    CrLfConcat(x, b);
    CrLfPair(x);
    CrLfPair(x + b);
    assert a == "\r\n" + x && a + b == "\r\n" + (x + b);
  }

  lemma {:induction false} CrLfConcatOther(a: string, b: string)
    requires (a != "" && a[|a| - 1] == '\r') ==> b == "" || b[0] != '\n'
    requires a != "" && !(|a| >= 2 && a[0] == '\r' && a[1] == '\n')
    ensures ReplaceCrLf(a + b) == ReplaceCrLf(a) + ReplaceCrLf(b)
    decreases |a|, 0
  {
    hide ReplaceCrLf;
    var x := a[1..];
    CrLfConcat(x, b);
    CrLfOther(a[0], x);
    CrLfOther(a[0], x + b);
    assert a == [a[0]] + x && a + b == [a[0]] + (x + b);
  }

  lemma {:induction false} CrConcat(a: string, b: string)
    ensures ReplaceCr(a + b) == ReplaceCr(a) + ReplaceCr(b)
  {
    if a == "" {
      assert a + b == b;
    } else {
      assert (a + b)[1..] == a[1..] + b;
      CrConcat(a[1..], b);
    }
  }

  lemma FeedsConcat(a: string, b: string)
    requires (a != "" && a[|a| - 1] == '\r') ==> b == "" || b[0] != '\n'
    ensures Feeds(a + b) == Feeds(a) + Feeds(b)
  {
    CrLfConcat(a, b);
    CrConcat(ReplaceCrLf(a), ReplaceCrLf(b));
  }

  lemma FeedsBegin(s: string)
    ensures Inky(s) ==> Inky(Feeds(s))
    ensures Feeds(s) == "" <==> s == ""
  {
  }

  lemma {:induction false} FeedsOfSpace(g: string)
    requires AllSpace(g)
    ensures AllSpace(Feeds(g)) && CountFeeds(Feeds(g)) == LineBreaks(g)
    ensures LineBreaks(g) == 0 ==> Feeds(g) == g
  {
    if g == "" {
    } else if |g| >= 2 && g[0] == '\r' && g[1] == '\n' {
      FeedsOfSpace(g[2..]);
      assert Feeds(g) == "\n" + Feeds(g[2..]);
    } else {
      FeedsOfSpace(g[1..]);
      assert Feeds(g) == [if g[0] == '\r' then '\n' else g[0]] + Feeds(g[1..]);
    }
  }

  function CountFeeds(s: string): nat {
    if s == "" then 0 else (if s[0] == '\n' then 1 else 0) + CountFeeds(s[1..])
  }

  // ----- stripping -----

  /** Stripping finds the first and the last character that is not space. */
  lemma StripIs(s: string, lo: nat, hi: nat)
    requires lo < hi <= |s| && !IsSpace(s[lo]) && !IsSpace(s[hi - 1])
    requires forall k | 0 <= k < lo :: IsSpace(s[k])
    requires forall k | hi <= k < |s| :: IsSpace(s[k])
    ensures Strip(s) == s[lo..hi]
  {
    hide SkipSpaces, TrimRight, StripSpan;
    var span := StripSpan(s, 0, |s|);
    assert span.lo <= lo && hi <= span.hi;
  }

  lemma StripDropsFront(front: string, s: string)
    requires AllSpace(front)
    ensures Strip(front + s) == Strip(s)
  {
    hide SkipSpaces, TrimRight, StripSpan, Strip;
    var all := front + s;
    if AllSpace(s) {
      StripEmpty(s);
      StripEmpty(all);
    } else {
      var lo, hi := InkEnds(s);
      StripIs(s, lo, hi);
      StripIs(all, |front| + lo, |front| + hi);
      assert all[|front| + lo..|front| + hi] == s[lo..hi];
    }
  }

  /** The first and the last character that is not space. */
  lemma InkEnds(s: string) returns (lo: nat, hi: nat)
    requires !AllSpace(s)
    ensures lo < hi <= |s| && !IsSpace(s[lo]) && !IsSpace(s[hi - 1])
    ensures forall k | 0 <= k < lo :: IsSpace(s[k])
    ensures forall k | hi <= k < |s| :: IsSpace(s[k])
  {
    lo := SkipSpaces(s, 0, |s|);
    hi := TrimRight(s, 0, |s|);
    var k :| 0 <= k < |s| && !IsSpace(s[k]);
  }

  /** What begins with text keeps everything before further text. */
  lemma StripKeepsFront(front: string, s: string)
    requires front != "" && !IsSpace(front[0]) && s != "" && !IsSpace(s[0])
    ensures Strip(front + s) == front + Strip(s)
  {
    hide SkipSpaces, TrimRight, StripSpan, Strip;
    var all := front + s;
    var lo, hi := InkEnds(s);
    StripIs(s, lo, hi);
    StripIs(all, 0, |front| + hi);
    assert all[0..|front| + hi] == front + s[0..hi];
  }

  lemma StripDropsBack(c: char, back: string)
    requires !IsSpace(c) && AllSpace(back)
    ensures Strip([c] + back) == [c]
  {
    hide SkipSpaces, TrimRight, StripSpan, Strip;
    StripIs([c] + back, 0, 1);
  }

  // ----- one line -----

  lemma {:induction false} CollapseConcat(a: string, b: string, open: bool)
    requires Inky(b)
    ensures Collapse(a + b, open) == Collapse(a, open) + Collapse(b, false)
  {
    var all := a + b;
    if a == "" {
      assert all == b;
    } else {
      assert all[1..] == a[1..] + b && all[0] == a[0];
      CollapseConcat(a[1..], b, IsBlank(a[0]));
    }
  }

  lemma {:induction false} CollapseOfSpace(s: string, open: bool)
    requires AllSpace(s)
    ensures AllSpace(Collapse(s, open))
  {
    if s == "" {
    } else {
      CollapseOfSpace(s[1..], IsBlank(s[0]));
    }
  }

  lemma CollapseBegins(s: string)
    ensures Inky(s) ==> Inky(Collapse(s, false)) && (s == "" <==> Collapse(s, false) == "")
  {
  }

  lemma {:induction false} CollapseIsSqueeze(s: string)
    ensures Collapse(s, false) == Squeeze(s)
    ensures Collapse(s, true) == if s != "" && IsBlank(s[0]) then Squeeze(s)[1..] else Squeeze(s)
    ensures s != "" && IsBlank(s[0]) ==> Squeeze(s) != "" && Squeeze(s)[0] == ' '
  {
    if s == "" {
    } else {
      CollapseIsSqueeze(s[1..]);
      var rest := Squeeze(s[1..]);
      if IsBlank(s[0]) && |s| >= 2 && IsBlank(s[1]) {
        assert s[1..][0] == s[1];
        assert Collapse(s, true) == Collapse(s[1..], true);
        assert rest == " " + rest[1..];
      }
    }
  }

  lemma TidyLineDropsFront(v: string, b: string)
    requires AllSpace(v) && Inky(b)
    ensures TidyLine(v + b) == TidyLine(b)
  {
    hide Collapse, Strip;
    CollapseConcat(v, b, false);
    CollapseOfSpace(v, false);
    StripDropsFront(Collapse(v, false), Collapse(b, false));
  }

  lemma CollapseAtGap(c: char, w: string, b: string)
    requires !IsSpace(c) && Inky(b)
    ensures Collapse([c] + w + b, false) == [c] + Squeeze(w) + Collapse(b, false)
  {
    hide Squeeze;
    assert [c] + w + b == [c] + (w + b) && ([c] + (w + b))[1..] == w + b;
    assert Collapse([c] + w + b, false) == [c] + Collapse(w + b, false);
    CollapseConcat(w, b, false);
    CollapseIsSqueeze(w);
  }

  lemma SqueezeOfSpace(w: string)
    requires AllSpace(w)
    ensures AllSpace(Squeeze(w))
  {
    CollapseIsSqueeze(w);
    CollapseOfSpace(w, false);
  }

  lemma TidyLineAtGap(c: char, w: string, b: string)
    requires !IsSpace(c) && AllSpace(w) && Inky(b)
    ensures TidyLine([c] + w + b) == if b == "" then [c] else [c] + Squeeze(w) + TidyLine(b)
  {
    hide Strip, Squeeze, Collapse;
    CollapseAtGap(c, w, b);
    SqueezeOfSpace(w);
    CollapseBegins(b);
    if b == "" {
      assert [c] + Squeeze(w) + "" == [c] + Squeeze(w);
      StripDropsBack(c, Squeeze(w));
    } else {
      StripKeepsFront([c] + Squeeze(w), Collapse(b, false));
    }
  }

  // ----- all lines -----

  function Tidied(t: string): string {
    Join(TidyLines(Lines(t)))
  }

  lemma {:induction false} LineEndOf(p: string, q: string)
    requires NoLineFeed(p)
    ensures LineEnd(p + q) == |p| + LineEnd(q)
  {
    if p == "" {
      assert p + q == q;
    } else {
      assert (p + q)[1..] == p[1..] + q;
      LineEndOf(p[1..], q);
    }
  }

  lemma FirstLine(p: string, b: string)
    requires NoLineFeed(p)
    ensures Lines(p + b) == [p + Lines(b)[0]] + Lines(b)[1..]
  {
    LineEndOf(p, b);
    var n := LineEnd(b);
    var all := p + b;
    assert all[..|p| + n] == p + b[..n];
    if n == |b| {
    } else {
      assert all[|p| + n + 1..] == b[n + 1..];
    }
  }

  lemma TidiedBegins(p: string, b: string, front: string)
    requires NoLineFeed(p) && TidyLine(p + Lines(b)[0]) == front + TidyLine(Lines(b)[0])
    ensures Tidied(p + b) == front + Tidied(b)
  {
    hide Lines, TidyLine;
    FirstLine(p, b);
    var first, rest := Lines(b)[0], Lines(b)[1..];
    assert Lines(b) == [first] + rest;
    TidyLinesCons(first, rest);
    TidyLinesCons(p + first, rest);
    JoinFront(front, TidyLine(first), TidyLines(rest));
  }

  lemma TidyLinesCons(line: string, rest: seq<string>)
    ensures TidyLines([line] + rest) == [TidyLine(line)] + TidyLines(rest)
  {
    assert ([line] + rest)[1..] == rest;
  }

  lemma JoinFront(front: string, line: string, rest: seq<string>)
    ensures Join([front + line] + rest) == front + Join([line] + rest)
  {
    if rest != [] {
      JoinCons(front + line, rest);
      JoinCons(line, rest);
    }
  }

  lemma TidiedBreak(u: string, q: string)
    requires NoLineFeed(u)
    ensures Tidied(u + ("\n" + q)) == TidyLine(u) + ("\n" + Tidied(q))
  {
    hide TidyLine;
    var all := u + ("\n" + q);
    LineEndOf(u, "\n" + q);
    assert LineEnd("\n" + q) == 0;
    assert all[..|u|] == u && all[|u| + 1..] == q;
    assert Lines(all) == [u] + Lines(q);
    TidyLinesCons(u, Lines(q));
    JoinCons(TidyLine(u), TidyLines(Lines(q)));
  }

  lemma FirstLineBegins(b: string)
    requires Inky(b)
    ensures Inky(Lines(b)[0]) && (Lines(b)[0] == "" <==> b == "")
  {
  }

  function FeedRun(k: nat): string {
    if k == 0 then "" else "\n" + FeedRun(k - 1)
  }

  lemma {:induction false} NoFeeds(s: string)
    requires CountFeeds(s) == 0
    ensures NoLineFeed(s)
  {
    if s == "" {
    } else {
      NoFeeds(s[1..]);
    }
  }

  /** The first line break of a gap. */
  lemma {:induction false} FirstFeed(s: string) returns (u: string, v: string)
    requires CountFeeds(s) > 0
    ensures s == u + ("\n" + v) && NoLineFeed(u) && CountFeeds(v) == CountFeeds(s) - 1
  {
    if s[0] == '\n' {
      u, v := "", s[1..];
    } else {
      u, v := FirstFeed(s[1..]);
      u := [s[0]] + u;
    }
  }

  /** Space before text leaves its line breaks. */
  lemma {:induction false} TidiedLead(v: string, b: string)
    requires AllSpace(v) && Inky(b)
    ensures Tidied(v + b) == FeedRun(CountFeeds(v)) + Tidied(b)
    decreases CountFeeds(v)
  {
    hide Tidied, TidyLine;
    if CountFeeds(v) == 0 {
      NoFeeds(v);
      FirstLineBegins(b);
      TidyLineDropsFront(v, Lines(b)[0]);
      TidiedBegins(v, b, "");
    } else {
      var u, rest := FirstFeed(v);
      SpaceParts(v, u, rest);
      assert v + b == u + ("\n" + (rest + b));
      TidiedBreak(u, rest + b);
      TidyLineDropsFront(u, "");
      TidyLineOfNothing();
      assert u + "" == u;
      TidiedLead(rest, b);
    }
  }

  lemma TidyLineOfNothing()
    ensures TidyLine("") == ""
  {
    StripEmpty("");
  }

  lemma SpaceParts(v: string, u: string, rest: string)
    requires AllSpace(v) && v == u + ("\n" + rest)
    ensures AllSpace(u) && AllSpace(rest)
  {
    assert forall i | 0 <= i < |u| :: u[i] == v[i];
    assert forall i | 0 <= i < |rest| :: rest[i] == v[|u| + 1 + i];
  }

  /** Space between two characters of text, before blank lines are limited. */
  lemma TidiedAtGap(c: char, w: string, b: string)
    requires !IsSpace(c) && AllSpace(w) && Inky(b)
    ensures Tidied([c] + w + b) ==
      if CountFeeds(w) > 0 then [c] + (FeedRun(CountFeeds(w)) + Tidied(b))
      else if b == "" then [c] else [c] + Squeeze(w) + Tidied(b)
  {
    hide Tidied, Squeeze, FeedRun;
    if CountFeeds(w) == 0 {
      TidiedInLine(c, w, b);
    } else {
      TidiedAcrossLines(c, w, b);
    }
  }

  lemma TidiedInLine(c: char, w: string, b: string)
    requires !IsSpace(c) && AllSpace(w) && Inky(b) && CountFeeds(w) == 0
    ensures Tidied([c] + w + b) == if b == "" then [c] else [c] + Squeeze(w) + Tidied(b)
  {
    hide Tidied, TidyLine, Squeeze, Lines;
    NoFeeds(w);
    FirstLineBegins(b);
    var first := Lines(b)[0];
    TidyLineAtGap(c, w, first);
    if b == "" {
      TidyLineOfNothing();
      TidiedBegins([c] + w, b, [c]);
      TidiedOfNothing();
    } else {
      TidiedBegins([c] + w, b, [c] + Squeeze(w));
    }
  }

  lemma TidiedAcrossLines(c: char, w: string, b: string)
    requires !IsSpace(c) && AllSpace(w) && Inky(b) && CountFeeds(w) > 0
    ensures Tidied([c] + w + b) == [c] + (FeedRun(CountFeeds(w)) + Tidied(b))
  {
    hide Tidied, TidyLine, Squeeze, FeedRun, CountFeeds;
    var u, v := FirstFeed(w);
    SpaceParts(w, u, v);
    FirstOfLine(c, u);
    assert [c] + w + b == ([c] + u) + ("\n" + (v + b));
    TidiedBreak([c] + u, v + b);
    TidiedLead(v, b);
    FeedRunCons(CountFeeds(w), Tidied(b));
  }

  lemma FirstOfLine(c: char, u: string)
    requires !IsSpace(c) && AllSpace(u)
    ensures TidyLine([c] + u) == [c]
  {
    TidyLineAtGap(c, u, "");
    assert [c] + u + "" == [c] + u;
  }

  lemma FeedRunCons(k: nat, x: string)
    requires k > 0
    ensures FeedRun(k) + x == "\n" + (FeedRun(k - 1) + x)
  {
  }

  lemma TidiedOfNothing()
    ensures Tidied("") == ""
  {
    TidyLineOfNothing();
  }

  lemma TidiedInky(b: string)
    requires Inky(b)
    ensures Inky(Tidied(b)) && (Tidied(b) == "" <==> b == "")
  {
    hide Tidied, TidyLine, Squeeze;
    if b == "" {
      TidiedOfNothing();
    } else {
      var w := "";
      assert [b[0]] + w + b[1..] == b;
      InkFirst(b);
    }
  }

  lemma InkFirst(b: string)
    requires b != "" && !IsSpace(b[0])
    ensures Tidied(b) != "" && !IsSpace(Tidied(b)[0])
  {
    hide TidyLine, SkipSpaces;
    var n := SkipSpaces(b, 1, |b|);
    var w, rest := b[1..n], b[n..];
    assert b == [b[0]] + w + rest;
    TidiedAtGap(b[0], w, rest);
  }

  // ----- blank lines -----

  lemma {:induction false} LimitFeeds(k: nat, x: string, run: nat)
    requires x == "" || x[0] != '\n'
    ensures LimitBlank(FeedRun(k) + x, run) ==
      FeedRun(if run >= 2 then 0 else if k < 2 - run then k else 2 - run) + LimitBlank(x, 0)
    decreases k
  {
    if k == 0 {
      assert FeedRun(0) + x == x;
    } else {
      var all := FeedRun(k) + x;
      assert all[0] == '\n' && all[1..] == FeedRun(k - 1) + x;
      LimitFeeds(k - 1, x, if run < 2 then run + 1 else run);
    }
  }

  lemma {:induction false} LimitSkips(p: string, x: string)
    requires NoLineFeed(p)
    ensures LimitBlank(p + x, 0) == p + LimitBlank(x, 0)
  {
    if p == "" {
      assert p + x == x;
    } else {
      assert (p + x)[1..] == p[1..] + x;
      LimitSkips(p[1..], x);
    }
  }

  lemma LimitInky(x: string)
    requires Inky(x)
    ensures Inky(LimitBlank(x, 0)) && (LimitBlank(x, 0) == "" <==> x == "")
  {
  }

  lemma {:induction false} SqueezeNoFeed(w: string)
    requires NoLineFeed(w)
    ensures NoLineFeed(Squeeze(w))
  {
    if w == "" {
    } else {
      SqueezeNoFeed(w[1..]);
    }
  }

  // ----- the two definitions agree -----

  /** What cleaning does behind the normalization of line breaks. */
  function Finish(t: string): string {
    Strip(LimitBlank(Tidied(t), 0))
  }

  lemma FeedRunIsSpace(k: nat)
    ensures AllSpace(FeedRun(k))
  {
  }

  lemma FinishDropsFront(v: string, b: string)
    requires AllSpace(v) && Inky(b)
    ensures Finish(v + b) == Finish(b)
  {
    hide Tidied, LimitBlank, Strip;
    TidiedLead(v, b);
    TidiedInky(b);
    var k := CountFeeds(v);
    LimitFeeds(k, Tidied(b), 0);
    var kept := FeedRun(if k < 2 then k else 2);
    FeedRunIsSpace(if k < 2 then k else 2);
    StripDropsFront(kept, LimitBlank(Tidied(b), 0));
  }

  lemma FinishAtGap(c: char, w: string, b: string)
    requires !IsSpace(c) && AllSpace(w) && Inky(b)
    ensures Finish([c] + w + b) ==
      if b == "" then [c]
      else [c] + (match CountFeeds(w) case 0 => Squeeze(w) case 1 => "\n" case _ => "\n\n") + Finish(b)
  {
    hide Finish, Squeeze, FeedRun;
    if CountFeeds(w) == 0 {
      FinishInLine(c, w, b);
    } else {
      FinishAcrossLines(c, w, b);
      KeptFeeds(CountFeeds(w));
    }
  }

  lemma FinishInLine(c: char, w: string, b: string)
    requires !IsSpace(c) && AllSpace(w) && Inky(b) && CountFeeds(w) == 0
    ensures Finish([c] + w + b) == if b == "" then [c] else [c] + Squeeze(w) + Finish(b)
  {
    hide Tidied, LimitBlank, Strip, Squeeze;
    TidiedAtGap(c, w, b);
    TidiedInky(b);
    LimitInky(Tidied(b));
    NoFeeds(w);
    SqueezeNoFeed(w);
    if b == "" {
      LimitSkips([c], "");
      LimitBlankOfNothing();
      assert [c] + "" == [c];
      StripDropsBack(c, "");
    } else {
      LimitSkips([c] + Squeeze(w), Tidied(b));
      StripKeepsFront([c] + Squeeze(w), LimitBlank(Tidied(b), 0));
    }
  }

  lemma FinishAcrossLines(c: char, w: string, b: string)
    requires !IsSpace(c) && AllSpace(w) && Inky(b) && CountFeeds(w) > 0
    ensures Finish([c] + w + b) ==
      if b == "" then [c] else [c] + FeedRun(if CountFeeds(w) < 2 then CountFeeds(w) else 2) + Finish(b)
  {
    hide Tidied, LimitBlank, Strip, Squeeze, FeedRun;
    var x, k := Tidied(b), CountFeeds(w);
    var y, kept := LimitBlank(x, 0), FeedRun(if k < 2 then k else 2);
    TidiedAtGap(c, w, b);
    TidiedInky(b);
    LimitInky(x);
    LimitSkips([c], FeedRun(k) + x);
    LimitFeeds(k, x, 0);
    FeedRunIsSpace(if k < 2 then k else 2);
    if b == "" {
      LimitBlankOfNothing();
      assert kept + y == kept;
      StripDropsBack(c, kept);
    } else {
      assert [c] + (kept + y) == ([c] + kept) + y;
      StripKeepsFront([c] + kept, y);
    }
  }

  lemma LimitBlankOfNothing()
    ensures LimitBlank("", 0) == ""
  {
  }

  lemma KeptFeeds(k: nat)
    requires k > 0
    ensures FeedRun(if k < 2 then k else 2) == if k == 1 then "\n" else "\n\n"
  {
    assert FeedRun(0) == "";
    assert FeedRun(1) == "\n" + FeedRun(0) == "\n";
    assert FeedRun(2) == "\n" + FeedRun(1) == "\n\n";
  }

  ghost predicate NoNul(s: string) {
    forall i | 0 <= i < |s| :: s[i] != '\0'
  }

  lemma {:induction false} NothingRemoved(s: string)
    requires NoNul(s)
    ensures RemoveNul(s) == s
  {
    if s == "" {
    } else {
      NothingRemoved(s[1..]);
    }
  }

  lemma CleanIsFinish(s: string)
    requires NoNul(s)
    ensures Clean(s) == Finish(Feeds(s))
  {
    NothingRemoved(s);
  }

  lemma {:induction false} FinishIsLayout(s: string)
    ensures Finish(Feeds(s)) == Layout(s)
    decreases |s|
  {
    hide Finish, Feeds, SkipSpaces, Squeeze;
    var lead := SkipSpaces(s, 0, |s|);
    if s == "" {
      FinishOfNothing();
    } else if lead > 0 {
      var v, b := s[..lead], s[lead..];
      assert s == v + b;
      FeedsConcat(v, b);
      FeedsOfSpace(v);
      FeedsBegin(b);
      FinishDropsFront(Feeds(v), Feeds(b));
      FinishIsLayout(b);
      LayoutDropsFront(v, b);
    } else {
      var n := SkipSpaces(s, 1, |s|);
      var c, g, b := s[0], s[1..n], s[n..];
      assert s == [c] + (g + b) && s == [c] + g + b;
      FeedsAtGap(c, g, b);
      FeedsOfSpace(g);
      FeedsBegin(b);
      FinishAtGap(c, Feeds(g), Feeds(b));
      FinishIsLayout(b);
    }
  }

  lemma FeedsAtGap(c: char, g: string, b: string)
    requires !IsSpace(c) && Inky(b)
    ensures Feeds([c] + (g + b)) == [c] + Feeds(g) + Feeds(b)
  {
    FeedsConcat([c], g + b);
    FeedsConcat(g, b);
    assert Feeds([c]) == [c];
  }

  lemma FinishOfNothing()
    ensures Feeds("") == "" && Finish("") == ""
  {
    TidiedOfNothing();
    StripEmpty("");
  }

  lemma {:induction false} LayoutDropsFront(v: string, b: string)
    requires AllSpace(v)
    ensures Layout(v + b) == Layout(b)
  {
    if v == "" {
      assert v + b == b;
    } else {
      assert (v + b)[1..] == v[1..] + b;
      LayoutDropsFront(v[1..], b);
    }
  }

  /** The steps of `clean_text` come to the one pass of `Layout`, on every text without NUL characters. */
  lemma CleanIsLayout(s: string)
    requires NoNul(s)
    ensures Clean(s) == Layout(s)
  {
    CleanIsFinish(s);
    FinishIsLayout(s);
  }

  /** A NUL character disappears and leaves nothing. */
  lemma NulDisappears(a: string, b: string)
    ensures Clean(a + ("\0" + b)) == Clean(a + b)
  {
    RemoveNulConcat(a, "\0" + b);
    RemoveNulConcat(a, b);
    RemoveNulFirst(b);
    assert RemoveNul(a + ("\0" + b)) == RemoveNul(a + b);
  }

  lemma RemoveNulFirst(b: string)
    ensures RemoveNul("\0" + b) == RemoveNul(b)
  {
    assert ("\0" + b)[1..] == b && ("\0" + b)[0] == '\0';
  }

  lemma {:induction false} RemoveNulConcat(a: string, b: string)
    ensures RemoveNul(a + b) == RemoveNul(a) + RemoveNul(b)
  {
    if a == "" {
      assert a + b == b;
    } else {
      assert (a + b)[1..] == a[1..] + b;
      RemoveNulConcat(a[1..], b);
    }
  }

  // ----- what follows for line breaks -----

  /** A line break of any convention counts as one. */
  lemma LineBreakConventions(a: string, b: string)
    requires NoNul(a) && NoNul(b) && (a == "" || a[|a| - 1] != '\r')
    ensures Clean(a + ("\r\n" + b)) == Clean(a + ("\n" + b))
    ensures (b == "" || b[0] != '\n') ==> Clean(a + ("\r" + b)) == Clean(a + ("\n" + b))
  {
    hide Finish, Feeds, Clean;
    FeedsOfBreaks(b);
    FeedsConcat(a, "\r\n" + b);
    FeedsConcat(a, "\n" + b);
    CleanIsFinish(a + ("\r\n" + b));
    CleanIsFinish(a + ("\n" + b));
    if b == "" || b[0] != '\n' {
      FeedsConcat(a, "\r" + b);
      CleanIsFinish(a + ("\r" + b));
    }
  }

  lemma FeedsOfBreaks(b: string)
    ensures Feeds("\r\n" + b) == "\n" + Feeds(b)
    ensures Feeds("\n" + b) == "\n" + Feeds(b)
    ensures (b == "" || b[0] != '\n') ==> Feeds("\r" + b) == "\n" + Feeds(b)
  {
    assert ("\r\n" + b)[2..] == b && ("\n" + b)[1..] == b && ("\r" + b)[1..] == b;
    assert ReplaceCrLf("\r\n" + b) == "\n" + ReplaceCrLf(b) == ReplaceCrLf("\n" + b);
    ReplaceCrFirst('\n', ReplaceCrLf(b));
    if b == "" || b[0] != '\n' {
      assert ReplaceCrLf("\r" + b) == "\r" + ReplaceCrLf(b);
      ReplaceCrFirst('\r', ReplaceCrLf(b));
    }
  }

  lemma ReplaceCrFirst(c: char, s: string)
    ensures ReplaceCr([c] + s) == [if c == '\r' then '\n' else c] + ReplaceCr(s)
  {
    assert ([c] + s)[1..] == s;
  }

  /** Between text and text: one line feed stays, an empty line stays, and further empty lines go. */
  lemma CleanAtGap(a: string, g: string, b: string)
    requires NoNul(a) && NoNul(g) && NoNul(b)
    requires a != "" && !IsSpace(a[|a| - 1]) && AllSpace(g) && b != "" && !IsSpace(b[0])
    ensures Clean(a + (g + b)) == Clean(a) + (Gap(g) + Clean(b))
  {
    CleanIsLayout(a + (g + b));
    CleanIsLayout(a);
    CleanIsLayout(b);
    LayoutAtGap(a, g, b);
  }

  lemma {:induction false} LayoutAtGap(a: string, g: string, b: string)
    requires a != "" && !IsSpace(a[|a| - 1]) && AllSpace(g) && b != "" && !IsSpace(b[0])
    ensures Layout(a + (g + b)) == Layout(a) + (Gap(g) + Layout(b))
    decreases |a|
  {
    hide Gap, Layout, SkipSpaces;
    var tail := g + b;
    if IsSpace(a[0]) {
      LayoutDropsFront([a[0]], a[1..]);
      LayoutDropsFront([a[0]], a[1..] + tail);
      assert a == [a[0]] + a[1..] && a + tail == [a[0]] + (a[1..] + tail);
      LayoutAtGap(a[1..], g, b);
    } else if |a| == 1 {
      LayoutUnfolds(a[0], g, b);
      LayoutUnfolds(a[0], "", "");
      assert a == [a[0]] + ("" + "") && a + tail == [a[0]] + (g + b);
    } else {
      var n := SkipSpaces(a, 1, |a|);
      LayoutAtGap(a[n..], g, b);
      LayoutGoesOn(a[0], a[1..n], a[n..], tail);
      assert a == [a[0]] + (a[1..n] + a[n..]);
    }
  }

  /** What stands before a gap is laid out alike, whatever follows the text behind it. */
  lemma LayoutGoesOn(c: char, h: string, rest: string, tail: string)
    requires !IsSpace(c) && AllSpace(h) && rest != "" && !IsSpace(rest[0])
    ensures Layout(([c] + (h + rest)) + tail) == [c] + (Gap(h) + Layout(rest + tail))
    ensures Layout([c] + (h + rest)) == [c] + (Gap(h) + Layout(rest))
  {
    hide Gap, Layout;
    LayoutUnfolds(c, h, rest);
    LayoutUnfolds(c, h, rest + tail);
    assert ([c] + (h + rest)) + tail == [c] + (h + (rest + tail));
  }

  lemma LayoutUnfolds(c: char, g: string, b: string)
    requires !IsSpace(c) && AllSpace(g) && Inky(b)
    ensures Layout([c] + (g + b)) == if b == "" then [c] else [c] + (Gap(g) + Layout(b))
  {
    hide Gap;
    var all := [c] + (g + b);
    var m := SkipSpaces(all, 1, |all|);
    assert forall k | 0 <= k < |g| :: all[1 + k] == g[k];
    if b == "" {
      assert m == |all|;
    } else {
      assert all[1 + |g|] == b[0];
      assert m == 1 + |g|;
      assert all[1..m] == g && all[m..] == b;
    }
  }

  /** Single and double line feeds between two lines of text. */
  lemma LineFeedsStay(a: string, b: string)
    requires NoNul(a) && NoNul(b) && a != "" && !IsSpace(a[|a| - 1]) && b != "" && !IsSpace(b[0])
    ensures Clean(a + ("\n" + b)) == Clean(a) + ("\n" + Clean(b))
    ensures Clean(a + ("\n\n" + b)) == Clean(a) + ("\n\n" + Clean(b))
  {
    hide Clean, Gap;
    SimpleGaps();
    CleanAtGap(a, "\n", b);
    CleanAtGap(a, "\n\n", b);
  }

  lemma SimpleGaps()
    ensures Gap("\n") == "\n" && Gap("\n\n") == "\n\n"
  {
    assert "\n\n"[1..] == "\n" && "\n"[1..] == "";
    assert LineBreaks("\n") == 1 && LineBreaks("\n\n") == 2;
  }
}
