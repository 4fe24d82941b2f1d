/** The parts of Python's `str` that the text pipeline relies on. */
module PyText {

  /** `str.isspace` on one character; `str.strip` and the regular-expression class `\s` use the same set. */
  predicate IsSpace(c: char) {
    || '\t' <= c <= '\r'
    || '\U{1C}' <= c <= ' '
    || c == '\U{85}'
    || c == '\U{A0}'
    || c == '\U{1680}'
    || '\U{2000}' <= c <= '\U{200A}'
    || c == '\U{2028}'
    || c == '\U{2029}'
    || c == '\U{202F}'
    || c == '\U{205F}'
    || c == '\U{3000}'
  }

  ghost predicate AllSpace(s: string) {
    forall i | 0 <= i < |s| :: IsSpace(s[i])
  }

  /** Bytes of one character in UTF-8 (section 3 of RFC 3629). */
  function Utf8Length(c: char): (n: nat)
    ensures 1 <= n <= 4
  {
    if c < '\U{80}' then 1
    else if c < '\U{800}' then 2
    else if c < '\U{10000}' then 3
    else 4
  }

  /** The bytes themselves. */
  function Utf8Encode(c: char): (bytes: seq<int>) {
    var n := c as int;
    if n < 0x80 then [n]
    else if n < 0x800 then [0xC0 + n / 64, 0x80 + n % 64]
    else if n < 0x1_0000 then [0xE0 + n / 64 / 64, 0x80 + n / 64 % 64, 0x80 + n % 64]
    else [0xF0 + n / 64 / 64 / 64, 0x80 + n / 64 / 64 % 64, 0x80 + n / 64 % 64, 0x80 + n % 64]
  }

  /** The number of bytes that a first byte announces. */
  function Announced(first: int): nat {
    if first < 0x80 then 1 else if first < 0xE0 then 2 else if first < 0xF0 then 3 else 4
  }

  /** The number that a sequence of bytes stands for. */
  function Utf8Number(bytes: seq<int>): int {
    match |bytes|
    case 1 => bytes[0]
    case 2 => (bytes[0] - 0xC0) * 64 + (bytes[1] - 0x80)
    case 3 => ((bytes[0] - 0xE0) * 64 + (bytes[1] - 0x80)) * 64 + (bytes[2] - 0x80)
    case 4 => (((bytes[0] - 0xF0) * 64 + (bytes[1] - 0x80)) * 64 + (bytes[2] - 0x80)) * 64 + (bytes[3] - 0x80)
    case _ => -1
  }

  /** The encoding has that many bytes, the first of them says so, and the character can be read back. */
  lemma Utf8LengthIsEncoded(c: char)
    ensures |Utf8Encode(c)| == Utf8Length(c) == Announced(Utf8Encode(c)[0])
    ensures forall i | 0 < i < |Utf8Encode(c)| :: 0x80 <= Utf8Encode(c)[i] < 0xC0
    ensures Utf8Encode(c)[0] < 0x100 && Utf8Number(Utf8Encode(c)) == c as int
  {
    var n := c as int;
    var a, b := n / 64, n / 64 / 64;
    assert n == a * 64 + n % 64 && a == b * 64 + a % 64;
  }

  function Utf8Bytes(s: string): (n: nat)
    ensures |s| <= n <= 4 * |s|
  {
    if s == "" then 0 else Utf8Bytes(s[..|s| - 1]) + Utf8Length(s[|s| - 1])
  }

  lemma {:induction false} Utf8BytesConcat(a: string, b: string)
    ensures Utf8Bytes(a + b) == Utf8Bytes(a) + Utf8Bytes(b)
  {
    if b == "" {
      assert a + b == a;
    } else {
      var front := b[..|b| - 1];
      assert (a + b)[..|a + b| - 1] == a + front;
      Utf8BytesConcat(a, front);
    }
  }

  lemma Utf8BytesSlice(s: string, lo: nat, hi: nat)
    requires lo <= hi <= |s|
    ensures Utf8Bytes(s[lo..hi]) <= Utf8Bytes(s)
  {
    hide Utf8Bytes;
    assert s == s[..hi] + s[hi..] && s[..hi] == s[..lo] + s[lo..hi];
    Utf8BytesConcat(s[..hi], s[hi..]);
    Utf8BytesConcat(s[..lo], s[lo..hi]);
  }

  /** The first index in `[i, hi)` that holds no whitespace, or `hi`. */
  function SkipSpaces(s: string, i: nat, hi: nat): (r: nat)
    requires i <= hi <= |s|
    ensures i <= r <= hi
    ensures forall k | i <= k < r :: IsSpace(s[k])
    ensures r < hi ==> !IsSpace(s[r])
    decreases hi - i
  {
    if i < hi && IsSpace(s[i]) then SkipSpaces(s, i + 1, hi) else i
  }

  /** The end left when whitespace is dropped from the right of `s[lo..i]`. */
  function TrimRight(s: string, lo: nat, i: nat): (r: nat)
    requires lo <= i <= |s|
    ensures lo <= r <= i
    ensures forall k | r <= k < i :: IsSpace(s[k])
    ensures r > lo ==> !IsSpace(s[r - 1])
  {
    if i > lo && IsSpace(s[i - 1]) then TrimRight(s, lo, i - 1) else i
  }

  datatype Span = Span(lo: nat, hi: nat)

  /** Where `s[lo..hi].strip()` sits in `s`. */
  function StripSpan(s: string, lo: nat, hi: nat): (r: Span)
    requires lo <= hi <= |s|
    ensures lo <= r.lo <= r.hi <= hi
    ensures forall k | lo <= k < hi && !IsSpace(s[k]) :: r.lo <= k < r.hi
    ensures r.lo < r.hi ==> !IsSpace(s[r.lo]) && !IsSpace(s[r.hi - 1])
  {
    var a := SkipSpaces(s, lo, hi);
    Span(a, TrimRight(s, a, hi))
  }

  /** `str.strip()` */
  function Strip(s: string): (r: string)
    ensures r != "" ==> !IsSpace(r[0]) && !IsSpace(r[|r| - 1])
  {
    var span := StripSpan(s, 0, |s|);
    s[span.lo..span.hi]
  }

  lemma StripEmpty(s: string)
    ensures Strip(s) == "" <==> AllSpace(s)
  {
    var span := StripSpan(s, 0, |s|);
    if Strip(s) == "" {
      forall k | 0 <= k < |s| ensures IsSpace(s[k]) {
      }
    } else {
      assert !IsSpace(s[span.lo]);
    }
  }

  lemma SliceOfSlice(s: string, lo: nat, hi: nat, a: nat, b: nat)
    requires lo <= hi <= |s| && a <= b <= hi - lo
    ensures s[lo..hi][a..b] == s[lo + a..lo + b]
  {
    var inner, outer := s[lo..hi][a..b], s[lo + a..lo + b];
    forall i | 0 <= i < b - a ensures inner[i] == outer[i] {
      assert inner[i] == s[lo..hi][a + i] == s[lo + (a + i)];
    }
  }

  lemma StripSpanOfSlice(s: string, lo: nat, hi: nat)
    requires lo <= hi <= |s|
    ensures var inner, outer := StripSpan(s[lo..hi], 0, hi - lo), StripSpan(s, lo, hi);
      || (inner.lo == inner.hi && outer.lo == outer.hi)
      || (outer.lo == lo + inner.lo && outer.hi == lo + inner.hi)
  {
    hide SkipSpaces, TrimRight, StripSpan;
    var t := s[lo..hi];
    assert forall k | 0 <= k < hi - lo :: t[k] == s[lo + k];
    var inner, outer := StripSpan(t, 0, hi - lo), StripSpan(s, lo, hi);
    if inner.lo < inner.hi {
      assert !IsSpace(s[lo + inner.lo]) && !IsSpace(s[lo + inner.hi - 1]);
      assert !IsSpace(t[outer.lo - lo]) && !IsSpace(t[outer.hi - 1 - lo]);
    } else if outer.lo < outer.hi {
      assert false;
    }
  }

  /** Stripping a slice is the same as slicing at the stripped span. */
  lemma StripOfSlice(s: string, lo: nat, hi: nat)
    requires lo <= hi <= |s|
    ensures Strip(s[lo..hi]) == var r := StripSpan(s, lo, hi); s[r.lo..r.hi]
  {
    hide StripSpan;
    StripSpanOfSlice(s, lo, hi);
    var inner := StripSpan(s[lo..hi], 0, hi - lo);
    SliceOfSlice(s, lo, hi, inner.lo, inner.hi);
  }
}
