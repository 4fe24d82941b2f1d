/**
 * `build_chunk_id` of `backend/app/rag/namespace.py`: the key of a chunk in the vector store.
 *
 * Keys can be parsed back (`ParseChunkId`), so two chunks never share a key, no matter how many digits their index has.
 */
module ChunkId {
  import opened Common

  function Digit(n: nat): char
    requires n < 10
  {
    '0' + n as char
  }

  /** `f"{n}"` */
  function Decimal(n: nat): string {
    if n < 10 then [Digit(n)] else Decimal(n / 10) + [Digit(n % 10)]
  }

  function Zeros(n: nat): string {
    if n == 0 then "" else "0" + Zeros(n - 1)
  }

  /** `f"{n:04d}"` */
  function Decimal4(n: nat): string {
    var digits := Decimal(n);
    Zeros(if |digits| < 4 then 4 - |digits| else 0) + digits
  }

  /** The key, or nothing where the source raises "Invalid chunk identity". */
  function BuildChunkId(document: string, version: int, index: int): Option<string> {
    if version < 1 || index < 0 then None
    else Some(Key(document, version, index))
  }

  function Key(document: string, version: nat, index: nat): string {
    document + (":" + (Decimal(version) + (":" + Decimal4(index))))
  }

  // ----- what a key looks like -----

  predicate Digits(s: string) {
    s != "" && forall i | 0 <= i < |s| :: '0' <= s[i] <= '9'
  }

  lemma {:induction false} DecimalIs(n: nat)
    ensures Digits(Decimal(n)) && (n > 0 ==> Decimal(n)[0] != '0')
    ensures |Decimal(n)| <= 4 <==> n < 10_000
  {
    if n < 10 {
    } else {
      DecimalIs(n / 10);
      FourDigits(n);
    }
  }

  lemma FourDigits(n: nat)
    ensures |Decimal(n)| <= 4 <==> n < 10_000
    ensures |Decimal(n)| <= 3 <==> n < 1_000
    ensures |Decimal(n)| <= 2 <==> n < 100
    ensures |Decimal(n)| <= 1 <==> n < 10
  {
    assert n >= 10 ==> |Decimal(n)| == |Decimal(n / 10)| + 1;
    assert n >= 100 ==> |Decimal(n / 10)| == |Decimal(n / 10 / 10)| + 1;
    assert n >= 1_000 ==> |Decimal(n / 10 / 10)| == |Decimal(n / 10 / 10 / 10)| + 1;
    assert n >= 10_000 ==> |Decimal(n / 10 / 10 / 10)| == |Decimal(n / 10 / 10 / 10 / 10)| + 1;
  }

  /**
   * A key is the document, the version without leading zeros, and the index in four digits or, from 10000 on, in as many
   * as it has.
   */
  lemma KeyLooksLike(document: string, version: nat, index: nat) returns (v: string, i: string)
    ensures Key(document, version, index) == document + (":" + (v + (":" + i)))
    ensures Digits(v) && (version > 0 ==> v[0] != '0') && Value(v) == version
    ensures Digits(i) && Value(i) == index && (if index < 10_000 then |i| == 4 else |i| > 4 && i[0] != '0')
  {
    v, i := Decimal(version), Decimal4(index);
    DecimalIs(version);
    DecimalIs(index);
    DecimalValue(version);
    DecimalValue(index);
    var zeros := if |Decimal(index)| < 4 then 4 - |Decimal(index)| else 0;
    ZerosAre(zeros);
    ZerosValue(zeros, Decimal(index));
  }

  lemma {:induction false} ZerosAre(n: nat)
    ensures |Zeros(n)| == n && forall i | 0 <= i < n :: Zeros(n)[i] == '0'
  {
    if n == 0 {
    } else {
      ZerosAre(n - 1);
    }
  }

  // ----- reading a key back -----

  /** The text of a UUID holds no colon. */
  ghost predicate NoColon(s: string) {
    forall i | 0 <= i < |s| :: s[i] != ':'
  }

  function Colon(s: string): (n: nat)
    ensures n <= |s|
  {
    if s == "" || s[0] == ':' then 0 else 1 + Colon(s[1..])
  }

  function Value(s: string): nat {
    if s == "" then 0
    else 10 * Value(s[..|s| - 1]) + if '0' <= s[|s| - 1] <= '9' then (s[|s| - 1] - '0') as nat else 0
  }

  /** Document, version and index of a key. */
  function ParseChunkId(key: string): (string, nat, nat) {
    var first := Colon(key);
    var rest := if first < |key| then key[first + 1..] else "";
    var second := Colon(rest);
    (key[..first], Value(rest[..second]), Value(if second < |rest| then rest[second + 1..] else ""))
  }

  lemma {:induction false} ColonAfter(a: string, b: string)
    requires NoColon(a)
    ensures Colon(a + (":" + b)) == |a|
  {
    var s := a + (":" + b);
    if a == "" {
    } else {
      assert s[0] == a[0] && s[1..] == a[1..] + (":" + b);
      ColonAfter(a[1..], b);
    }
  }

  lemma {:induction false} DecimalValue(n: nat)
    ensures Value(Decimal(n)) == n && NoColon(Decimal(n)) && Decimal(n) != ""
  {
    var s := Decimal(n);
    if n < 10 {
      assert s[..0] == "";
    } else {
      DecimalValue(n / 10);
      assert s[..|s| - 1] == Decimal(n / 10);
    }
  }

  lemma {:induction false} ZerosValue(k: nat, digits: string)
    ensures Value(Zeros(k) + digits) == Value(digits)
    decreases k + |digits|
  {
    var s := Zeros(k) + digits;
    if digits != "" {
      assert s[..|s| - 1] == Zeros(k) + digits[..|digits| - 1];
      ZerosValue(k, digits[..|digits| - 1]);
    } else if k > 0 {
      ZerosAppend(k - 1);
      assert s == Zeros(k - 1) + "0" && s[..|s| - 1] == Zeros(k - 1) + "";
      ZerosValue(k - 1, "");
    }
  }

  lemma {:induction false} ZerosAppend(k: nat)
    ensures Zeros(k) + "0" == "0" + Zeros(k)
  {
    if k == 0 {
    } else {
      ZerosAppend(k - 1);
      assert Zeros(k) + "0" == "0" + (Zeros(k - 1) + "0");
    }
  }

  lemma SplitAtColon(a: string, b: string)
    requires NoColon(a)
    ensures var s := a + (":" + b); Colon(s) == |a| < |s| && s[..|a|] == a && s[|a| + 1..] == b
  {
    ColonAfter(a, b);
  }

  /** Building a key and parsing it gives back what it was built from. */
  lemma KeyRoundTrip(document: string, version: nat, index: nat)
    requires NoColon(document)
    ensures ParseChunkId(Key(document, version, index)) == (document, version, index)
  {
    hide Colon, Value, Decimal, Zeros;
    DecimalValue(version);
    DecimalValue(index);
    var digits := Decimal(index);
    ZerosValue(if |digits| < 4 then 4 - |digits| else 0, digits);
    SplitAtColon(document, Decimal(version) + (":" + Decimal4(index)));
    SplitAtColon(Decimal(version), Decimal4(index));
  }

  /** No two chunks share a key. */
  lemma BuildChunkIdInjective(d1: string, v1: int, i1: int, d2: string, v2: int, i2: int)
    requires NoColon(d1) && NoColon(d2)
    requires BuildChunkId(d1, v1, i1).Some? && BuildChunkId(d1, v1, i1) == BuildChunkId(d2, v2, i2)
    ensures d1 == d2 && v1 == v2 && i1 == i2
  {
    hide Key, ParseChunkId;
    KeyRoundTrip(d1, v1, i1);
    KeyRoundTrip(d2, v2, i2);
  }
}
