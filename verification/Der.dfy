/** DER lengths, integers and the RSA private-key sequence (ITU-T X.690
    sections 8.1.3, 8.3 and 10.1; RFC 8017 appendix A.1.2), written by the
    exporter and read back by a strict parser. */
module Der {
  import opened Wrappers
  import opened Bytes

  const INTEGER: byte := 0x02
  const SEQUENCE: byte := 0x30

  // ---------- Writing ----------

  /** The base-256 digits, most significant first. */
  function Digits(n: nat): bytes {
    if n == 0 then [] else Digits(n / 256) + [n % 256]
  }

  function LengthBytes(n: nat): bytes
    requires n <= MAX_LENGTH
  {
    if n < 128 then [n] else (DigitCount(n, 7); [128 + |Digits(n)|] + Digits(n))
  }

  method DerLength(length: nat) returns (encoded: bytes)
    requires length <= MAX_LENGTH
    ensures encoded == LengthBytes(length)
  {
    if length < 128 {
      return [length];
    }
    var digits: bytes := [];
    var remaining := length;
    while remaining > 0
      invariant Digits(remaining) + digits == Digits(length)
      decreases remaining
    {
      assert Digits(remaining) + digits == Digits(remaining / 256) + ([remaining % 256] + digits);
      digits := [remaining % 256] + digits;
      remaining := remaining / 256;
    }
    assert digits == Digits(length);
    DigitCount(length, 7);
    return [128 + |digits|] + digits;
  }

  function DerValue(tag: byte, value: bytes): bytes
    requires |value| <= MAX_LENGTH
  {
    [tag] + LengthBytes(|value|) + value
  }

  function DerInteger(bs: bytes): bytes
    requires |Unsigned(bs)| <= MAX_LENGTH
  {
    DerValue(INTEGER, Unsigned(bs))
  }

  lemma {:induction false} DigitCount(n: nat, k: nat)
    requires n < Pow256(k)
    ensures |Digits(n)| <= k
  {
    if n > 0 {
      DigitCount(n / 256, k - 1);
    }
  }

  lemma {:induction false} ValueOfDigits(n: nat)
    ensures Value(Digits(n)) == n
    ensures n > 0 ==> Digits(n) != [] && Digits(n)[0] != 0
  {
    if n > 0 {
      ValueOfDigits(n / 256);
      assert (Digits(n / 256) + [n % 256])[..|Digits(n / 256)|] == Digits(n / 256);
    }
  }

  lemma {:induction false} DigitsOfValue(ds: bytes)
    requires ds != [] ==> ds[0] != 0
    ensures Digits(Value(ds)) == ds
  {
    if ds == [] {
    } else {
      var n := |ds| - 1;
      DigitsOfValue(ds[..n]);
      if n > 0 {
        ValueOfDigits(Value(ds[..n]));
      }
      assert Value(ds) / 256 == Value(ds[..n]) && Value(ds) % 256 == ds[n];
      assert ds == ds[..n] + [ds[n]];
      if n == 0 {
        assert ds[..n] == [];
      }
    }
  }

  // ---------- Strict reading ----------

  /** A definite length in its shortest form, and what follows it. */
  function ReadLength(s: bytes): (r: Option<(nat, bytes)>)
    ensures r.Some? ==> |r.value.1| < |s|
  {
    if s == [] then None
    else if s[0] < 128 then Some((s[0], s[1..]))
    else
      var count := s[0] - 128;
      if count == 0 || count == 127 || |s| - 1 < count || s[1] == 0 then None
      else
        var n := Value(s[1..1 + count]);
        if n < 128 then None else Some((n, s[1 + count..]))
  }

  function ReadValue(tag: byte, s: bytes): (r: Option<(bytes, bytes)>)
    ensures r.Some? ==> |r.value.1| < |s|
  {
    if s == [] || s[0] != tag then None
    else
      var length := ReadLength(s[1..]);
      if length.None? || |length.value.1| < length.value.0 then None
      else Some((length.value.1[..length.value.0], length.value.1[length.value.0..]))
  }

  /** Integers up to the end, each in its shortest form. */
  function ReadIntegers(s: bytes): Option<seq<int>>
    decreases |s|
  {
    if s == [] then Some([])
    else
      var head := ReadValue(INTEGER, s);
      if head.None? || head.value.0 == [] || !NoRedundantByte(head.value.0) then None
      else
        var tail := ReadIntegers(head.value.1);
        if tail.None? then None else Some([SignedValue(head.value.0)] + tail.value)
  }

  function ReadRsaPrivateKey(s: bytes): Option<seq<int>> {
    var sequence := ReadValue(SEQUENCE, s);
    if sequence.None? || sequence.value.1 != [] then None
    else
      var integers := ReadIntegers(sequence.value.0);
      if integers.None? || |integers.value| != 9 || integers.value[0] != 0 then None else integers
  }

  lemma ReadLengthBytes(n: nat, rest: bytes)
    requires n <= MAX_LENGTH
    ensures ReadLength(LengthBytes(n) + rest) == Some((n, rest))
  {
    var s := LengthBytes(n) + rest;
    if n < 128 {
      assert s[1..] == rest;
    } else {
      DigitCount(n, 7);
      ValueOfDigits(n);
      var count := |Digits(n)|;
      assert s[1..1 + count] == Digits(n);
      assert s[1 + count..] == rest;
    }
  }

  lemma ReadDerValue(tag: byte, value: bytes, rest: bytes)
    requires |value| <= MAX_LENGTH
    ensures ReadValue(tag, DerValue(tag, value) + rest) == Some((value, rest))
  {
    var s := DerValue(tag, value) + rest;
    assert s[1..] == LengthBytes(|value|) + (value + rest);
    ReadLengthBytes(|value|, value + rest);
    assert (value + rest)[..|value|] == value && (value + rest)[|value|..] == rest;
  }

  lemma ReadLengthIsCanonical(s: bytes)
    requires ReadLength(s).Some? && ReadLength(s).value.0 <= MAX_LENGTH
    ensures s == LengthBytes(ReadLength(s).value.0) + ReadLength(s).value.1
  {
    if s[0] >= 128 {
      var count := s[0] - 128;
      DigitsOfValue(s[1..1 + count]);
      assert s == [s[0]] + s[1..1 + count] + s[1 + count..];
    } else {
      assert s == [s[0]] + s[1..];
    }
  }

  /** The reader accepts nothing but what the writer writes. */
  lemma ReadValueIsCanonical(tag: byte, s: bytes)
    requires ReadValue(tag, s).Some? && |ReadValue(tag, s).value.0| <= MAX_LENGTH
    ensures s == DerValue(tag, ReadValue(tag, s).value.0) + ReadValue(tag, s).value.1
  {
    var (value, rest) := ReadValue(tag, s).value;
    ReadLengthIsCanonical(s[1..]);
    hide ReadLength, LengthBytes;
    var after := ReadLength(s[1..]).value.1;
    assert s == [tag] + s[1..];
    assert after == value + rest;
  }

  // ---------- The RSA private key ----------

  /** The encodings of the integers, one after the other. */
  function DerIntegers(parts: seq<bytes>): bytes
    requires forall i :: 0 <= i < |parts| ==> |Unsigned(parts[i])| <= MAX_LENGTH
  {
    if parts == [] then [] else DerInteger(parts[0]) + DerIntegers(parts[1..])
  }

  ghost predicate AllShort(parts: seq<bytes>) {
    forall i :: 0 <= i < |parts| ==> |Unsigned(parts[i])| <= MAX_LENGTH
  }

  /** Every intermediate buffer of the export is a possible typed array. */
  ghost predicate FitsBuffers(parts: seq<bytes>) {
    AllShort([[0]] + parts) && |DerIntegers([[0]] + parts)| <= MAX_LENGTH
  }

  /** Version zero, then n, e, d, p, q, dp, dq and qi. */
  ghost function RsaPrivateKey(parts: seq<bytes>): bytes
    requires FitsBuffers(parts)
  {
    DerValue(SEQUENCE, DerIntegers([[0]] + parts))
  }

  function Values(parts: seq<bytes>): (vs: seq<int>)
    ensures |vs| == |parts|
  {
    seq(|parts|, i requires 0 <= i < |parts| => Value(parts[i]))
  }

  predicate NoneEmpty(parts: seq<bytes>) {
    forall i :: 0 <= i < |parts| ==> parts[i] != []
  }

  function Prefixed(v: int, vs: Option<seq<int>>): Option<seq<int>> {
    if vs.None? then None else Some([v] + vs.value)
  }

  lemma ReadOneInteger(head: bytes, rest: bytes)
    requires |Unsigned(head)| <= MAX_LENGTH
    ensures var s := DerInteger(head) + rest;
      && s != []
      && ReadIntegers(s) == if head == [] then None else Prefixed(Value(head), ReadIntegers(rest))
  {
    ReadDerValue(INTEGER, Unsigned(head), rest);
    UnsignedHasNoRedundantByte(head);
    UnsignedKeepsValue(head);
    hide ReadValue, DerValue, Unsigned, SignedValue, NoRedundantByte, Value;
    assert DerInteger(head) + rest != [] by {
      DerValueNotEmpty(INTEGER, Unsigned(head));
    }
  }

  lemma DerValueNotEmpty(tag: byte, value: bytes)
    requires |value| <= MAX_LENGTH
    ensures |DerValue(tag, value)| > 0
  {
    hide LengthBytes;
  }

  lemma NoneEmptyFront(parts: seq<bytes>)
    requires parts != []
    ensures NoneEmpty(parts) <==> parts[0] != [] && NoneEmpty(parts[1..])
  {
    assert parts == [parts[0]] + parts[1..];
  }

  lemma ValuesFront(parts: seq<bytes>)
    requires parts != []
    ensures Values(parts) == [Value(parts[0]) as int] + Values(parts[1..])
  {
    hide Value;
  }

  lemma {:induction false} ReadDerIntegers(parts: seq<bytes>)
    requires AllShort(parts)
    ensures ReadIntegers(DerIntegers(parts)) == if NoneEmpty(parts) then Some(Values(parts)) else None
  {
    if parts == [] {
      assert Values(parts) == [];
    } else {
      ReadDerIntegers(parts[1..]);
      ReadOneInteger(parts[0], DerIntegers(parts[1..]));
      NoneEmptyFront(parts);
      ValuesFront(parts);
      hide ReadIntegers, DerInteger, NoneEmpty, Values, Unsigned;
    }
  }

  lemma ZeroIsZero()
    ensures Value([0]) == 0
  {
    ValueCons(0, []);
    assert [0] + [] == [0];
  }

  /** A strict reader gets back zero and the eight numbers, exactly when none
      of the eight byte strings is empty: an empty one becomes an INTEGER
      without contents, which section 8.3.1 of X.690 forbids. */
  lemma RsaRoundTripIff(parts: seq<bytes>)
    requires |parts| == 8 && FitsBuffers(parts)
    ensures ReadRsaPrivateKey(RsaPrivateKey(parts)) == if NoneEmpty(parts) then Some([0] + Values(parts)) else None
  {
    var all := [[0]] + parts;
    ReadDerIntegers(all);
    ReadDerValue(SEQUENCE, DerIntegers(all), []);
    WithVersion(parts);
    hide ReadIntegers, DerIntegers, DerValue, ReadValue, Unsigned, Value, FitsBuffers, AllShort, NoneEmpty, Values;
    assert DerValue(SEQUENCE, DerIntegers(all)) + [] == RsaPrivateKey(parts);
  }

  lemma WithVersion(parts: seq<bytes>)
    ensures NoneEmpty([[0]] + parts) <==> NoneEmpty(parts)
    ensures Values([[0]] + parts) == [0] + Values(parts)
  {
    var all := [[0]] + parts;
    ZeroIsZero();
    hide Value;
    assert all[0] == [0] && forall i :: 0 <= i < |parts| ==> all[i + 1] == parts[i];
  }

  lemma {:induction false} ShortIntegersFit(parts: seq<bytes>)
    requires forall i :: 0 <= i < |parts| ==> |parts[i]| <= 1
    ensures AllShort(parts) && |DerIntegers(parts)| <= 4 * |parts|
  {
    forall i | 0 <= i < |parts|
      ensures |Unsigned(parts[i])| <= 2
    {
      TrimmedKeepsValue(parts[i]);
    }
    hide Unsigned;
    if parts != [] {
      ShortIntegersFit(parts[1..]);
    }
  }

  /** The tags and lengths of X.690, byte by byte. */
  lemma SmallestIntegers()
    ensures DerInteger([5]) == [2, 1, 5] && DerInteger([200]) == [2, 2, 0, 200] && DerInteger([0, 0, 7]) == [2, 1, 7]
    ensures DerValue(SEQUENCE, [2, 1, 5]) == [48, 3, 2, 1, 5]
  {
    assert Trimmed([0, 0, 7]) == Trimmed([0, 7]) == Trimmed([7]) == [7] by {
      assert [0, 0, 7][1..] == [0, 7] && [0, 7][1..] == [7];
    }
    assert [0] + [200] == [0, 200];
  }

  /** A key whose last parameter is empty is written, and not read. */
  lemma EmptyParameterIsRefused()
    ensures var parts: seq<bytes> := [[1], [1], [1], [1], [1], [1], [1], []];
      FitsBuffers(parts) && ReadRsaPrivateKey(RsaPrivateKey(parts)) == None
  {
    var parts: seq<bytes> := [[1], [1], [1], [1], [1], [1], [1], []];
    ShortIntegersFit([[0]] + parts);
    hide DerIntegers, ReadRsaPrivateKey, RsaPrivateKey;
    RsaRoundTripIff(parts);
    assert parts[7] == [];
  }
}
