/** Byte strings, big-endian numbers and their concatenation. */
module Bytes {
  type byte = x: int | 0 <= x < 256

  type bytes = seq<byte>

  /** The largest length a typed array can have. */
  const MAX_LENGTH := 0x1F_FFFF_FFFF_FFFF

  function Flatten(parts: seq<bytes>): bytes {
    if parts == [] then [] else parts[0] + Flatten(parts[1..])
  }

  lemma {:induction false} FlattenAppend(parts: seq<bytes>, part: bytes)
    ensures Flatten(parts + [part]) == Flatten(parts) + part
  {
    if parts == [] {
      assert parts + [part] == [part];
    } else {
      FlattenAppend(parts[1..], part);
      assert (parts + [part])[1..] == parts[1..] + [part];
    }
  }

  function TotalLength(parts: seq<bytes>): nat {
    if parts == [] then 0 else |parts[0]| + TotalLength(parts[1..])
  }

  lemma {:induction false} TotalLengthIsFlattenLength(parts: seq<bytes>)
    ensures TotalLength(parts) == |Flatten(parts)|
  {
    if parts == [] {
    } else {
      TotalLengthIsFlattenLength(parts[1..]);
    }
  }

  /** Copy every part, one after the other, into a buffer of the summed length. */
  method Concat(parts: seq<bytes>) returns (output: array<byte>)
    ensures fresh(output) && output[..] == Flatten(parts)
  {
    TotalLengthIsFlattenLength(parts);
    output := new byte[TotalLength(parts)](_ => 0);
    var offset := 0;
    var i := 0;
    while i < |parts|
      invariant 0 <= i <= |parts|
      invariant offset == |Flatten(parts[..i])| <= output.Length
      invariant output[..offset] == Flatten(parts[..i])
    {
      FlattenAppend(parts[..i], parts[i]);
      assert parts[..i + 1] == parts[..i] + [parts[i]];
      FlattenSplit(parts, i + 1);
      ghost var before := output[..offset];
      forall k | 0 <= k < |parts[i]| {
        output[offset + k] := parts[i][k];
      }
      assert output[..offset] == before;
      assert output[..offset + |parts[i]|] == before + parts[i];
      offset := offset + |parts[i]|;
      i := i + 1;
    }
    assert parts[..i] == parts;
  }

  lemma {:induction false} FlattenSplit(parts: seq<bytes>, i: nat)
    requires i <= |parts|
    ensures Flatten(parts) == Flatten(parts[..i]) + Flatten(parts[i..])
  {
    if i == 0 {
      assert parts[i..] == parts;
    } else {
      FlattenSplit(parts[1..], i - 1);
      assert parts[..i][1..] == parts[1..][..i - 1];
      assert parts[1..][i - 1..] == parts[i..];
    }
  }

  // ---------- Numbers ----------

  function Pow256(n: nat): (p: nat)
    ensures p > 0
  {
    if n == 0 then 1 else 256 * Pow256(n - 1)
  }

  /** The unsigned big-endian value of a byte string. */
  function Value(bs: bytes): nat {
    if bs == [] then 0 else 256 * Value(bs[..|bs| - 1]) + bs[|bs| - 1]
  }

  lemma {:induction false} ValueCons(b: byte, bs: bytes)
    ensures Value([b] + bs) == b * Pow256(|bs|) + Value(bs)
  {
    if bs == [] {
      assert [b] + bs == [b];
    } else {
      var n := |bs| - 1;
      ValueCons(b, bs[..n]);
      assert ([b] + bs)[..|bs|] == [b] + bs[..n];
      assert b * Pow256(|bs|) == 256 * (b * Pow256(n));
    }
  }

  lemma ValueOfFour(a: byte, b: byte, c: byte, d: byte)
    ensures Value([a, b, c, d]) == ((a * 256 + b) * 256 + c) * 256 + d
  {
    ValueCons(c, [d]);
    ValueCons(b, [c, d]);
    ValueCons(a, [b, c, d]);
    assert Value([d]) == d by {
      ValueCons(d, []);
    }
    assert [a, b, c, d] == [a] + [b, c, d];
    assert [b, c, d] == [b] + [c, d];
    assert [c, d] == [c] + [d];
    assert Pow256(1) == 256 && Pow256(2) == 65536 && Pow256(3) == 0x100_0000;
  }

  /** A DataView's setUint32, which keeps the low 32 bits. */
  function UInt32(v: nat): (bs: bytes)
    ensures |bs| == 4
  {
    var w := v % 0x1_0000_0000;
    [w / 0x100_0000, w / 0x1_0000 % 256, w / 0x100 % 256, w % 256]
  }

  lemma FourDigits(w: nat)
    requires w < 0x1_0000_0000
    ensures ((w / 0x100_0000 * 256 + w / 0x1_0000 % 256) * 256 + w / 0x100 % 256) * 256 + w % 256 == w
  {
    assert w / 0x1_0000 == w / 0x100 / 256 && w / 0x100_0000 == w / 0x1_0000 / 256;
  }

  lemma ValueOfUInt32(v: nat)
    ensures Value(UInt32(v)) == v % 0x1_0000_0000
  {
    var w := v % 0x1_0000_0000;
    FourDigits(w);
    ValueOfFour(w / 0x100_0000, w / 0x1_0000 % 256, w / 0x100 % 256, w % 256);
  }

  // ---------- Signed numbers and their shortest form ----------

  /** The two's-complement big-endian value. */
  function SignedValue(bs: bytes): int {
    if bs != [] && bs[0] >= 128 then Value(bs) - Pow256(|bs|) else Value(bs)
  }

  /** Drop leading zeros, but keep the last byte whatever it is. */
  function Trimmed(bs: bytes): bytes {
    if |bs| > 1 && bs[0] == 0 then Trimmed(bs[1..]) else bs
  }

  method TrimLeadingZeros(bs: bytes) returns (r: bytes)
    ensures r == Trimmed(bs)
  {
    var offset := 0;
    while offset < |bs| - 1 && bs[offset] == 0
      invariant 0 <= offset <= |bs|
      invariant Trimmed(bs[offset..]) == Trimmed(bs)
    {
      assert bs[offset..][1..] == bs[offset + 1..];
      offset := offset + 1;
    }
    return bs[offset..];
  }

  lemma {:induction false} TrimmedKeepsValue(bs: bytes)
    ensures Value(Trimmed(bs)) == Value(bs)
    ensures |Trimmed(bs)| <= |bs| && (bs == [] <==> Trimmed(bs) == [])
    ensures |Trimmed(bs)| > 1 ==> Trimmed(bs)[0] != 0
  {
    if |bs| > 1 && bs[0] == 0 {
      TrimmedKeepsValue(bs[1..]);
      assert bs == [bs[0]] + bs[1..];
      ValueCons(bs[0], bs[1..]);
    }
  }

  /** Trimmed, with a zero in front if the top bit would read as a sign. */
  function Unsigned(bs: bytes): bytes {
    var t := Trimmed(bs);
    if |t| > 0 && t[0] >= 128 then [0] + t else t
  }

  lemma UnsignedKeepsValue(bs: bytes)
    ensures SignedValue(Unsigned(bs)) == Value(bs)
  {
    TrimmedKeepsValue(bs);
    ZeroInFront(Trimmed(bs));
    hide Value, Trimmed;
  }

  lemma ZeroInFront(bs: bytes)
    ensures Value([0] + bs) == Value(bs)
  {
    ValueCons(0, bs);
  }

  /** No first byte that only repeats the sign of the next. */
  predicate NoRedundantByte(bs: bytes) {
    |bs| > 1 ==> !(bs[0] == 0 && bs[1] < 128) && !(bs[0] == 255 && bs[1] >= 128)
  }

  lemma UnsignedHasNoRedundantByte(bs: bytes)
    ensures NoRedundantByte(Unsigned(bs))
    ensures Unsigned(bs) == [] <==> bs == []
    ensures Unsigned(bs) == [0] <==> bs != [] && Value(bs) == 0
  {
    TrimmedKeepsValue(bs);
    TrimmedZero(bs);
    hide Value, Trimmed;
  }

  lemma TrimmedZero(bs: bytes)
    ensures Trimmed(bs) == [0] <==> bs != [] && Value(bs) == 0
  {
    TrimmedKeepsValue(bs);
    var t := Trimmed(bs);
    if t != [] {
      assert t == [t[0]] + t[1..];
      ValueCons(t[0], t[1..]);
      if t[0] > 0 {
        PowPositive(t[0], |t| - 1);
      }
    }
  }

  lemma PowPositive(b: nat, n: nat)
    requires b > 0
    ensures b * Pow256(n) > 0
  {
  }
}
