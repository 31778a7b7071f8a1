/** The bytes of a JWK parameter: base64url without padding, decoded by way of
    the browser's `atob`. */
module JwkBytes {
  import opened Wrappers
  import opened Bytes
  import opened Base64
  import opened Pem

  // ---------- atob ----------

  predicate AllSymbols(s: string) {
    forall i :: 0 <= i < |s| ==> IsSymbol(s[i])
  }

  /** At a whole number of blocks one or two final padding characters go. */
  function DropPadding(s: string): string {
    if |s| % 4 != 0 || s == "" || s[|s| - 1] != '=' then s
    else if s[|s| - 2] != '=' then s[..|s| - 1]
    else s[..|s| - 2]
  }

  function FirstByte(i: sextet, j: sextet): byte {
    i * 4 + j / 16
  }

  function SecondByte(j: sextet, k: sextet): byte {
    j % 16 * 16 + k / 4
  }

  /** Every 8 of the bits, the rest being dropped. */
  function DecodeSymbols(s: string): bytes
    requires AllSymbols(s) && |s| % 4 != 1
  {
    if |s| == 0 then []
    else if |s| == 2 then [FirstByte(Index(s[0]), Index(s[1]))]
    else if |s| == 3 then [FirstByte(Index(s[0]), Index(s[1])), SecondByte(Index(s[1]), Index(s[2]))]
    else DecodeBlock(s[..4]).value + DecodeSymbols(s[4..])
  }

  /** The forgiving decoder of the Infra Standard (section 7). */
  function ForgivingDecode(s: string): Option<bytes> {
    var data := DropPadding(Strip(s));
    if |data| % 4 == 1 || !AllSymbols(data) then None else Some(DecodeSymbols(data))
  }

  /** One character per byte. */
  function BinaryString(bs: bytes): (s: string)
    ensures |s| == |bs| && forall i :: 0 <= i < |bs| ==> s[i] as int == bs[i]
  {
    seq(|bs|, i requires 0 <= i < |bs| => bs[i] as char)
  }

  function Atob(s: string): Option<string> {
    var bs := ForgivingDecode(s);
    if bs.None? then None else Some(BinaryString(bs.value))
  }

  // ---------- The decoder ----------

  /** Both replacements, character by character. */
  function FromUrl(s: string): (t: string)
    ensures |t| == |s|
  {
    seq(|s|, i requires 0 <= i < |s| => if s[i] == '-' then '+' else if s[i] == '_' then '/' else s[i])
  }

  function PadCount(n: nat): (count: nat)
    ensures count < 4 && (n + count) % 4 == 0
  {
    (4 - n % 4) % 4
  }

  function Pads(n: nat): (s: string)
    ensures |s| == n
  {
    seq(n, i => '=')
  }

  function PadEnd(s: string): string {
    s + Pads(PadCount(|s|))
  }

  function Base64UrlToBytes(value: string): Option<bytes> {
    ForgivingDecode(PadEnd(FromUrl(value)))
  }

  /** The buffer is filled from the binary string, code by code. */
  method DecodeParameter(value: string) returns (r: Option<bytes>)
    ensures r == Base64UrlToBytes(value)
  {
    var binary := Atob(PadEnd(FromUrl(value)));
    if binary.None? {
      return None;
    }
    ghost var expected := ForgivingDecode(PadEnd(FromUrl(value))).value;
    hide Atob, ForgivingDecode, BinaryString;
    var output := new byte[|binary.value|](_ => 0);
    assert binary.value == BinaryString(expected) by {
      AtobIsBinary(PadEnd(FromUrl(value)));
    }
    var index := 0;
    while index < |binary.value|
      invariant 0 <= index <= |binary.value| == |expected|
      invariant output[..index] == expected[..index]
    {
      assert binary.value[index] as int == expected[index];
      output[index] := binary.value[index] as int;
      assert output[..index + 1] == output[..index] + [output[index]];
      index := index + 1;
    }
    assert output[..] == output[..index] == expected;
    return Some(output[..]);
  }

  lemma AtobIsBinary(s: string)
    requires Atob(s).Some?
    ensures ForgivingDecode(s).Some? && Atob(s).value == BinaryString(ForgivingDecode(s).value)
  {
  }

  // ---------- Reading back what a JWK holds ----------

  function Unpadded(bs: bytes): string {
    if |bs| == 0 then ""
    else if |bs| == 1 then Encode(bs)[..2]
    else if |bs| == 2 then Encode(bs)[..3]
    else EncodeBlock(bs[0], bs[1], bs[2]) + Unpadded(bs[3..])
  }

  /** Base64url as section 2 of RFC 7515 has it: no padding, and two of the
      symbols replaced. */
  function UrlEncode(bs: bytes): string {
    ToUrl(Unpadded(bs))
  }

  function ToUrl(s: string): (t: string)
    ensures |t| == |s|
  {
    seq(|s|, i requires 0 <= i < |s| => if s[i] == '+' then '-' else if s[i] == '/' then '_' else s[i])
  }

  /** A letter, a digit, a hyphen or an underscore. */
  predicate IsUrlCharacter(c: char) {
    'A' <= c <= 'Z' || 'a' <= c <= 'z' || '0' <= c <= '9' || c == '-' || c == '_'
  }

  lemma UrlCharacters(bs: bytes)
    ensures forall i :: 0 <= i < |UrlEncode(bs)| ==> IsUrlCharacter(UrlEncode(bs)[i])
  {
    UnpaddedSymbols(bs);
  }

  lemma {:induction false} UnpaddedSymbols(bs: bytes)
    ensures AllSymbols(Unpadded(bs))
  {
    if |bs| >= 3 {
      UnpaddedSymbols(bs[3..]);
      var head, tail := EncodeBlock(bs[0], bs[1], bs[2]), Unpadded(bs[3..]);
      hide EncodeBlock, IsSymbol;
    }
  }

  lemma {:induction false} UnpaddedLength(bs: bytes)
    ensures |Unpadded(bs)| % 4 == if |bs| % 3 == 0 then 0 else |bs| % 3 + 1
  {
    hide EncodeBlock, IsSymbol, Encode;
    if |bs| >= 3 {
      UnpaddedLength(bs[3..]);
    }
  }

  lemma UnpaddedShape(bs: bytes)
    ensures AllSymbols(Unpadded(bs)) && |Unpadded(bs)| % 4 != 1
  {
    UnpaddedSymbols(bs);
    UnpaddedLength(bs);
  }

  lemma {:induction false} DecodeUnpadded(bs: bytes)
    requires AllSymbols(Unpadded(bs)) && |Unpadded(bs)| % 4 != 1
    ensures DecodeSymbols(Unpadded(bs)) == bs
  {
    if |bs| == 1 {
      DecodeOneByte(bs);
    } else if |bs| == 2 {
      DecodeTwoBytes(bs);
    } else if |bs| >= 3 {
      UnpaddedShape(bs[3..]);
      DecodeUnpadded(bs[3..]);
      DecodeOneMore(EncodeBlock(bs[0], bs[1], bs[2]), Unpadded(bs[3..]));
      DecodeOfEncodeBlock(bs[0], bs[1], bs[2]);
      hide Index, EncodeBlock, DecodeSymbols, DecodeBlock;
      assert bs == [bs[0], bs[1], bs[2]] + bs[3..];
    }
  }

  lemma DecodeTwo(i: sextet, j: sextet)
    ensures AllSymbols([Symbol(i), Symbol(j)])
    ensures DecodeSymbols([Symbol(i), Symbol(j)]) == [FirstByte(i, j)]
  {
    hide Symbol, Index, FirstByte, SecondByte;
  }

  lemma DecodeThree(i: sextet, j: sextet, k: sextet)
    ensures AllSymbols([Symbol(i), Symbol(j), Symbol(k)])
    ensures DecodeSymbols([Symbol(i), Symbol(j), Symbol(k)]) == [FirstByte(i, j), SecondByte(j, k)]
  {
    hide Symbol, Index, FirstByte, SecondByte;
  }

  lemma BitsOfOne(a: byte)
    ensures FirstByte(a / 4, a % 4 * 16) == a
  {
  }

  lemma DecodeOneByte(bs: bytes)
    requires |bs| == 1 && AllSymbols(Unpadded(bs))
    ensures DecodeSymbols(Unpadded(bs)) == bs
  {
    hide Symbol, Index, FirstByte, DecodeSymbols;
    DecodeTwo(bs[0] / 4, bs[0] % 4 * 16);
    BitsOfOne(bs[0]);
    assert Unpadded(bs) == [Symbol(bs[0] / 4), Symbol(bs[0] % 4 * 16)];
  }

  /** The three sextets two bytes are cut into. */
  predicate Cuts(a: byte, b: byte, i: sextet, j: sextet, k: sextet) {
    i == a / 4 && j == a % 4 * 16 + b / 16 && k == b % 16 * 4
  }

  lemma BitsOfTwo(a: byte, b: byte, i: sextet, j: sextet, k: sextet)
    requires Cuts(a, b, i, j, k)
    ensures FirstByte(i, j) == a && SecondByte(j, k) == b
  {
    assert j / 16 == a % 4 && j % 16 == b / 16;
  }

  lemma UnpaddedTwo(bs: bytes, i: sextet, j: sextet, k: sextet)
    requires |bs| == 2 && Cuts(bs[0], bs[1], i, j, k)
    ensures Unpadded(bs) == [Symbol(i), Symbol(j), Symbol(k)]
  {
    hide Symbol, Index, IsSymbol;
    assert Encode(bs) == [Symbol(i), Symbol(j), Symbol(k), '='];
  }

  lemma DecodeCutBytes(bs: bytes, i: sextet, j: sextet, k: sextet)
    requires |bs| == 2 && Cuts(bs[0], bs[1], i, j, k) && AllSymbols(Unpadded(bs)) && |Unpadded(bs)| % 4 != 1
    ensures DecodeSymbols(Unpadded(bs)) == bs
  {
    hide Cuts, Symbol, FirstByte, SecondByte, DecodeSymbols, Unpadded, AllSymbols;
    UnpaddedTwo(bs, i, j, k);
    BitsOfTwo(bs[0], bs[1], i, j, k);
    DecodeThree(i, j, k);
    assert bs == [bs[0], bs[1]];
  }

  lemma DecodeTwoBytes(bs: bytes)
    requires |bs| == 2 && AllSymbols(Unpadded(bs)) && |Unpadded(bs)| % 4 != 1
    ensures DecodeSymbols(Unpadded(bs)) == bs
  {
    hide DecodeSymbols, Unpadded, AllSymbols;
    DecodeCutBytes(bs, bs[0] / 4, bs[0] % 4 * 16 + bs[1] / 16, bs[1] % 16 * 4);
  }

  lemma DecodeOneMore(head: string, tail: string)
    requires |head| == 4 && AllSymbols(head) && AllSymbols(tail) && |tail| % 4 != 1
    ensures AllSymbols(head + tail) && |head + tail| % 4 != 1
    ensures DecodeBlock(head).Some? && DecodeSymbols(head + tail) == DecodeBlock(head).value + DecodeSymbols(tail)
  {
    hide Index;
    assert (head + tail)[..4] == head && (head + tail)[4..] == tail;
  }

  lemma DropPads(s: string)
    requires AllSymbols(s) && |s| % 4 != 1
    ensures DropPadding(PadEnd(s)) == s
  {
    var padded := PadEnd(s);
    assert s != "" ==> padded[|s| - 1] == s[|s| - 1] && IsSymbol(s[|s| - 1]);
    assert forall i :: |s| <= i < |padded| ==> padded[i] == '=';
    assert padded[..|s|] == s && |padded| % 4 == 0;
    assert !IsSymbol('=');
    hide IsSymbol, PadEnd, Pads;
  }

  lemma StripPadded(s: string)
    requires AllSymbols(s)
    ensures Strip(PadEnd(s)) == PadEnd(s)
  {
    SymbolsAreNotSpace(PadEnd(s));
    StripNothing(PadEnd(s));
  }

  lemma FromToUrl(s: string)
    requires AllSymbols(s)
    ensures FromUrl(ToUrl(s)) == s
  {
    assert !IsSymbol('-') && !IsSymbol('_');
  }

  /** A parameter that is the base64url encoding of some bytes is read as those
      bytes. */
  lemma ParameterRoundTrip(bs: bytes)
    ensures Base64UrlToBytes(UrlEncode(bs)) == Some(bs)
    ensures forall i :: 0 <= i < |UrlEncode(bs)| ==> IsUrlCharacter(UrlEncode(bs)[i])
  {
    UrlCharacters(bs);
    var s := Unpadded(bs);
    UnpaddedShape(bs);
    FromToUrl(s);
    StripPadded(s);
    DropPads(s);
    DecodeUnpadded(bs);
  }
}
