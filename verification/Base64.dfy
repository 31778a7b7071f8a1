/** Standard base64 with padding (section 4 of RFC 4648): the encoder both
    programs rely on and the strict decoder of the Rust side. */
module Base64 {
  import opened Wrappers
  import opened Bytes

  type sextet = x: int | 0 <= x < 64

  predicate IsSymbol(c: char) {
    'A' <= c <= 'Z' || 'a' <= c <= 'z' || '0' <= c <= '9' || c == '+' || c == '/'
  }

  function Symbol(i: sextet): (c: char)
    ensures IsSymbol(c) && Index(c) == i
  {
    if i < 26 then 'A' + i as char
    else if i < 52 then 'a' + (i - 26) as char
    else if i < 62 then '0' + (i - 52) as char
    else if i == 62 then '+'
    else '/'
  }

  function Index(c: char): (i: sextet)
    requires IsSymbol(c)
  {
    if 'A' <= c <= 'Z' then c as int - 'A' as int
    else if 'a' <= c <= 'z' then c as int - 'a' as int + 26
    else if '0' <= c <= '9' then c as int - '0' as int + 52
    else if c == '+' then 62
    else 63
  }

  /** Table 1 of RFC 4648: capitals, small letters, digits, plus and slash. */
  lemma SymbolCodes(i: sextet)
    ensures Symbol(i) as int == if i < 26 then 65 + i else if i < 52 then 71 + i else if i < 62 then i - 4 else if i == 62 then 43 else 47
  {
  }

  lemma SymbolOfIndex(c: char)
    requires IsSymbol(c)
    ensures Symbol(Index(c)) == c
  {
  }

  // ---------- Encoding ----------

  function Encode(bs: bytes): (s: string)
    ensures |s| % 4 == 0
    ensures |s| == (|bs| + 2) / 3 * 4
  {
    if |bs| == 0 then ""
    else if |bs| == 1 then [Symbol(bs[0] / 4), Symbol(bs[0] % 4 * 16), '=', '=']
    else if |bs| == 2 then [Symbol(bs[0] / 4), Symbol(bs[0] % 4 * 16 + bs[1] / 16), Symbol(bs[1] % 16 * 4), '=']
    else EncodeBlock(bs[0], bs[1], bs[2]) + Encode(bs[3..])
  }

  function EncodeBlock(a: byte, b: byte, c: byte): (s: string)
    ensures |s| == 4 && forall i :: 0 <= i < 4 ==> IsSymbol(s[i])
  {
    [Symbol(a / 4), Symbol(a % 4 * 16 + b / 16), Symbol(b % 16 * 4 + c / 64), Symbol(c % 64)]
  }

  // ---------- Decoding ----------

  function DecodeBlock(s: string): (r: Option<bytes>)
    requires |s| == 4
    ensures r.Some? ==> |r.value| == 3
  {
    if !IsSymbol(s[0]) || !IsSymbol(s[1]) || !IsSymbol(s[2]) || !IsSymbol(s[3]) then None
    else
      var i, j, k, l := Index(s[0]), Index(s[1]), Index(s[2]), Index(s[3]);
      Some([i * 4 + j / 16, j % 16 * 16 + k / 4, k % 4 * 64 + l])
  }

  /** The last block may be padded, with the unused bits zero. */
  function DecodeLast(s: string): (r: Option<bytes>)
    requires |s| == 4
  {
    if s[3] != '=' then DecodeBlock(s)
    else if s[2] != '=' then
      if !IsSymbol(s[0]) || !IsSymbol(s[1]) || !IsSymbol(s[2]) || Index(s[2]) % 4 != 0 then None
      else Some([Index(s[0]) * 4 + Index(s[1]) / 16, Index(s[1]) % 16 * 16 + Index(s[2]) / 4])
    else
      if !IsSymbol(s[0]) || !IsSymbol(s[1]) || Index(s[1]) % 16 != 0 then None
      else Some([Index(s[0]) * 4 + Index(s[1]) / 16])
  }

  function Decode(s: string): Option<bytes> {
    if |s| == 0 then Some([])
    else if |s| < 4 then None
    else if |s| == 4 then DecodeLast(s)
    else
      var head, tail := DecodeBlock(s[..4]), Decode(s[4..]);
      if head.None? || tail.None? then None else Some(head.value + tail.value)
  }

  // ---------- What the two do to each other ----------

  lemma SextetsOfBlock(a: byte, b: byte, c: byte)
    ensures var j, k, l := a % 4 * 16 + b / 16, b % 16 * 4 + c / 64, c % 64;
      a / 4 * 4 + j / 16 == a && j % 16 * 16 + k / 4 == b && k % 4 * 64 + l == c
  {
  }

  lemma DecodeOfEncodeBlock(a: byte, b: byte, c: byte)
    ensures DecodeBlock(EncodeBlock(a, b, c)) == Some([a, b, c])
  {
    hide Symbol, Index, IsSymbol;
    SextetsOfBlock(a, b, c);
    var i, j, k, l: sextet := a / 4, a % 4 * 16 + b / 16, b % 16 * 4 + c / 64, c % 64;
    assert EncodeBlock(a, b, c) == [Symbol(i), Symbol(j), Symbol(k), Symbol(l)];
  }

  lemma DecodeOfOneByte(a: byte)
    ensures DecodeLast(Encode([a])) == Some([a])
  {
    hide Symbol, Index;
    var i, j: sextet := a / 4, a % 4 * 16;
    assert Encode([a]) == [Symbol(i), Symbol(j), '=', '='];
    assert i * 4 + j / 16 == a;
  }

  lemma DecodeOfTwoBytes(a: byte, b: byte)
    ensures DecodeLast(Encode([a, b])) == Some([a, b])
  {
    hide Symbol, Index;
    var i, j, k: sextet := a / 4, a % 4 * 16 + b / 16, b % 16 * 4;
    assert Encode([a, b]) == [Symbol(i), Symbol(j), Symbol(k), '='];
    assert i * 4 + j / 16 == a && j % 16 * 16 + k / 4 == b;
  }

  lemma {:induction false} DecodeOfEncode(bs: bytes)
    ensures Decode(Encode(bs)) == Some(bs)
  {
    hide EncodeBlock, DecodeBlock, Symbol, Index, DecodeLast;
    if |bs| == 1 {
      DecodeOfOneByte(bs[0]);
      assert bs == [bs[0]];
    } else if |bs| == 2 {
      DecodeOfTwoBytes(bs[0], bs[1]);
      assert bs == [bs[0], bs[1]];
    } else if |bs| >= 3 {
      var head, tail := EncodeBlock(bs[0], bs[1], bs[2]), Encode(bs[3..]);
      DecodeOfEncodeBlock(bs[0], bs[1], bs[2]);
      DecodeOfEncode(bs[3..]);
      assert (head + tail)[..4] == head && (head + tail)[4..] == tail;
      assert bs == [bs[0], bs[1], bs[2]] + bs[3..];
      LastBlockUnpadded(head);
      if |bs| == 3 {
        assert head + tail == head && bs == [bs[0], bs[1], bs[2]];
        assert Decode(head) == DecodeLast(head);
      } else {
        assert |head + tail| > 4;
        assert Decode(head + tail).value == DecodeBlock(head).value + Decode(tail).value;
      }
    }
  }

  lemma LastBlockUnpadded(s: string)
    requires |s| == 4 && IsSymbol(s[3])
    ensures DecodeLast(s) == DecodeBlock(s)
  {
  }

  lemma BlockIsCanonical(s: string)
    requires |s| == 4 && DecodeBlock(s).Some?
    ensures var b := DecodeBlock(s).value; EncodeBlock(b[0], b[1], b[2]) == s
  {
    var b := DecodeBlock(s).value;
    var i, j, k, l := Index(s[0]), Index(s[1]), Index(s[2]), Index(s[3]);
    SymbolOfIndex(s[0]);
    SymbolOfIndex(s[1]);
    SymbolOfIndex(s[2]);
    SymbolOfIndex(s[3]);
    hide Symbol, Index;
    assert b[0] / 4 == i && b[0] % 4 * 16 + b[1] / 16 == j && b[1] % 16 * 4 + b[2] / 64 == k && b[2] % 64 == l;
  }

  lemma LastIsCanonical(s: string)
    requires |s| == 4 && DecodeLast(s).Some?
    ensures Encode(DecodeLast(s).value) == s
  {
    hide Symbol, Index;
    if s[3] != '=' {
      BlockIsCanonical(s);
      assert Encode(DecodeLast(s).value[3..]) == "";
    } else if s[2] != '=' {
      OnePadIsCanonical(s);
    } else {
      TwoPadsAreCanonical(s);
    }
  }

  lemma OnePadIsCanonical(s: string)
    requires |s| == 4 && DecodeLast(s).Some? && s[3] == '=' && s[2] != '='
    ensures Encode(DecodeLast(s).value) == s
  {
    SymbolOfIndex(s[0]);
    SymbolOfIndex(s[1]);
    SymbolOfIndex(s[2]);
    hide Symbol, Index;
    var i, j, k := Index(s[0]), Index(s[1]), Index(s[2]);
    var b := DecodeLast(s).value;
    assert b[0] / 4 == i && b[0] % 4 * 16 + b[1] / 16 == j && b[1] % 16 * 4 == k;
    assert Encode(b) == [Symbol(i), Symbol(j), Symbol(k), '='];
  }

  lemma TwoPadsAreCanonical(s: string)
    requires |s| == 4 && DecodeLast(s).Some? && s[3] == '=' && s[2] == '='
    ensures Encode(DecodeLast(s).value) == s
  {
    SymbolOfIndex(s[0]);
    SymbolOfIndex(s[1]);
    hide Symbol, Index;
    var i, j := Index(s[0]), Index(s[1]);
    var b := DecodeLast(s).value;
    assert b[0] / 4 == i && b[0] % 4 * 16 == j;
    assert Encode(b) == [Symbol(i), Symbol(j), '=', '='];
  }

  /** The strict decoder accepts one text per byte string. */
  lemma {:induction false} EncodeOfDecode(s: string)
    requires Decode(s).Some?
    ensures Encode(Decode(s).value) == s
  {
    if |s| == 4 {
      LastIsCanonical(s);
    } else if |s| > 4 {
      EncodeOfDecode(s[4..]);
      BlockIsCanonical(s[..4]);
      var head := DecodeBlock(s[..4]).value;
      assert Decode(s).value[3..] == Decode(s[4..]).value;
      assert s == s[..4] + s[4..];
    }
  }

  /** Cutting an encoding after whole blocks cuts the bytes it encodes. */
  lemma {:induction false} EncodePrefix(bs: bytes, blocks: nat)
    requires 3 * blocks <= |bs|
    ensures 4 * blocks <= |Encode(bs)|
    ensures Encode(bs)[..4 * blocks] == Encode(bs[..3 * blocks])
  {
    hide EncodeBlock, Symbol;
    if blocks > 0 {
      EncodePrefix(bs[3..], blocks - 1);
      var cut := bs[..3 * blocks];
      assert cut[3..] == bs[3..][..3 * (blocks - 1)];
      var head, tail := EncodeBlock(bs[0], bs[1], bs[2]), Encode(bs[3..]);
      assert Encode(bs) == head + tail && Encode(cut) == head + Encode(cut[3..]);
      assert (head + tail)[..4 * blocks] == head + tail[..4 * (blocks - 1)];
    }
  }

  /** An encoding is symbols, then at most two padding characters. */
  lemma {:induction false} EncodedCharacters(bs: bytes)
    ensures forall i :: 0 <= i < |Encode(bs)| ==> IsSymbol(Encode(bs)[i]) || Encode(bs)[i] == '='
  {
    if |bs| >= 3 {
      EncodedCharacters(bs[3..]);
    }
  }

  /** Four of the test vectors in section 10 of RFC 4648. */
  lemma TestVectors()
    ensures Encode([]) == "" && Encode([102]) == "Zg==" && Encode([102, 111]) == "Zm8=" && Encode([102, 111, 111]) == "Zm9v"
  {
    assert [102, 111, 111][3..] == [];
  }
}
