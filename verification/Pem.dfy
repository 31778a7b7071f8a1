/** PEM text: base64 folded into lines between two markers. */
module Pem {
  import opened Wrappers
  import opened Bytes
  import opened Base64

  /** What Rust calls ASCII whitespace. */
  predicate IsAsciiSpace(c: char) {
    c == ' ' || c == '\t' || c == '\n' || c == '\r' || c == 12 as char
  }

  /** Tab, line feed, form feed, carriage return and space. */
  lemma AsciiSpaceCodes(c: char)
    ensures IsAsciiSpace(c) <==> c as int in {9, 10, 12, 13, 32}
  {
  }

  /** Break a text into lines of `width` characters. */
  function WrapLines(s: string, width: nat): string
    requires width > 0
  {
    if |s| <= width then s else s[..width] + "\n" + WrapLines(s[width..], width)
  }

  function Kept(c: char): string {
    if IsAsciiSpace(c) then "" else [c]
  }

  /** The text without its ASCII whitespace. */
  function Strip(s: string): string {
    if s == "" then "" else Kept(s[0]) + Strip(s[1..])
  }

  lemma Regroup(a: string, b: string, c: string)
    ensures (a + b) + c == a + (b + c)
  {
  }

  lemma {:induction false} StripAppend(a: string, b: string)
    ensures Strip(a + b) == Strip(a) + Strip(b)
  {
    if a == "" {
      assert a + b == b;
    } else {
      StripAppend(a[1..], b);
      assert (a + b)[1..] == a[1..] + b;
      hide Kept;
      Regroup(Kept(a[0]), Strip(a[1..]), Strip(b));
      assert Strip(a) == Kept(a[0]) + Strip(a[1..]);
      assert Strip(a + b) == Kept(a[0]) + (Strip(a[1..]) + Strip(b));
    }
  }

  lemma {:induction false} StripNothing(s: string)
    requires forall i :: 0 <= i < |s| ==> !IsAsciiSpace(s[i])
    ensures Strip(s) == s
  {
    if s == "" {
    } else {
      StripNothing(s[1..]);
    }
  }

  lemma StripOneLine(line: string, rest: string)
    requires forall i :: 0 <= i < |line| ==> !IsAsciiSpace(line[i])
    ensures Strip(line + "\n" + rest) == line + Strip(rest)
  {
    hide Strip;
    StripNothing(line);
    StripAppend(line + "\n", rest);
    StripAppend(line, "\n");
    StripLineFeed();
    assert line + "" == line;
  }

  lemma StripLineFeed()
    ensures Strip("\n") == ""
  {
  }

  lemma {:induction false} StripOfWrapLines(s: string, width: nat)
    requires width > 0
    requires forall i :: 0 <= i < |s| ==> !IsAsciiSpace(s[i])
    ensures Strip(WrapLines(s, width)) == s
  {
    hide Strip;
    if |s| <= width {
      StripNothing(s);
    } else {
      StripOfWrapLines(s[width..], width);
      StripOneLine(s[..width], WrapLines(s[width..], width));
      assert s == s[..width] + s[width..];
    }
  }

  /** Every line but the last has exactly `width` characters: behind each whole
      line stands a line feed, and then the next character. */
  lemma {:induction false} WrapLinesAt(s: string, width: nat, line: nat, column: nat)
    requires column < width && line * width + column < |s|
    ensures line * (width + 1) + column < |WrapLines(s, width)|
    ensures WrapLines(s, width)[line * (width + 1) + column] == s[line * width + column]
    ensures line > 0 && column == 0 ==> WrapLines(s, width)[line * (width + 1) - 1] == '\n'
  {
    if line > 0 {
      OneLineLess(line, width);
      var before := (line - 1) * width + column;
      assert |s| > width && s[width..][before] == s[width + before];
      WrapLinesAt(s[width..], width, line - 1, column);
      WrappedAfterFirst(s, width, (line - 1) * (width + 1) + column);
      if line > 1 && column == 0 {
        WrappedAfterFirst(s, width, (line - 1) * (width + 1) - 1);
      }
    }
  }

  lemma OneLineLess(line: nat, width: nat)
    requires line > 0
    ensures line * width == (line - 1) * width + width
    ensures line * (width + 1) == (line - 1) * (width + 1) + width + 1
    ensures 0 <= (line - 1) * width && (line > 1 ==> (line - 1) * (width + 1) >= width + 1)
  {
    if line > 1 {
      assert (line - 1) * (width + 1) == (line - 2) * (width + 1) + width + 1 && (line - 2) * (width + 1) >= 0;
    }
  }

  lemma WrappedAfterFirst(s: string, width: nat, i: nat)
    requires 0 < width < |s| && i < |WrapLines(s[width..], width)|
    ensures width + 1 + i < |WrapLines(s, width)|
    ensures WrapLines(s, width)[width + 1 + i] == WrapLines(s[width..], width)[i] && WrapLines(s, width)[width] == '\n'
  {
  }

  function BeginMarker(kind: string): string {
    "-----BEGIN " + kind + "-----"
  }

  function EndMarker(kind: string): string {
    "-----END " + kind + "-----"
  }

  function Armor(kind: string, bs: bytes, width: nat): string
    requires width > 0
  {
    BeginMarker(kind) + "\n" + WrapLines(Encode(bs), width) + "\n" + EndMarker(kind)
  }

  /** Take the markers off, join the lines and decode. */
  function Unarmor(kind: string, text: string): Option<bytes> {
    var head, tail := BeginMarker(kind), EndMarker(kind);
    if |text| < |head| + |tail| || text[..|head|] != head || text[|text| - |tail|..] != tail then None
    else Decode(Strip(text[|head|..|text| - |tail|]))
  }

  /** The body between the markers is the encoding, spread out. */
  lemma StripOfBody(bs: bytes, width: nat)
    requires width > 0
    ensures Strip("\n" + WrapLines(Encode(bs), width) + "\n") == Encode(bs)
  {
    var body := WrapLines(Encode(bs), width);
    EncodedCharacters(bs);
    SymbolsAreNotSpace(Encode(bs));
    StripOfWrapLines(Encode(bs), width);
    hide Strip;
    StripAppend("\n" + body, "\n");
    StripAppend("\n", body);
    StripLineFeed();
  }

  lemma BetweenMarkers(head: string, body: string, tail: string)
    ensures var text := head + body + tail;
      && text[..|head|] == head
      && text[|text| - |tail|..] == tail
      && text[|head|..|text| - |tail|] == body
  {
  }

  lemma ArmorParts(kind: string, bs: bytes, width: nat)
    requires width > 0
    ensures Armor(kind, bs, width) == BeginMarker(kind) + ("\n" + WrapLines(Encode(bs), width) + "\n") + EndMarker(kind)
  {
    hide BeginMarker, EndMarker, WrapLines, Encode;
  }

  lemma UnarmorOfArmor(kind: string, bs: bytes, width: nat)
    requires width > 0
    ensures Unarmor(kind, Armor(kind, bs, width)) == Some(bs)
  {
    hide BeginMarker, EndMarker, WrapLines, Strip, Encode, Decode, Armor;
    StripOfBody(bs, width);
    DecodeOfEncode(bs);
    ArmorParts(kind, bs, width);
    BetweenMarkers(BeginMarker(kind), "\n" + WrapLines(Encode(bs), width) + "\n", EndMarker(kind));
  }

  lemma SymbolsAreNotSpace(s: string)
    requires forall i :: 0 <= i < |s| ==> IsSymbol(s[i]) || s[i] == '='
    ensures forall i :: 0 <= i < |s| ==> !IsAsciiSpace(s[i])
  {
  }
}
