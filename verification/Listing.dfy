/** Reading the long listing that sftp prints. */
module Listing {
  import opened Wrappers
  import opened Decimals
  import opened Text

  datatype Kind = Dir | File | Symlink | Other

  datatype Entry = Entry(name: string, kind: Kind, size: nat, modified: string, permissions: string)

  function KindOf(permissions: string): Kind {
    if permissions == "" then Other
    else
      match permissions[0]
      case 'd' => Dir
      case '-' => File
      case 'l' => Symlink
      case _ => Other
  }

  /** The letter in front of the permissions tells the kind; no letter or any
      other one is another kind. */
  lemma KindIsTheFirstLetter(permissions: string)
    ensures KindOf(permissions) == Dir <==> "d" <= permissions
    ensures KindOf(permissions) == File <==> "-" <= permissions
    ensures KindOf(permissions) == Symlink <==> "l" <= permissions
  {
  }

  const U64_LIMIT := 0x1_0000_0000_0000_0000

  /** A plus sign is allowed, overflow is not. */
  function ParseU64(s: string): Option<nat> {
    var digits := if s != "" && s[0] == '+' then s[1..] else s;
    if digits == "" || !AllDigits(digits) || DigitsValue(digits) >= U64_LIMIT then None
    else Some(DigitsValue(digits))
  }

  lemma ParseU64OfDecimal(n: nat)
    ensures ParseU64(Decimal(n)) == if n < U64_LIMIT then Some(n) else None
  {
    DigitsOfDecimal(n);
  }

  predicate IsNumeral(s: string, digits: string) {
    digits != "" && AllDigits(digits) && (s == digits || s == "+" + digits)
  }

  /** A size is read exactly from digits, with or without a plus sign, below
      2^64, and is their value. */
  lemma ParseU64Iff(s: string, n: nat)
    ensures ParseU64(s) == Some(n) <==>
      exists digits :: IsNumeral(s, digits) && DigitsValue(digits) == n && n < 18_446_744_073_709_551_616
  {
    hide DigitsValue;
    var digits := if s != "" && s[0] == '+' then s[1..] else s;
    if ParseU64(s) == Some(n) {
      assert s != "" && s[0] == '+' ==> s == "+" + s[1..];
      assert IsNumeral(s, digits);
    }
    forall d | IsNumeral(s, d)
      ensures d == digits
    {
      assert s == "+" + d ==> s[1..] == d;
    }
  }

  // ---------- What a row says ----------

  function TrimCarriageReturns(s: string): string {
    if s != "" && s[|s| - 1] == '\r' then TrimCarriageReturns(s[..|s| - 1]) else s
  }

  function Lower(c: char): char {
    if 'A' <= c <= 'Z' then c - 'A' + 'a' else c
  }

  /** No character outside ASCII has one of these letters as its lower case. */
  predicate StartsWithTotal(s: string) {
    && |s| >= 6
    && Lower(s[0]) == 't' && Lower(s[1]) == 'o' && Lower(s[2]) == 't' && Lower(s[3]) == 'a' && Lower(s[4]) == 'l'
    && s[5] == ' '
  }

  /** The echo of the command, and the summary some servers print. */
  predicate IsNotice(s: string) {
    "sftp>" <= s || StartsWithTotal(s)
  }

  /** The first six letters, in either case, are "total". */
  lemma NoticeIff(s: string)
    ensures IsNotice(s) <==> "sftp>" <= s || (|s| >= 6 && forall i :: 0 <= i < 6 ==> s[i] == "total "[i] || s[i] == "TOTAL "[i])
  {
    if |s| >= 6 {
      LowerIs(s[0], 't', 'T');
      LowerIs(s[1], 'o', 'O');
      LowerIs(s[2], 't', 'T');
      LowerIs(s[3], 'a', 'A');
      LowerIs(s[4], 'l', 'L');
    }
  }

  lemma LowerIs(c: char, small: char, capital: char)
    requires 'a' <= small <= 'z' && capital as int == small as int - 32
    ensures Lower(c) == small <==> c == small || c == capital
  {
  }

  /** What follows the first field and the white space after it. */
  function AfterField(s: string): (rest: string)
    ensures |rest| <= |s|
  {
    TrimStartIsShorter(s[FieldLength(s)..]);
    TrimStart(s[FieldLength(s)..])
  }

  lemma {:induction false} TrimStartIsShorter(s: string)
    ensures |TrimStart(s)| <= |s|
    ensures s[|s| - |TrimStart(s)|..] == TrimStart(s)
  {
    if s != "" && IsSpace(s[0]) {
      TrimStartIsShorter(s[1..]);
    }
  }

  function AfterFields(s: string, n: nat): (rest: string)
    ensures |rest| <= |s|
    decreases n
  {
    if n == 0 then s else AfterFields(AfterField(s), n - 1)
  }

  const FIELDS := 8

  /** A symbolic link is shown with its target; keep the link's own name. */
  function CutTarget(name: string): string {
    var arrow := Find(name, " -> ");
    if arrow.Some? then name[..arrow.value] else name
  }

  function EntryOf(fields: seq<string>, name: string): Option<Entry>
    requires |fields| == FIELDS
  {
    var size := ParseU64(fields[4]);
    if size.None? then None
    else
      var kind := KindOf(fields[0]);
      var shown := if kind == Symlink then CutTarget(name) else name;
      if shown == "." then None
      else Some(Entry(shown, kind, size.value, fields[5] + " " + fields[6] + " " + fields[7], fields[0]))
  }

  function ParseLine(line: string): Option<Entry> {
    var trimmed := TrimStart(TrimCarriageReturns(line));
    if trimmed == "" || IsNotice(trimmed) then None
    else
      var name := AfterFields(trimmed, FIELDS);
      if name == "" then None
      else
        var fields := SplitWhitespace(trimmed[..|trimmed| - |name|]);
        if |fields| != FIELDS then None else EntryOf(fields, name)
  }

  // ---------- The scan ----------

  lemma StepInField(s: string)
    requires s != "" && !IsSpace(s[0])
    ensures AfterField(s) == AfterField(s[1..])
  {
    assert s[1..][FieldLength(s[1..])..] == s[FieldLength(s)..];
  }

  lemma StepIntoSpace(s: string)
    requires s != "" && IsSpace(s[0])
    ensures AfterField(s) == TrimStart(s[1..])
  {
    assert s[0..] == s;
  }

  lemma {:induction false} NothingAfterNothing(n: nat)
    ensures AfterFields("", n) == ""
  {
    if n > 0 {
      assert AfterField("") == "";
      NothingAfterNothing(n - 1);
    }
  }

  /** What is left to find when the scan stands at `rest`. */
  function Remaining(rest: string, field: nat, inSpace: bool): string
    requires field <= FIELDS
  {
    AfterFields(if inSpace then TrimStart(rest) else rest, FIELDS - field)
  }

  lemma ScanStep(rest: string, field: nat, inSpace: bool)
    requires rest != "" && field < FIELDS
    ensures Remaining(rest, field, inSpace) ==
      Remaining(rest[1..], if IsSpace(rest[0]) && !inSpace then field + 1 else field, IsSpace(rest[0]))
  {
    hide IsSpace;
    if IsSpace(rest[0]) {
      if !inSpace {
        StepIntoSpace(rest);
      }
    } else {
      StepInField(rest);
      assert TrimStart(rest) == rest;
    }
  }

  /** Find where the name starts: skip eight fields and the runs after them. */
  method FindName(trimmed: string) returns (nameStart: Option<nat>)
    ensures nameStart.Some? <==> AfterFields(trimmed, FIELDS) != ""
    ensures nameStart.Some? ==> nameStart.value < |trimmed| && trimmed[nameStart.value..] == AfterFields(trimmed, FIELDS)
  {
    hide AfterFields, TrimStart, IsSpace;
    var field := 0;
    nameStart := None;
    var prevWasSpace := false;
    var i := 0;
    assert trimmed[0..] == trimmed;
    assert Remaining(trimmed[i..], field, false) == AfterFields(trimmed, FIELDS);
    while i < |trimmed|
      invariant 0 <= i <= |trimmed| && field < FIELDS && nameStart == None
      invariant Remaining(trimmed[i..], field, prevWasSpace) == AfterFields(trimmed, FIELDS)
    {
      ScanStep(trimmed[i..], field, prevWasSpace);
      assert trimmed[i..][1..] == trimmed[i + 1..];
      var c := trimmed[i];
      i := i + 1;
      if IsSpace(c) {
        if !prevWasSpace {
          field := field + 1;
          if field == FIELDS {
            NoFieldsLeft(trimmed[i..]);
            while i < |trimmed| && IsSpace(trimmed[i])
              invariant i <= |trimmed|
              invariant TrimStart(trimmed[i..]) == AfterFields(trimmed, FIELDS)
            {
              SkipSpace(trimmed[i..]);
              assert trimmed[i..][1..] == trimmed[i + 1..];
              i := i + 1;
            }
            TrimmedHere(trimmed[i..]);
            if i < |trimmed| {
              nameStart := Some(i);
            }
            return;
          }
        }
        prevWasSpace := true;
      } else {
        prevWasSpace := false;
      }
    }
    NothingRemains(field, prevWasSpace);
    assert trimmed[i..] == "";
  }

  lemma NoFieldsLeft(rest: string)
    ensures Remaining(rest, FIELDS, true) == TrimStart(rest)
  {
  }

  lemma SkipSpace(rest: string)
    requires rest != "" && IsSpace(rest[0])
    ensures TrimStart(rest) == TrimStart(rest[1..])
  {
  }

  lemma TrimmedHere(rest: string)
    requires rest == "" || !IsSpace(rest[0])
    ensures TrimStart(rest) == rest
  {
  }

  lemma NothingRemains(field: nat, inSpace: bool)
    requires field <= FIELDS
    ensures Remaining("", field, inSpace) == ""
  {
    NothingAfterNothing(FIELDS - field);
  }

  method ParseListingLine(line: string) returns (entry: Option<Entry>)
    ensures entry == ParseLine(line)
  {
    hide TrimStart, TrimCarriageReturns, IsNotice, AfterFields, SplitWhitespace, ParseU64, KindOf, Find;
    var trimmed := TrimStart(TrimCarriageReturns(line));
    if trimmed == "" {
      return None;
    }
    if IsNotice(trimmed) {
      return None;
    }
    var nameStart := FindName(trimmed);
    if nameStart.None? {
      return None;
    }
    var name := trimmed[nameStart.value..];
    var tokens := SplitWhitespace(trimmed[..nameStart.value]);
    assert nameStart.value == |trimmed| - |name|;
    if |tokens| != FIELDS {
      return None;
    }
    var size := ParseU64(tokens[4]);
    if size.None? {
      return None;
    }
    var kind := KindOf(tokens[0]);
    if kind == Symlink {
      var arrow := Find(name, " -> ");
      if arrow.Some? {
        name := name[..arrow.value];
      }
    }
    if name == "." {
      return None;
    }
    return Some(Entry(name, kind, size.value, tokens[5] + " " + tokens[6] + " " + tokens[7], tokens[0]));
  }

  function ParseAll(lines: seq<string>): seq<Entry> {
    if lines == [] then []
    else
      var last := ParseLine(lines[|lines| - 1]);
      ParseAll(lines[..|lines| - 1]) + if last.Some? then [last.value] else []
  }

  method ParseListing(output: string) returns (entries: seq<Entry>)
    ensures entries == ParseAll(Lines(output))
  {
    hide ParseLine;
    var lines := Lines(output);
    entries := [];
    var i := 0;
    while i < |lines|
      invariant 0 <= i <= |lines|
      invariant entries == ParseAll(lines[..i])
    {
      assert lines[..i + 1][..i] == lines[..i];
      var entry := ParseListingLine(lines[i]);
      if entry.Some? {
        entries := entries + [entry.value];
      }
      i := i + 1;
    }
    assert lines[..i] == lines;
  }

  // ---------- Printed rows ----------

  /** A field and the white space after it. */
  datatype Field = Field(text: string, gap: string)

  /** A row as a server prints it, with any white space it likes. */
  datatype Row = Row(indent: string, fields: seq<Field>, name: string, end: string)

  predicate IsField(f: Field) {
    f.text != "" && NoSpace(f.text) && f.gap != "" && AllSpace(f.gap)
  }

  predicate IsRow(row: Row) {
    && AllSpace(row.indent)
    && |row.fields| == 8
    && (forall i :: 0 <= i < |row.fields| ==> IsField(row.fields[i]))
    && row.name != "" && !IsSpace(row.name[0]) && row.name[|row.name| - 1] != '\r'
    && (forall i :: 0 <= i < |row.end| ==> row.end[i] == '\r')
  }

  function PrintFields(fields: seq<Field>): string {
    if fields == [] then "" else fields[0].text + fields[0].gap + PrintFields(fields[1..])
  }

  function Texts(fields: seq<Field>): (texts: seq<string>)
    ensures |texts| == |fields|
  {
    seq(|fields|, i requires 0 <= i < |fields| => fields[i].text)
  }

  function Print(row: Row): string {
    row.indent + (PrintFields(row.fields) + row.name) + row.end
  }

  /** Reading a printed row gives its fields and its name, whatever the white
      space, unless the row begins like a notice. */
  lemma PrintedRowReadsBack(row: Row)
    requires IsRow(row)
    ensures ParseLine(Print(row)) ==
      if IsNotice(PrintFields(row.fields) + row.name) then None else EntryOf(Texts(row.fields), row.name)
  {
    var t := PrintFields(row.fields) + row.name;
    PrintTrims(row);
    SkipFields(row.fields, row.name);
    SplitFields(row.fields);
    hide IsNotice, EntryOf, AfterFields, SplitWhitespace, PrintFields, TrimStart, TrimCarriageReturns, Texts;
    assert t[..|t| - |row.name|] == PrintFields(row.fields);
  }

  lemma PrintTrims(row: Row)
    requires IsRow(row)
    ensures TrimStart(TrimCarriageReturns(Print(row))) == PrintFields(row.fields) + row.name
    ensures PrintFields(row.fields) + row.name != ""
  {
    var t := PrintFields(row.fields) + row.name;
    CarriageReturnsTrim(row.indent + t, row.end);
    StartsWithField(row.fields, row.name);
    TrimStartSkips(row.indent, t);
  }

  lemma {:induction false} CarriageReturnsTrim(s: string, end: string)
    requires s != "" && s[|s| - 1] != '\r'
    requires forall i :: 0 <= i < |end| ==> end[i] == '\r'
    ensures TrimCarriageReturns(s + end) == s
  {
    if end == "" {
      assert s + end == s;
    } else {
      CarriageReturnsTrim(s, end[..|end| - 1]);
      assert (s + end)[..|s + end| - 1] == s + end[..|end| - 1];
    }
  }

  lemma StartsWithField(fields: seq<Field>, name: string)
    requires forall i :: 0 <= i < |fields| ==> IsField(fields[i])
    requires name != "" && !IsSpace(name[0])
    ensures PrintFields(fields) + name != "" && !IsSpace((PrintFields(fields) + name)[0])
  {
    if fields != [] {
      assert (PrintFields(fields) + name)[0] == fields[0].text[0];
    } else {
      assert PrintFields(fields) + name == name;
    }
  }

  lemma AfterOneField(f: Field, rest: string)
    requires IsField(f) && rest != "" && !IsSpace(rest[0])
    ensures AfterField(f.text + f.gap + rest) == rest
  {
    var s := f.text + f.gap + rest;
    assert forall i :: 0 <= i < |f.text| ==> s[i] == f.text[i];
    assert s[|f.text|] == f.gap[0];
    assert FieldLength(s) == |f.text|;
    assert s[|f.text|..] == f.gap + rest;
    TrimStartSkips(f.gap, rest);
  }

  lemma {:induction false} SkipFields(fields: seq<Field>, name: string)
    requires forall i :: 0 <= i < |fields| ==> IsField(fields[i])
    requires name != "" && !IsSpace(name[0])
    ensures AfterFields(PrintFields(fields) + name, |fields|) == name
  {
    if fields == [] {
      assert PrintFields(fields) + name == name;
    } else {
      var rest := PrintFields(fields[1..]) + name;
      SkipFields(fields[1..], name);
      StartsWithField(fields[1..], name);
      AfterOneField(fields[0], rest);
      assert PrintFields(fields) + name == fields[0].text + fields[0].gap + rest;
    }
  }

  lemma SplitOneField(f: Field, rest: string)
    requires IsField(f)
    ensures SplitWhitespace(f.text + f.gap + rest) == [f.text] + SplitWhitespace(rest)
  {
    SplitSkipsSpace(f.gap, rest);
    assert (f.gap + rest)[0] == f.gap[0];
    SplitFirstField(f.text, f.gap + rest);
    hide SplitWhitespace;
    assert f.text + f.gap + rest == f.text + (f.gap + rest);
  }

  lemma {:induction false} SplitFields(fields: seq<Field>)
    requires forall i :: 0 <= i < |fields| ==> IsField(fields[i])
    ensures SplitWhitespace(PrintFields(fields)) == Texts(fields)
  {
    if fields != [] {
      SplitFields(fields[1..]);
      SplitOneField(fields[0], PrintFields(fields[1..]));
      hide SplitWhitespace, IsField;
      assert Texts(fields) == [fields[0].text] + Texts(fields[1..]);
    }
  }

  // ---------- Every line that parses is a row ----------

  lemma {:induction false} TrimCarriageReturnsParts(s: string) returns (end: string)
    ensures s == TrimCarriageReturns(s) + end
    ensures forall i :: 0 <= i < |end| ==> end[i] == '\r'
    ensures TrimCarriageReturns(s) != "" ==> TrimCarriageReturns(s)[|TrimCarriageReturns(s)| - 1] != '\r'
  {
    end := "";
    if s != "" && s[|s| - 1] == '\r' {
      end := TrimCarriageReturnsParts(s[..|s| - 1]);
      end := end + "\r";
    }
  }

  lemma FirstFieldParts(s: string) returns (f: Field)
    requires s != "" && !IsSpace(s[0]) && AfterField(s) != ""
    ensures IsField(f) && s == f.text + f.gap + AfterField(s) && !IsSpace(AfterField(s)[0])
  {
    var n := FieldLength(s);
    var gap := TrimStartParts(s[n..]);
    f := Field(s[..n], gap);
    assert s == s[..n] + s[n..] && s[n..] == gap + AfterField(s);
    assert IsSpace(s[n..][0]) && !IsSpace(AfterField(s)[0]);
  }

  lemma {:induction false} FieldParts(s: string, n: nat) returns (fields: seq<Field>)
    requires s != "" && !IsSpace(s[0]) && AfterFields(s, n) != ""
    ensures |fields| == n && (forall i :: 0 <= i < n ==> IsField(fields[i]))
    ensures s == PrintFields(fields) + AfterFields(s, n)
    ensures !IsSpace(AfterFields(s, n)[0])
    decreases n
  {
    fields := [];
    if n > 0 {
      NothingAfterNothing(n - 1);
      var f := FirstFieldParts(s);
      var rest := FieldParts(AfterField(s), n - 1);
      fields := [f] + rest;
      assert fields[1..] == rest;
    }
  }

  /** Conversely, a line that gives an entry is a printed row. */
  lemma ParsedLineIsRow(line: string) returns (row: Row)
    requires ParseLine(line).Some?
    ensures IsRow(row) && Print(row) == line
  {
    var end := TrimCarriageReturnsParts(line);
    var whole := TrimCarriageReturns(line);
    var indent := TrimStartParts(whole);
    var trimmed := TrimStart(whole);
    var fields := FieldParts(trimmed, FIELDS);
    row := Row(indent, fields, AfterFields(trimmed, FIELDS), end);
    assert whole[|whole| - 1] == row.name[|row.name| - 1];
  }

  /** The check for a ninth field never fires. */
  lemma AlwaysEightFields(trimmed: string)
    requires trimmed != "" && !IsSpace(trimmed[0]) && AfterFields(trimmed, FIELDS) != ""
    ensures |SplitWhitespace(trimmed[..|trimmed| - |AfterFields(trimmed, FIELDS)|])| == FIELDS
  {
    var fields := FieldParts(trimmed, FIELDS);
    SplitFields(fields);
    assert trimmed[..|trimmed| - |AfterFields(trimmed, FIELDS)|] == PrintFields(fields);
  }

  // ---------- Links ----------

  /** The link's name is found exactly when the first arrow is the one that
      separates it from the target. */
  lemma LinkNameReadsBackIff(name: string, target: string)
    ensures CutTarget(name + " -> " + target) == name <==> !Contains(name + " ", " -> ")
  {
    var s := name + " -> " + target;
    assert s[|name|..|name| + 4] == " -> ";
    assert IsAt(s, " -> ", |name|);
    if Contains(name + " ", " -> ") {
      var i := Find(name + " ", " -> ").value;
      assert s[i..i + 4] == (name + " ")[i..i + 4];
      assert IsAt(s, " -> ", i) && i < |name|;
    } else {
      forall i: nat | i < |name|
        ensures !IsAt(s, " -> ", i)
      {
        ArrowDoesNotOverlap(name, target, i);
      }
      assert s[..|name|] == name;
    }
  }

  lemma ArrowCharacters(s: string, i: nat)
    ensures IsAt(s, " -> ", i) <==> i + 4 <= |s| && s[i] == ' ' && s[i + 1] == '-' && s[i + 2] == '>' && s[i + 3] == ' '
  {
    if i + 4 <= |s| {
      var w := s[i..i + 4];
      assert w[0] == s[i] && w[1] == s[i + 1] && w[2] == s[i + 2] && w[3] == s[i + 3];
      assert " -> "[0] == ' ' && " -> "[1] == '-' && " -> "[2] == '>' && " -> "[3] == ' ';
    }
  }

  lemma ArrowDoesNotOverlap(name: string, target: string, i: nat)
    requires i < |name| && !IsAt(name + " ", " -> ", i)
    ensures !IsAt(name + " -> " + target, " -> ", i)
  {
    var s, short := name + " -> " + target, name + " ";
    ArrowCharacters(s, i);
    ArrowCharacters(short, i);
    hide IsAt;
    assert s[|name|] == ' ';
    assert forall k :: 0 <= k <= |name| ==> s[k] == short[k];
  }

  /** A name that holds an arrow is cut at it. */
  lemma ArrowInNameIsCut()
    ensures CutTarget("a -> b" + " -> " + "c") == "a"
  {
    var s := "a -> b" + " -> " + "c";
    ArrowCharacters(s, 0);
    ArrowCharacters(s, 1);
    assert s[0] == 'a' && s[1] == ' ' && s[2] == '-' && s[3] == '>' && s[4] == ' ';
    hide IsAt;
    assert Find(s, " -> ") == Some(1);
    assert s[..1] == "a";
  }

  predicate IsLinkRow(row: Row) {
    && IsRow(row) && row.fields[0].text[0] == 'l' && ParseU64(row.fields[4].text).Some?
    && !IsNotice(PrintFields(row.fields) + row.name)
  }

  lemma LinkEntry(fields: seq<string>, full: string)
    requires |fields| == FIELDS && fields[0] != "" && fields[0][0] == 'l' && ParseU64(fields[4]).Some?
    ensures EntryOf(fields, full) ==
      if CutTarget(full) == "." then None
      else Some(Entry(CutTarget(full), Symlink, ParseU64(fields[4]).value, fields[5] + " " + fields[6] + " " + fields[7], fields[0]))
  {
    hide CutTarget, ParseU64;
  }

  /** A printed link gives its own name exactly when no arrow starts in the
      name, and then its size, time and permissions too. */
  lemma PrintedLinkReadsBackIff(row: Row, name: string, target: string)
    requires IsLinkRow(row) && row.name == name + " -> " + target && name != "."
    ensures var entry := ParseLine(Print(row)); var f := row.fields;
      && (entry.Some? && entry.value.name == name <==> !Contains(name + " ", " -> "))
      && (!Contains(name + " ", " -> ") ==> entry == Some(Entry(
            name, Symlink, ParseU64(f[4].text).value, f[5].text + " " + f[6].text + " " + f[7].text, f[0].text)))
  {
    hide ParseLine, Print, CutTarget, Contains, IsNotice, PrintFields, ParseU64, EntryOf;
    PrintedRowReadsBack(row);
    LinkNameReadsBackIff(name, target);
    assert IsField(row.fields[0]);
    LinkEntry(Texts(row.fields), row.name);
  }

  // ---------- Whole listings ----------

  lemma ParseIgnoresCarriageReturn(line: string)
    ensures ParseLine(DropCarriageReturn(line)) == ParseLine(line)
  {
    assert TrimCarriageReturns(DropCarriageReturn(line)) == TrimCarriageReturns(line);
  }

  lemma {:induction false} ParseAllFront(line: string, lines: seq<string>)
    ensures ParseAll([line] + lines) == (if ParseLine(line).Some? then [ParseLine(line).value] else []) + ParseAll(lines)
  {
    hide ParseLine;
    if lines == [] {
      assert [line] + lines == [line] && [line][..0] == [];
    } else {
      var n := |lines| - 1;
      ParseAllFront(line, lines[..n]);
      assert ([line] + lines)[..|lines|] == [line] + lines[..n];
    }
  }

  /** A row, or a line the parser passes over. */
  datatype Item = Printed(row: Row) | Skipped(text: string)

  predicate IsSkipped(trimmed: string) {
    trimmed == "" || IsNotice(trimmed)
  }

  function TextOf(item: Item): string {
    if item.Printed? then Print(item.row) else item.text
  }

  predicate IsItem(item: Item) {
    && NoLineFeed(TextOf(item))
    && match item
       case Printed(row) => IsRow(row) && !IsNotice(PrintFields(row.fields) + row.name)
       case Skipped(text) => IsSkipped(TrimStart(TrimCarriageReturns(text)))
  }

  function SaidBy(item: Item): Option<Entry>
    requires IsItem(item)
  {
    if item.Printed? then EntryOf(Texts(item.row.fields), item.row.name) else None
  }

  function Listing(items: seq<Item>): string {
    if items == [] then "" else TextOf(items[0]) + "\n" + Listing(items[1..])
  }

  function Entries(items: seq<Item>): seq<Entry>
    requires forall i :: 0 <= i < |items| ==> IsItem(items[i])
  {
    if items == [] then []
    else (if SaidBy(items[0]).Some? then [SaidBy(items[0]).value] else []) + Entries(items[1..])
  }

  lemma ItemReadsBack(item: Item)
    requires IsItem(item)
    ensures ParseLine(TextOf(item)) == SaidBy(item)
  {
    if item.Printed? {
      PrintedRowReadsBack(item.row);
    }
  }

  /** A listing of rows, blank lines, echoes and totals reads back as the rows,
      in order. */
  lemma {:induction false} ListingReadsBack(items: seq<Item>)
    requires forall i :: 0 <= i < |items| ==> IsItem(items[i])
    ensures ParseAll(Lines(Listing(items))) == Entries(items)
  {
    if items != [] {
      var text := TextOf(items[0]);
      ListingReadsBack(items[1..]);
      FirstLine(text, Listing(items[1..]));
      ParseAllFront(DropCarriageReturn(text), Lines(Listing(items[1..])));
      ParseIgnoresCarriageReturn(text);
      ItemReadsBack(items[0]);
    }
  }
}
