/** Pinned host keys: their validation, their canonical order, and the
    known_hosts text written for one connection. */
module HostKeys {
  import opened Wrappers
  import opened Bytes
  import opened Base64
  import opened SshWire
  import opened Text

  datatype HostKey = HostKey(keyType: string, publicKey: string, fingerprint: string)

  datatype Pin = Pin(keyType: string, publicKey: string)

  datatype Error = InvalidType | InvalidEncoding | InvalidData | TypeMismatch

  const ALIAS := "trominal-pinned-host"

  // ---------- One key ----------

  predicate IsTypeCharacter(c: char) {
    || 'a' <= c <= 'z' || 'A' <= c <= 'Z' || '0' <= c <= '9'
    || c == '-' || c == '@' || c == '.' || c == '_'
  }

  /** The codes of ASCII letters and digits and of four punctuation marks. */
  predicate IsTypeCode(code: int) {
    48 <= code <= 57 || 65 <= code <= 90 || 97 <= code <= 122 || code in {45, 46, 64, 95}
  }

  lemma TypeCharacters(c: char)
    ensures IsTypeCharacter(c) <==> IsTypeCode(c as int)
  {
  }

  predicate IsTypeName(s: string) {
    s != "" && forall i :: 0 <= i < |s| ==> IsTypeCharacter(s[i])
  }

  function AsBytes(name: string): (bs: bytes)
    requires IsTypeName(name)
    ensures |bs| == |name|
  {
    seq(|name|, i requires 0 <= i < |name| => name[i] as int)
  }

  /** `fingerprint` is the fingerprint of a blob. */
  function ParseHostKey(fingerprint: bytes -> string, keyType: string, publicKey: string): Result<HostKey, Error> {
    var name, key := Trim(keyType), Trim(publicKey);
    if !IsTypeName(name) then Failure(InvalidType)
    else
      var blob := Decode(key);
      if blob.None? then Failure(InvalidEncoding)
      else
        var embedded := ReadString(blob.value);
        if embedded.None? then Failure(InvalidData)
        else if embedded.value.0 != AsBytes(name) then Failure(TypeMismatch)
        else Success(HostKey(name, key, fingerprint(blob.value)))
  }

  /** A key is accepted exactly when its text is the encoding of a blob that
      starts with the type it claims. */
  lemma AcceptedIff(fingerprint: bytes -> string, keyType: string, publicKey: string)
    requires |keyType| < LENGTH_LIMIT
    ensures ParseHostKey(fingerprint, keyType, publicKey).Success? <==>
      IsTypeName(Trim(keyType)) && exists rest: bytes :: Trim(publicKey) == Encode(SshString(AsBytes(Trim(keyType))) + rest)
    ensures forall blob: bytes :: ParseHostKey(fingerprint, keyType, publicKey).Success? && Trim(publicKey) == Encode(blob) ==>
      ParseHostKey(fingerprint, keyType, publicKey).value == HostKey(Trim(keyType), Trim(publicKey), fingerprint(blob))
  {
    var name, key := Trim(keyType), Trim(publicKey);
    TrimIsNoLonger(keyType);
    forall blob: bytes | key == Encode(blob)
      ensures Decode(key) == Some(blob)
    {
      DecodeOfEncode(blob);
    }
    hide Trim, Encode, Decode, AsBytes, IsTypeCharacter;
    if IsTypeName(name) {
      var typed := SshString(AsBytes(name));
      forall rest: bytes | key == Encode(typed + rest)
        ensures ParseHostKey(fingerprint, keyType, publicKey).Success?
      {
        DecodeOfEncode(typed + rest);
        ReadSshString(AsBytes(name), rest);
      }
      if ParseHostKey(fingerprint, keyType, publicKey).Success? {
        var blob := Decode(key).value;
        EncodeOfDecode(key);
        StringParts(blob);
        assert blob == typed + ReadString(blob).value.1;
      }
    }
  }

  /** Which error a key gives: its name is looked at first, then the encoding,
      then the embedded name. */
  lemma ParseErrors(fingerprint: bytes -> string, keyType: string, publicKey: string)
    ensures var r, name, blob := ParseHostKey(fingerprint, keyType, publicKey), Trim(keyType), Decode(Trim(publicKey));
      && (r == Failure(InvalidType) <==> |name| == 0 || exists i :: 0 <= i < |name| && !IsTypeCode(name[i] as int))
      && (r == Failure(InvalidEncoding) <==> IsTypeName(name) && blob == None)
      && (r == Failure(InvalidData) <==>
            IsTypeName(name) && blob.Some? && (|blob.value| < 4 || |blob.value| - 4 < Value(blob.value[..4])))
  {
    forall c: char
      ensures IsTypeCharacter(c) <==> IsTypeCode(c as int)
    {
      TypeCharacters(c);
    }
    hide Trim, Decode, IsTypeCharacter, IsTypeCode;
  }

  lemma TrimIsNoLonger(s: string)
    ensures |Trim(s)| <= |s|
  {
    var front := TrimStartParts(s);
    var back := TrimEndParts(TrimStart(s));
  }

  lemma {:induction false} BigEndianIsUnique(a: bytes, b: bytes)
    requires |a| == |b| && Value(a) == Value(b)
    ensures a == b
  {
    if a != [] {
      var n := |a| - 1;
      assert Value(a[..n]) == Value(b[..n]) && a[n] == b[n];
      BigEndianIsUnique(a[..n], b[..n]);
      assert a == a[..n] + [a[n]] && b == b[..n] + [b[n]];
    }
  }

  lemma StringParts(s: bytes)
    requires ReadString(s).Some? && |ReadString(s).value.0| < LENGTH_LIMIT
    ensures var (text, rest) := ReadString(s).value; s == SshString(text) + rest
  {
    var (text, rest) := ReadString(s).value;
    ValueOfUInt32(|text|);
    BigEndianIsUnique(s[..4], UInt32(|text|));
    hide Value, UInt32;
    assert s == s[..4] + text + rest;
  }

  // ---------- Order ----------

  /** The derived order: type, then key, then fingerprint. */
  predicate KeyLess(a: HostKey, b: HostKey) {
    || Less(a.keyType, b.keyType)
    || (a.keyType == b.keyType && (
        || Less(a.publicKey, b.publicKey)
        || (a.publicKey == b.publicKey && Less(a.fingerprint, b.fingerprint))))
  }

  lemma KeyLessIsTotal(a: HostKey, b: HostKey)
    ensures KeyLess(a, b) || KeyLess(b, a) || a == b
    ensures !(KeyLess(a, b) && KeyLess(b, a)) && !KeyLess(a, a)
  {
    LessIsTotal(a.keyType, b.keyType);
    LessIsTotal(a.publicKey, b.publicKey);
    LessIsTotal(a.fingerprint, b.fingerprint);
    LessIsTotal(a.keyType, a.keyType);
    LessIsTotal(a.publicKey, a.publicKey);
    LessIsTotal(a.fingerprint, a.fingerprint);
    hide Less;
  }

  lemma KeyLessIsTransitive(a: HostKey, b: HostKey, c: HostKey)
    requires KeyLess(a, b) && KeyLess(b, c)
    ensures KeyLess(a, c)
  {
    hide Less;
    if Less(a.keyType, b.keyType) && Less(b.keyType, c.keyType) {
      LessIsTransitive(a.keyType, b.keyType, c.keyType);
    } else if a.keyType == b.keyType == c.keyType {
      if Less(a.publicKey, b.publicKey) && Less(b.publicKey, c.publicKey) {
        LessIsTransitive(a.publicKey, b.publicKey, c.publicKey);
      } else if a.publicKey == b.publicKey == c.publicKey {
        LessIsTransitive(a.fingerprint, b.fingerprint, c.fingerprint);
      }
    }
  }

  predicate Sorted(keys: seq<HostKey>) {
    forall i, j :: 0 <= i < j < |keys| ==> KeyLess(keys[i], keys[j])
  }

  function Elements<T>(s: seq<T>): set<T> {
    set x | x in s
  }

  /** A sorted set of keys is determined by its elements. */
  lemma {:induction false} SortedIsCanonical(a: seq<HostKey>, b: seq<HostKey>)
    requires Sorted(a) && Sorted(b) && Elements(a) == Elements(b)
    ensures a == b
  {
    assert b != [] ==> b[0] in Elements(b);
    if a != [] {
      assert a[0] in Elements(b) && b != [];
      assert b[0] in Elements(a);
      SameLeast(a, b);
      RestElements(a);
      RestElements(b);
      SortedIsCanonical(a[1..], b[1..]);
      assert a == [a[0]] + a[1..] && b == [b[0]] + b[1..];
    }
  }

  lemma LeastFirst(keys: seq<HostKey>, key: HostKey)
    requires Sorted(keys) && key in keys
    ensures key == keys[0] || KeyLess(keys[0], key)
  {
    hide KeyLess;
  }

  lemma SameLeast(a: seq<HostKey>, b: seq<HostKey>)
    requires Sorted(a) && Sorted(b) && a != [] && b != [] && a[0] in b && b[0] in a
    ensures a[0] == b[0]
  {
    LeastFirst(a, b[0]);
    LeastFirst(b, a[0]);
    KeyLessIsTotal(a[0], b[0]);
  }

  lemma ElementsCons<T>(x: T, s: seq<T>)
    ensures Elements([x] + s) == {x} + Elements(s)
  {
  }

  lemma RestElements(a: seq<HostKey>)
    requires Sorted(a) && a != []
    ensures Sorted(a[1..]) && Elements(a[1..]) == Elements(a) - {a[0]}
  {
    hide KeyLess;
    assert a == [a[0]] + a[1..];
    forall i | 1 <= i < |a|
      ensures a[i] != a[0]
    {
      KeyLessIsTotal(a[0], a[i]);
    }
  }

  /** Insertion into a sorted set. */
  function Insert(keys: seq<HostKey>, key: HostKey): seq<HostKey> {
    if keys == [] then [key]
    else if KeyLess(key, keys[0]) then [key] + keys
    else if key == keys[0] then keys
    else [keys[0]] + Insert(keys[1..], key)
  }

  lemma {:induction false} InsertElements(keys: seq<HostKey>, key: HostKey)
    ensures Elements(Insert(keys, key)) == Elements(keys) + {key}
  {
    hide KeyLess, Elements;
    if keys == [] {
      assert [key] == [key] + [];
      ElementsCons(key, []);
    } else {
      InsertElements(keys[1..], key);
      assert keys == [keys[0]] + keys[1..];
      ElementsCons(keys[0], keys[1..]);
      ElementsCons(keys[0], Insert(keys[1..], key));
      ElementsCons(key, keys);
    }
  }

  lemma {:induction false} InsertSorted(keys: seq<HostKey>, key: HostKey)
    requires Sorted(keys)
    ensures Sorted(Insert(keys, key))
  {
    hide KeyLess;
    if keys != [] {
      KeyLessIsTotal(key, keys[0]);
      if KeyLess(key, keys[0]) {
        forall j | 0 < j < |keys|
          ensures KeyLess(key, keys[j])
        {
          KeyLessIsTransitive(key, keys[0], keys[j]);
        }
      } else if key != keys[0] {
        InsertSorted(keys[1..], key);
        InsertElements(keys[1..], key);
        var rest := Insert(keys[1..], key);
        forall j | 0 <= j < |rest|
          ensures KeyLess(keys[0], rest[j])
        {
          assert rest[j] in Elements(rest);
          if rest[j] != key {
            var k :| 0 <= k < |keys[1..]| && keys[1..][k] == rest[j];
            assert keys[k + 1] == rest[j];
          }
        }
      }
    }
  }

  /** Collecting into an ordered set, then listing it. */
  function Collect(keys: seq<HostKey>): seq<HostKey> {
    if keys == [] then [] else Insert(Collect(keys[..|keys| - 1]), keys[|keys| - 1])
  }

  lemma {:induction false} CollectIsTheSortedSet(keys: seq<HostKey>)
    ensures Sorted(Collect(keys)) && Elements(Collect(keys)) == Elements(keys)
  {
    if keys != [] {
      var n := |keys| - 1;
      CollectIsTheSortedSet(keys[..n]);
      InsertSorted(Collect(keys[..n]), keys[n]);
      InsertElements(Collect(keys[..n]), keys[n]);
      assert keys == keys[..n] + [keys[n]];
    }
  }

  lemma CollectSorted(keys: seq<HostKey>)
    requires Sorted(keys)
    ensures Collect(keys) == keys
  {
    CollectIsTheSortedSet(keys);
    SortedIsCanonical(Collect(keys), keys);
  }

  // ---------- Pins ----------

  function ParseEach(fingerprint: bytes -> string, pins: seq<Pin>): Result<seq<HostKey>, Error> {
    if pins == [] then Success([])
    else
      var first := ParseHostKey(fingerprint, pins[0].keyType, pins[0].publicKey);
      if first.Failure? then Failure(first.error)
      else
        var rest := ParseEach(fingerprint, pins[1..]);
        if rest.Failure? then rest else Success([first.value] + rest.value)
  }

  function ParsePins(fingerprint: bytes -> string, pins: seq<Pin>): Result<seq<HostKey>, Error> {
    var keys := ParseEach(fingerprint, pins);
    if keys.Failure? then keys else Success(Collect(keys.value))
  }

  function Parsed(fingerprint: bytes -> string, pin: Pin): Result<HostKey, Error> {
    ParseHostKey(fingerprint, pin.keyType, pin.publicKey)
  }

  /** One bad pin fails them all; otherwise the keys are those of the pins. */
  lemma {:induction false} EachIsParsed(fingerprint: bytes -> string, pins: seq<Pin>)
    ensures ParseEach(fingerprint, pins).Success? <==> forall pin :: pin in pins ==> Parsed(fingerprint, pin).Success?
    ensures ParseEach(fingerprint, pins).Success? ==>
      Elements(ParseEach(fingerprint, pins).value) == set pin | pin in pins :: Parsed(fingerprint, pin).value
  {
    hide ParseHostKey;
    if pins != [] {
      EachIsParsed(fingerprint, pins[1..]);
      assert pins == [pins[0]] + pins[1..];
      assert Parsed(fingerprint, pins[0]) == ParseHostKey(fingerprint, pins[0].keyType, pins[0].publicKey);
      if ParseEach(fingerprint, pins).Success? {
        var rest := ParseEach(fingerprint, pins[1..]).value;
        assert Elements([Parsed(fingerprint, pins[0]).value] + rest) == {Parsed(fingerprint, pins[0]).value} + Elements(rest);
      }
    }
  }

  /** The outcome is the sorted set of the keys: order and repetition of the
      pins do not matter. */
  lemma PinsAreASet(fingerprint: bytes -> string, a: seq<Pin>, b: seq<Pin>)
    requires Elements(a) == Elements(b)
    ensures ParsePins(fingerprint, a).Success? <==> ParsePins(fingerprint, b).Success?
    ensures ParsePins(fingerprint, a).Success? ==> ParsePins(fingerprint, a) == ParsePins(fingerprint, b) && Sorted(ParsePins(fingerprint, a).value)
  {
    EachIsParsed(fingerprint, a);
    EachIsParsed(fingerprint, b);
    assert forall pin :: pin in a <==> pin in Elements(a);
    assert forall pin :: pin in b <==> pin in Elements(b);
    hide Parsed;
    if ParsePins(fingerprint, a).Success? {
      var keysA, keysB := ParseEach(fingerprint, a).value, ParseEach(fingerprint, b).value;
      CollectIsTheSortedSet(keysA);
      CollectIsTheSortedSet(keysB);
      SortedIsCanonical(Collect(keysA), Collect(keysB));
    }
  }

  function AsPin(key: HostKey): Pin {
    Pin(key.keyType, key.publicKey)
  }

  function AsPins(keys: seq<HostKey>): (pins: seq<Pin>)
    ensures |pins| == |keys|
  {
    seq(|keys|, i requires 0 <= i < |keys| => AsPin(keys[i]))
  }

  predicate IsValid(fingerprint: bytes -> string, key: HostKey) {
    ParseHostKey(fingerprint, key.keyType, key.publicKey) == Success(key)
  }

  predicate AllValid(fingerprint: bytes -> string, keys: seq<HostKey>) {
    forall i :: 0 <= i < |keys| ==> IsValid(fingerprint, keys[i])
  }

  lemma {:induction false} TrimTwice(s: string)
    ensures Trim(Trim(s)) == Trim(s)
  {
    var front := TrimStartParts(s);
    var t := TrimStart(s);
    var back := TrimEndParts(t);
    assert Trim(s) != "" ==> Trim(s)[0] == t[0];
    TrimNothing(Trim(s));
  }

  /** A validated key is valid as it stands. */
  lemma ParsedIsValid(fingerprint: bytes -> string, keyType: string, publicKey: string)
    requires ParseHostKey(fingerprint, keyType, publicKey).Success?
    ensures IsValid(fingerprint, ParseHostKey(fingerprint, keyType, publicKey).value)
  {
    TrimTwice(keyType);
    TrimTwice(publicKey);
    hide Trim;
  }

  lemma {:induction false} EachIsValid(fingerprint: bytes -> string, pins: seq<Pin>)
    requires ParseEach(fingerprint, pins).Success?
    ensures AllValid(fingerprint, ParseEach(fingerprint, pins).value)
  {
    hide ParseHostKey, IsValid;
    if pins != [] {
      EachIsValid(fingerprint, pins[1..]);
      ParsedIsValid(fingerprint, pins[0].keyType, pins[0].publicKey);
    }
  }

  lemma ElementsValid(fingerprint: bytes -> string, a: seq<HostKey>, b: seq<HostKey>)
    requires Elements(a) == Elements(b) && AllValid(fingerprint, a)
    ensures AllValid(fingerprint, b)
  {
    hide IsValid;
    forall i | 0 <= i < |b|
      ensures IsValid(fingerprint, b[i])
    {
      assert b[i] in Elements(a);
      var j :| 0 <= j < |a| && a[j] == b[i];
    }
  }

  lemma PinsAreValid(fingerprint: bytes -> string, pins: seq<Pin>)
    requires ParsePins(fingerprint, pins).Success?
    ensures AllValid(fingerprint, ParsePins(fingerprint, pins).value) && Sorted(ParsePins(fingerprint, pins).value)
  {
    hide IsValid, ParseEach;
    EachIsValid(fingerprint, pins);
    var keys := ParseEach(fingerprint, pins).value;
    CollectIsTheSortedSet(keys);
    ElementsValid(fingerprint, keys, Collect(keys));
  }

  lemma {:induction false} ValidKeysParse(fingerprint: bytes -> string, keys: seq<HostKey>)
    requires AllValid(fingerprint, keys)
    ensures ParseEach(fingerprint, AsPins(keys)) == Success(keys)
  {
    hide ParseHostKey;
    if keys != [] {
      ValidKeysParse(fingerprint, keys[1..]);
      assert AsPins(keys)[1..] == AsPins(keys[1..]);
      assert IsValid(fingerprint, keys[0]);
      assert keys == [keys[0]] + keys[1..];
    }
  }

  /** Parsing what was parsed changes nothing. */
  lemma PinsAreIdempotent(fingerprint: bytes -> string, pins: seq<Pin>)
    requires ParsePins(fingerprint, pins).Success?
    ensures ParsePins(fingerprint, AsPins(ParsePins(fingerprint, pins).value)) == ParsePins(fingerprint, pins)
  {
    var keys := ParsePins(fingerprint, pins).value;
    PinsAreValid(fingerprint, pins);
    ValidKeysParse(fingerprint, keys);
    CollectSorted(keys);
  }

  // ---------- Text ----------

  function Line(a: string, b: string, c: string): string {
    a + " " + b + " " + c
  }

  function KnownHosts(keys: seq<HostKey>): string {
    if keys == [] then "" else Line(ALIAS, keys[0].keyType, keys[0].publicKey) + "\n" + KnownHosts(keys[1..])
  }

  /** One line per key, under the alias that ssh is told to look up. */
  lemma KnownHostsText(key: HostKey, rest: seq<HostKey>)
    ensures KnownHosts([]) == ""
    ensures KnownHosts([key] + rest) == "trominal-pinned-host " + key.keyType + " " + key.publicKey + "\n" + KnownHosts(rest)
  {
    assert ([key] + rest)[1..] == rest;
    assert ALIAS + " " == "trominal-pinned-host ";
  }

  function ScanLine(fingerprint: bytes -> string, raw: string): Option<HostKey> {
    var line := Trim(raw);
    if line == "" || line[0] == '#' then None
    else
      var fields := SplitWhitespace(line);
      if |fields| < 3 then None
      else
        var key := ParseHostKey(fingerprint, fields[1], fields[2]);
        if key.Success? then Some(key.value) else None
  }

  function ScanLines(fingerprint: bytes -> string, lines: seq<string>): seq<HostKey> {
    if lines == [] then []
    else
      var key := ScanLine(fingerprint, lines[0]);
      (if key.Some? then [key.value] else []) + ScanLines(fingerprint, lines[1..])
  }

  function ParseKeyscanOutput(fingerprint: bytes -> string, output: string): seq<HostKey> {
    Collect(ScanLines(fingerprint, Lines(output)))
  }

  predicate Says(fingerprint: bytes -> string, lines: seq<string>, i: nat, key: HostKey)
    requires i < |lines|
  {
    ScanLine(fingerprint, lines[i]) == Some(key)
  }

  /** Some line holds the key. */
  predicate IsSaid(fingerprint: bytes -> string, lines: seq<string>, key: HostKey) {
    exists i :: 0 <= i < |lines| && Says(fingerprint, lines, i, key)
  }

  lemma {:induction false} ScannedFromLines(fingerprint: bytes -> string, lines: seq<string>, key: HostKey)
    ensures key in ScanLines(fingerprint, lines) <==> IsSaid(fingerprint, lines, key)
  {
    hide ScanLine;
    if lines != [] {
      ScannedFromLines(fingerprint, lines[1..], key);
      assert forall i :: 1 <= i < |lines| ==> (Says(fingerprint, lines, i, key) <==> Says(fingerprint, lines[1..], i - 1, key));
      if IsSaid(fingerprint, lines[1..], key) {
        var i :| 0 <= i < |lines[1..]| && Says(fingerprint, lines[1..], i, key);
        assert Says(fingerprint, lines, i + 1, key);
      }
      assert Says(fingerprint, lines, 0, key) <==> ScanLine(fingerprint, lines[0]) == Some(key);
    }
  }

  lemma ScannedLineIsValid(fingerprint: bytes -> string, raw: string)
    requires ScanLine(fingerprint, raw).Some?
    ensures Trim(raw) != "" && Trim(raw)[0] != '#' && IsValid(fingerprint, ScanLine(fingerprint, raw).value)
  {
    hide ParseHostKey, IsValid, Trim, SplitWhitespace;
    var fields := SplitWhitespace(Trim(raw));
    ParsedIsValid(fingerprint, fields[1], fields[2]);
  }

  /** Scanning gives the sorted set of the keys its lines hold, each of them
      valid; comments and anything unreadable add nothing. */
  lemma ScanIsTheSetOfItsKeys(fingerprint: bytes -> string, output: string)
    ensures Sorted(ParseKeyscanOutput(fingerprint, output)) && AllValid(fingerprint, ParseKeyscanOutput(fingerprint, output))
    ensures forall key :: key in ParseKeyscanOutput(fingerprint, output) <==> IsSaid(fingerprint, Lines(output), key)
  {
    hide ScanLines, ScanLine, IsValid, Lines;
    var lines := Lines(output);
    var keys, found := ScanLines(fingerprint, lines), ParseKeyscanOutput(fingerprint, output);
    CollectIsTheSortedSet(keys);
    forall key
      ensures key in found <==> IsSaid(fingerprint, lines, key)
    {
      ScannedFromLines(fingerprint, lines, key);
      assert key in found <==> key in Elements(found);
      assert key in keys <==> key in Elements(keys);
    }
    forall j | 0 <= j < |found|
      ensures IsValid(fingerprint, found[j])
    {
      assert found[j] in found;
      var i :| 0 <= i < |lines| && Says(fingerprint, lines, i, found[j]);
      ScannedLineIsValid(fingerprint, lines[i]);
    }
  }

  predicate IsWord(s: string) {
    s != "" && NoSpace(s)
  }

  lemma EncodingIsWord(text: string)
    requires Decode(text).Some? && Decode(text).value != []
    ensures IsWord(text)
  {
    EncodeOfDecode(text);
    EncodedCharacters(Decode(text).value);
    hide Encode, Decode;
  }

  lemma ValidKeyHasWords(fingerprint: bytes -> string, key: HostKey)
    requires IsValid(fingerprint, key)
    ensures IsWord(key.keyType) && IsWord(key.publicKey)
  {
    hide Trim, Encode, Decode, IsWord, IsTypeName;
    assert key.keyType == Trim(key.keyType) && key.publicKey == Trim(key.publicKey);
    TypeNameIsWord(key.keyType);
    assert ReadString(Decode(key.publicKey).value).Some?;
    EncodingIsWord(key.publicKey);
  }

  lemma TypeNameIsWord(name: string)
    requires IsTypeName(name)
    ensures IsWord(name)
  {
  }

  lemma SplitWord(a: string, rest: string)
    requires IsWord(a)
    ensures SplitWhitespace(a + (" " + rest)) == [a] + SplitWhitespace(rest)
  {
    assert IsSpace(' ');
    hide IsSpace, FieldLength;
    SplitSkipsSpace(" ", rest);
    SplitFirstField(a, " " + rest);
  }

  lemma SplitLastWord(a: string)
    requires IsWord(a)
    ensures SplitWhitespace(a) == [a]
  {
    hide IsSpace, FieldLength;
    SplitFirstField(a, "");
    assert a + "" == a;
    assert SplitWhitespace("") == [];
  }

  lemma SplitLine(a: string, b: string, c: string)
    requires IsWord(a) && IsWord(b) && IsWord(c)
    ensures SplitWhitespace(Line(a, b, c)) == [a, b, c]
  {
    hide IsWord, SplitWhitespace;
    SplitWord(a, b + (" " + c));
    SplitWord(b, c);
    SplitLastWord(c);
    assert Line(a, b, c) == a + (" " + (b + (" " + c)));
    assert [a] + ([b] + [c]) == [a, b, c];
  }

  lemma LineCharacters(a: string, b: string, c: string)
    requires IsWord(a) && IsWord(b) && IsWord(c)
    ensures var line := Line(a, b, c);
      && line != "" && line[0] == a[0] && line[|line| - 1] == c[|c| - 1]
      && forall i :: 0 <= i < |line| ==> !IsSpace(line[i]) || line[i] == ' '
  {
    hide IsSpace;
  }

  /** A line of three words needs no trimming and is one line. */
  lemma LineShape(a: string, b: string, c: string)
    requires IsWord(a) && IsWord(b) && IsWord(c)
    ensures var line := Line(a, b, c);
      && Trim(line) == line
      && DropCarriageReturn(line) == line
      && forall i :: 0 <= i < |line| ==> line[i] != '\n'
  {
    var line := Line(a, b, c);
    LineCharacters(a, b, c);
    hide Line;
    TrimNothing(line);
  }

  lemma AliasIsWord()
    ensures IsWord(ALIAS) && ALIAS[0] == 't'
  {
  }

  lemma LineScans(fingerprint: bytes -> string, key: HostKey)
    requires IsValid(fingerprint, key)
    ensures var line := Line(ALIAS, key.keyType, key.publicKey);
      && ScanLine(fingerprint, line) == Some(key)
      && DropCarriageReturn(line) == line
      && forall i :: 0 <= i < |line| ==> line[i] != '\n'
  {
    AliasIsWord();
    ValidKeyHasWords(fingerprint, key);
    SplitLine(ALIAS, key.keyType, key.publicKey);
    LineShape(ALIAS, key.keyType, key.publicKey);
    LineCharacters(ALIAS, key.keyType, key.publicKey);
    hide Trim, SplitWhitespace, IsWord, DropCarriageReturn, Line, ParseHostKey, IsSpace;
  }

  lemma FirstKnownLine(fingerprint: bytes -> string, keys: seq<HostKey>)
    requires keys != [] && IsValid(fingerprint, keys[0])
    ensures Lines(KnownHosts(keys)) == [Line(ALIAS, keys[0].keyType, keys[0].publicKey)] + Lines(KnownHosts(keys[1..]))
  {
    LineScans(fingerprint, keys[0]);
    hide Lines, Line, ScanLine, IsValid;
    FirstLine(Line(ALIAS, keys[0].keyType, keys[0].publicKey), KnownHosts(keys[1..]));
  }

  lemma ScanOneMore(fingerprint: bytes -> string, line: string, lines: seq<string>, key: HostKey)
    requires ScanLine(fingerprint, line) == Some(key)
    ensures ScanLines(fingerprint, [line] + lines) == [key] + ScanLines(fingerprint, lines)
  {
    hide ScanLine;
    assert ([line] + lines)[1..] == lines;
  }

  lemma {:induction false} KnownHostsScans(fingerprint: bytes -> string, keys: seq<HostKey>)
    requires AllValid(fingerprint, keys)
    ensures ScanLines(fingerprint, Lines(KnownHosts(keys))) == keys
  {
    if keys != [] {
      assert AllValid(fingerprint, keys[1..]) && IsValid(fingerprint, keys[0]);
      hide ScanLine, ScanLines, IsValid, Lines, Line, KnownHosts, AllValid;
      KnownHostsScans(fingerprint, keys[1..]);
      LineScans(fingerprint, keys[0]);
      FirstKnownLine(fingerprint, keys);
      ScanOneMore(fingerprint, Line(ALIAS, keys[0].keyType, keys[0].publicKey), Lines(KnownHosts(keys[1..])), keys[0]);
      assert keys == [keys[0]] + keys[1..];
    }
  }

  /** The key-scan reader gets back exactly the validated pins from the
      known_hosts text written for them. */
  lemma KnownHostsReadBack(fingerprint: bytes -> string, pins: seq<Pin>)
    requires ParsePins(fingerprint, pins).Success?
    ensures ParseKeyscanOutput(fingerprint, KnownHosts(ParsePins(fingerprint, pins).value)) == ParsePins(fingerprint, pins).value
  {
    var keys := ParsePins(fingerprint, pins).value;
    PinsAreValid(fingerprint, pins);
    KnownHostsScans(fingerprint, keys);
    CollectSorted(keys);
  }
}
