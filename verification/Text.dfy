/** The string operations of Rust's standard library that the client uses. */
module Text {
  import opened Wrappers

  /** Unicode's White_Space. */
  predicate IsSpace(c: char) {
    || '\t' <= c <= '\r' || c == ' ' || c == '\U{85}' || c == '\U{a0}' || c == '\U{1680}' || '\U{2000}' <= c <= '\U{200a}'
    || c == '\U{2028}' || c == '\U{2029}' || c == '\U{202f}' || c == '\U{205f}' || c == '\U{3000}'
  }

  const SPACE_CODES := {9, 10, 11, 12, 13, 32, 133, 160, 5760, 8192, 8193, 8194, 8195, 8196, 8197, 8198, 8199, 8200, 8201, 8202,
    8232, 8233, 8239, 8287, 12288}

  lemma SpaceCodes(c: char)
    ensures IsSpace(c) <==> c as int in SPACE_CODES
  {
  }

  predicate AllSpace(s: string) {
    forall i :: 0 <= i < |s| ==> IsSpace(s[i])
  }

  predicate NoSpace(s: string) {
    forall i :: 0 <= i < |s| ==> !IsSpace(s[i])
  }

  function TrimStart(s: string): string {
    if s != "" && IsSpace(s[0]) then TrimStart(s[1..]) else s
  }

  function TrimEnd(s: string): string {
    if s != "" && IsSpace(s[|s| - 1]) then TrimEnd(s[..|s| - 1]) else s
  }

  function Trim(s: string): string {
    TrimEnd(TrimStart(s))
  }

  lemma {:induction false} TrimStartSkips(space: string, s: string)
    requires AllSpace(space) && (s == "" || !IsSpace(s[0]))
    ensures TrimStart(space + s) == s
  {
    if space == "" {
      assert space + s == s;
    } else {
      TrimStartSkips(space[1..], s);
      assert (space + s)[1..] == space[1..] + s;
    }
  }

  lemma {:induction false} TrimStartParts(s: string) returns (space: string)
    ensures s == space + TrimStart(s) && AllSpace(space)
    ensures TrimStart(s) == "" || !IsSpace(TrimStart(s)[0])
  {
    space := "";
    if s != "" && IsSpace(s[0]) {
      space := TrimStartParts(s[1..]);
      space := [s[0]] + space;
    }
  }

  lemma {:induction false} TrimEndParts(s: string) returns (space: string)
    ensures s == TrimEnd(s) + space && AllSpace(space)
    ensures TrimEnd(s) == "" || !IsSpace(TrimEnd(s)[|TrimEnd(s)| - 1])
  {
    space := "";
    if s != "" && IsSpace(s[|s| - 1]) {
      space := TrimEndParts(s[..|s| - 1]);
      space := space + [s[|s| - 1]];
    }
  }

  lemma TrimNothing(s: string)
    requires s == "" || (!IsSpace(s[0]) && !IsSpace(s[|s| - 1]))
    ensures Trim(s) == s
  {
  }

  lemma {:induction false} TrimStartBlank(s: string)
    ensures TrimStart(s) == "" <==> AllSpace(s)
  {
    if s != "" && IsSpace(s[0]) {
      TrimStartBlank(s[1..]);
      assert forall i :: 1 <= i < |s| ==> s[i] == s[1..][i - 1];
    }
  }

  /** Only a blank text trims to nothing. */
  lemma TrimBlank(s: string)
    ensures Trim(s) == "" <==> AllSpace(s)
    ensures AllSpace(s) <==> forall i :: 0 <= i < |s| ==> s[i] as int in SPACE_CODES
  {
    forall i | 0 <= i < |s|
      ensures IsSpace(s[i]) <==> s[i] as int in SPACE_CODES
    {
      SpaceCodes(s[i]);
    }
    hide IsSpace;
    TrimStartBlank(s);
    var front := TrimStartParts(s);
    var back := TrimEndParts(TrimStart(s));
  }

  // ---------- Lines ----------

  predicate NoLineFeed(s: string) {
    forall i :: 0 <= i < |s| ==> s[i] != '\n'
  }

  /** The index of the first line feed, or the length. */
  function LineLength(s: string): (n: nat)
    ensures n <= |s| && (n < |s| ==> s[n] == '\n')
    ensures forall i :: 0 <= i < n ==> s[i] != '\n'
  {
    if s == "" || s[0] == '\n' then 0 else 1 + LineLength(s[1..])
  }

  function DropCarriageReturn(s: string): string {
    if s != "" && s[|s| - 1] == '\r' then s[..|s| - 1] else s
  }

  /** Lines end with a line feed, or a carriage return and a line feed; the
      last one need not end. */
  function Lines(s: string): seq<string> {
    if s == "" then []
    else
      var n := LineLength(s);
      if n == |s| then [s] else [DropCarriageReturn(s[..n])] + Lines(s[n + 1..])
  }

  lemma FirstLine(line: string, rest: string)
    requires NoLineFeed(line)
    ensures Lines(line + "\n" + rest) == [DropCarriageReturn(line)] + Lines(rest)
  {
    var s := line + "\n" + rest;
    assert s[|line|] == '\n';
    assert forall i :: 0 <= i < |line| ==> s[i] == line[i];
    assert LineLength(s) == |line|;
    assert s[..|line|] == line && s[|line| + 1..] == rest;
  }

  // ---------- Fields ----------

  /** The index of the first white space, or the length. */
  function FieldLength(s: string): (n: nat)
    ensures n <= |s| && (n < |s| ==> IsSpace(s[n]))
    ensures forall i :: 0 <= i < n ==> !IsSpace(s[i])
  {
    if s == "" || IsSpace(s[0]) then 0 else 1 + FieldLength(s[1..])
  }

  function SplitWhitespace(s: string): seq<string>
    decreases |s|
  {
    if s == "" then []
    else if IsSpace(s[0]) then SplitWhitespace(s[1..])
    else [s[..FieldLength(s)]] + SplitWhitespace(s[FieldLength(s)..])
  }

  lemma {:induction false} SplitSkipsSpace(space: string, s: string)
    requires AllSpace(space)
    ensures SplitWhitespace(space + s) == SplitWhitespace(s)
  {
    if space == "" {
      assert space + s == s;
    } else {
      SplitSkipsSpace(space[1..], s);
      assert (space + s)[1..] == space[1..] + s;
    }
  }

  lemma SplitFirstField(field: string, s: string)
    requires field != "" && NoSpace(field) && (s == "" || IsSpace(s[0]))
    ensures SplitWhitespace(field + s) == [field] + SplitWhitespace(s)
  {
    var all := field + s;
    assert forall i :: 0 <= i < |field| ==> all[i] == field[i];
    assert s != "" ==> all[|field|] == s[0];
    assert FieldLength(all) == |field|;
    assert all[..|field|] == field && all[|field|..] == s;
  }

  // ---------- Searching ----------

  predicate IsAt(haystack: string, needle: string, i: nat) {
    i + |needle| <= |haystack| && haystack[i..i + |needle|] == needle
  }

  /** The first window equal to the needle. */
  function Find(haystack: string, needle: string): (at: Option<nat>)
    ensures at.Some? ==> IsAt(haystack, needle, at.value) && forall i: nat :: i < at.value ==> !IsAt(haystack, needle, i)
    ensures at.None? ==> forall i: nat :: !IsAt(haystack, needle, i)
  {
    FindFrom(haystack, needle, 0)
  }

  function FindFrom(haystack: string, needle: string, from: nat): (at: Option<nat>)
    ensures at.Some? ==> from <= at.value && IsAt(haystack, needle, at.value)
    ensures at.Some? ==> forall i: nat :: from <= i < at.value ==> !IsAt(haystack, needle, i)
    ensures at.None? ==> forall i: nat :: from <= i ==> !IsAt(haystack, needle, i)
    decreases |haystack| - from
  {
    if from + |needle| > |haystack| then None
    else if IsAt(haystack, needle, from) then Some(from)
    else FindFrom(haystack, needle, from + 1)
  }

  predicate Contains(haystack: string, needle: string) {
    Find(haystack, needle).Some?
  }

  // ---------- Order ----------

  /** The order of strings by the codes of their characters. */
  predicate Less(a: string, b: string) {
    b != "" && (a == "" || a[0] < b[0] || (a[0] == b[0] && Less(a[1..], b[1..])))
  }

  /** The first difference is at `i`: one text ends there, or has the smaller
      character. */
  predicate DiffersAt(a: string, b: string, i: nat) {
    && i <= |a| && i < |b| && a[..i] == b[..i]
    && (i == |a| || a[i] < b[i])
  }

  lemma {:induction false} LessIff(a: string, b: string)
    ensures Less(a, b) <==> exists i: nat :: DiffersAt(a, b, i)
  {
    if b == "" {
    } else if a == "" || a[0] != b[0] {
      assert a == "" || a[0] < b[0] ==> DiffersAt(a, b, 0);
      forall i: nat | a != "" && DiffersAt(a, b, i)
        ensures a[0] < b[0]
      {
        assert i > 0 ==> a[..i][0] == b[..i][0];
      }
    } else {
      LessIff(a[1..], b[1..]);
      forall i: nat | DiffersAt(a[1..], b[1..], i)
        ensures DiffersAt(a, b, i + 1)
      {
        assert a[..i + 1] == [a[0]] + a[1..][..i] && b[..i + 1] == [b[0]] + b[1..][..i];
      }
      forall i: nat | DiffersAt(a, b, i)
        ensures i > 0 && DiffersAt(a[1..], b[1..], i - 1)
      {
        assert a[1..][..i - 1] == a[..i][1..] && b[1..][..i - 1] == b[..i][1..];
      }
    }
  }

  lemma {:induction false} LessIsTotal(a: string, b: string)
    ensures Less(a, b) || Less(b, a) || a == b
    ensures !(Less(a, b) && Less(b, a)) && (a == b ==> !Less(a, b))
  {
    if a != "" && b != "" {
      LessIsTotal(a[1..], b[1..]);
      assert a == [a[0]] + a[1..] && b == [b[0]] + b[1..];
    }
  }

  lemma {:induction false} LessIsTransitive(a: string, b: string, c: string)
    requires Less(a, b) && Less(b, c)
    ensures Less(a, c)
  {
    if a != "" && a[0] == b[0] == c[0] {
      LessIsTransitive(a[1..], b[1..], c[1..]);
    }
  }
}
