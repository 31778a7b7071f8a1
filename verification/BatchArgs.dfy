/** Batch scripts for sftp: paths are quoted so that each builder writes one
    command, and the command's arguments are the paths. */
module BatchArgs {
  import opened Wrappers
  import opened Text

  datatype Error = ControlCharacter(c: char) | PathRequired(message: string)

  /** Unicode's control characters. */
  predicate IsControl(c: char) {
    c < ' ' || '\U{7f}' <= c <= '\U{9f}'
  }

  predicate NoControl(s: string) {
    forall i :: 0 <= i < |s| ==> !IsControl(s[i])
  }

  predicate IsControlCode(code: int) {
    code <= 31 || 127 <= code <= 159
  }

  lemma ControlCodes(c: char)
    ensures IsControl(c) <==> IsControlCode(c as int)
  {
  }

  function FirstControl(s: string): (c: Option<char>)
    ensures c.None? <==> NoControl(s)
  {
    if s == "" then None else if IsControl(s[0]) then Some(s[0]) else FirstControl(s[1..])
  }

  lemma {:induction false} FirstControlIsFirst(s: string) returns (i: nat)
    requires FirstControl(s).Some?
    ensures i < |s| && s[i] == FirstControl(s).value && IsControlCode(s[i] as int)
    ensures forall j :: 0 <= j < i ==> !IsControlCode(s[j] as int)
  {
    ControlCodes(s[0]);
    hide IsControl, IsControlCode;
    if IsControl(s[0]) {
      i := 0;
    } else {
      i := FirstControlIsFirst(s[1..]);
      i := i + 1;
      assert forall j :: 1 <= j < i ==> s[j] == s[1..][j - 1];
    }
  }

  predicate NeedsEscape(c: char) {
    c == '\\' || c == '"'
  }

  function Escaped(s: string): string {
    if s == "" then ""
    else Escaped(s[..|s| - 1]) + (if NeedsEscape(s[|s| - 1]) then "\\" else "") + [s[|s| - 1]]
  }

  /** A leading dash would be read as a flag. */
  function Anchored(path: string): (p: string)
    ensures p == "" || p[0] != '-'
  {
    if path != "" && path[0] == '-' then "./" + path else path
  }

  function Quoted(path: string): string {
    "\"" + Escaped(Anchored(path)) + "\""
  }

  function Argument(path: string): Result<string, Error> {
    var c := FirstControl(path);
    if c.Some? then Failure(ControlCharacter(c.value)) else Success(Quoted(path))
  }

  method BatchArg(path: string) returns (r: Result<string, Error>)
    ensures r == Argument(path)
  {
    var c := FirstControl(path);
    if c.Some? {
      return Failure(ControlCharacter(c.value));
    }
    var quoted := "\"";
    ghost var anchor := if path != "" && path[0] == '-' then "./" else "";
    if path != "" && path[0] == '-' {
      quoted := quoted + "./";
    }
    var i := 0;
    QuoteNothing(anchor, path);
    QuoteDone(anchor, path);
    hide Escaped, FirstControl, Anchored, NeedsEscape, QuotedUpTo, Quoted;
    while i < |path|
      invariant 0 <= i <= |path|
      invariant QuotedUpTo(quoted, anchor, path, i)
    {
      QuoteStep(quoted, anchor, path, i);
      if NeedsEscape(path[i]) {
        quoted := quoted + "\\";
      }
      quoted := quoted + [path[i]];
      i := i + 1;
    }
    assert quoted + "\"" == Quoted(path);
    return Success(quoted + "\"");
  }

  /** The opening quote and the first `n` characters, escaped. */
  predicate QuotedUpTo(quoted: string, anchor: string, path: string, n: nat) {
    n <= |path| && quoted == "\"" + Escaped(anchor + path[..n])
  }

  lemma QuoteNothing(anchor: string, path: string)
    requires anchor == "" || anchor == "./"
    ensures QuotedUpTo("\"" + anchor, anchor, path, 0)
  {
    EscapedAnchor(anchor);
    assert anchor + path[..0] == anchor;
  }

  lemma QuoteDone(anchor: string, path: string)
    requires anchor == if path != "" && path[0] == '-' then "./" else ""
    ensures forall quoted :: QuotedUpTo(quoted, anchor, path, |path|) ==> quoted + "\"" == Quoted(path)
  {
    AnchoredParts(path);
    assert path[..|path|] == path;
    hide Escaped, Anchored;
  }

  lemma EscapedAnchor(anchor: string)
    requires anchor == "" || anchor == "./"
    ensures Escaped(anchor) == anchor
  {
    assert "./"[..1] == "." && "."[..0] == "";
  }

  lemma QuoteStep(quoted: string, anchor: string, path: string, i: nat)
    requires i < |path| && QuotedUpTo(quoted, anchor, path, i)
    ensures NeedsEscape(path[i]) ==> QuotedUpTo(quoted + "\\" + [path[i]], anchor, path, i + 1)
    ensures !NeedsEscape(path[i]) ==> QuotedUpTo(quoted + [path[i]], anchor, path, i + 1)
  {
    var next := anchor + path[..i + 1];
    assert next[..|next| - 1] == anchor + path[..i] && next[|next| - 1] == path[i];
  }

  lemma AnchoredParts(path: string)
    ensures Anchored(path) == (if path != "" && path[0] == '-' then "./" else "") + path
  {
  }

  // ---------- The builders ----------

  predicate IsBlank(path: string) {
    Trim(path) == ""
  }

  function CleanRemotePath(path: string): string {
    if IsBlank(path) then "." else Trim(path)
  }

  function ListBatch(path: string): Result<string, Error> {
    var a := Argument(CleanRemotePath(path));
    if a.Failure? then a else Success("cd " + a.value + "\nls -la\n")
  }

  function OnePathBatch(command: string, path: string, message: string): Result<string, Error> {
    if IsBlank(path) then Failure(PathRequired(message))
    else
      var a := Argument(path);
      if a.Failure? then a else Success(command + " " + a.value + "\n")
  }

  function TwoPathBatch(command: string, first: string, second: string, message: string): Result<string, Error> {
    if IsBlank(first) || IsBlank(second) then Failure(PathRequired(message))
    else
      var a := Argument(first);
      if a.Failure? then a
      else
        var b := Argument(second);
        if b.Failure? then b else Success(command + " " + a.value + " " + b.value + "\n")
  }

  const REMOTE_REQUIRED := "remote path is required"

  const RENAME_REQUIRED := "rename paths are required"

  const TRANSFER_REQUIRED := "transfer paths are required"

  function MkdirBatch(path: string): Result<string, Error> {
    OnePathBatch("mkdir", path, REMOTE_REQUIRED)
  }

  function RemoveBatch(path: string, isDir: bool): Result<string, Error> {
    OnePathBatch(if isDir then "rmdir" else "rm", path, REMOTE_REQUIRED)
  }

  function RenameBatch(from: string, to: string): Result<string, Error> {
    TwoPathBatch("rename", from, to, RENAME_REQUIRED)
  }

  function UploadBatch(localPath: string, remotePath: string): Result<string, Error> {
    TwoPathBatch("put", localPath, remotePath, TRANSFER_REQUIRED)
  }

  function DownloadBatch(remotePath: string, localPath: string): Result<string, Error> {
    TwoPathBatch("get", remotePath, localPath, TRANSFER_REQUIRED)
  }

  // ---------- The reader ----------

  predicate IsBlankCharacter(c: char) {
    c == ' ' || '\t' <= c <= '\r'
  }

  /** One word: quotes may open and close inside it; a `#` outside quotes ends
      the line; in quotes a backslash escapes a quote and a backslash. */
  function ReadWord(s: string, quoted: bool): (r: Option<(string, string)>)
    ensures r.Some? ==> |r.value.1| <= |s|
    ensures r.Some? && s != "" && (quoted || !IsBlankCharacter(s[0])) ==> |r.value.1| < |s|
    decreases |s|
  {
    if s == "" then if quoted then None else Some(("", ""))
    else if quoted then
      if s[0] == '"' then ReadWord(s[1..], false)
      else if s[0] == '\\' && |s| > 1 && NeedsEscape(s[1]) then Prepend(s[1], ReadWord(s[2..], true))
      else Prepend(s[0], ReadWord(s[1..], true))
    else if IsBlankCharacter(s[0]) then Some(("", s))
    else if s[0] == '#' then Some(("", ""))
    else if s[0] == '"' then ReadWord(s[1..], true)
    else Prepend(s[0], ReadWord(s[1..], false))
  }

  function Prepend(c: char, r: Option<(string, string)>): (p: Option<(string, string)>)
  {
    if r.None? then None else Some(([c] + r.value.0, r.value.1))
  }

  function ReadWords(s: string): Option<seq<string>>
    decreases |s|
  {
    if s == "" || s[0] == '#' then Some([])
    else if IsBlankCharacter(s[0]) then ReadWords(s[1..])
    else
      var word := ReadWord(s, false);
      if word.None? then None
      else
        var rest := ReadWords(word.value.1);
        if rest.None? then None else Some([word.value.0] + rest.value)
  }

  /** Every line of a script, as words. */
  function ReadScript(lines: seq<string>): Option<seq<seq<string>>> {
    if lines == [] then Some([])
    else
      var first, rest := ReadWords(lines[0]), ReadScript(lines[1..]);
      if first.None? || rest.None? then None else Some([first.value] + rest.value)
  }

  // ---------- Reading back ----------

  lemma {:induction false} EscapedFront(c: char, s: string)
    ensures Escaped([c] + s) == (if NeedsEscape(c) then "\\" else "") + [c] + Escaped(s)
  {
    if s == "" {
      assert [c] + s == [c];
      assert [c][..0] == "";
    } else {
      var n := |s| - 1;
      EscapedFront(c, s[..n]);
      assert ([c] + s)[..|s|] == [c] + s[..n];
    }
  }

  lemma ReadOneEscaped(c: char, tail: string)
    ensures ReadWord((if NeedsEscape(c) then "\\" else "") + [c] + tail, true) == Prepend(c, ReadWord(tail, true))
  {
    var text := (if NeedsEscape(c) then "\\" else "") + [c] + tail;
    if NeedsEscape(c) {
      assert text[0] == '\\' && text[1] == c && text[2..] == tail;
    } else {
      assert text[0] == c && text[1..] == tail;
    }
  }

  lemma ReadClosingQuote(rest: string)
    requires rest == "" || IsBlankCharacter(rest[0])
    ensures ReadWord("\"" + rest, true) == Some(("", rest))
  {
    assert ("\"" + rest)[1..] == rest;
    assert ReadWord(rest, false) == Some(("", rest));
  }

  /** Inside quotes an escaped text is read as itself, up to the closing quote. */
  lemma {:induction false} ReadEscaped(s: string, rest: string)
    requires rest == "" || IsBlankCharacter(rest[0])
    ensures ReadWord(Escaped(s) + "\"" + rest, true) == Some((s, rest))
  {
    hide ReadWord, NeedsEscape;
    if s == "" {
      ReadClosingQuote(rest);
      assert Escaped(s) + "\"" + rest == "\"" + rest;
    } else {
      var tail := Escaped(s[1..]) + "\"" + rest;
      var escape := if NeedsEscape(s[0]) then "\\" else "";
      assert s == [s[0]] + s[1..];
      EscapedFront(s[0], s[1..]);
      hide Escaped;
      ReadEscaped(s[1..], rest);
      ReadOneEscaped(s[0], tail);
      assert Escaped(s) + "\"" + rest == escape + [s[0]] + tail;
    }
  }

  lemma ReadQuoted(path: string, rest: string)
    requires rest == "" || IsBlankCharacter(rest[0])
    ensures ReadWord(Quoted(path) + rest, false) == Some((Anchored(path), rest))
  {
    ReadEscaped(Anchored(path), rest);
    assert (Quoted(path) + rest)[1..] == Escaped(Anchored(path)) + "\"" + rest;
  }

  lemma ReadWordsQuoted(path: string, rest: string)
    requires rest == "" || IsBlankCharacter(rest[0])
    requires ReadWords(rest).Some?
    ensures ReadWords(Quoted(path) + rest) == Some([Anchored(path)] + ReadWords(rest).value)
  {
    ReadQuoted(path, rest);
    assert (Quoted(path) + rest)[0] == '"';
    hide ReadWord, Anchored, Quoted;
  }

  predicate IsPlainWord(word: string) {
    word != "" && forall i :: 0 <= i < |word| ==> 'a' <= word[i] <= 'z' || word[i] == '-'
  }

  lemma {:induction false} ReadPlainWord(word: string, rest: string)
    requires forall i :: 0 <= i < |word| ==> 'a' <= word[i] <= 'z' || word[i] == '-'
    requires rest == "" || IsBlankCharacter(rest[0])
    ensures ReadWord(word + rest, false) == Some((word, rest))
  {
    if word == "" {
      assert word + rest == rest;
    } else {
      ReadPlainWord(word[1..], rest);
      assert (word + rest)[0] == word[0];
      assert (word + rest)[1..] == word[1..] + rest;
      assert word == [word[0]] + word[1..];
    }
  }

  lemma ReadWordsPlain(word: string, rest: string)
    requires IsPlainWord(word)
    requires rest == "" || IsBlankCharacter(rest[0])
    requires ReadWords(rest).Some?
    ensures ReadWords(word + rest) == Some([word] + ReadWords(rest).value)
  {
    ReadPlainWord(word, rest);
    assert (word + rest)[0] == word[0];
    hide ReadWord;
  }

  lemma ReadWordsAfterSpace(rest: string)
    ensures ReadWords(" " + rest) == ReadWords(rest)
  {
    assert (" " + rest)[1..] == rest;
  }

  /** A command with one path is read as the command and that path. */
  lemma ReadOnePath(command: string, path: string)
    requires IsPlainWord(command)
    ensures ReadWords(command + " " + Quoted(path)) == Some([command, Anchored(path)])
  {
    hide ReadWords, Quoted, Anchored;
    var a := Quoted(path);
    assert a + "" == a;
    EmptyLine();
    ReadWordsQuoted(path, "");
    ReadWordsAfterSpace(a);
    ReadWordsPlain(command, " " + a);
    assert command + " " + a == command + (" " + a);
    assert [Anchored(path)] + [] == [Anchored(path)];
    assert [command] + [Anchored(path)] == [command, Anchored(path)];
  }

  lemma ReadTwoPaths(command: string, first: string, second: string)
    requires IsPlainWord(command)
    ensures ReadWords(command + " " + Quoted(first) + " " + Quoted(second)) == Some([command, Anchored(first), Anchored(second)])
  {
    hide ReadWords, Quoted, Anchored;
    var a, b := Quoted(first), Quoted(second);
    assert b + "" == b;
    EmptyLine();
    ReadWordsQuoted(second, "");
    ReadWordsAfterSpace(b);
    ReadWordsQuoted(first, " " + b);
    ReadWordsAfterSpace(a + (" " + b));
    ReadWordsPlain(command, " " + (a + (" " + b)));
    assert command + " " + a + " " + b == command + (" " + (a + (" " + b)));
    assert [command] + ([Anchored(first)] + ([Anchored(second)] + [])) == [command, Anchored(first), Anchored(second)];
  }

  lemma EmptyLine()
    ensures ReadWords("") == Some([])
  {
  }

  // ---------- One line per command ----------

  lemma {:induction false} EscapedCharacters(s: string)
    ensures forall c :: c in Escaped(s) ==> c in s || c == '\\'
  {
    if s != "" {
      EscapedCharacters(s[..|s| - 1]);
    }
  }

  predicate IsLine(s: string) {
    s != "" && NoLineFeed(s) && s[|s| - 1] != '\r'
  }

  lemma JoinLine(front: string, line: string)
    requires NoLineFeed(front) && IsLine(line)
    ensures IsLine(front + line)
  {
  }

  lemma QuotedIsLine(path: string)
    requires NoControl(path)
    ensures IsLine(Quoted(path))
  {
    EscapedCharacters(Anchored(path));
    assert forall c :: c in Anchored(path) ==> c in path || c == '.' || c == '/';
    assert forall c :: c in path ==> !IsControl(c);
    hide Escaped, Anchored;
    forall i | 0 <= i < |Quoted(path)|
      ensures Quoted(path)[i] != '\n'
    {
      assert Quoted(path)[i] in Escaped(Anchored(path)) || Quoted(path)[i] == '"';
    }
  }

  /** A script of whole lines is read line by line. */
  lemma ReadFirstLine(line: string, words: seq<string>, more: string)
    requires IsLine(line) && ReadWords(line) == Some(words) && ReadScript(Lines(more)).Some?
    ensures Lines(line + "\n" + more) == [line] + Lines(more)
    ensures ReadScript(Lines(line + "\n" + more)) == Some([words] + ReadScript(Lines(more)).value)
  {
    FirstLine(line, more);
    hide ReadWords, Lines;
    assert ([line] + Lines(more))[1..] == Lines(more);
  }

  lemma ReadOnlyLine(line: string, words: seq<string>)
    requires IsLine(line) && ReadWords(line) == Some(words)
    ensures Lines(line + "\n") == [line] && ReadScript(Lines(line + "\n")) == Some([words])
  {
    assert Lines("") == [] && ReadScript([]) == Some([]);
    ReadFirstLine(line, words, "");
    assert line + "\n" + "" == line + "\n";
    assert [line] + [] == [line] && [words] + [] == [words];
  }

  /** `r` is one command line that is read as `words`. */
  predicate WritesOneLine(r: Result<string, Error>, words: seq<string>) {
    r.Success? && |Lines(r.value)| == 1 && ReadScript(Lines(r.value)) == Some([words])
  }

  predicate Usable(path: string) {
    !AllSpace(path) && NoControl(path)
  }

  lemma OnePathReadsBack(command: string, path: string, message: string)
    requires IsPlainWord(command)
    ensures var r := OnePathBatch(command, path, message);
      if Usable(path) then WritesOneLine(r, [command, Anchored(path)])
      else r.Failure? && (r.error == PathRequired(message) <==> AllSpace(path))
  {
    TrimBlank(path);
    if NoControl(path) {
      QuotedIsLine(path);
      ReadOnePath(command, path);
      hide ReadScript, ReadWords, Lines, Quoted, Anchored, Trim, FirstControl, IsLine;
      JoinLine(command + " ", Quoted(path));
      ReadOnlyLine(command + " " + Quoted(path), [command, Anchored(path)]);
    }
  }

  lemma TwoPathsReadBack(command: string, first: string, second: string, message: string)
    requires IsPlainWord(command)
    ensures var r := TwoPathBatch(command, first, second, message);
      if Usable(first) && Usable(second) then WritesOneLine(r, [command, Anchored(first), Anchored(second)])
      else r.Failure? && (r.error == PathRequired(message) <==> AllSpace(first) || AllSpace(second))
  {
    TrimBlank(first);
    TrimBlank(second);
    if NoControl(first) && NoControl(second) {
      QuotedIsLine(first);
      QuotedIsLine(second);
      ReadTwoPaths(command, first, second);
      hide ReadScript, ReadWords, Lines, Quoted, Anchored, Trim, FirstControl;
      JoinLine(command + " " + Quoted(first) + " ", Quoted(second));
      ReadOnlyLine(command + " " + Quoted(first) + " " + Quoted(second), [command, Anchored(first), Anchored(second)]);
    }
  }

  /** Making and removing: one command line, whose argument is the path; refused
      exactly for blank paths and control characters. */
  lemma MkdirAndRemoveReadBack(path: string, isDir: bool)
    ensures Usable(path) <==> MkdirBatch(path).Success?
    ensures Usable(path) <==> RemoveBatch(path, isDir).Success?
    ensures Usable(path) ==> WritesOneLine(MkdirBatch(path), ["mkdir", Anchored(path)])
    ensures Usable(path) ==> WritesOneLine(RemoveBatch(path, isDir), [if isDir then "rmdir" else "rm", Anchored(path)])
  {
    hide OnePathBatch, Usable, Anchored, Lines, ReadScript;
    OnePathReadsBack("mkdir", path, REMOTE_REQUIRED);
    OnePathReadsBack("rm", path, REMOTE_REQUIRED);
    OnePathReadsBack("rmdir", path, REMOTE_REQUIRED);
  }

  /** Renaming and transferring: one command line, whose arguments are the two
      paths, source first. */
  lemma RenameAndTransfersReadBack(from: string, to: string)
    ensures Usable(from) && Usable(to) <==> RenameBatch(from, to).Success?
    ensures Usable(from) && Usable(to) <==> UploadBatch(from, to).Success?
    ensures Usable(from) && Usable(to) <==> DownloadBatch(from, to).Success?
    ensures Usable(from) && Usable(to) ==> WritesOneLine(RenameBatch(from, to), ["rename", Anchored(from), Anchored(to)])
    ensures Usable(from) && Usable(to) ==> WritesOneLine(UploadBatch(from, to), ["put", Anchored(from), Anchored(to)])
    ensures Usable(from) && Usable(to) ==> WritesOneLine(DownloadBatch(from, to), ["get", Anchored(from), Anchored(to)])
  {
    hide TwoPathBatch, Usable, Anchored, Lines, ReadScript;
    TwoPathsReadBack("rename", from, to, RENAME_REQUIRED);
    TwoPathsReadBack("put", from, to, TRANSFER_REQUIRED);
    TwoPathsReadBack("get", from, to, TRANSFER_REQUIRED);
  }

  /** Listing: change to the trimmed path, or stay, then list. */
  lemma ListReadsBack(path: string)
    ensures var r := ListBatch(path); var clean := if AllSpace(path) then "." else Trim(path);
      && (r.Success? <==> NoControl(clean))
      && (r.Success? ==> |Lines(r.value)| == 2)
      && (r.Success? ==> ReadScript(Lines(r.value)) == Some([["cd", Anchored(clean)], ["ls", "-la"]]))
  {
    var clean := CleanRemotePath(path);
    TrimBlank(path);
    if NoControl(clean) {
      QuotedIsLine(clean);
      ReadOnePath("cd", clean);
      hide ReadScript, ReadWords, Lines, Quoted, Anchored, Trim, FirstControl;
      JoinLine("cd ", Quoted(clean));
      assert "cd" + " " == "cd ";
      ListScript("cd " + Quoted(clean), ["cd", Anchored(clean)]);
      assert "cd " + Quoted(clean) + "\nls -la\n" == ("cd " + Quoted(clean)) + "\nls -la\n";
    }
  }

  lemma ListText(first: string)
    ensures first + "\nls -la\n" == first + "\n" + ("ls -la" + "\n")
  {
    assert "\nls -la\n" == "\n" + ("ls -la" + "\n");
  }

  lemma ListCommandIsLine()
    ensures IsLine("ls -la")
  {
  }

  lemma ListScript(first: string, words: seq<string>)
    requires IsLine(first) && ReadWords(first) == Some(words)
    ensures |Lines(first + "\nls -la\n")| == 2
    ensures ReadScript(Lines(first + "\nls -la\n")) == Some([words, ["ls", "-la"]])
  {
    hide ReadScript, ReadWords, Lines, IsLine;
    ListCommandIsLine();
    ReadListCommand();
    ListText(first);
    var list, listWords := "ls -la", ["ls", "-la"];
    ReadOnlyLine(list, listWords);
    ReadFirstLine(first, words, list + "\n");
    assert [words] + [listWords] == [words, listWords];
  }

  lemma ReadListCommand()
    ensures ReadWords("ls -la") == Some(["ls", "-la"])
  {
    EmptyLine();
    hide ReadWords;
    ReadWordsPlain("-la", "");
    assert "-la" + "" == "-la";
    ReadWordsAfterSpace("-la");
    ReadWordsPlain("ls", " " + "-la");
    assert "ls" + (" " + "-la") == "ls -la";
    assert ["ls"] + (["-la"] + []) == ["ls", "-la"];
  }
}
