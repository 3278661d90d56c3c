/**
  The managed command shim of cli/src/install-store.ts: its writer, its
  recogniser, and a reader of shell words after sections 2.2.2 and 2.2.3 of
  POSIX.1-2017 XCU.
 */
module ManagedShim {

  datatype Option<+T> = None | Some(value: T)

  const QUOTE := '\''
  const ESCAPED_QUOTE := "'\"'\"'"
  const MARKER := "geetorusai managed install shim v1"

  // ------------------------------------------------------------------ writer

  /** Leaves the single quotes, quotes one quote doubly, and goes on. */
  function EncodeQuotes(value: string): string
  {
    if value == "" then ""
    else (if value[0] == QUOTE then ESCAPED_QUOTE else [value[0]]) + EncodeQuotes(value[1..])
  }

  function ShellQuote(value: string): string {
    [QUOTE] + EncodeQuotes(value) + [QUOTE]
  }

  function PathLine(directory: string): string {
    "export PATH=" + ShellQuote(directory) + ":\"${PATH:-/usr/local/bin:/usr/bin:/bin}\""
  }

  function ExecLine(node: string, entrypoint: string): string {
    "exec " + ShellQuote(node) + " " + ShellQuote(entrypoint) + " \"$@\""
  }

  function ShimLines(directory: string, node: string, entrypoint: string): seq<string> {
    ["#!/bin/sh", "# " + MARKER, "set -eu", PathLine(directory), ExecLine(node, entrypoint), ""]
  }

  /** The shim that older releases wrote, without a pinned path. */
  function LegacyLines(node: string, entrypoint: string): seq<string> {
    ["#!/bin/sh", "# " + MARKER, "set -eu", ExecLine(node, entrypoint), ""]
  }

  function JoinLines(lines: seq<string>): string
    requires lines != []
  {
    if |lines| == 1 then lines[0] else lines[0] + "\n" + JoinLines(lines[1..])
  }

  function ShimContents(directory: string, node: string, entrypoint: string): string {
    JoinLines(ShimLines(directory, node, entrypoint))
  }

  // -------------------------------------------------------------- recogniser

  function Split(text: string): (lines: seq<string>)
    ensures lines != []
  {
    if text == "" then [""]
    else
      var rest := Split(text[1..]);
      if text[0] == '\n' then [""] + rest else [[text[0]] + rest[0]] + rest[1..]
  }

  /** Zero or more of: a character other than a quote, or the escaped quote. */
  predicate IsQuotedBody(body: string)
    decreases |body|
  {
    body == ""
    || (body[0] != QUOTE && IsQuotedBody(body[1..]))
    || (ESCAPED_QUOTE <= body && IsQuotedBody(body[5..]))
  }

  /** A nonempty body between single quotes. */
  predicate IsQuotedWord(word: string) {
    |word| > 2 && word[0] == QUOTE && word[|word| - 1] == QUOTE && IsQuotedBody(word[1..|word| - 1])
  }

  ghost predicate IsPathLine(line: string) {
    exists word :: IsQuotedWord(word) && line == "export PATH=" + word + ":\"${PATH:-/usr/local/bin:/usr/bin:/bin}\""
  }

  ghost predicate IsExecLine(line: string) {
    exists node, entrypoint :: IsQuotedWord(node) && IsQuotedWord(entrypoint)
      && line == "exec " + node + " " + entrypoint + " \"$@\""
  }

  ghost predicate IsManagedShimContents(contents: string) {
    var lines := Split(contents);
    var withRuntimePath := |lines| == 6;
    var execIndex := if withRuntimePath then 4 else 3;
    && (|lines| == 5 || withRuntimePath)
    && lines[0] == "#!/bin/sh"
    && lines[1] == "# " + MARKER
    && lines[2] == "set -eu"
    && (withRuntimePath ==> IsPathLine(lines[3]))
    && IsExecLine(lines[execIndex])
    && lines[execIndex + 1] == ""
  }

  // ------------------------------------------------------------ quoted words

  /** What the body of a quoted word stands for. */
  function DecodeBody(body: string): string
    requires IsQuotedBody(body)
    decreases |body|
  {
    if body == "" then ""
    else if body[0] != QUOTE then [body[0]] + DecodeBody(body[1..])
    else [QUOTE] + DecodeBody(body[5..])
  }

  lemma {:induction false} EncodeIsBody(value: string)
    ensures IsQuotedBody(EncodeQuotes(value))
    ensures value != "" ==> EncodeQuotes(value) != ""
  {
    if value != "" {
      var rest := EncodeQuotes(value[1..]);
      EncodeIsBody(value[1..]);
      if value[0] == QUOTE {
        assert (ESCAPED_QUOTE + rest)[5..] == rest;
      } else {
        assert ([value[0]] + rest)[1..] == rest;
      }
    }
  }

  lemma {:induction false} EncodeDecode(body: string)
    requires IsQuotedBody(body)
    ensures EncodeQuotes(DecodeBody(body)) == body
    ensures body != "" ==> DecodeBody(body) != ""
    ensures '\n' in DecodeBody(body) ==> '\n' in body
    decreases |body|
  {
    if body != "" {
      if body[0] != QUOTE {
        EncodeDecode(body[1..]);
        var tail := DecodeBody(body[1..]);
        assert ([body[0]] + tail)[1..] == tail;
        assert [body[0]] + body[1..] == body;
      } else {
        EncodeDecode(body[5..]);
        var tail := DecodeBody(body[5..]);
        assert ([QUOTE] + tail)[1..] == tail;
        assert ESCAPED_QUOTE + body[5..] == body;
      }
    }
  }

  lemma {:induction false} EncodeNewline(value: string)
    requires '\n' !in value
    ensures '\n' !in EncodeQuotes(value)
  {
    if value != "" {
      EncodeNewline(value[1..]);
    }
  }

  /** A quoted word quotes a value, without a newline if it has none. */
  lemma UnquoteWord(word: string) returns (value: string)
    requires IsQuotedWord(word)
    ensures value != "" && word == ShellQuote(value)
    ensures '\n' !in word ==> '\n' !in value
  {
    var body := word[1..|word| - 1];
    EncodeDecode(body);
    assert word == [QUOTE] + body + [QUOTE];
    value := DecodeBody(body);
  }

  lemma QuoteIsWord(value: string)
    requires value != ""
    ensures IsQuotedWord(ShellQuote(value))
  {
    EncodeIsBody(value);
    assert ShellQuote(value)[1..|ShellQuote(value)| - 1] == EncodeQuotes(value);
  }

  /** The recogniser's pattern accepts exactly the quotings of nonempty values. */
  lemma QuotedWordIff(word: string)
    ensures IsQuotedWord(word) <==> exists value :: value != "" && word == ShellQuote(value)
  {
    if IsQuotedWord(word) {
      var value := UnquoteWord(word);
    }
    if value :| value != "" && word == ShellQuote(value) {
      QuoteIsWord(value);
    }
  }

  // ------------------------------------------------------------ whole scripts

  lemma {:induction false} SplitLine(line: string, rest: string)
    requires '\n' !in line
    ensures Split(line + "\n" + rest) == [line] + Split(rest)
    ensures Split(line) == [line]
  {
    var text := line + "\n" + rest;
    if line == "" {
      assert text[1..] == rest;
    } else {
      SplitLine(line[1..], rest);
      assert text[1..] == line[1..] + "\n" + rest;
      assert [line[0]] + line[1..] == line;
      assert ([line[1..]] + Split(rest))[1..] == Split(rest);
    }
  }

  lemma {:induction false} SplitJoin(lines: seq<string>)
    requires lines != [] && forall i :: 0 <= i < |lines| ==> '\n' !in lines[i]
    ensures Split(JoinLines(lines)) == lines
  {
    if |lines| == 1 {
      SplitLine(lines[0], "");
    } else {
      SplitJoin(lines[1..]);
      SplitLine(lines[0], JoinLines(lines[1..]));
      assert [lines[0]] + lines[1..] == lines;
    }
  }

  lemma {:induction false} JoinSplit(text: string)
    ensures JoinLines(Split(text)) == text
    ensures forall i :: 0 <= i < |Split(text)| ==> '\n' !in Split(text)[i]
  {
    if text != "" {
      JoinSplit(text[1..]);
      var rest := Split(text[1..]);
      var lines := Split(text);
      if text[0] == '\n' {
        assert lines[1..] == rest;
        assert text == "" + "\n" + text[1..];
      } else {
        assert lines[1..] == rest[1..];
        assert text == [text[0]] + text[1..];
        if |rest| > 1 {
          assert lines[0] + "\n" + JoinLines(lines[1..]) == [text[0]] + (rest[0] + "\n" + JoinLines(rest[1..]));
        }
        forall i | 0 <= i < |lines| ensures '\n' !in lines[i] {
          if i > 0 {
            assert lines[i] == rest[i];
          }
        }
      }
    }
  }

  ghost predicate GoodPath(path: string) {
    path != "" && '\n' !in path
  }

  lemma QuoteHasNoNewline(value: string)
    requires '\n' !in value
    ensures '\n' !in ShellQuote(value)
  {
    EncodeNewline(value);
  }

  /** Texts around quoted words; three literal pieces and two words are the most a line has. */
  lemma NoNewlineInLine(head: string, first: string, between: string, second: string, end: string)
    requires '\n' !in head && '\n' !in first && '\n' !in between && '\n' !in second && '\n' !in end
    ensures '\n' !in head + first + between && '\n' !in head + first + between + second + end
  {
  }

  lemma LinesHaveNoNewline(directory: string, node: string, entrypoint: string)
    requires '\n' !in directory && '\n' !in node && '\n' !in entrypoint
    ensures '\n' !in PathLine(directory) && '\n' !in ExecLine(node, entrypoint)
  {
    QuoteHasNoNewline(directory);
    QuoteHasNoNewline(node);
    QuoteHasNoNewline(entrypoint);
    NoNewlineInLine("export PATH=", ShellQuote(directory), ":\"${PATH:-/usr/local/bin:/usr/bin:/bin}\"", "", "");
    NoNewlineInLine("exec ", ShellQuote(node), " ", ShellQuote(entrypoint), " \"$@\"");
  }

  lemma HeaderHasNoNewline()
    ensures '\n' !in "#!/bin/sh" && '\n' !in "# " + MARKER && '\n' !in "set -eu"
  {
  }

  lemma PathLineIff(line: string)
    requires '\n' !in line
    ensures IsPathLine(line) <==> exists directory :: GoodPath(directory) && line == PathLine(directory)
  {
    if IsPathLine(line) {
      var word :| IsQuotedWord(word) && line == "export PATH=" + word + ":\"${PATH:-/usr/local/bin:/usr/bin:/bin}\"";
      var directory := UnquoteWord(word);
      assert forall c :: c in word ==> c in line;
      assert GoodPath(directory) && line == PathLine(directory);
    }
    if directory :| GoodPath(directory) && line == PathLine(directory) {
      QuoteIsWord(directory);
    }
  }

  lemma ExecLineIff(line: string)
    requires '\n' !in line
    ensures IsExecLine(line) <==>
      exists node, entrypoint :: GoodPath(node) && GoodPath(entrypoint) && line == ExecLine(node, entrypoint)
  {
    if IsExecLine(line) {
      var first, second :| IsQuotedWord(first) && IsQuotedWord(second) && line == "exec " + first + " " + second + " \"$@\"";
      var node := UnquoteWord(first);
      var entrypoint := UnquoteWord(second);
      assert forall c :: c in first || c in second ==> c in line;
      assert GoodPath(node) && GoodPath(entrypoint) && line == ExecLine(node, entrypoint);
    }
    if node, entrypoint :| GoodPath(node) && GoodPath(entrypoint) && line == ExecLine(node, entrypoint) {
      QuoteIsWord(node);
      QuoteIsWord(entrypoint);
    }
  }

  /** The recogniser accepts exactly what the writer writes, now or in the older form, for nonempty paths without a newline. */
  lemma RecognisesExactlyTheWritten(contents: string)
    ensures IsManagedShimContents(contents) <==>
      || (exists directory, node, entrypoint :: GoodPath(directory) && GoodPath(node) && GoodPath(entrypoint)
            && contents == ShimContents(directory, node, entrypoint))
      || (exists node, entrypoint :: GoodPath(node) && GoodPath(entrypoint)
            && contents == JoinLines(LegacyLines(node, entrypoint)))
  {
    if IsManagedShimContents(contents) {
      RecognisedWasWritten(contents);
    }
    if directory, node, entrypoint :|
      GoodPath(directory) && GoodPath(node) && GoodPath(entrypoint) && contents == ShimContents(directory, node, entrypoint)
    {
      WrittenIsRecognised(directory, node, entrypoint);
    }
    if node, entrypoint :| GoodPath(node) && GoodPath(entrypoint) && contents == JoinLines(LegacyLines(node, entrypoint)) {
      LegacyIsRecognised(node, entrypoint);
    }
  }

  lemma WrittenIsRecognised(directory: string, node: string, entrypoint: string)
    requires GoodPath(directory) && GoodPath(node) && GoodPath(entrypoint)
    ensures IsManagedShimContents(ShimContents(directory, node, entrypoint))
  {
    LinesHaveNoNewline(directory, node, entrypoint);
    HeaderHasNoNewline();
    SplitJoin(ShimLines(directory, node, entrypoint));
    PathLineIff(PathLine(directory));
    ExecLineIff(ExecLine(node, entrypoint));
  }

  lemma LegacyIsRecognised(node: string, entrypoint: string)
    requires GoodPath(node) && GoodPath(entrypoint)
    ensures IsManagedShimContents(JoinLines(LegacyLines(node, entrypoint)))
  {
    LinesHaveNoNewline(node, node, entrypoint);
    HeaderHasNoNewline();
    SplitJoin(LegacyLines(node, entrypoint));
    ExecLineIff(ExecLine(node, entrypoint));
  }

  lemma SixLines(lines: seq<string>, a: string, b: string, c: string, d: string, e: string, f: string)
    requires |lines| == 6 && lines[0] == a && lines[1] == b && lines[2] == c && lines[3] == d && lines[4] == e && lines[5] == f
    ensures lines == [a, b, c, d, e, f]
  {
  }

  lemma FiveLines(lines: seq<string>, a: string, b: string, c: string, d: string, e: string)
    requires |lines| == 5 && lines[0] == a && lines[1] == b && lines[2] == c && lines[3] == d && lines[4] == e
    ensures lines == [a, b, c, d, e]
  {
  }

  lemma RecognisedWasWritten(contents: string)
    requires IsManagedShimContents(contents)
    ensures
      || (exists directory, node, entrypoint :: GoodPath(directory) && GoodPath(node) && GoodPath(entrypoint)
            && contents == ShimContents(directory, node, entrypoint))
      || (exists node, entrypoint :: GoodPath(node) && GoodPath(entrypoint)
            && contents == JoinLines(LegacyLines(node, entrypoint)))
  {
    var lines := Split(contents);
    JoinSplit(contents);
    var execIndex := if |lines| == 6 then 4 else 3;
    ExecLineIff(lines[execIndex]);
    var node, entrypoint :| GoodPath(node) && GoodPath(entrypoint) && lines[execIndex] == ExecLine(node, entrypoint);
    if |lines| == 6 {
      PathLineIff(lines[3]);
      var directory :| GoodPath(directory) && lines[3] == PathLine(directory);
      SixLines(lines, "#!/bin/sh", "# " + MARKER, "set -eu", PathLine(directory), ExecLine(node, entrypoint), "");
      assert contents == ShimContents(directory, node, entrypoint);
    } else {
      FiveLines(lines, "#!/bin/sh", "# " + MARKER, "set -eu", ExecLine(node, entrypoint), "");
      assert contents == JoinLines(LegacyLines(node, entrypoint));
    }
  }

  // ------------------------------------------------------------- shell words

  /** Characters that mean themselves outside quotes. */
  predicate Ordinary(c: char) {
    'a' <= c <= 'z' || 'A' <= c <= 'Z' || '0' <= c <= '9' || c in {'/', '.', '-', '_', ':', ',', '+', '@'}
  }

  datatype Quoting = Outside | Single | Double

  /**
    Reads one shell word: single quotes keep every character (2.2.2), double
    quotes every one but dollar, backquote and backslash (2.2.3), whose
    expansion this reader refuses.  The word ends before an unquoted blank.
   */
  function ReadWord(text: string, quoting: Quoting): Option<(string, string)>
  {
    match quoting
    case Outside =>
      if text == "" || text[0] == ' ' then Some(("", text))
      else if text[0] == QUOTE then ReadWord(text[1..], Single)
      else if text[0] == '"' then ReadWord(text[1..], Double)
      else if Ordinary(text[0]) then Prepend(text[0], ReadWord(text[1..], Outside))
      else None
    case Single =>
      if text == "" then None
      else if text[0] == QUOTE then ReadWord(text[1..], Outside)
      else Prepend(text[0], ReadWord(text[1..], Single))
    case Double =>
      if text == "" || text[0] in {'$', '`', '\\'} then None
      else if text[0] == '"' then ReadWord(text[1..], Outside)
      else Prepend(text[0], ReadWord(text[1..], Double))
  }

  function Prepend(c: char, read: Option<(string, string)>): Option<(string, string)> {
    match read
    case None => None
    case Some((word, rest)) => Some(([c] + word, rest))
  }

  /** Closing the single quotes, a quote in double quotes, and opening them again reads as one quote. */
  lemma ReadEscapedQuote(tail: string)
    ensures ReadWord(ESCAPED_QUOTE + tail, Single) == Prepend(QUOTE, ReadWord(tail, Single))
  {
    ReadOpening(tail);
    var text := ESCAPED_QUOTE + tail;
    assert text[1..] == "\"'\"'" + tail;
    assert text[1..][1..] == "'\"'" + tail;
    assert ReadWord(text, Single) == ReadWord(text[1..], Outside) == ReadWord(text[1..][1..], Double);
  }

  lemma ReadOpening(tail: string)
    ensures ReadWord("'\"'" + tail, Double) == Prepend(QUOTE, ReadWord(tail, Single))
  {
    var text := "'\"'" + tail;
    assert text[1..] == "\"'" + tail;
    assert text[1..][1..] == "'" + tail;
    assert text[1..][1..][1..] == tail;
    assert ReadWord(text[1..], Double) == ReadWord(text[1..][1..], Outside) == ReadWord(tail, Single);
  }

  lemma {:induction false} ReadBody(value: string, rest: string)
    requires rest == "" || rest[0] == ' '
    ensures ReadWord(EncodeQuotes(value) + [QUOTE] + rest, Single) == Some((value, rest))
  {
    var text := EncodeQuotes(value) + [QUOTE] + rest;
    if value == "" {
      assert text[1..] == rest;
    } else {
      var tail := EncodeQuotes(value[1..]) + [QUOTE] + rest;
      ReadBody(value[1..], rest);
      assert [value[0]] + value[1..] == value;
      if value[0] == QUOTE {
        assert text == ESCAPED_QUOTE + tail;
        ReadEscapedQuote(tail);
      } else {
        assert text == [value[0]] + tail;
        assert text[1..] == tail;
      }
    }
  }

  /** The shell reads a quoted path back as that path, quotes and all. */
  lemma ShellReadsQuoted(value: string, rest: string)
    requires rest == "" || rest[0] == ' '
    ensures ReadWord(ShellQuote(value) + rest, Outside) == Some((value, rest))
  {
    var text := ShellQuote(value) + rest;
    ReadBody(value, rest);
    assert text[0] == QUOTE;
    assert text[1..] == EncodeQuotes(value) + [QUOTE] + rest;
  }

  /** The shell takes the exec line apart into exactly the two paths it was written with. */
  lemma ShellReadsExecLine(node: string, entrypoint: string)
    ensures var line := ExecLine(node, entrypoint);
      && ReadWord(line[5..], Outside) == Some((node, " " + ShellQuote(entrypoint) + " \"$@\""))
      && ReadWord(ShellQuote(entrypoint) + " \"$@\"", Outside) == Some((entrypoint, " \"$@\""))
  {
    var line := ExecLine(node, entrypoint);
    var after := " " + ShellQuote(entrypoint) + " \"$@\"";
    assert line == "exec " + (ShellQuote(node) + after);
    assert line[5..] == ShellQuote(node) + after;
    ShellReadsQuoted(node, after);
    ShellReadsQuoted(entrypoint, " \"$@\"");
  }

  /** Different paths are never quoted alike. */
  lemma ShellQuoteInjective(a: string, b: string)
    requires ShellQuote(a) == ShellQuote(b)
    ensures a == b
  {
    ShellReadsQuoted(a, "");
    ShellReadsQuoted(b, "");
    assert ShellQuote(a) + "" == ShellQuote(b) + "";
  }
}
