/**
  The quote scanners of server/src/redaction.ts.

  A scanner walks from an opening quote to the end of the quoted credential.
  It remembers a provisional end and whether something unsafe came after it.
  `QuotedEnd` says without any walking which position that is; the methods
  carry the source's loops and are proved against it.
 */
module QuoteScanner {

  datatype Option<+T> = None | Some(value: T)

  datatype Boundary = Hard | Line | Provisional | Unsafe

  // ------------------------------------------------------------- characters

  /** Inline blanks. */
  predicate IsBlank(c: char) {
    c == ' ' || c == '\t'
  }

  predicate IsLineBreak(c: char) {
    c == '\r' || c == '\n'
  }

  /** The white space class of the regular expressions: blanks, line ends and the Unicode spaces. */
  predicate IsSpace(c: char) {
    IsBlank(c) || IsLineBreak(c) || c == '\U{000B}' || c == '\U{000C}' || c == '\U{00A0}' || c == '\U{1680}'
    || '\U{2000}' <= c <= '\U{200A}' || c == '\U{2028}' || c == '\U{2029}' || c == '\U{202F}' || c == '\U{205F}'
    || c == '\U{3000}' || c == '\U{FEFF}'
  }

  predicate IsQuote(c: char) {
    c == '"' || c == '\''
  }

  predicate IsWordChar(c: char) {
    'a' <= c <= 'z' || 'A' <= c <= 'Z' || '0' <= c <= '9' || c == '_'
  }

  function LowerChar(c: char): char {
    if 'A' <= c <= 'Z' then c - 'A' + 'a' else c
  }

  function Lower(text: string): (lower: string)
    ensures |lower| == |text|
  {
    if text == "" then "" else [LowerChar(text[0])] + Lower(text[1..])
  }

  function TrimStart(text: string): string
  {
    if text != "" && IsSpace(text[0]) then TrimStart(text[1..]) else text
  }

  /** First position from `start` that satisfies neither of the inline blanks. */
  function InlineWhitespaceEnd(input: string, start: nat): (end: nat)
    ensures start <= end && (start <= |input| ==> end <= |input|)
    ensures forall k :: start <= k < end ==> k < |input| && IsBlank(input[k])
    ensures end < |input| ==> !IsBlank(input[end])
    decreases |input| - start
  {
    if start < |input| && IsBlank(input[start]) then InlineWhitespaceEnd(input, start + 1) else start
  }

  // -------------------------------------------------------------- boundaries

  function QuotedValueBoundary(input: string, index: nat): Boundary {
    if index >= |input| || input[index] in {',', ';', '&', ')', '}', ']'} then Hard
    else if IsLineBreak(input[index]) then Line
    else if IsSpace(input[index]) then Provisional
    else Unsafe
  }

  predicate IsTrustedQuotedValueBoundary(input: string, index: nat) {
    QuotedValueBoundary(input, index) in {Hard, Provisional}
  }

  /** End of the line that begins at `start`. */
  function LineEnd(input: string, start: nat): (end: nat)
    requires start <= |input|
    ensures start <= end <= |input|
    decreases |input| - start
  {
    if start < |input| && !IsLineBreak(input[start]) then LineEnd(input, start + 1) else start
  }

  function BlankAt(text: string): (index: nat)
    ensures index <= |text|
    ensures index < |text| ==> IsBlank(text[index])
  {
    if text == "" || IsBlank(text[0]) then 0 else 1 + BlankAt(text[1..])
  }

  /** Splits at every maximal run of blanks; a trailing run yields a final empty word. */
  function Words(text: string): (words: seq<string>)
    ensures words != []
    decreases |text|
  {
    var blank := BlankAt(text);
    if blank == |text| then [text]
    else [text[..blank]] + Words(text[InlineWhitespaceEnd(text, blank)..])
  }

  predicate StartsIndependentCredentialLine(input: string, index: nat) {
    index < |input| && IsLineBreak(input[index]) &&
    var lineStart := if input[index] == '\r' && index + 1 < |input| && input[index + 1] == '\n' then index + 2 else index + 1;
    var words := Words(Lower(TrimStart(input[lineStart..LineEnd(input, lineStart)])));
    (words[0] == "bearer" && |words| >= 2)
    || (|words| >= 5 && words[0] == "request" && words[1] == "failed" && words[2] == "with" && words[3] == "bearer")
  }

  // ----------------------------------------------------------- specification

  /** A raw value opens with a quote, a serialized one with a backslash and a quote. */
  datatype Opening = Raw(start: nat, quote: char) | Escaped(start: nat, quote: char)

  function ContentStart(opening: Opening): nat {
    if opening.Raw? then opening.start + 1 else opening.start + 2
  }

  predicate OpensAt(input: string, opening: Opening) {
    && IsQuote(opening.quote)
    && ContentStart(opening) <= |input|
    && match opening
       case Raw(start, quote) => input[start] == quote
       case Escaped(start, quote) => input[start] == '\\' && input[start + 1] == quote
  }

  /** Length of the run of backslashes that ends just before `index`, counted from `low` on. */
  function SlashesBefore(input: string, low: nat, index: nat): (n: nat)
    requires index <= |input|
    ensures n <= index
  {
    if index <= low || input[index - 1] != '\\' then 0 else 1 + SlashesBefore(input, low, index - 1)
  }

  /**
    Position `q` holds a closing delimiter: for a raw value the quote after an
    even run of backslashes, for a serialized one the quote after exactly one.
   */
  predicate Closes(input: string, opening: Opening, q: int) {
    && ContentStart(opening) <= q < |input|
    && input[q] == opening.quote
    && match opening
       case Raw(_, _) => SlashesBefore(input, ContentStart(opening), q) % 2 == 0
       case Escaped(_, _) => SlashesBefore(input, ContentStart(opening), q) == 1
  }

  /** A closing delimiter that ends the value whatever follows. */
  predicate Decides(input: string, opening: Opening, q: int) {
    && Closes(input, opening, q)
    && (QuotedValueBoundary(input, q + 1) == Hard || StartsIndependentCredentialLine(input, q + 1))
  }

  /** The first deciding delimiter. */
  ghost predicate DecidedEnd(input: string, opening: Opening, end: int) {
    && Decides(input, opening, end - 1)
    && forall q :: Decides(input, opening, q) ==> end - 1 <= q
  }

  /** No delimiter decides, but the very last one is followed by white space. */
  ghost predicate ProvisionalEnd(input: string, opening: Opening, end: int) {
    && (forall q :: !Decides(input, opening, q))
    && Closes(input, opening, end - 1)
    && QuotedValueBoundary(input, end) == Provisional
    && forall q :: Closes(input, opening, q) ==> q < end
  }

  /** Neither: the value runs to the end of the input. */
  ghost predicate FailsClosed(input: string, opening: Opening, end: int) {
    && (forall q :: !Decides(input, opening, q))
    && end == |input|
    && forall p :: 0 < p ==> !ProvisionalEnd(input, opening, p)
  }

  ghost predicate QuotedEnd(input: string, opening: Opening, end: nat) {
    DecidedEnd(input, opening, end) || ProvisionalEnd(input, opening, end) || FailsClosed(input, opening, end)
  }

  /** The specification leaves no choice. */
  lemma QuotedEndUnique(input: string, opening: Opening, a: nat, b: nat)
    requires QuotedEnd(input, opening, a) && QuotedEnd(input, opening, b)
    ensures a == b
  {
    if ProvisionalEnd(input, opening, a) && ProvisionalEnd(input, opening, b) {
      assert Closes(input, opening, a - 1) && Closes(input, opening, b - 1);
    }
  }

  /** Wherever the value ends, it ends inside the input, after its opening, and never before trailing token bytes. */
  lemma QuotedEndIsBoundary(input: string, opening: Opening, end: nat)
    requires OpensAt(input, opening) && QuotedEnd(input, opening, end)
    ensures opening.start < end <= |input|
    ensures end == |input| || IsTrustedQuotedValueBoundary(input, end) || StartsIndependentCredentialLine(input, end)
    ensures end < |input| ==> Closes(input, opening, end - 1)
  {
  }

  function CredentialEndAfterQuotedDelimiter(input: string, quotedEnd: nat): nat {
    if IsTrustedQuotedValueBoundary(input, quotedEnd) then quotedEnd
    else if StartsIndependentCredentialLine(input, quotedEnd) then quotedEnd
    else |input|
  }

  /** The fail-closed guard after a scanner never has to widen what the scanner returned. */
  lemma DelimiterGuardAgrees(input: string, opening: Opening, end: nat)
    requires OpensAt(input, opening) && QuotedEnd(input, opening, end)
    ensures CredentialEndAfterQuotedDelimiter(input, end) == end
  {
    QuotedEndIsBoundary(input, opening, end);
  }

  // ---------------------------------------------------------------- scanners

  /** What the loops have learnt of the delimiters before `bound`; `last` is the latest of them, or -1. */
  ghost predicate Scanned(input: string, opening: Opening, bound: int, last: int, provisionalEnd: Option<nat>, unsafeAfter: bool) {
    && (forall q :: q < bound ==> !Decides(input, opening, q))
    && (forall q :: last < q < bound ==> !Closes(input, opening, q))
    && (last == -1 || (last < bound && Closes(input, opening, last)))
    && ((provisionalEnd.Some? && !unsafeAfter) <==> (last >= 0 && QuotedValueBoundary(input, last + 1) == Provisional))
    && (provisionalEnd.Some? && !unsafeAfter ==> provisionalEnd.value == last + 1)
  }

  lemma ScannedToTheEnd(input: string, opening: Opening, last: int, provisionalEnd: Option<nat>, unsafeAfter: bool)
    requires Scanned(input, opening, |input|, last, provisionalEnd, unsafeAfter)
    ensures QuotedEnd(input, opening, if provisionalEnd.Some? && !unsafeAfter then provisionalEnd.value else |input|)
  {
    assert forall q :: Closes(input, opening, q) ==> q <= last;
    if provisionalEnd.Some? && !unsafeAfter {
      assert ProvisionalEnd(input, opening, last + 1);
    }
  }

  /** One delimiter seen: either it decides, or it is the new latest one. */
  method ClassifyDelimiter(input: string, ghost opening: Opening, candidateEnd: nat, provisionalEnd: Option<nat>,
                           unsafeAfter: bool, ghost last: int)
    returns (decided: bool, nextProvisionalEnd: Option<nat>, nextUnsafeAfter: bool)
    requires candidateEnd > 0 && Closes(input, opening, candidateEnd - 1)
    requires Scanned(input, opening, candidateEnd - 1, last, provisionalEnd, unsafeAfter)
    ensures decided ==> QuotedEnd(input, opening, candidateEnd)
    ensures !decided ==>
      Scanned(input, opening, candidateEnd, candidateEnd - 1, nextProvisionalEnd, nextUnsafeAfter)
  {
    nextProvisionalEnd, nextUnsafeAfter := provisionalEnd, unsafeAfter;
    decided := false;
    var boundary := QuotedValueBoundary(input, candidateEnd);
    if boundary == Hard {
      assert Decides(input, opening, candidateEnd - 1);
      decided := true;
    } else if boundary == Provisional {
      nextProvisionalEnd, nextUnsafeAfter := Some(candidateEnd), false;
    } else if boundary == Line && StartsIndependentCredentialLine(input, candidateEnd) {
      assert Decides(input, opening, candidateEnd - 1);
      decided := true;
    } else {
      if boundary == Line {
        nextProvisionalEnd := None;
      }
      nextUnsafeAfter := true;
    }
  }

  /** Scans a raw quoted value; a backslash escapes the character after it. */
  method RawQuotedValueEnd(input: string, start: nat, quote: char) returns (valueEnd: nat)
    requires OpensAt(input, Raw(start, quote))
    ensures QuotedEnd(input, Raw(start, quote), valueEnd)
  {
    ghost var opening := Raw(start, quote);
    ghost var last := -1;
    var end := |input|;
    var provisionalEnd: Option<nat> := None;
    var unsafeAfterProvisional := false;
    var index := start + 1;
    while index < end
      invariant start + 1 <= index <= end + 1
      invariant index <= end ==> SlashesBefore(input, start + 1, index) % 2 == 0
      invariant Scanned(input, opening, if index <= end then index else end, last, provisionalEnd, unsafeAfterProvisional)
    {
      if input[index] == '\\' {
        ScannedFurther(input, opening, index, if index + 2 <= end then index + 2 else end, last, provisionalEnd, unsafeAfterProvisional);
        index := index + 2;
        continue;
      }
      if input[index] == quote {
        var decided, nextEnd, nextUnsafe :=
          ClassifyDelimiter(input, opening, index + 1, provisionalEnd, unsafeAfterProvisional, last);
        if decided {
          return index + 1;
        }
        provisionalEnd, unsafeAfterProvisional, last := nextEnd, nextUnsafe, index;
      } else {
        ScannedFurther(input, opening, index, index + 1, last, provisionalEnd, unsafeAfterProvisional);
      }
      index := index + 1;
    }
    ScannedToTheEnd(input, opening, last, provisionalEnd, unsafeAfterProvisional);
    valueEnd := if provisionalEnd.Some? && !unsafeAfterProvisional then provisionalEnd.value else end;
  }

  /** A run of backslashes that starts afresh is counted from its first one. */
  lemma {:induction false} RunOfSlashes(input: string, low: nat, index: nat, after: nat)
    requires low <= index <= after <= |input| && SlashesBefore(input, low, index) == 0
    requires forall q :: index <= q < after ==> input[q] == '\\'
    ensures SlashesBefore(input, low, after) == after - index
  {
    if index < after {
      RunOfSlashes(input, low, index, after - 1);
    }
  }

  /** Positions that close nothing may be passed over. */
  lemma ScannedFurther(input: string, opening: Opening, bound: int, further: int, last: int,
                       provisionalEnd: Option<nat>, unsafeAfter: bool)
    requires Scanned(input, opening, bound, last, provisionalEnd, unsafeAfter) && bound <= further
    requires forall q :: bound <= q < further ==> !Closes(input, opening, q)
    ensures Scanned(input, opening, further, last, provisionalEnd, unsafeAfter)
  {
  }

  /** Scans a serialized quoted value; only a quote behind exactly one backslash is the outer delimiter. */
  method EscapedQuotedValueEnd(input: string, start: nat, quote: char) returns (valueEnd: nat)
    requires OpensAt(input, Escaped(start, quote))
    ensures QuotedEnd(input, Escaped(start, quote), valueEnd)
  {
    ghost var opening := Escaped(start, quote);
    ghost var low := start + 2;
    ghost var last := -1;
    var end := |input|;
    var provisionalEnd: Option<nat> := None;
    var unsafeAfterProvisional := false;
    var index := start + 2;
    while index < end
      invariant low <= index <= end
      invariant index < end ==>
        SlashesBefore(input, low, index) == 0 || (input[index] != '\\' && input[index] != quote)
      invariant Scanned(input, opening, index, last, provisionalEnd, unsafeAfterProvisional)
    {
      if input[index] != '\\' {
        ScannedFurther(input, opening, index, index + 1, last, provisionalEnd, unsafeAfterProvisional);
        index := index + 1;
        continue;
      }
      var afterSlashes := index + 1;
      while afterSlashes < end && input[afterSlashes] == '\\'
        invariant index < afterSlashes <= end
        invariant forall q :: index <= q < afterSlashes ==> input[q] == '\\'
      {
        afterSlashes := afterSlashes + 1;
      }
      RunOfSlashes(input, low, index, afterSlashes);
      ScannedFurther(input, opening, index, afterSlashes, last, provisionalEnd, unsafeAfterProvisional);
      if afterSlashes >= end || input[afterSlashes] != quote {
        index := afterSlashes;
        continue;
      }
      if afterSlashes - index == 1 {
        var decided, nextEnd, nextUnsafe :=
          ClassifyDelimiter(input, opening, afterSlashes + 1, provisionalEnd, unsafeAfterProvisional, last);
        if decided {
          return afterSlashes + 1;
        }
        provisionalEnd, unsafeAfterProvisional, last := nextEnd, nextUnsafe, afterSlashes;
      } else {
        ScannedFurther(input, opening, afterSlashes, afterSlashes + 1, last, provisionalEnd, unsafeAfterProvisional);
      }
      index := afterSlashes + 1;
    }
    ScannedToTheEnd(input, opening, last, provisionalEnd, unsafeAfterProvisional);
    valueEnd := if provisionalEnd.Some? && !unsafeAfterProvisional then provisionalEnd.value else end;
  }

  function EscapedQuoteAt(input: string, index: nat): Option<char> {
    if index + 1 < |input| && input[index] == '\\' && IsQuote(input[index + 1]) then Some(input[index + 1]) else None
  }
}
