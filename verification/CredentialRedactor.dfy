/**
  The two credential passes of server/src/redaction.ts: one over
  Authorization labels, one over standalone Bearer words.

  Each pass finds ranges from left to right and replaces them.  `Weave` tells
  what a replacement of ranges is without any scanning: the text between the
  ranges, in order, with one given text for each range.
 */
module CredentialRedactor {
  import opened QuoteScanner

  const REDACTED := "***REDACTED***"

  /** A range to replace; it may be empty, as for the word Bearer before a comma. */
  datatype Range = Range(start: nat, end: nat, replacement: string)

  // ----------------------------------------------------------------- weaving

  function LastEnd(ranges: seq<Range>): nat {
    if ranges == [] then 0 else ranges[|ranges| - 1].end
  }

  /** Accepted ranges are in bounds, increasing and disjoint. */
  ghost predicate Ordered(input: string, ranges: seq<Range>) {
    && (forall i :: 0 <= i < |ranges| ==> ranges[i].start <= ranges[i].end <= |input|)
    && (forall i :: 0 < i < |ranges| ==> ranges[i - 1].end <= ranges[i].start)
  }

  /** The input up to the last range, with `texts[i]` in the place of range `i`. */
  function WeaveUpTo(input: string, ranges: seq<Range>, texts: seq<string>): string
    requires |texts| == |ranges| && Ordered(input, ranges)
  {
    if ranges == [] then ""
    else
      var n := |ranges| - 1;
      WeaveUpTo(input, ranges[..n], texts[..n]) + input[LastEnd(ranges[..n])..ranges[n].start] + texts[n]
  }

  function Weave(input: string, ranges: seq<Range>, texts: seq<string>): string
    requires |texts| == |ranges| && Ordered(input, ranges)
  {
    WeaveUpTo(input, ranges, texts) + input[LastEnd(ranges)..]
  }

  function Replacements(ranges: seq<Range>): (texts: seq<string>)
    ensures |texts| == |ranges|
  {
    seq(|ranges|, i requires 0 <= i < |ranges| => ranges[i].replacement)
  }

  /** What the ranges held before. */
  function Originals(input: string, ranges: seq<Range>): (texts: seq<string>)
    requires Ordered(input, ranges)
    ensures |texts| == |ranges|
  {
    seq(|ranges|, i requires 0 <= i < |ranges| => input[ranges[i].start..ranges[i].end])
  }

  lemma CutAt(input: string, a: nat, b: nat)
    requires a <= b <= |input|
    ensures input[..a] + input[a..b] == input[..b]
  {
  }

  lemma OriginalsOfFront(input: string, ranges: seq<Range>, n: nat)
    requires Ordered(input, ranges) && n + 1 == |ranges|
    ensures Ordered(input, ranges[..n]) && LastEnd(ranges[..n]) <= ranges[n].start
    ensures Originals(input, ranges)[..n] == Originals(input, ranges[..n])
  {
  }

  lemma {:induction false} WeaveUpToOriginals(input: string, ranges: seq<Range>)
    requires Ordered(input, ranges)
    ensures LastEnd(ranges) <= |input|
    ensures WeaveUpTo(input, ranges, Originals(input, ranges)) == input[..LastEnd(ranges)]
  {
    if ranges != [] {
      var n := |ranges| - 1;
      OriginalsOfFront(input, ranges, n);
      WeaveUpToOriginals(input, ranges[..n]);
      CutAt(input, LastEnd(ranges[..n]), ranges[n].start);
      CutAt(input, ranges[n].start, ranges[n].end);
    }
  }

  /** Putting the original texts back restores the input: a pass loses nothing but what it replaced, and moves nothing. */
  lemma WeaveOriginals(input: string, ranges: seq<Range>)
    requires Ordered(input, ranges)
    ensures Weave(input, ranges, Originals(input, ranges)) == input
  {
    WeaveUpToOriginals(input, ranges);
    assert input[..LastEnd(ranges)] + input[LastEnd(ranges)..] == input;
  }

  /** The output is the input with exactly these ranges replaced; all other text is kept, in order. */
  ghost predicate Spliced(input: string, ranges: seq<Range>, output: string) {
    && Ordered(input, ranges)
    && output == Weave(input, ranges, Replacements(ranges))
    && Weave(input, ranges, Originals(input, ranges)) == input
  }

  function Concat(parts: seq<string>): string
  {
    if parts == [] then "" else Concat(parts[..|parts| - 1]) + parts[|parts| - 1]
  }

  lemma ConcatTwo(parts: seq<string>, a: string, b: string)
    ensures Concat(parts + [a, b]) == Concat(parts) + a + b
  {
    var all := parts + [a, b];
    assert all[..|all| - 1] == parts + [a];
    assert (parts + [a])[..|parts|] == parts;
    assert all[|all| - 1] == b;
  }

  ghost predicate Assembled(input: string, ranges: seq<Range>, parts: seq<string>, copiedThrough: nat) {
    && Ordered(input, ranges) && copiedThrough == LastEnd(ranges)
    && Concat(parts) == WeaveUpTo(input, ranges, Replacements(ranges))
  }

  lemma OrderedSnoc(input: string, ranges: seq<Range>, range: Range)
    requires Ordered(input, ranges) && LastEnd(ranges) <= range.start <= range.end <= |input|
    ensures Ordered(input, ranges + [range]) && LastEnd(ranges + [range]) == range.end
  {
    var next := ranges + [range];
    forall i | 0 < i < |next| ensures next[i - 1].end <= next[i].start {
      if i == |ranges| {
        assert next[i - 1] == ranges[|ranges| - 1];
      }
    }
  }

  lemma WeaveSnoc(input: string, ranges: seq<Range>, range: Range)
    requires Ordered(input, ranges) && LastEnd(ranges) <= range.start <= range.end <= |input|
    requires Ordered(input, ranges + [range])
    ensures WeaveUpTo(input, ranges + [range], Replacements(ranges + [range])) ==
      WeaveUpTo(input, ranges, Replacements(ranges)) + input[LastEnd(ranges)..range.start] + range.replacement
  {
    var next := ranges + [range];
    assert next[..|ranges|] == ranges;
    ReplacementsSnoc(ranges, range);
    assert Replacements(next)[..|ranges|] == Replacements(ranges);
    WeaveStep(input, next, Replacements(next), ranges, Replacements(ranges));
  }

  lemma ReplacementsSnoc(ranges: seq<Range>, range: Range)
    ensures Replacements(ranges + [range]) == Replacements(ranges) + [range.replacement]
  {
  }

  lemma WeaveStep(input: string, ranges: seq<Range>, texts: seq<string>, front: seq<Range>, frontTexts: seq<string>)
    requires |texts| == |ranges| > 0 && Ordered(input, ranges)
    requires front == ranges[..|ranges| - 1] && frontTexts == texts[..|ranges| - 1] && Ordered(input, front)
    ensures LastEnd(front) <= ranges[|ranges| - 1].start
    ensures WeaveUpTo(input, ranges, texts) == WeaveUpTo(input, front, frontTexts)
      + input[LastEnd(front)..ranges[|ranges| - 1].start] + texts[|ranges| - 1]
  {
  }

  lemma AssembleOne(input: string, ranges: seq<Range>, parts: seq<string>, copiedThrough: nat, range: Range)
    requires Assembled(input, ranges, parts, copiedThrough)
    requires copiedThrough <= range.start <= range.end <= |input|
    ensures Assembled(input, ranges + [range], parts + [input[copiedThrough..range.start], range.replacement], range.end)
  {
    ConcatTwo(parts, input[copiedThrough..range.start], range.replacement);
    OrderedSnoc(input, ranges, range);
    WeaveSnoc(input, ranges, range);
  }

  // ----------------------------------------------------------------- regexes

  predicate WordAt(input: string, index: int) {
    0 <= index < |input| && IsWordChar(input[index])
  }

  /** The zero-width boundary between a word character and anything else. */
  predicate WordBoundary(input: string, index: int) {
    WordAt(input, index - 1) != WordAt(input, index)
  }

  predicate MatchesWord(input: string, index: int, lowerWord: string) {
    0 <= index && index + |lowerWord| <= |input| && Lower(input[index..index + |lowerWord|]) == lowerWord
    && WordBoundary(input, index + |lowerWord|)
  }

  /** Length of the scheme name a value begins with, in any case and as a whole word; none for another value. */
  function SchemeLength(input: string, index: nat): (length: nat)
    ensures index + length <= |input| || length == 0
  {
    if MatchesWord(input, index, "bearer") then 6 else if MatchesWord(input, index, "basic") then 5 else 0
  }

  // ------------------------------------------------------------------ ranges

  predicate EndsToken(c: char) {
    IsSpace(c) || c in {',', ';', '}', ']'}
  }

  /** An unquoted credential runs to the next structural or white space character. */
  predicate TokenEnd(input: string, start: nat, end: nat) {
    && start <= end <= |input|
    && (forall k :: start <= k < end ==> !EndsToken(input[k]))
    && (end < |input| ==> EndsToken(input[end]))
  }

  method FindTokenEnd(input: string, start: nat) returns (end: nat)
    requires start <= |input|
    ensures TokenEnd(input, start, end)
  {
    end := start;
    while end < |input| && !EndsToken(input[end])
      invariant start <= end <= |input|
      invariant forall k :: start <= k < end ==> !EndsToken(input[k])
    {
      end := end + 1;
    }
  }

  /** The opening delimiter at a position, if there is one. */
  function OpeningAt(input: string, index: nat): (o: Option<Opening>)
    ensures o.Some? ==> OpensAt(input, o.value) && o.value.start == index
  {
    if index < |input| && IsQuote(input[index]) then Some(Raw(index, input[index]))
    else if EscapedQuoteAt(input, index).Some? then Some(Escaped(index, EscapedQuoteAt(input, index).value))
    else None
  }

  function Delimiter(opening: Opening): string {
    if opening.Raw? then [opening.quote] else ['\\', opening.quote]
  }

  /** Where the credential that begins at `start` ends: at its closing quote, or at the end of its token. */
  ghost predicate CredentialEnd(input: string, start: nat, end: nat) {
    var opening := OpeningAt(input, start);
    if opening.Some? then QuotedEnd(input, opening.value, end) else TokenEnd(input, start, end)
  }

  lemma CredentialEndUnique(input: string, start: nat, a: nat, b: nat)
    requires CredentialEnd(input, start, a) && CredentialEnd(input, start, b)
    ensures a == b
  {
    var opening := OpeningAt(input, start);
    if opening.Some? {
      QuotedEndUnique(input, opening.value, a, b);
    }
  }

  method ScanQuoted(input: string, opening: Opening) returns (end: nat)
    requires OpensAt(input, opening)
    ensures QuotedEnd(input, opening, end) && opening.start < end <= |input|
  {
    match opening {
      case Raw(start, quote) => end := RawQuotedValueEnd(input, start, quote);
      case Escaped(start, quote) => end := EscapedQuotedValueEnd(input, start, quote);
    }
    QuotedEndIsBoundary(input, opening, end);
  }

  method ScanCredential(input: string, start: nat) returns (end: nat)
    requires start < |input|
    ensures CredentialEnd(input, start, end) && start <= end <= |input|
  {
    var opening := OpeningAt(input, start);
    if opening.Some? {
      var quotedEnd := ScanQuoted(input, opening.value);
      DelimiterGuardAgrees(input, opening.value, quotedEnd);
      end := CredentialEndAfterQuotedDelimiter(input, quotedEnd);
    } else {
      end := FindTokenEnd(input, start);
    }
  }

  // ------------------------------------------------------ authorization pass

  /** Where the value of an Authorization label begins: past a closing key quote, blanks and one colon or equals sign. */
  function ValueStart(input: string, wordEnd: nat): (start: nat)
    requires wordEnd <= |input|
    ensures wordEnd <= start <= |input|
  {
    var keyQuoteWidth :=
      if wordEnd < |input| && IsQuote(input[wordEnd]) then 1 else if EscapedQuoteAt(input, wordEnd).Some? then 2 else 0;
    var possibleColon := InlineWhitespaceEnd(input, wordEnd + keyQuoteWidth);
    var afterKey := if keyQuoteWidth > 0 && possibleColon < |input| && input[possibleColon] == ':' then possibleColon else wordEnd;
    var separator := InlineWhitespaceEnd(input, afterKey);
    if separator < |input| && input[separator] in {':', '='} then InlineWhitespaceEnd(input, separator + 1) else separator
  }

  /** The inside of a quoted value, as the scheme test sees it. */
  function QuotedContent(input: string, opening: Opening, end: nat): string
    requires opening.start < end <= |input|
  {
    var from, to := ContentStart(opening), end - (ContentStart(opening) - opening.start);
    if from <= to then TrimStart(input[from..to]) else ""
  }

  /**
    What an Authorization value at `start` is replaced by, if it is a Basic or
    Bearer credential: the whole quoted value when its content names a scheme,
    or the scheme word with the credential after it.
   */
  ghost predicate AuthorizationValue(input: string, start: nat, range: Range) {
    var opening := OpeningAt(input, start);
    && range.start == start <= |input|
    && if opening.Some? then
        && QuotedEnd(input, opening.value, range.end) && start < range.end <= |input|
        && SchemeLength(QuotedContent(input, opening.value, range.end), 0) > 0
        && range.replacement == Delimiter(opening.value) + REDACTED + Delimiter(opening.value)
      else
        && SchemeLength(input, start) > 0
        && var afterScheme := start + SchemeLength(input, start);
           var credential := InlineWhitespaceEnd(input, afterScheme);
        && afterScheme < credential < |input| && !IsLineBreak(input[credential])
        && CredentialEnd(input, credential, range.end) && range.end <= |input| && start < range.end
        && range.replacement == REDACTED
  }

  method AuthorizationCredentialRange(input: string, wordEnd: nat) returns (range: Option<Range>)
    requires wordEnd <= |input|
    ensures range.Some? ==> AuthorizationValue(input, ValueStart(input, wordEnd), range.value)
    ensures range.None? ==> forall r: Range :: !AuthorizationValue(input, ValueStart(input, wordEnd), r)
  {
    var start := ValueStart(input, wordEnd);
    var opening := OpeningAt(input, start);
    if opening.Some? {
      var quotedEnd := ScanQuoted(input, opening.value);
      if SchemeLength(QuotedContent(input, opening.value, quotedEnd), 0) == 0 {
        forall r: Range ensures !AuthorizationValue(input, start, r) {
          if QuotedEnd(input, opening.value, r.end) {
            QuotedEndUnique(input, opening.value, r.end, quotedEnd);
          }
        }
        return None;
      }
      DelimiterGuardAgrees(input, opening.value, quotedEnd);
      var delimiter := Delimiter(opening.value);
      return Some(Range(start, CredentialEndAfterQuotedDelimiter(input, quotedEnd), delimiter + REDACTED + delimiter));
    }
    var scheme := SchemeLength(input, start);
    if scheme == 0 {
      return None;
    }
    var credential := InlineWhitespaceEnd(input, start + scheme);
    if credential == start + scheme || credential >= |input| || IsLineBreak(input[credential]) {
      return None;
    }
    var end := ScanCredential(input, credential);
    range := Some(Range(start, end, REDACTED));
  }

  lemma AuthorizationValueUnique(input: string, start: nat, a: Range, b: Range)
    requires AuthorizationValue(input, start, a) && AuthorizationValue(input, start, b)
    ensures a == b
  {
    var opening := OpeningAt(input, start);
    if opening.Some? {
      QuotedEndUnique(input, opening.value, a.end, b.end);
    } else {
      CredentialEndUnique(input, InlineWhitespaceEnd(input, start + SchemeLength(input, start)), a.end, b.end);
    }
  }

  /** The value after this label holds a credential that no earlier range has taken. */
  ghost predicate Takes(input: string, wordEnd: nat, copiedThrough: nat, range: Range)
    requires wordEnd <= |input|
  {
    AuthorizationValue(input, ValueStart(input, wordEnd), range) && copiedThrough <= range.start
  }

  // Labels: words that contain "authorization" in any case, and may go on with
  // letters, digits, underscores and hyphens on both sides.

  predicate LabelChar(input: string, index: int) {
    WordAt(input, index) || (0 <= index < |input| && input[index] == '-')
  }

  /** The end of the last word character in the run of label characters that goes on at `index`; `index` itself if there is none. */
  function RunTail(input: string, index: nat): (end: nat)
    ensures index <= end && (index <= |input| ==> end <= |input|)
    decreases |input| - index
  {
    if !LabelChar(input, index) then index
    else
      var tail := RunTail(input, index + 1);
      if tail > index + 1 || WordAt(input, index) then tail else index
  }

  predicate NameAt(input: string, index: nat) {
    index + 13 <= |input| && Lower(input[index..index + 13]) == "authorization"
  }

  predicate Mentions(input: string, from: nat, to: nat) {
    exists p: nat :: from <= p <= to - 13 && NameAt(input, p)
  }

  /** The end of the label that begins here, if one does: a word boundary, and the name somewhere in the rest of the run. */
  function LabelAt(input: string, index: nat): (end: Option<nat>)
    ensures end.Some? ==> index < end.value <= |input|
  {
    if WordBoundary(input, index) && Mentions(input, index, RunTail(input, index)) then Some(RunTail(input, index)) else None
  }

  /** The beginning of the first label from a position on. */
  function FirstLabel(input: string, from: nat): (index: Option<nat>)
    ensures index.Some? ==> from <= index.value && LabelAt(input, index.value).Some?
    decreases |input| - from
  {
    if from >= |input| then None else if LabelAt(input, from).Some? then Some(from) else FirstLabel(input, from + 1)
  }

  /** The end of the first label from a position on. */
  function NextLabel(input: string, from: nat): (wordEnd: Option<nat>)
    ensures wordEnd.Some? ==> from < wordEnd.value <= |input|
  {
    var index := FirstLabel(input, from);
    if index.Some? then LabelAt(input, index.value) else None
  }

  /** The search of the label pattern from a position on. */
  method FindLabel(input: string, from: nat) returns (wordEnd: Option<nat>)
    requires from <= |input|
    ensures wordEnd == NextLabel(input, from)
  {
    var i := from;
    while i < |input|
      invariant from <= i <= |input|
      invariant FirstLabel(input, from) == FirstLabel(input, i)
    {
      wordEnd := LabelAt(input, i);
      if wordEnd.Some? {
        return;
      }
      i := i + 1;
    }
    wordEnd := None;
  }

  ghost function TakenAt(input: string, wordEnd: nat, copiedThrough: nat): (taken: Option<Range>)
    requires wordEnd <= |input|
    ensures taken.Some? ==> Takes(input, wordEnd, copiedThrough, taken.value) && wordEnd < taken.value.end <= |input|
  {
    if exists range :: Takes(input, wordEnd, copiedThrough, range) then
      var range :| Takes(input, wordEnd, copiedThrough, range);
      Some(range)
    else None
  }

  /**
    The ranges to replace from a position on: at each label in turn the
    credential of its value, unless there is none or an earlier range took it.
   */
  ghost function AuthorizationRanges(input: string, lastIndex: nat, copiedThrough: nat): seq<Range>
    decreases |input| - lastIndex
  {
    var word := NextLabel(input, lastIndex);
    if word.None? then []
    else
      var taken := TakenAt(input, word.value, copiedThrough);
      if taken.None? then AuthorizationRanges(input, word.value, copiedThrough)
      else [taken.value] + AuthorizationRanges(input, taken.value.end, taken.value.end)
  }

  /** What the code finds at a label is what there is to take. */
  lemma TakenIs(input: string, wordEnd: nat, copiedThrough: nat, range: Option<Range>)
    requires wordEnd <= |input|
    requires range.Some? ==> AuthorizationValue(input, ValueStart(input, wordEnd), range.value)
    requires range.None? ==> forall r: Range :: !AuthorizationValue(input, ValueStart(input, wordEnd), r)
    ensures TakenAt(input, wordEnd, copiedThrough) ==
      if range.Some? && copiedThrough <= range.value.start then range else None
  {
    var taken := TakenAt(input, wordEnd, copiedThrough);
    if range.Some? && copiedThrough <= range.value.start {
      assert Takes(input, wordEnd, copiedThrough, range.value);
    }
    if taken.Some? && range.Some? {
      AuthorizationValueUnique(input, ValueStart(input, wordEnd), taken.value, range.value);
    }
  }

  lemma Shift(ranges: seq<Range>, range: Range, rest: seq<Range>)
    ensures ranges + ([range] + rest) == ranges + [range] + rest
  {
  }

  /** A label begins here, and its value is a Basic or Bearer credential. */
  ghost predicate LabelsCredential(input: string, index: nat) {
    LabelAt(input, index).Some? && exists r :: AuthorizationValue(input, ValueStart(input, LabelAt(input, index).value), r)
  }

  /** The credential was replaced, or the label stands inside a replaced one. */
  ghost predicate LabelHandled(input: string, ranges: seq<Range>, index: nat)
    requires LabelAt(input, index).Some?
  {
    exists r :: r in ranges
      && (AuthorizationValue(input, ValueStart(input, LabelAt(input, index).value), r) || r.start <= index < r.end)
  }

  /**
    Replaces the credentials of the Authorization values, and nothing else; no
    label whose value is one is passed over.
   */
  method RedactAuthorizationCredentials(input: string) returns (output: string)
    ensures Spliced(input, AuthorizationRanges(input, 0, 0), output)
    ensures forall index: nat :: LabelsCredential(input, index) ==> LabelHandled(input, AuthorizationRanges(input, 0, 0), index)
  {
    ghost var list := AuthorizationRanges(input, 0, 0);
    ghost var ranges: seq<Range> := [];
    var parts: seq<string> := [];
    var copiedThrough: nat := 0;
    var lastIndex: nat := 0;
    var match' := FindLabel(input, lastIndex);
    while match'.Some?
      invariant copiedThrough <= lastIndex <= |input|
      invariant match' == NextLabel(input, lastIndex)
      invariant Assembled(input, ranges, parts, copiedThrough)
      invariant ranges + AuthorizationRanges(input, lastIndex, copiedThrough) == list
      invariant copiedThrough == 0 <==> ranges == []
      decreases |input| - lastIndex
    {
      var wordEnd := match'.value;
      var range := AuthorizationCredentialRange(input, wordEnd);
      TakenIs(input, wordEnd, copiedThrough, range);
      if range.None? || range.value.start < copiedThrough {
        lastIndex := wordEnd;
      } else {
        var r := range.value;
        AssembleOne(input, ranges, parts, copiedThrough, r);
        Shift(ranges, r, AuthorizationRanges(input, r.end, r.end));
        parts := parts + [input[copiedThrough..r.start], r.replacement];
        ranges := ranges + [r];
        copiedThrough := r.end;
        lastIndex := r.end;
      }
      match' := FindLabel(input, lastIndex);
    }
    WeaveOriginals(input, ranges);
    assert ranges + [] == ranges;
    AllLabelsHandled(input, list);
    output := if copiedThrough == 0 then input else Concat(parts) + input[copiedThrough..];
  }

  /** Labels that overlap end together. */
  lemma {:induction false} RunTailFrom(input: string, index: nat, later: nat)
    requires index <= later < RunTail(input, index)
    ensures RunTail(input, later) == RunTail(input, index)
    decreases later
  {
    if index < later {
      RunTailFrom(input, index, later - 1);
    }
  }

  /** Between a label and its value stand quotes, blanks and a separator. */
  lemma NoLabelCharBeforeValue(input: string, wordEnd: nat, index: nat)
    requires wordEnd <= |input| && wordEnd <= index < ValueStart(input, wordEnd)
    ensures !LabelChar(input, index)
  {
  }

  lemma NoLabelWithoutChar(input: string, index: nat)
    requires !LabelChar(input, index)
    ensures LabelAt(input, index) == None
  {
    assert RunTail(input, index) == index;
  }

  lemma BeginsAtValue(input: string, start: nat, range: Range)
    requires AuthorizationValue(input, start, range)
    ensures range.start == start
  {
  }

  lemma {:induction false} FirstLabelIsFirst(input: string, from: nat, index: nat)
    requires from <= index && LabelAt(input, index).Some?
    ensures FirstLabel(input, from).Some? && FirstLabel(input, from).value <= index
    decreases |input| - from
  {
    if LabelAt(input, from).None? {
      FirstLabelIsFirst(input, from + 1, index);
    }
  }

  /** Each label from `lastIndex` on whose value is a credential is handled by the rest of the pass. */
  lemma {:induction false} NoLabelPassedOver(input: string, lastIndex: nat, copiedThrough: nat, index: nat)
    requires copiedThrough <= lastIndex <= index && LabelsCredential(input, index)
    ensures LabelHandled(input, AuthorizationRanges(input, lastIndex, copiedThrough), index)
    decreases |input| - lastIndex
  {
    FirstLabelIsFirst(input, lastIndex, index);
    var first := FirstLabel(input, lastIndex).value;
    var wordEnd := LabelAt(input, first).value;
    var taken := TakenAt(input, wordEnd, copiedThrough);
    var value :| AuthorizationValue(input, ValueStart(input, LabelAt(input, index).value), value);
    if index < wordEnd {
      RunTailFrom(input, first, index);
      assert Takes(input, wordEnd, copiedThrough, value);
      assert taken.value in AuthorizationRanges(input, lastIndex, copiedThrough);
    } else if taken.None? {
      NoLabelPassedOver(input, wordEnd, copiedThrough, index);
    } else {
      assert taken.value in AuthorizationRanges(input, lastIndex, copiedThrough);
      BeginsAtValue(input, ValueStart(input, wordEnd), taken.value);
      if index < taken.value.start {
        NoLabelCharBeforeValue(input, wordEnd, index);
        NoLabelWithoutChar(input, index);
      } else if index >= taken.value.end {
        NoLabelPassedOver(input, taken.value.end, taken.value.end, index);
        var rest := AuthorizationRanges(input, taken.value.end, taken.value.end);
        assert forall r :: r in rest ==> r in [taken.value] + rest;
      }
    }
  }

  lemma AllLabelsHandled(input: string, list: seq<Range>)
    requires list == AuthorizationRanges(input, 0, 0)
    ensures forall index: nat :: LabelsCredential(input, index) ==> LabelHandled(input, list, index)
  {
    forall index: nat | LabelsCredential(input, index) ensures LabelHandled(input, list, index) {
      NoLabelPassedOver(input, 0, 0, index);
    }
  }

  // ------------------------------------------------------------- bearer pass

  predicate BearerWord(input: string, index: int) {
    MatchesWord(input, index, "bearer") && WordBoundary(input, index)
  }

  lemma BearerWordChars(input: string, index: nat)
    requires BearerWord(input, index)
    ensures forall k :: index <= k < index + 6 ==> WordAt(input, k)
  {
    var word := input[index..index + 6];
    LowerAt(word);
    assert forall k :: 0 <= k < 6 ==> 'a' <= Lower(word)[k] <= 'z';
    assert forall k :: index <= k < index + 6 ==> input[k] == word[k - index];
  }

  /** Two such words never overlap. */
  lemma BearerWordsApart(input: string, a: nat, b: nat)
    requires BearerWord(input, a) && BearerWord(input, b) && a < b
    ensures a + 6 <= b
  {
    BearerWordChars(input, a);
    assert WordAt(input, b - 1) != WordAt(input, b);
  }

  lemma {:induction false} LowerAt(text: string)
    ensures forall k :: 0 <= k < |text| ==> Lower(text)[k] == LowerChar(text[k])
  {
    if text != "" {
      LowerAt(text[1..]);
    }
  }

  /** `to` is the first Bearer word from `from` on, or the end of the input. */
  ghost predicate NextFrom(input: string, from: nat, to: nat) {
    from <= to && forall k: nat :: from <= k < to ==> !BearerWord(input, k)
  }

  /** The first Bearer word from a position on, if there is one. */
  function FirstBearer(input: string, from: nat): (index: Option<nat>)
    ensures index.Some? ==> from <= index.value && BearerWord(input, index.value)
    decreases |input| - from
  {
    if from >= |input| then None else if BearerWord(input, from) then Some(from) else FirstBearer(input, from + 1)
  }

  lemma {:induction false} FirstBearerIsNext(input: string, from: nat)
    requires from <= |input|
    ensures NextFrom(input, from, if FirstBearer(input, from).Some? then FirstBearer(input, from).value else |input|)
    decreases |input| - from
  {
    if from < |input| && !BearerWord(input, from) {
      FirstBearerIsNext(input, from + 1);
    }
  }

  /** The next match of the word from a position on. */
  method FindBearer(input: string, from: nat) returns (index: Option<nat>)
    requires from <= |input|
    ensures index == FirstBearer(input, from)
  {
    var i := from;
    while i < |input|
      invariant from <= i <= |input|
      invariant FirstBearer(input, from) == FirstBearer(input, i)
    {
      if BearerWord(input, i) {
        return Some(i);
      }
      i := i + 1;
    }
    index := None;
  }

  /** The word at `index` is followed by blanks and then by something on the same line. */
  predicate CarriesCredential(input: string, index: nat) {
    BearerWord(input, index) &&
    var credential := InlineWhitespaceEnd(input, index + 6);
    index + 6 < credential < |input| && !IsLineBreak(input[credential])
  }

  ghost predicate BearerRange(input: string, index: nat, range: Range) {
    && CarriesCredential(input, index)
    && range.start == InlineWhitespaceEnd(input, index + 6)
    && CredentialEnd(input, range.start, range.end)
    && var opening := OpeningAt(input, range.start);
       range.replacement ==
        if opening.Some? then Delimiter(opening.value) + REDACTED + Delimiter(opening.value) else REDACTED
  }

  ghost predicate IsBearerRange(input: string, range: Range) {
    exists index: nat :: BearerRange(input, index, range)
  }

  ghost predicate AllBearerRanges(input: string, ranges: seq<Range>) {
    forall i :: 0 <= i < |ranges| ==> IsBearerRange(input, ranges[i])
  }

  /** A Bearer word is handled when its credential was replaced, or when it stands inside a replaced credential. */
  ghost predicate Handled(input: string, ranges: seq<Range>, index: nat) {
    exists r :: r in ranges && (BearerRange(input, index, r) || r.start <= index < r.end)
  }

  /** Credentials of Bearer words and nothing else, and no Bearer word that carries one is passed over. */
  ghost predicate BearerRangesOf(input: string, ranges: seq<Range>) {
    && AllBearerRanges(input, ranges)
    && forall index: nat :: CarriesCredential(input, index) ==> Handled(input, ranges, index)
  }

  /** The range one Bearer word asks for, if a credential follows it. */
  method BearerCredentialRange(input: string, index: nat) returns (range: Option<Range>)
    requires BearerWord(input, index)
    ensures range.Some? <==> CarriesCredential(input, index)
    ensures range.Some? ==> BearerRange(input, index, range.value) && index + 6 < range.value.start <= range.value.end <= |input|
  {
    var credentialStart := InlineWhitespaceEnd(input, index + 6);
    if credentialStart == index + 6 || credentialStart >= |input| || IsLineBreak(input[credentialStart]) {
      return None;
    }
    var opening := OpeningAt(input, credentialStart);
    var end := ScanCredential(input, credentialStart);
    var replacement := if opening.Some? then Delimiter(opening.value) + REDACTED + Delimiter(opening.value) else REDACTED;
    range := Some(Range(credentialStart, end, replacement));
  }

  /** Between a Bearer word and the end of the blanks after it no other one begins. */
  lemma NextBearer(input: string, index: nat)
    requires BearerWord(input, index)
    ensures forall k: nat :: BearerWord(input, k) && index < k ==>
      index + 6 <= k && InlineWhitespaceEnd(input, index + 6) <= k
  {
    var blanks := InlineWhitespaceEnd(input, index + 6);
    forall k: nat | BearerWord(input, k) && index < k ensures index + 6 <= k && blanks <= k {
      BearerWordsApart(input, index, k);
      NoWordInBlanks(input, index + 6, blanks);
    }
  }

  lemma BearerRangeUnique(input: string, index: nat, a: Range, b: Range)
    requires BearerRange(input, index, a) && BearerRange(input, index, b)
    ensures a == b
  {
    CredentialEndUnique(input, a.start, a.end, b.end);
  }

  /** The credential lies past its word and inside the input. */
  ghost predicate BearerTakes(input: string, index: nat, range: Range) {
    BearerRange(input, index, range) && index + 6 < range.start <= range.end <= |input|
  }

  ghost function BearerTakenAt(input: string, index: nat): (taken: Option<Range>)
    ensures taken.Some? ==> BearerTakes(input, index, taken.value)
  {
    if exists range :: BearerTakes(input, index, range) then
      var range :| BearerTakes(input, index, range);
      Some(range)
    else None
  }

  /** The ranges to replace from a position on: at each Bearer word in turn the credential it carries, if any. */
  ghost function BearerRanges(input: string, lastIndex: nat): seq<Range>
    decreases |input| - lastIndex
  {
    var word := FirstBearer(input, lastIndex);
    if word.None? then []
    else
      var taken := BearerTakenAt(input, word.value);
      if taken.None? then BearerRanges(input, word.value + 6)
      else [taken.value] + BearerRanges(input, taken.value.end)
  }

  /** What the code finds at a word is what there is to take. */
  lemma BearerTakenIs(input: string, index: nat, range: Option<Range>)
    requires range.Some? ==> BearerTakes(input, index, range.value)
    requires range.None? ==> !CarriesCredential(input, index)
    ensures BearerTakenAt(input, index) == range
  {
    if range.Some? {
      var taken := BearerTakenAt(input, index);
      assert BearerTakes(input, index, range.value);
      BearerRangeUnique(input, index, taken.value, range.value);
    }
  }

  /** What was taken so far and what the rest of the input calls for make up the list. */
  ghost predicate PartOfList(list: seq<Range>, input: string, ranges: seq<Range>, lastIndex: nat) {
    ranges + BearerRanges(input, lastIndex) == list
  }

  lemma ListSkips(input: string, lastIndex: nat, word: nat)
    requires FirstBearer(input, lastIndex) == Some(word) && BearerTakenAt(input, word) == None
    ensures BearerRanges(input, lastIndex) == BearerRanges(input, word + 6)
  {
  }

  lemma PartSkips(list: seq<Range>, input: string, ranges: seq<Range>, lastIndex: nat, word: nat)
    requires PartOfList(list, input, ranges, lastIndex)
    requires FirstBearer(input, lastIndex) == Some(word) && !CarriesCredential(input, word)
    ensures PartOfList(list, input, ranges, word + 6)
  {
    BearerTakenIs(input, word, None);
    ListSkips(input, lastIndex, word);
  }

  lemma PartTakes(list: seq<Range>, input: string, ranges: seq<Range>, lastIndex: nat, word: nat, range: Range)
    requires PartOfList(list, input, ranges, lastIndex)
    requires FirstBearer(input, lastIndex) == Some(word) && BearerTakes(input, word, range)
    ensures PartOfList(list, input, ranges + [range], range.end)
  {
    BearerTakenIs(input, word, Some(range));
    Shift(ranges, range, BearerRanges(input, range.end));
  }

  /** How far the pass has come: what it has taken, assembled and handled. */
  ghost predicate BearerProgress(input: string, ranges: seq<Range>, parts: seq<string>, copiedThrough: nat, lastIndex: nat) {
    && copiedThrough <= lastIndex <= |input|
    && Assembled(input, ranges, parts, copiedThrough)
    && AllBearerRanges(input, ranges)
    && HandledBelow(input, ranges, lastIndex)
    && (copiedThrough == 0 <==> ranges == [])
  }

  /** The state of the pass between two words: `list` is what the whole pass is to take. */
  ghost predicate Between(list: seq<Range>, input: string, ranges: seq<Range>, parts: seq<string>, copiedThrough: nat, lastIndex: nat) {
    BearerProgress(input, ranges, parts, copiedThrough, lastIndex) && PartOfList(list, input, ranges, lastIndex)
  }

  /** A word without a credential is passed over. */
  lemma BearerSkip(list: seq<Range>, input: string, ranges: seq<Range>, parts: seq<string>, copiedThrough: nat, lastIndex: nat,
                   word: nat)
    ensures
      Between(list, input, ranges, parts, copiedThrough, lastIndex)
      && FirstBearer(input, lastIndex) == Some(word) && !CarriesCredential(input, word)
      ==> lastIndex <= word && word + 6 <= |input| && Between(list, input, ranges, parts, copiedThrough, word + 6)
  {
    if Between(list, input, ranges, parts, copiedThrough, lastIndex)
      && FirstBearer(input, lastIndex) == Some(word) && !CarriesCredential(input, word)
    {
      FirstBearerIsNext(input, lastIndex);
      HandledSkips(input, ranges, lastIndex, word);
      PartSkips(list, input, ranges, lastIndex, word);
    }
  }

  /** The credential of a word is taken; it never begins before what was copied. */
  lemma BearerTake(list: seq<Range>, input: string, ranges: seq<Range>, parts: seq<string>, copiedThrough: nat, lastIndex: nat,
                   word: nat, range: Range)
    ensures
      Between(list, input, ranges, parts, copiedThrough, lastIndex)
      && FirstBearer(input, lastIndex) == Some(word) && BearerTakes(input, word, range)
      ==> copiedThrough <= lastIndex <= word
          && Between(list, input, ranges + [range], parts + [input[copiedThrough..range.start], range.replacement],
                     range.end, range.end)
  {
    if Between(list, input, ranges, parts, copiedThrough, lastIndex)
      && FirstBearer(input, lastIndex) == Some(word) && BearerTakes(input, word, range)
    {
      FirstBearerIsNext(input, lastIndex);
      AssembleOne(input, ranges, parts, copiedThrough, range);
      HandledGrows(input, ranges, range, lastIndex, word);
      PartTakes(list, input, ranges, lastIndex, word, range);
    }
  }

  /** Behind the last word the whole list is taken. */
  lemma BearerEnd(list: seq<Range>, input: string, ranges: seq<Range>, parts: seq<string>, copiedThrough: nat, lastIndex: nat)
    ensures
      Between(list, input, ranges, parts, copiedThrough, lastIndex) && FirstBearer(input, lastIndex).None?
      ==> ranges == list && BearerRangesOf(input, list)
          && Spliced(input, list, if copiedThrough == 0 then input else Concat(parts) + input[copiedThrough..])
  {
    if Between(list, input, ranges, parts, copiedThrough, lastIndex) && FirstBearer(input, lastIndex).None? {
      assert ranges + [] == ranges;
      FirstBearerIsNext(input, lastIndex);
      WeaveOriginals(input, ranges);
    }
  }

  /**
    Replaces the credential after every standalone Bearer word.  The ranges
    are the list the words call for; they are credentials of such words, and no
    such word is passed over.
   */
  method RedactStandaloneBearerCredentials(input: string)
    returns (output: string)
    ensures Spliced(input, BearerRanges(input, 0), output)
    ensures BearerRangesOf(input, BearerRanges(input, 0))
  {
    ghost var list := BearerRanges(input, 0);
    ghost var ranges: seq<Range> := [];
    var parts: seq<string> := [];
    var copiedThrough: nat := 0;
    var lastIndex: nat := 0;
    var match' := FindBearer(input, lastIndex);
    while match'.Some?
      invariant Between(list, input, ranges, parts, copiedThrough, lastIndex)
      invariant match' == FirstBearer(input, lastIndex)
      decreases |input| - lastIndex
    {
      var index := match'.value;
      var found := BearerCredentialRange(input, index);
      if found.Some? {
        BearerTake(list, input, ranges, parts, copiedThrough, lastIndex, index, found.value);
      }
      if found.None? || found.value.start < copiedThrough {
        BearerSkip(list, input, ranges, parts, copiedThrough, lastIndex, index);
        lastIndex := index + 6;
      } else {
        var range := found.value;
        parts := parts + [input[copiedThrough..range.start], range.replacement];
        ranges := ranges + [range];
        copiedThrough := range.end;
        lastIndex := range.end;
      }
      match' := FindBearer(input, lastIndex);
    }
    BearerEnd(list, input, ranges, parts, copiedThrough, lastIndex);
    output := if copiedThrough == 0 then input else Concat(parts) + input[copiedThrough..];
  }

  /** Blanks hold no word. */
  lemma NoWordInBlanks(input: string, from: nat, to: nat)
    requires to <= |input| && forall k :: from <= k < to ==> IsBlank(input[k])
    ensures forall k: nat :: from <= k < to ==> !BearerWord(input, k)
  {
    forall k: nat | BearerWord(input, k) ensures !(from <= k < to) {
      BearerWordChars(input, k);
      assert WordAt(input, k);
    }
  }

  ghost predicate HandledBelow(input: string, ranges: seq<Range>, bound: nat) {
    forall index: nat :: index < bound && CarriesCredential(input, index) ==> Handled(input, ranges, index)
  }

  lemma HandledSkips(input: string, ranges: seq<Range>, lastIndex: nat, word: nat)
    requires HandledBelow(input, ranges, lastIndex) && NextFrom(input, lastIndex, word)
    requires BearerWord(input, word) && !CarriesCredential(input, word)
    ensures HandledBelow(input, ranges, word + 6)
  {
    NextBearer(input, word);
  }

  lemma HandledGrows(input: string, before: seq<Range>, range: Range, lastIndex: nat, word: nat)
    requires HandledBelow(input, before, lastIndex) && NextFrom(input, lastIndex, word)
    requires BearerWord(input, word) && BearerRange(input, word, range)
    requires AllBearerRanges(input, before)
    ensures AllBearerRanges(input, before + [range])
    ensures HandledBelow(input, before + [range], range.end)
  {
    NextBearer(input, word);
    assert IsBearerRange(input, range);
    forall index: nat | index < range.end && CarriesCredential(input, index)
      ensures Handled(input, before + [range], index)
    {
      if index < lastIndex {
        var r :| r in before && (BearerRange(input, index, r) || r.start <= index < r.end);
        assert r in before + [range];
      } else {
        assert range in before + [range];
      }
    }
  }
}
