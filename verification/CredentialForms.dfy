/**
  What the two credential passes of server/src/redaction.ts do to texts of a
  known form, said over the characters of the text alone.

  A form is given by positions: where the label stands, where the value begins
  and ends, and what characters lie between.  The lemmas connect the forms with
  the definitions the passes are proved against; the methods run the passes.
 */
module CredentialForms {
  import opened QuoteScanner
  import opened CredentialRedactor

  // -------------------------------------------------------------- characters

  predicate Letter(c: char) {
    'a' <= c <= 'z' || 'A' <= c <= 'Z' || '0' <= c <= '9' || c == '_'
  }

  predicate Blank(c: char) {
    c == ' ' || c == '\t'
  }

  predicate Quote(c: char) {
    c == '"' || c == '\''
  }

  /** The same letters in upper or lower case. */
  predicate SameLetters(text: string, word: string) {
    && |text| == |word|
    && forall k :: 0 <= k < |word| ==> text[k] == word[k] || ('a' <= word[k] <= 'z' && text[k] == word[k] - 'a' + 'A')
  }

  predicate LowerCase(word: string) {
    forall k :: 0 <= k < |word| ==> 'a' <= word[k] <= 'z'
  }

  lemma {:induction false} SameLettersIff(text: string, word: string)
    requires LowerCase(word)
    ensures SameLetters(text, word) <==> Lower(text) == word
  {
    LowerAt(text);
    if SameLetters(text, word) {
      assert forall k :: 0 <= k < |word| ==> Lower(text)[k] == word[k];
    }
    if Lower(text) == word {
      assert forall k :: 0 <= k < |word| ==> LowerChar(text[k]) == word[k];
    }
  }

  /** The word stands here, in any case. */
  predicate Stands(input: string, at: nat, word: string) {
    at + |word| <= |input| && SameLetters(input[at..at + |word|], word)
  }

  predicate Blanks(input: string, from: nat, to: nat) {
    from <= to <= |input| && forall k :: from <= k < to ==> Blank(input[k])
  }

  // ------------------------------------------------------------------- forms

  /** A word of letters, digits, underscores and hyphens, from end to end, that has the name in it. */
  ghost predicate IsLabel(input: string, from: nat, to: nat) {
    && from < to <= |input| && (forall k :: from <= k < to ==> Letter(input[k]) || input[k] == '-')
    && Letter(input[from]) && Letter(input[to - 1])
    && (from == 0 || !(Letter(input[from - 1]) || input[from - 1] == '-'))
    && (to == |input| || !(Letter(input[to]) || input[to] == '-'))
    && exists p: nat :: from <= p <= to - 13 && Stands(input, p, "authorization")
  }

  /** A key quote, raw or serialized, closes between these positions; or there is none. */
  predicate ClosesKey(input: string, from: nat, to: nat) {
    || from == to
    || (to == from + 1 <= |input| && Quote(input[from]))
    || (to == from + 2 <= |input| && input[from] == '\\' && Quote(input[from + 1]))
  }

  /** From the label to its value: blanks alone, or one colon or equals sign among blanks; behind a key quote, a colon. */
  predicate Separates(input: string, from: nat, close: nat, sign: nat, value: nat) {
    && from <= close <= sign <= value < |input| && from < value
    && ClosesKey(input, from, close) && Blanks(input, close, sign) && !Blank(input[value])
    && (if sign < value then
          (input[sign] == ':' || (input[sign] == '=' && close == from)) && Blanks(input, sign + 1, value)
        else
          close == from && input[value] != ':' && input[value] != '=')
  }

  /** The value begins with its own quote right behind the label: up to `close`, blanks to `next`, and no colon there. */
  predicate Adjoins(input: string, value: nat, close: nat, next: nat) {
    && value < close && ClosesKey(input, value, close) && Blanks(input, close, next)
    && (next == |input| || (!Blank(input[next]) && input[next] != ':'))
  }

  /** How a value may follow a label that ends at `from`. */
  predicate Follows(input: string, from: nat, close: nat, sign: nat, value: nat) {
    Separates(input, from, close, sign, value) || (value == from && Adjoins(input, from, close, sign))
  }

  /** A whole word begins here. */
  predicate IsWord(input: string, from: nat, to: nat) {
    && from < to <= |input| && (forall k :: from <= k < to ==> Letter(input[k]))
    && (to == |input| || !Letter(input[to]))
  }

  predicate NamesScheme(input: string, from: nat, to: nat) {
    from <= to <= |input| && (SameLetters(input[from..to], "bearer") || SameLetters(input[from..to], "basic"))
  }

  /** A token up to white space, a comma, a semicolon or a closing bracket; it begins with no quote. */
  predicate IsToken(input: string, from: nat, to: nat) {
    && from < to <= |input|
    && (forall k :: from <= k < to ==> !IsSpace(input[k]) && input[k] !in {',', ';', '}', ']'})
    && (to == |input| || IsSpace(input[to]) || input[to] in {',', ';', '}', ']'})
    && !Quote(input[from]) && !(input[from] == '\\' && from + 1 < |input| && Quote(input[from + 1]))
  }

  /** A word, blanks and a token. */
  predicate IsBare(input: string, value: nat, word: nat, token: nat, end: nat) {
    IsWord(input, value, word) && word < token && Blanks(input, word, token) && IsToken(input, token, end)
  }

  /** A quotation, raw or serialized, that holds white space, a word and more, with no quotes of its kind nor backslashes inside. */
  predicate IsQuotation(input: string, value: nat, quote: char, serialized: bool, lead: nat, word: nat, end: nat) {
    var width := if serialized then 2 else 1;
    && Quote(quote) && value + width <= lead < word <= end - width < end <= |input|
    && (if serialized then input[value] == '\\' && input[value + 1] == quote else input[value] == quote)
    && (forall k :: value + width <= k < lead ==> IsSpace(input[k]))
    && IsWord(input, lead, word)
    && (forall k :: value + width <= k < end - width ==> input[k] != quote && input[k] != '\\')
    && (if serialized then input[end - 2] == '\\' && input[end - 1] == quote else input[end - 1] == quote)
  }

  /** A structural character or the end of the input follows. */
  predicate HardlyEnds(input: string, end: nat) {
    end >= |input| || input[end] in {',', ';', '&', ')', '}', ']'}
  }

  predicate Breaks(c: char) {
    c == '\r' || c == '\n'
  }

  /** A line begins behind this line break. */
  predicate LineBegins(input: string, at: nat, begin: nat) {
    && at < begin <= |input| && Breaks(input[at])
    && begin == if input[at] == '\r' && at + 1 < |input| && input[at + 1] == '\n' then at + 2 else at + 1
  }

  /** White space within the line, and then something else. */
  predicate Leads(input: string, from: nat, lead: nat) {
    && from <= lead < |input| && (forall k :: from <= k < lead ==> IsSpace(input[k]) && !Breaks(input[k])) && !IsSpace(input[lead])
  }

  /** A word of the line, in any case, and blanks behind it. */
  predicate WordThenBlanks(input: string, at: nat, word: string, next: nat) {
    && Stands(input, at, word) && at + |word| < next && Blanks(input, at + |word|, next)
    && (next == |input| || !Blank(input[next]))
  }

  function Marked(quote: char, serialized: bool): string {
    if serialized then ['\\', quote] + REDACTED + ['\\', quote] else [quote] + REDACTED + [quote]
  }

  // ------------------------------------------------------------------ labels

  lemma {:induction false} RunTailIs(input: string, from: nat, to: nat, index: nat)
    requires from <= index < to <= |input| && (forall k :: from <= k < to ==> Letter(input[k]) || input[k] == '-')
    requires Letter(input[to - 1]) && (to == |input| || !(Letter(input[to]) || input[to] == '-'))
    ensures RunTail(input, index) == to
    decreases |input| - index
  {
    if index + 1 < to {
      RunTailIs(input, from, to, index + 1);
    }
  }

  /** Wherever a label is found, it ends in a letter: hyphens behind it are not part of it. */
  lemma {:induction false} LabelEndsInLetter(input: string, index: nat)
    ensures RunTail(input, index) > index ==> RunTail(input, index) <= |input| && Letter(input[RunTail(input, index) - 1])
    ensures LabelAt(input, index).Some? ==> Letter(input[LabelAt(input, index).value - 1])
    decreases |input| - index
  {
    if LabelChar(input, index) {
      LabelEndsInLetter(input, index + 1);
    }
  }

  lemma NameIff(input: string, p: nat)
    ensures Stands(input, p, "authorization") <==> NameAt(input, p)
  {
    if p + 13 <= |input| {
      SameLettersIff(input[p..p + 13], "authorization");
    }
  }

  lemma LabelIs(input: string, from: nat, to: nat)
    requires IsLabel(input, from, to)
    ensures LabelAt(input, from) == Some(to)
  {
    RunTailIs(input, from, to, from);
    var p: nat :| from <= p <= to - 13 && Stands(input, p, "authorization");
    NameIff(input, p);
  }

  /** The name stands in this label and nowhere else. */
  ghost predicate OnlyNameIn(input: string, from: nat, to: nat) {
    forall p: nat :: Stands(input, p, "authorization") ==> from <= p <= to - 13
  }

  lemma {:induction false} RunTailStops(input: string, index: nat, stop: nat)
    requires index <= stop && !LabelChar(input, stop)
    ensures RunTail(input, index) <= stop
    decreases if index <= stop then stop - index else 0
  {
    if index < stop && LabelChar(input, index) {
      RunTailStops(input, index + 1, stop);
    }
  }

  lemma NoOtherLabel(input: string, from: nat, to: nat, index: nat)
    requires IsLabel(input, from, to) && OnlyNameIn(input, from, to) && !(from <= index < to)
    ensures LabelAt(input, index) == None
  {
    if index < from {
      RunTailStops(input, index, from - 1);
    }
    forall p: nat | NameAt(input, p) ensures from <= p <= to - 13 {
      NameIff(input, p);
    }
  }

  lemma {:induction false} FirstLabelFrom(input: string, from: nat, to: nat)
    requires from <= to && forall k: nat :: from <= k < to ==> LabelAt(input, k) == None
    ensures FirstLabel(input, from) == FirstLabel(input, to)
    decreases if from <= to then to - from else 0
  {
    if from < to && from < |input| {
      assert LabelAt(input, from) == None;
      FirstLabelFrom(input, from + 1, to);
    }
  }

  lemma OneLabel(input: string, from: nat, to: nat)
    requires IsLabel(input, from, to) && OnlyNameIn(input, from, to)
    ensures NextLabel(input, 0) == Some(to)
    ensures forall k: nat :: k >= to ==> NextLabel(input, k) == None
  {
    LabelIs(input, from, to);
    forall k: nat | !(from <= k < to) ensures LabelAt(input, k) == None {
      NoOtherLabel(input, from, to, k);
    }
    FirstLabelFrom(input, 0, from);
    forall k: nat | k >= to ensures NextLabel(input, k) == None {
      if k <= |input| {
        FirstLabelFrom(input, k, |input|);
      }
    }
  }

  // ------------------------------------------------------------------ values

  lemma BlanksEnd(input: string, from: nat, to: nat)
    requires Blanks(input, from, to) && (to == |input| || !Blank(input[to]))
    ensures InlineWhitespaceEnd(input, from) == to
  {
    var end := InlineWhitespaceEnd(input, from);
    assert end < to ==> Blank(input[end]);
    assert to < end ==> IsBlank(input[to]);
  }

  lemma ValueBegins(input: string, from: nat, close: nat, sign: nat, value: nat)
    requires Separates(input, from, close, sign, value)
    ensures ValueStart(input, from) == value
  {
    BlanksEnd(input, close, sign);
    if sign < value {
      BlanksEnd(input, sign + 1, value);
    }
    if close == from {
      assert !IsQuote(input[from]) && EscapedQuoteAt(input, from) == None by {
        assert from < sign ==> Blank(input[from]);
      }
    } else {
      BlanksEnd(input, sign, sign);
    }
  }

  /** A quote right behind the label opens the value, unless a colon behind it shows that it closes the key. */
  lemma ValueAdjoins(input: string, value: nat, close: nat, next: nat)
    requires Adjoins(input, value, close, next)
    ensures ValueStart(input, value) == value
  {
    BlanksEnd(input, close, next);
    BlanksEnd(input, value, value);
  }

  /** A whole word is a scheme exactly when its letters say so. */
  lemma SchemeIff(input: string, from: nat, to: nat)
    requires IsWord(input, from, to)
    ensures NamesScheme(input, from, to) ==> SchemeLength(input, from) == to - from
    ensures !NamesScheme(input, from, to) ==> SchemeLength(input, from) == 0
  {
    WordIff(input, from, to, "bearer");
    WordIff(input, from, to, "basic");
  }

  lemma WordIff(input: string, from: nat, to: nat, word: string)
    requires IsWord(input, from, to) && LowerCase(word) && word != ""
    ensures MatchesWord(input, from, word) <==> SameLetters(input[from..to], word)
  {
    SameLettersIff(input[from..to], word);
    if MatchesWord(input, from, word) {
      var end := from + |word|;
      SameLettersIff(input[from..end], word);
      assert forall k :: from <= k < end ==> Letter(input[k]) by {
        assert forall k :: from <= k < end ==> input[k] == input[from..end][k - from];
      }
      assert end <= to ==> end == to;
    }
  }

  /** A bare value is replaced from its scheme word to the end of its token, and left alone with another word. */
  lemma BareValue(input: string, value: nat, word: nat, token: nat, end: nat, range: Range)
    requires IsBare(input, value, word, token, end)
    ensures AuthorizationValue(input, value, range) <==> NamesScheme(input, value, word) && range == Range(value, end, REDACTED)
  {
    SchemeIff(input, value, word);
    BlanksEnd(input, word, token);
    assert OpeningAt(input, value) == None && OpeningAt(input, token) == None;
    assert TokenEnd(input, token, end);
  }

  lemma {:induction false} SlashesNone(input: string, low: nat, index: nat)
    requires low <= index <= |input| && (index > low ==> input[index - 1] != '\\')
    ensures SlashesBefore(input, low, index) == 0
  {
  }

  lemma QuotationEnds(input: string, value: nat, quote: char, serialized: bool, lead: nat, word: nat, end: nat)
    requires IsQuotation(input, value, quote, serialized, lead, word, end) && HardlyEnds(input, end)
    ensures var opening := if serialized then Escaped(value, quote) else Raw(value, quote);
      OpeningAt(input, value) == Some(opening) && QuotedEnd(input, opening, end)
  {
    var opening := if serialized then Escaped(value, quote) else Raw(value, quote);
    var low := ContentStart(opening);
    SlashesNone(input, low, if serialized then end - 2 else end - 1);
    if serialized {
      assert SlashesBefore(input, low, end - 1) == 1 + SlashesBefore(input, low, end - 2);
    }
    assert Closes(input, opening, end - 1);
    assert Decides(input, opening, end - 1);
    forall q | Closes(input, opening, q) ensures end - 1 <= q {
      assert input[q] == quote;
    }
  }

  /** No other quote of the kind follows, so this one is the only delimiter. */
  ghost predicate LastQuote(input: string, quote: char, end: nat) {
    forall k :: end <= k < |input| ==> input[k] != quote
  }

  /**
    Where a quotation ends whose quote is the last: behind it when a structural
    character, a space within the line or an independent credential line
    follows, or nothing; else it is not trusted, and all the rest belongs to it.
   */
  function TrustedEnd(input: string, end: nat): nat
    requires end <= |input|
  {
    if HardlyEnds(input, end) || (IsSpace(input[end]) && !Breaks(input[end])) || StartsIndependentCredentialLine(input, end) then end
    else |input|
  }

  lemma LastQuotationEnds(input: string, value: nat, quote: char, serialized: bool, lead: nat, word: nat, end: nat)
    requires IsQuotation(input, value, quote, serialized, lead, word, end) && LastQuote(input, quote, end)
    ensures var opening := if serialized then Escaped(value, quote) else Raw(value, quote);
      OpeningAt(input, value) == Some(opening) && QuotedEnd(input, opening, TrustedEnd(input, end))
  {
    var opening := if serialized then Escaped(value, quote) else Raw(value, quote);
    if HardlyEnds(input, end) {
      QuotationEnds(input, value, quote, serialized, lead, word, end);
    } else {
      var low := ContentStart(opening);
      SlashesNone(input, low, if serialized then end - 2 else end - 1);
      if serialized {
        assert SlashesBefore(input, low, end - 1) == 1 + SlashesBefore(input, low, end - 2);
      }
      assert Closes(input, opening, end - 1);
      forall q | Closes(input, opening, q) ensures q == end - 1 {
        assert input[q] == quote;
      }
      assert QuotedValueBoundary(input, end) != Hard;
    }
  }

  // ------------------------------------------------ independent credential lines

  lemma {:induction false} LineEndFrom(input: string, from: nat, to: nat)
    requires from <= to <= |input| && (forall k :: from <= k < to ==> !Breaks(input[k]))
    ensures LineEnd(input, from) == LineEnd(input, to)
    decreases |input| - from
  {
    if from < to {
      LineEndFrom(input, from + 1, to);
    }
  }

  lemma {:induction false} BlankAtIs(text: string, at: nat)
    requires at <= |text| && (forall k :: 0 <= k < at ==> !Blank(text[k])) && (at < |text| ==> Blank(text[at]))
    ensures BlankAt(text) == at
  {
    if at > 0 {
      BlankAtIs(text[1..], at - 1);
    }
  }

  /** The words of a line, read off its characters. */
  lemma WordsFrom(text: string, word: nat, next: nat)
    requires 0 < word < next <= |text| && (forall k :: 0 <= k < word ==> !Blank(text[k]))
    requires Blanks(text, word, next) && (next == |text| || !Blank(text[next]))
    ensures Words(text) == [text[..word]] + Words(text[next..])
  {
    BlankAtIs(text, word);
    BlanksEnd(text, word, next);
  }

  lemma LowerKeepsBlanks(text: string)
    ensures forall k :: 0 <= k < |text| ==> (Blank(Lower(text)[k]) <==> Blank(text[k]))
  {
    LowerAt(text);
  }

  /** The text of the line from its first word on, in lower case. */
  function LineText(input: string, lead: nat): string
    requires lead <= |input|
  {
    Lower(input[lead..LineEnd(input, lead)])
  }

  lemma LineWords(input: string, at: nat, begin: nat, lead: nat)
    requires LineBegins(input, at, begin) && Leads(input, begin, lead)
    ensures lead <= LineEnd(input, lead)
    ensures StartsIndependentCredentialLine(input, at) <==>
      var words := Words(LineText(input, lead));
      (words[0] == "bearer" && |words| >= 2)
      || (|words| >= 5 && words[0] == "request" && words[1] == "failed" && words[2] == "with" && words[3] == "bearer")
  {
    LineEndFrom(input, begin, lead);
    SliceTrimmed(input, begin, lead, LineEnd(input, lead));
  }

  lemma LowerSlice(line: string, from: nat, to: nat)
    requires from <= to <= |line|
    ensures Lower(line)[from..to] == Lower(line[from..to])
  {
    LowerAt(line);
    LowerAt(line[from..to]);
  }

  lemma WordOnLine(input: string, at: nat, word: string, next: nat)
    requires LowerCase(word) && WordThenBlanks(input, at, word, next)
    ensures next <= LineEnd(input, at) == LineEnd(input, next)
    ensures forall k :: at <= k < at + |word| ==> !Blank(input[k])
  {
    assert forall k :: at <= k < at + |word| ==> input[k] == input[at..at + |word|][k - at];
    LineEndFrom(input, at, next);
  }

  lemma LoweredWord(line: string, word: string)
    requires LowerCase(word) && |word| <= |line| && SameLetters(line[..|word|], word)
    ensures Lower(line)[..|word|] == word && forall k :: 0 <= k < |word| ==> !Blank(Lower(line)[k])
  {
    LowerSlice(line, 0, |word|);
    assert line[..|word|] == line[0..|word|] && Lower(line)[..|word|] == Lower(line)[0..|word|];
    SameLettersIff(line[..|word|], word);
    assert forall k :: 0 <= k < |word| ==> Lower(line)[k] == Lower(line)[..|word|][k];
  }

  lemma {:induction false} LoweredRest(line: string, next: nat)
    requires next <= |line|
    ensures Lower(line)[next..] == Lower(line[next..])
  {
    if next > 0 {
      LoweredRest(line[1..], next - 1);
      assert line[1..][next - 1..] == line[next..];
      assert Lower(line)[next..] == Lower(line[1..])[next - 1..];
    }
  }

  lemma LineWordsFrom(line: string, word: string, next: nat)
    requires LowerCase(word) && word != "" && |word| < next <= |line| && SameLetters(line[..|word|], word)
    requires Blanks(line, |word|, next) && (next == |line| || !Blank(line[next]))
    ensures Words(Lower(line)) == [word] + Words(Lower(line[next..]))
  {
    LoweredWord(line, word);
    LoweredRest(line, next);
    LowerKeepsBlanks(line);
    var text := Lower(line);
    WordsFrom(text, |word|, next);
  }

  lemma LineParts(input: string, at: nat, word: string, next: nat)
    requires LowerCase(word) && WordThenBlanks(input, at, word, next)
    ensures next <= LineEnd(input, at) == LineEnd(input, next)
    ensures var line, n := input[at..LineEnd(input, at)], next - at;
      && |word| < n <= |line| && SameLetters(line[..|word|], word)
      && Blanks(line, |word|, n) && (n == |line| || !Blank(line[n]))
      && line[n..] == input[next..LineEnd(input, next)]
  {
    WordOnLine(input, at, word, next);
    var line := input[at..LineEnd(input, at)];
    assert forall k :: 0 <= k < |line| ==> line[k] == input[at + k];
    assert line[..|word|] == input[at..at + |word|];
  }

  /** A word of a line that is followed by blanks and more of the line. */
  lemma WordRead(input: string, at: nat, word: string, next: nat)
    requires LowerCase(word) && word != "" && WordThenBlanks(input, at, word, next)
    ensures next <= LineEnd(input, at) == LineEnd(input, next)
    ensures Words(LineText(input, at)) == [word] + Words(LineText(input, next))
  {
    LineParts(input, at, word, next);
    LineWordsFrom(input[at..LineEnd(input, at)], word, next - at);
  }

  lemma TwoWordsRead(input: string, at: nat, first: string, next: nat, second: string, end: nat)
    requires LowerCase(first) && first != "" && WordThenBlanks(input, at, first, next)
    requires LowerCase(second) && second != "" && WordThenBlanks(input, next, second, end)
    ensures end <= |input| && Words(LineText(input, at)) == [first] + ([second] + Words(LineText(input, end)))
  {
    WordRead(input, at, first, next);
    WordRead(input, next, second, end);
  }

  lemma RequestWords(input: string, lead: nat, a: nat, b: nat, c: nat, d: nat)
    requires WordThenBlanks(input, lead, "request", a) && WordThenBlanks(input, a, "failed", b)
    requires WordThenBlanks(input, b, "with", c) && WordThenBlanks(input, c, "bearer", d)
    ensures d <= |input|
    ensures Words(LineText(input, lead)) == ["request"] + (["failed"] + (["with"] + (["bearer"] + Words(LineText(input, d)))))
  {
    TwoWordsRead(input, lead, "request", a, "failed", b);
    TwoWordsRead(input, b, "with", c, "bearer", d);
  }

  lemma FiveWords(a: string, b: string, c: string, d: string, rest: seq<string>)
    requires rest != []
    ensures var words := [a] + ([b] + ([c] + ([d] + rest)));
      |words| >= 5 && words[0] == a && words[1] == b && words[2] == c && words[3] == d
  {
  }

  /** A line that begins with the word Bearer and blanks is independent. */
  lemma BearerLine(input: string, at: nat, begin: nat, lead: nat, next: nat)
    requires LineBegins(input, at, begin) && Leads(input, begin, lead) && WordThenBlanks(input, lead, "bearer", next)
    ensures StartsIndependentCredentialLine(input, at)
  {
    LineWords(input, at, begin, lead);
    WordRead(input, lead, "bearer", next);
  }

  /** And so is one that begins with the words of a failed request. */
  lemma RequestLine(input: string, at: nat, begin: nat, lead: nat, a: nat, b: nat, c: nat, d: nat)
    requires LineBegins(input, at, begin) && Leads(input, begin, lead)
    requires WordThenBlanks(input, lead, "request", a) && WordThenBlanks(input, a, "failed", b)
    requires WordThenBlanks(input, b, "with", c) && WordThenBlanks(input, c, "bearer", d)
    ensures StartsIndependentCredentialLine(input, at)
  {
    LineWords(input, at, begin, lead);
    RequestWords(input, lead, a, b, c, d);
    FiveWords("request", "failed", "with", "bearer", Words(LineText(input, d)));
  }

  /** A line that begins with any other word is not. */
  lemma OtherLine(input: string, at: nat, begin: nat, lead: nat, word: nat)
    requires LineBegins(input, at, begin) && Leads(input, begin, lead) && IsWord(input, lead, word)
    requires !SameLetters(input[lead..word], "bearer") && !SameLetters(input[lead..word], "request")
    ensures !StartsIndependentCredentialLine(input, at)
  {
    LineWords(input, at, begin, lead);
    FirstWordRead(input, lead, word, "bearer");
    FirstWordRead(input, lead, word, "request");
  }

  /** The first word of a line goes on to a blank; it is this one only if its letters are. */
  lemma FirstWordRead(input: string, lead: nat, word: nat, name: string)
    requires IsWord(input, lead, word) && LowerCase(name) && name != ""
    ensures lead <= LineEnd(input, lead)
    ensures Words(LineText(input, lead))[0] == name ==> SameLetters(input[lead..word], name)
  {
    LineEndFrom(input, lead, word);
    var line := input[lead..LineEnd(input, lead)];
    assert forall k :: 0 <= k < |line| ==> line[k] == input[lead + k];
    assert line[0..word - lead] == input[lead..word];
    FirstWordOf(line, word - lead, name);
  }

  lemma FirstWordOf(line: string, word: nat, name: string)
    requires IsWord(line, 0, word) && LowerCase(name) && name != ""
    ensures Words(Lower(line))[0] == name ==> SameLetters(line[0..word], name)
  {
    var text := Lower(line);
    LowerAt(line);
    LowerKeepsBlanks(line);
    assert Words(text)[0] == text[..BlankAt(text)];
    if text[..BlankAt(text)] == name {
      assert forall k :: 0 <= k < |name| ==> LowerChar(line[k]) == text[..BlankAt(text)][k];
      assert forall k :: 0 <= k < |name| ==> Letter(line[k]);
      assert forall k :: 0 <= k < word ==> !Blank(text[k]);
      assert |name| == word;
      LowerSlice(line, 0, word);
      SameLettersIff(line[0..word], name);
    }
  }

  lemma {:induction false} TrimmedAt(text: string, lead: nat)
    requires lead <= |text| && (forall k :: 0 <= k < lead ==> IsSpace(text[k])) && (lead < |text| ==> !IsSpace(text[lead]))
    ensures TrimStart(text) == text[lead..]
  {
    if lead > 0 {
      TrimmedAt(text[1..], lead - 1);
      assert text[1..][lead - 1..] == text[lead..];
    }
  }

  lemma WordInSlice(input: string, from: nat, word: nat, to: nat)
    requires IsWord(input, from, word) && word <= to <= |input|
    ensures IsWord(input[from..to], 0, word - from)
    ensures NamesScheme(input[from..to], 0, word - from) <==> NamesScheme(input, from, word)
  {
    assert forall k :: 0 <= k < to - from ==> input[from..to][k] == input[from + k];
    assert input[from..to][0..word - from] == input[from..word];
  }

  lemma SliceTrimmed(input: string, from: nat, lead: nat, to: nat)
    requires from <= lead <= to <= |input| && (forall k :: from <= k < lead ==> IsSpace(input[k]))
    requires lead < to ==> !IsSpace(input[lead])
    ensures TrimStart(input[from..to]) == input[lead..to]
  {
    TrimmedAt(input[from..to], lead - from);
    assert input[from..to][lead - from..] == input[lead..to];
  }

  lemma LetterIsNoSpace(c: char)
    requires Letter(c)
    ensures !IsSpace(c)
  {
  }

  /** The scheme of a quoted content that begins with white space and a word. */
  lemma ContentScheme(input: string, from: nat, lead: nat, word: nat, to: nat)
    requires from <= lead < word <= to <= |input| && (forall k :: from <= k < lead ==> IsSpace(input[k]))
    requires IsWord(input, lead, word)
    ensures SchemeLength(TrimStart(input[from..to]), 0) > 0 <==> NamesScheme(input, lead, word)
  {
    LetterIsNoSpace(input[lead]);
    SliceTrimmed(input, from, lead, to);
    WordInSlice(input, lead, word, to);
    SchemeIff(input[lead..to], 0, word - lead);
  }

  /** The scheme test of a quotation, wherever past its word that is taken to end. */
  lemma QuotedScheme(input: string, value: nat, quote: char, serialized: bool, lead: nat, word: nat, end: nat, stop: nat)
    requires IsQuotation(input, value, quote, serialized, lead, word, end) && end <= stop <= |input|
    ensures var opening := if serialized then Escaped(value, quote) else Raw(value, quote);
      SchemeLength(QuotedContent(input, opening, stop), 0) > 0 <==> NamesScheme(input, lead, word)
  {
    if serialized {
      ContentScheme(input, value + 2, lead, word, stop - 2);
    } else {
      ContentScheme(input, value + 1, lead, word, stop - 1);
    }
  }

  /** A quoted value that begins with a scheme word is replaced whole, inside its quotes; with another word it is left alone. */
  lemma QuotedValue(input: string, value: nat, quote: char, serialized: bool, lead: nat, word: nat, end: nat, range: Range)
    requires IsQuotation(input, value, quote, serialized, lead, word, end) && HardlyEnds(input, end)
    ensures AuthorizationValue(input, value, range) <==>
      NamesScheme(input, lead, word) && range == Range(value, end, Marked(quote, serialized))
  {
    var opening := if serialized then Escaped(value, quote) else Raw(value, quote);
    QuotationEnds(input, value, quote, serialized, lead, word, end);
    QuotedScheme(input, value, quote, serialized, lead, word, end, end);
    if QuotedEnd(input, opening, range.end) {
      QuotedEndUnique(input, opening, range.end, end);
    }
  }

  /** The same where no other quote follows, whatever does: the range reaches to where the quotation can be trusted to end. */
  lemma LastQuotedValue(input: string, value: nat, quote: char, serialized: bool, lead: nat, word: nat, end: nat, range: Range)
    requires IsQuotation(input, value, quote, serialized, lead, word, end) && LastQuote(input, quote, end)
    ensures AuthorizationValue(input, value, range) <==>
      NamesScheme(input, lead, word) && range == Range(value, TrustedEnd(input, end), Marked(quote, serialized))
  {
    var opening := if serialized then Escaped(value, quote) else Raw(value, quote);
    var stop := TrustedEnd(input, end);
    LastQuotationEnds(input, value, quote, serialized, lead, word, end);
    QuotedScheme(input, value, quote, serialized, lead, word, end, stop);
    if QuotedEnd(input, opening, range.end) {
      QuotedEndUnique(input, opening, range.end, stop);
    }
  }

  // -------------------------------------------------------------- the passes

  lemma SpliceOne(input: string, range: Range, output: string)
    requires Spliced(input, [range], output)
    ensures range.start <= range.end <= |input|
    ensures output == input[..range.start] + range.replacement + input[range.end..]
  {
    assert [range][..0] == [] && Replacements([range]) == [range.replacement];
    assert [range.replacement][..0] == [];
  }

  lemma SpliceNone(input: string, output: string)
    requires Spliced(input, [], output)
    ensures output == input
  {
  }

  /** With one label in the input the pass takes the range of its value, if it has one. */
  lemma OneRange(input: string, from: nat, to: nat, close: nat, sign: nat, value: nat, range: Option<Range>)
    requires IsLabel(input, from, to) && OnlyNameIn(input, from, to) && Follows(input, to, close, sign, value)
    requires forall r: Range :: AuthorizationValue(input, value, r) <==> range == Some(r)
    ensures AuthorizationRanges(input, 0, 0) == if range.Some? then [range.value] else []
  {
    OneLabel(input, from, to);
    if Separates(input, to, close, sign, value) {
      ValueBegins(input, to, close, sign, value);
    } else {
      ValueAdjoins(input, to, close, sign);
    }
    TakenIs(input, to, 0, range);
    var taken := TakenAt(input, to, 0);
    assert AuthorizationRanges(input, to, 0) == [];
    if range.Some? {
      assert AuthorizationRanges(input, taken.value.end, taken.value.end) == [];
    }
  }

  /** A label, a separator, a word, blanks and a token: the marker replaces word and token exactly when the word is a scheme. */
  method RedactBare(input: string, ghost from: nat, ghost to: nat, ghost close: nat, ghost sign: nat, ghost value: nat,
                    ghost word: nat, ghost token: nat, ghost end: nat)
    returns (output: string)
    requires IsLabel(input, from, to) && OnlyNameIn(input, from, to) && Follows(input, to, close, sign, value)
    requires IsBare(input, value, word, token, end)
    ensures output == if NamesScheme(input, value, word) then input[..value] + REDACTED + input[end..] else input
  {
    forall r: Range ensures AuthorizationValue(input, value, r) <==>
        NamesScheme(input, value, word) && r == Range(value, end, REDACTED)
    {
      BareValue(input, value, word, token, end, r);
    }
    ghost var range := if NamesScheme(input, value, word) then Some(Range(value, end, REDACTED)) else None;
    OneRange(input, from, to, close, sign, value, range);
    output := RedactAuthorizationCredentials(input);
    if range.Some? {
      SpliceOne(input, range.value, output);
    } else {
      SpliceNone(input, output);
    }
  }

  /** The same for a value in quotes, raw or serialized. */
  method RedactQuoted(input: string, ghost from: nat, ghost to: nat, ghost close: nat, ghost sign: nat, ghost value: nat,
                      ghost quote: char, ghost serialized: bool, ghost lead: nat, ghost word: nat, ghost end: nat)
    returns (output: string)
    requires IsLabel(input, from, to) && OnlyNameIn(input, from, to) && Follows(input, to, close, sign, value)
    requires IsQuotation(input, value, quote, serialized, lead, word, end) && HardlyEnds(input, end)
    ensures output ==
      if NamesScheme(input, lead, word) then input[..value] + Marked(quote, serialized) + input[end..] else input
  {
    forall r: Range ensures AuthorizationValue(input, value, r) <==>
        NamesScheme(input, lead, word) && r == Range(value, end, Marked(quote, serialized))
    {
      QuotedValue(input, value, quote, serialized, lead, word, end, r);
    }
    ghost var range := if NamesScheme(input, lead, word) then Some(Range(value, end, Marked(quote, serialized))) else None;
    OneRange(input, from, to, close, sign, value, range);
    output := RedactAuthorizationCredentials(input);
    if range.Some? {
      SpliceOne(input, range.value, output);
    } else {
      SpliceNone(input, output);
    }
  }

  // ------------------------------------------------------------- bearer words

  /** The word Bearer, in any case and whole. */
  predicate IsBearer(input: string, at: nat) {
    && Stands(input, at, "bearer")
    && (at == 0 || !Letter(input[at - 1])) && (at + 6 == |input| || !Letter(input[at + 6]))
  }

  lemma BearerIff(input: string, at: nat)
    ensures BearerWord(input, at) <==> IsBearer(input, at)
  {
    if at + 6 <= |input| {
      var text := input[at..at + 6];
      SameLettersIff(text, "bearer");
      if SameLetters(text, "bearer") {
        assert Letter(text[0]) && Letter(text[5]);
        assert text[0] == input[at] && text[5] == input[at + 5];
      }
    }
  }

  lemma {:induction false} FirstBearerFrom(input: string, from: nat, to: nat)
    requires from <= to && forall k: nat :: from <= k < to ==> !IsBearer(input, k)
    ensures FirstBearer(input, from) == FirstBearer(input, to)
    decreases if from <= to then to - from else 0
  {
    if from < to && from < |input| {
      BearerIff(input, from);
      FirstBearerFrom(input, from + 1, to);
    }
  }

  /** Only one Bearer word stands in the input. */
  ghost predicate OnlyBearerAt(input: string, at: nat) {
    IsBearer(input, at) && forall p: nat :: IsBearer(input, p) ==> p == at
  }

  lemma OneBearer(input: string, at: nat, token: nat, end: nat)
    requires OnlyBearerAt(input, at) && at + 6 < token && Blanks(input, at + 6, token) && IsToken(input, token, end)
    ensures BearerRanges(input, 0) == [Range(token, end, REDACTED)]
  {
    BearerIff(input, at);
    FirstBearerFrom(input, 0, at);
    FirstBearerFrom(input, end, if end <= |input| then |input| else end);
    BlanksEnd(input, at + 6, token);
    assert OpeningAt(input, token) == None && TokenEnd(input, token, end);
    BearerTakenIs(input, at, Some(Range(token, end, REDACTED)));
    assert BearerRanges(input, end) == [];
  }

  /** A Bearer word, blanks and a token: the marker replaces the token and nothing else. */
  method RedactBearerToken(input: string, ghost at: nat, ghost token: nat, ghost end: nat) returns (output: string)
    requires OnlyBearerAt(input, at) && at + 6 < token && Blanks(input, at + 6, token) && IsToken(input, token, end)
    ensures output == input[..token] + REDACTED + input[end..]
  {
    OneBearer(input, at, token, end);
    output := RedactStandaloneBearerCredentials(input);
    SpliceOne(input, Range(token, end, REDACTED), output);
  }

  /** Without a Bearer word the text comes out as it went in. */
  method RedactNoBearer(input: string) returns (output: string)
    requires forall p: nat :: !IsBearer(input, p)
    ensures output == input
  {
    FirstBearerFrom(input, 0, |input|);
    output := RedactStandaloneBearerCredentials(input);
    SpliceNone(input, output);
  }
}
