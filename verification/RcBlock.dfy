/**
  The managed PATH block in a shell start-up file, cli/src/install-store.ts:
  added at the end of the text, and removed by a pattern that takes the first
  block together with the newline before it.
 */
module RcBlock {

  datatype Option<+T> = None | Some(value: T)

  /** The three lines of a managed block. */
  datatype Block = Block(start: string, line: string, end: string)

  const MANAGED := Block(
    "# >>> geetorusai managed PATH >>>",
    "export PATH=\"$HOME/.local/bin:$PATH\"",
    "# <<< geetorusai managed PATH <<<")

  /** The first line with its newline. */
  function Head(block: Block): string {
    block.start + "\n"
  }

  /** What follows the first line, up to and including the last newline. */
  function Tail(block: Block): string {
    block.line + "\n" + block.end + "\n"
  }

  /** All the proofs need of the markers: they are comments of one line, and the line between is not. */
  ghost predicate WellMarked(block: Block) {
    && block.start != "" && block.end != "" && block.start[0] == block.end[0] == '#'
    && '\n' !in block.start && '#' !in block.line
  }

  lemma ManagedIsOneLine()
    ensures '\n' !in MANAGED.start
  {
  }

  lemma ManagedLineIsNoComment()
    ensures '#' !in MANAGED.line
  {
  }

  lemma ManagedIsWellMarked()
    ensures WellMarked(MANAGED)
  {
    ManagedIsOneLine();
    ManagedLineIsNoComment();
  }

  predicate OccursAt(text: string, pattern: string, index: nat) {
    index + |pattern| <= |text| && text[index..index + |pattern|] == pattern
  }

  ghost predicate Contains(text: string, pattern: string) {
    exists index: nat :: OccursAt(text, pattern, index)
  }

  /** The first occurrence from `from` on. */
  function IndexOf(text: string, pattern: string, from: nat): (index: Option<nat>)
    ensures index.Some? ==> from <= index.value && OccursAt(text, pattern, index.value)
    ensures forall k: nat :: from <= k && (index.Some? ==> k < index.value) ==> !OccursAt(text, pattern, k)
    decreases |text| - from
  {
    if OccursAt(text, pattern, from) then Some(from)
    else if from >= |text| then None
    else IndexOf(text, pattern, from + 1)
  }

  /** Where the block's body begins if the pattern's head matches at `index`: at the very start, or after a newline. */
  function BodyStart(block: Block, text: string, index: nat): Option<nat> {
    if index == 0 && OccursAt(text, Head(block), 0) then Some(|Head(block)|)
    else if index < |text| && text[index] == '\n' && OccursAt(text, Head(block), index + 1) then
      Some(index + 1 + |Head(block)|)
    else None
  }

  /** End of the shortest match of the pattern at `index`. */
  function MatchEnd(block: Block, text: string, index: nat): (end: Option<nat>)
    requires block.end != ""
    ensures end.Some? ==> index < end.value <= |text|
  {
    var body := BodyStart(block, text, index);
    if body.None? then None
    else
      var marker := IndexOf(text, block.end, body.value);
      if marker.None? then None
      else
        var after := marker.value + |block.end|;
        if after < |text| && text[after] == '\n' then Some(after + 1) else Some(after)
  }

  /** The leftmost match from `from` on. */
  function FirstMatch(block: Block, text: string, from: nat): (found: Option<(nat, nat)>)
    requires block.end != ""
    ensures found.Some? ==> from <= found.value.0 < found.value.1 <= |text|
    decreases |text| - from
  {
    if MatchEnd(block, text, from).Some? then Some((from, MatchEnd(block, text, from).value))
    else if from >= |text| then None
    else FirstMatch(block, text, from + 1)
  }

  function StripLeadingNewline(text: string): string {
    if text != "" && text[0] == '\n' then text[1..] else text
  }

  predicate EndsWithNewline(text: string) {
    text != "" && text[|text| - 1] == '\n'
  }

  /** The text with its last line ended. */
  function Completed(existing: string): string {
    if existing != "" && !EndsWithNewline(existing) then existing + "\n" else existing
  }

  // -------------------------------------------------------------- operations

  /** Appends the block unless the start marker is there already. */
  ghost function Add(block: Block, existing: string): string {
    if Contains(existing, block.start) then existing
    else Completed(existing) + Head(block) + Tail(block)
  }

  /** Replaces the first block by a newline and drops a newline that then leads the text; without a block nothing is written. */
  function Remove(block: Block, existing: string): string
    requires block.end != ""
  {
    var found := FirstMatch(block, existing, 0);
    if found.None? then existing
    else StripLeadingNewline(existing[..found.value.0] + "\n" + existing[found.value.1..])
  }

  ghost function AddManagedPathBlock(existing: string): string {
    Add(MANAGED, existing)
  }

  function RemoveManagedPathBlock(existing: string): string {
    Remove(MANAGED, existing)
  }

  // ------------------------------------------------------------- round trip

  lemma OccursChars(text: string, pattern: string, index: nat)
    requires OccursAt(text, pattern, index)
    ensures forall k :: index <= k < index + |pattern| ==> text[k] == pattern[k - index]
  {
    assert forall k :: index <= k < index + |pattern| ==> text[index..index + |pattern|][k - index] == text[k];
  }

  lemma HeadDiffers(text: string, pattern: string, index: nat)
    requires pattern != "" && (index < |text| ==> text[index] != pattern[0])
    ensures !OccursAt(text, pattern, index)
  {
    if index + |pattern| <= |text| {
      assert text[index..index + |pattern|][0] == text[index];
    }
  }

  /** A pattern without a newline does not reach across one. */
  lemma NoCrossing(text: string, pattern: string, index: nat, newline: nat)
    requires newline < |text| && text[newline] == '\n' && '\n' !in pattern
    requires OccursAt(text, pattern, index)
    ensures index + |pattern| <= newline || newline < index
  {
    OccursChars(text, pattern, index);
    assert forall k :: index <= k < index + |pattern| ==> text[k] != '\n';
  }

  lemma PrefixOccurs(text: string, pattern: string, more: string, index: nat)
    requires OccursAt(text, pattern + more, index)
    ensures OccursAt(text, pattern, index)
  {
    assert text[index..index + |pattern|] == text[index..index + |pattern + more|][..|pattern|];
  }

  /** Before the appended block nothing matches. */
  lemma NothingBefore(block: Block, before: string, text: string, index: nat)
    requires WellMarked(block) && EndsWithNewline(before) && before <= text
    requires !Contains(before, block.start)
    requires index + 1 < |before|
    ensures BodyStart(block, text, index).None?
  {
    if BodyStart(block, text, index).Some? {
      var at := if index == 0 && OccursAt(text, Head(block), 0) then 0 else index + 1;
      PrefixOccurs(text, block.start, "\n", at);
      NoCrossing(text, block.start, at, |before| - 1);
      assert before[at..at + |block.start|] == text[at..at + |block.start|];
      assert OccursAt(before, block.start, at);
    }
  }

  /** After the middle line the end marker comes at once, and not earlier. */
  lemma EndMarkerFound(block: Block, text: string, body: nat)
    requires WellMarked(block) && body <= |text| && text[body..] == Tail(block)
    ensures IndexOf(text, block.end, body) == Some(body + |block.line| + 1)
  {
    var end := body + |block.line| + 1;
    assert forall k :: body <= k < |text| ==> text[k] == Tail(block)[k - body];
    assert text[end..end + |block.end|] == block.end;
    forall k: nat | body <= k < end ensures !OccursAt(text, block.end, k) {
      assert Tail(block)[k - body] == (block.line + "\n")[k - body];
      HeadDiffers(text, block.end, k);
    }
    assert OccursAt(text, block.end, end);
    var found := IndexOf(text, block.end, body);
    assert found.Some? && found.value == end;
  }

  /** Where the parts of a text that ends with a block lie. */
  lemma BlockParts(block: Block, before: string, text: string)
    requires WellMarked(block) && text == before + Head(block) + Tail(block)
    ensures OccursAt(text, Head(block), |before|)
    ensures |before| + |Head(block)| <= |text| && text[|before| + |Head(block)|..] == Tail(block)
  {
    var body := |before| + |Head(block)|;
    assert text[|before|..body] == Head(block);
  }

  /** The newline before the block, or the start of the text, is where the pattern's head matches. */
  lemma BodyStartAt(block: Block, text: string, at: nat)
    requires WellMarked(block) && OccursAt(text, Head(block), at)
    requires at > 0 ==> text[at - 1] == '\n'
    ensures BodyStart(block, text, if at == 0 then 0 else at - 1) == Some(at + |Head(block)|)
  {
    if at > 0 {
      HeadDiffers(text, Head(block), at - 1);
    }
  }

  lemma MatchReachesTheEnd(block: Block, text: string, index: nat, body: nat)
    requires WellMarked(block) && BodyStart(block, text, index) == Some(body)
    requires body <= |text| && text[body..] == Tail(block)
    ensures MatchEnd(block, text, index) == Some(|text|)
  {
    EndMarkerFound(block, text, body);
    assert |text| - body == |Tail(block)| == |block.line| + 1 + |block.end| + 1;
    assert text[|text| - 1] == text[body..][|text| - 1 - body];
  }

  /** The block at the end of a text is matched from the newline before it, or from the start, to the very end. */
  lemma BlockAtEnd(block: Block, before: string, text: string)
    requires WellMarked(block) && text == before + Head(block) + Tail(block)
    requires before == "" || EndsWithNewline(before)
    ensures MatchEnd(block, text, if before == "" then 0 else |before| - 1) == Some(|text|)
  {
    BlockParts(block, before, text);
    BodyStartAt(block, text, |before|);
    MatchReachesTheEnd(block, text, if before == "" then 0 else |before| - 1, |before| + |Head(block)|);
  }

  lemma {:induction false} FirstMatchFound(block: Block, text: string, from: nat, index: nat)
    requires block.end != "" && from <= index && MatchEnd(block, text, index).Some?
    requires forall k: nat :: from <= k < index ==> MatchEnd(block, text, k).None?
    ensures FirstMatch(block, text, from) == Some((index, MatchEnd(block, text, index).value))
    decreases index - from
  {
    if from < index {
      FirstMatchFound(block, text, from + 1, index);
    }
  }

  lemma CompletedHasNoBlock(block: Block, existing: string)
    requires WellMarked(block) && !Contains(existing, block.start)
    ensures !Contains(Completed(existing), block.start)
  {
    var completed := Completed(existing);
    if index: nat :| OccursAt(completed, block.start, index) {
      if completed != existing {
        NoCrossing(completed, block.start, index, |existing|);
        assert existing[index..index + |block.start|] == completed[index..index + |block.start|];
      }
      assert OccursAt(existing, block.start, index);
    }
  }

  /** What is left when everything from the last newline of `before` on gives way to one newline. */
  lemma CutAtTheEnd(before: string, text: string, index: nat)
    requires before <= text && (before == "" || EndsWithNewline(before))
    requires index == if before == "" then 0 else |before| - 1
    ensures StripLeadingNewline(text[..index] + "\n" + text[|text|..]) == StripLeadingNewline(before)
  {
    var left := text[..index] + "\n" + text[|text|..];
    if before == "" {
      assert left == "\n";
    } else {
      assert left == before;
    }
  }

  lemma RemoveBlockAtEnd(block: Block, before: string, text: string)
    requires WellMarked(block) && text == before + Head(block) + Tail(block)
    requires before == "" || EndsWithNewline(before)
    requires !Contains(before, block.start)
    ensures Remove(block, text) == StripLeadingNewline(before)
  {
    BlockAtEnd(block, before, text);
    var index := if before == "" then 0 else |before| - 1;
    assert before <= text;
    forall k: nat | k < index ensures BodyStart(block, text, k).None? {
      NothingBefore(block, before, text, k);
    }
    FirstMatchFound(block, text, 0, index);
    CutAtTheEnd(before, text, index);
  }

  // ------------------------------------------------------- what is removed

  /**
    A block spans from `from`: its first line at `head`, at the start of the
    text or behind the newline at `from`, and the next end marker at `mark`.
   */
  ghost predicate Spans(block: Block, text: string, from: nat, head: nat, mark: nat) {
    && ((from == 0 && head == 0) || (head == from + 1 && from < |text| && text[from] == '\n'))
    && OccursAt(text, block.start + "\n", head)
    && head + |block.start| + 1 <= mark && OccursAt(text, block.end, mark)
    && forall k: nat :: head + |block.start| + 1 <= k < mark ==> !OccursAt(text, block.end, k)
  }

  /** It ends behind its end marker, or behind the newline that follows that. */
  function SpanEnd(block: Block, text: string, mark: nat): nat {
    var end := mark + |block.end|;
    if end < |text| && text[end] == '\n' then end + 1 else end
  }

  lemma SpanBegins(block: Block, text: string, from: nat, head: nat)
    requires WellMarked(block) && OccursAt(text, block.start + "\n", head)
    requires (from == 0 && head == 0) || (head == from + 1 && from < |text| && text[from] == '\n')
    ensures BodyStart(block, text, from) == Some(head + |block.start| + 1)
  {
    assert Head(block)[0] == '#';
    if head == from + 1 && from == 0 {
      HeadDiffers(text, Head(block), 0);
    }
  }

  lemma MatchSpans(block: Block, text: string, from: nat, head: nat, mark: nat)
    requires WellMarked(block) && Spans(block, text, from, head, mark)
    ensures MatchEnd(block, text, from) == Some(SpanEnd(block, text, mark))
  {
    SpanBegins(block, text, from, head);
    var found := IndexOf(text, block.end, head + |block.start| + 1);
    assert found == Some(mark);
  }

  lemma MatchIsSpan(block: Block, text: string, from: nat)
    requires WellMarked(block) && MatchEnd(block, text, from).Some?
    ensures exists head: nat, mark: nat :: Spans(block, text, from, head, mark)
  {
    var head := if from == 0 && OccursAt(text, Head(block), 0) then 0 else from + 1;
    var mark := IndexOf(text, block.end, BodyStart(block, text, from).value).value;
    assert Head(block) == block.start + "\n";
    assert Spans(block, text, from, head, mark);
  }

  lemma {:induction false} FirstMatchNone(block: Block, text: string, from: nat)
    requires block.end != "" && forall k: nat :: from <= k ==> MatchEnd(block, text, k).None?
    ensures FirstMatch(block, text, from) == None
    decreases |text| - from
  {
    if from < |text| {
      FirstMatchNone(block, text, from + 1);
    }
  }

  /** A text without a block is left as it is. */
  lemma NothingRemoved(text: string)
    requires forall from: nat, head: nat, mark: nat :: !Spans(MANAGED, text, from, head, mark)
    ensures RemoveManagedPathBlock(text) == text
  {
    ManagedIsWellMarked();
    forall k: nat ensures MatchEnd(MANAGED, text, k).None? {
      if MatchEnd(MANAGED, text, k).Some? {
        MatchIsSpan(MANAGED, text, k);
      }
    }
    FirstMatchNone(MANAGED, text, 0);
  }

  /** The first block, with the newline before it, gives way to one newline; one that then leads the text goes too. */
  lemma FirstBlockRemoved(text: string, from: nat, head: nat, mark: nat)
    requires Spans(MANAGED, text, from, head, mark)
    requires forall k: nat, h: nat, m: nat :: k < from ==> !Spans(MANAGED, text, k, h, m)
    ensures from <= SpanEnd(MANAGED, text, mark) <= |text|
    ensures RemoveManagedPathBlock(text) ==
      StripLeadingNewline(text[..from] + "\n" + text[SpanEnd(MANAGED, text, mark)..])
  {
    ManagedIsWellMarked();
    MatchSpans(MANAGED, text, from, head, mark);
    forall k: nat | k < from ensures MatchEnd(MANAGED, text, k).None? {
      if MatchEnd(MANAGED, text, k).Some? {
        MatchIsSpan(MANAGED, text, k);
      }
    }
    FirstMatchFound(MANAGED, text, 0, from);
  }

  /** Removing what was added leaves the text with its last line ended, less one newline if it began with one. */
  lemma RemoveAfterAdd(existing: string)
    requires !Contains(existing, MANAGED.start)
    ensures RemoveManagedPathBlock(AddManagedPathBlock(existing)) == StripLeadingNewline(Completed(existing))
  {
    ManagedIsWellMarked();
    CompletedHasNoBlock(MANAGED, existing);
    RemoveBlockAtEnd(MANAGED, Completed(existing), AddManagedPathBlock(existing));
  }

  /** The round trip gives the text back, its last line ended, exactly when it did not begin with a newline. */
  lemma RoundTripIff(existing: string)
    requires !Contains(existing, MANAGED.start)
    ensures RemoveManagedPathBlock(AddManagedPathBlock(existing)) == Completed(existing)
      <==> existing == "" || existing[0] != '\n'
  {
    RemoveAfterAdd(existing);
  }

  /** Adding twice is adding once. */
  lemma AddIdempotent(existing: string)
    ensures AddManagedPathBlock(AddManagedPathBlock(existing)) == AddManagedPathBlock(existing)
  {
    if !Contains(existing, MANAGED.start) {
      ManagedIsWellMarked();
      BlockParts(MANAGED, Completed(existing), AddManagedPathBlock(existing));
      PrefixOccurs(AddManagedPathBlock(existing), MANAGED.start, "\n", |Completed(existing)|);
    }
  }
}
