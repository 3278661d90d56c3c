/**
  Keeping signal listeners that an import adds from staying registered,
  `loadWithoutCoordinatedShutdownSignalHooks` of server/src/shutdown.ts.

  A listener registered with `once` is a wrapper that also answers to the
  function it wraps, and the emitter takes away the last entry that answers.
  So the listeners come back as they were except when the load registers a
  function both ways in an unlucky order, which is characterised exactly.
 */
module ShutdownSignals {

  /** An entry of the listener list: the function itself, or a one-shot wrapper of it. */
  datatype Listener = Plain(fn: nat) | Once(fn: nat, wrapper: nat)

  /** An entry answers to itself, and a wrapper also to the function it wraps. */
  predicate Answers(entry: Listener, to: Listener) {
    entry == to || (entry.Once? && to == Plain(entry.fn))
  }

  predicate HasAnswer(entries: seq<Listener>, to: Listener) {
    entries != [] && (Answers(entries[|entries| - 1], to) || HasAnswer(entries[..|entries| - 1], to))
  }

  /** `removeListener`: the last entry that answers goes. */
  function RemoveLast(entries: seq<Listener>, to: Listener): (left: seq<Listener>)
    ensures !HasAnswer(entries, to) ==> left == entries
    ensures HasAnswer(entries, to) ==> |left| == |entries| - 1
    ensures forall l :: l in left ==> l in entries
  {
    if entries == [] then []
    else
      var last := |entries| - 1;
      if Answers(entries[last], to) then entries[..last]
      else RemoveLast(entries[..last], to) + [entries[last]]
  }

  lemma {:induction false} RemoveLastAt(entries: seq<Listener>, to: Listener, i: nat)
    requires i <= |entries| && (i > 0 ==> Answers(entries[i - 1], to))
    requires forall j :: i <= j < |entries| ==> !Answers(entries[j], to)
    ensures RemoveLast(entries, to) == if i == 0 then entries else entries[..i - 1] + entries[i..]
    decreases |entries|
  {
    var last := |entries| - 1;
    if i <= last {
      RemoveLastAt(entries[..last], to, i);
      assert entries == entries[..last] + [entries[last]];
      assert entries[i..] == entries[..last][i..] + [entries[last]];
    } else if i > 0 {
      assert entries[i..] == [];
    }
  }

  /** Position of the first entry that is this very one. */
  function IndexOf(entries: seq<Listener>, entry: Listener): (index: int)
    ensures -1 <= index < |entries|
    ensures index >= 0 ==> entries[index] == entry && entry !in entries[..index]
    ensures index < 0 ==> entry !in entries
  {
    if entries == [] then -1
    else if entries[0] == entry then 0
    else
      var rest := IndexOf(entries[1..], entry);
      if rest < 0 then -1 else rest + 1
  }

  function Without(entries: seq<Listener>, index: nat): seq<Listener>
    requires index < |entries|
  {
    entries[..index] + entries[index + 1..]
  }

  /** The loop over the listeners found after the load. */
  function Cleaned(remaining: seq<Listener>, found: seq<Listener>, target: seq<Listener>): seq<Listener>
    decreases |found|
  {
    if found == [] then target
    else
      var index := IndexOf(remaining, found[0]);
      if index >= 0 then Cleaned(Without(remaining, index), found[1..], target)
      else Cleaned(remaining, found[1..], RemoveLast(target, found[0]))
  }

  /** The listeners after a load that turned `before` into `after`. */
  function ListenersAfter(before: seq<Listener>, after: seq<Listener>): seq<Listener> {
    Cleaned(before, after, after)
  }

  class SignalTarget {
    var listeners: seq<Listener>

    constructor (listeners: seq<Listener>)
      ensures this.listeners == listeners
    {
      this.listeners := listeners;
    }

    method RemoveListener(listener: Listener)
      modifies this
      ensures listeners == RemoveLast(old(listeners), listener)
    {
      var i := |listeners|;
      while i > 0 && !Answers(listeners[i - 1], listener)
        invariant 0 <= i <= |listeners|
        invariant forall j :: i <= j < |listeners| ==> !Answers(listeners[j], listener)
      {
        i := i - 1;
      }
      RemoveLastAt(listeners, listener, i);
      if i > 0 {
        listeners := listeners[..i - 1] + listeners[i..];
      }
    }

    /** What the `finally` block does for one signal. */
    method RemoveAdded(before: seq<Listener>)
      modifies this
      ensures listeners == ListenersAfter(before, old(listeners))
    {
      var remainingBeforeLoad := before;
      var found := listeners;
      for i := 0 to |found|
        invariant Cleaned(before, found, found) == Cleaned(remainingBeforeLoad, found[i..], listeners)
      {
        assert found[i..][1..] == found[i + 1..];
        var existingIndex := IndexOf(remainingBeforeLoad, found[i]);
        if existingIndex >= 0 {
          remainingBeforeLoad := Without(remainingBeforeLoad, existingIndex);
        } else {
          RemoveListener(found[i]);
        }
      }
    }
  }

  /** The `finally` block: each signal has its own list, and its own record of it from before the load. */
  method RemoveAddedHooks(interrupt: SignalTarget, terminate: SignalTarget,
                          interruptBefore: seq<Listener>, terminateBefore: seq<Listener>)
    requires interrupt != terminate
    modifies interrupt, terminate
    ensures interrupt.listeners == ListenersAfter(interruptBefore, old(interrupt.listeners))
    ensures terminate.listeners == ListenersAfter(terminateBefore, old(terminate.listeners))
  {
    interrupt.RemoveAdded(interruptBefore);
    terminate.RemoveAdded(terminateBefore);
  }

  // ---------------------------------------------- a load that only appends

  /** Removes the listed entries one after the other. */
  function RemoveEach(target: seq<Listener>, entries: seq<Listener>): seq<Listener>
    decreases |entries|
  {
    if entries == [] then target else RemoveEach(RemoveLast(target, entries[0]), entries[1..])
  }

  /** The listeners that were there are found and skipped; each appended one is removed. */
  lemma {:induction false} AppendedAreRemoved(before: seq<Listener>, added: seq<Listener>, target: seq<Listener>)
    ensures Cleaned(before, before + added, target) == RemoveEach(target, added)
    decreases |before| + |added|
  {
    if before != [] {
      assert IndexOf(before, before[0]) == 0;
      assert Without(before, 0) == before[1..];
      assert (before + added)[1..] == before[1..] + added;
      AppendedAreRemoved(before[1..], added, target);
    } else if added != [] {
      assert before + added == added;
      AppendedAreRemoved(before, added[1..], RemoveLast(target, added[0]));
      assert before + added[1..] == added[1..];
    }
  }

  lemma Associates(a: seq<Listener>, b: seq<Listener>, c: seq<Listener>)
    ensures a + b + c == a + (b + c)
  {
  }

  lemma {:induction false} RemoveLastSplits(a: seq<Listener>, b: seq<Listener>, to: Listener)
    ensures RemoveLast(a + b, to) == if HasAnswer(b, to) then a + RemoveLast(b, to) else RemoveLast(a, to) + b
    decreases |b|
  {
    if b == [] {
      assert a + b == a && RemoveLast(a, to) + b == RemoveLast(a, to);
    } else {
      var front, entry := b[..|b| - 1], [b[|b| - 1]];
      assert b == front + entry;
      RemoveLastSplits(a, front, to);
      RemoveLastSnoc(a + front, b[|b| - 1], to);
      RemoveLastSnoc(front, b[|b| - 1], to);
      Associates(a, front, entry);
      Associates(a, RemoveLast(front, to), entry);
      Associates(RemoveLast(a, to), front, entry);
    }
  }

  lemma RemoveLastSnoc(entries: seq<Listener>, entry: Listener, to: Listener)
    ensures RemoveLast(entries + [entry], to) ==
      if Answers(entry, to) then entries else RemoveLast(entries, to) + [entry]
    ensures HasAnswer(entries + [entry], to) <==> Answers(entry, to) || HasAnswer(entries, to)
  {
    assert (entries + [entry])[..|entries|] == entries;
  }

  // ------------------------------------------------- which appends come off

  /** How often the function itself was registered. */
  function PlainCount(entries: seq<Listener>, fn: nat): nat {
    if entries == [] then 0
    else PlainCount(entries[..|entries| - 1], fn) + if entries[|entries| - 1] == Plain(fn) then 1 else 0
  }

  /** The wrapper at `at` is the last one of its function. */
  ghost predicate LastWrapper(added: seq<Listener>, at: nat) {
    && at < |added| && added[at].Once?
    && forall j :: at < j < |added| ==> added[j].Plain? || added[j].fn != added[at].fn
  }

  /** Up to a function's last wrapper it was not registered plainly more often than after it. */
  ghost predicate ComesOff(added: seq<Listener>) {
    forall at: nat {:trigger LastWrapper(added, at)} :: LastWrapper(added, at) ==>
      PlainCount(added[..at], added[at].fn) <= PlainCount(added[at + 1..], added[at].fn)
  }

  /** Each `once` makes a wrapper of its own. */
  ghost predicate FreshWrappers(before: seq<Listener>, added: seq<Listener>) {
    forall i :: 0 <= i < |added| && added[i].Once? ==>
      added[i] !in before && forall j :: 0 <= j < |added| && j != i ==> added[j] != added[i]
  }

  lemma {:induction false} PlainCountAdds(a: seq<Listener>, b: seq<Listener>, fn: nat)
    ensures PlainCount(a + b, fn) == PlainCount(a, fn) + PlainCount(b, fn)
    decreases |b|
  {
    if b == [] {
      assert a + b == a;
    } else {
      assert (a + b)[..|a + b| - 1] == a + b[..|b| - 1];
      PlainCountAdds(a, b[..|b| - 1], fn);
    }
  }

  /** The counts before, at and after a position. */
  lemma {:induction false} PlainCountAt(entries: seq<Listener>, at: nat, fn: nat)
    requires at < |entries|
    ensures PlainCount(entries[..at + 1], fn) == PlainCount(entries[..at], fn) + if entries[at] == Plain(fn) then 1 else 0
    ensures PlainCount(entries, fn) == PlainCount(entries[..at + 1], fn) + PlainCount(entries[at + 1..], fn)
  {
    assert entries[..at + 1][..at] == entries[..at];
    assert entries == entries[..at + 1] + entries[at + 1..];
    PlainCountAdds(entries[..at + 1], entries[at + 1..], fn);
  }

  lemma {:induction false} PlainCountGrows(entries: seq<Listener>, i: nat, j: nat, fn: nat)
    requires i <= j <= |entries|
    ensures PlainCount(entries[..i], fn) <= PlainCount(entries[..j], fn) <= PlainCount(entries, fn)
    ensures i < j && entries[i] == Plain(fn) ==> PlainCount(entries[..i], fn) < PlainCount(entries[..j], fn)
  {
    assert entries[..j] == entries[..i] + entries[i..j] && entries == entries[..j] + entries[j..];
    PlainCountAdds(entries[..i], entries[i..j], fn);
    PlainCountAdds(entries[..j], entries[j..], fn);
    if i < j {
      PlainCountAdds([entries[i]], entries[i + 1..j], fn);
      assert entries[i..j] == [entries[i]] + entries[i + 1..j];
      assert [entries[i]][..0] == [];
    }
  }

  lemma {:induction false} NthPlain(entries: seq<Listener>, fn: nat, rank: nat) returns (at: nat)
    requires rank < PlainCount(entries, fn)
    ensures at < |entries| && entries[at] == Plain(fn) && PlainCount(entries[..at], fn) == rank
    decreases |entries|
  {
    var last := |entries| - 1;
    if rank == PlainCount(entries[..last], fn) {
      at := last;
    } else {
      at := NthPlain(entries[..last], fn, rank);
      assert entries[..last][..at] == entries[..at];
    }
  }

  function Select(entries: seq<Listener>, keep: seq<bool>): seq<Listener>
    requires |entries| == |keep|
  {
    if entries == [] then []
    else
      var last := |entries| - 1;
      Select(entries[..last], keep[..last]) + if keep[last] then [entries[last]] else []
  }

  /** Removing takes the last selected entry that answers out of the selection. */
  lemma {:induction false} SelectRemoves(entries: seq<Listener>, keep: seq<bool>, to: Listener, at: nat)
    requires |entries| == |keep| && at < |entries| && keep[at] && Answers(entries[at], to)
    requires forall j :: at < j < |entries| && keep[j] ==> !Answers(entries[j], to)
    ensures HasAnswer(Select(entries, keep), to)
    ensures RemoveLast(Select(entries, keep), to) == Select(entries, keep[at := false])
  {
    var last := |entries| - 1;
    var front := Select(entries[..last], keep[..last]);
    if keep[last] {
      RemoveLastSnoc(front, entries[last], to);
    } else {
      assert front + [] == front;
    }
    if at == last {
      assert keep[at := false][..last] == keep[..last];
      assert front + [] == front;
    } else {
      SelectRemoves(entries[..last], keep[..last], to, at);
      assert keep[at := false][..last] == keep[..last][at := false];
    }
  }

  /**
    After the first `done` removals of a list that comes off, wrappers whose
    turn is still to come are left, and of the plain entries those at the front.
   */
  predicate Left(added: seq<Listener>, done: nat, j: nat)
    requires done <= |added| && j < |added|
  {
    if added[j].Once? then j >= done
    else PlainCount(added[..j], added[j].fn) + PlainCount(added[..done], added[j].fn) < PlainCount(added, added[j].fn)
  }

  function Mask(added: seq<Listener>, done: nat): (mask: seq<bool>)
    requires done <= |added|
    ensures |mask| == |added|
  {
    seq(|added|, j requires 0 <= j < |added| => Left(added, done, j))
  }

  /** Plain entries of one function have different ranks. */
  lemma RanksDiffer(added: seq<Listener>, at: nat, j: nat, fn: nat)
    requires at < |added| && j < |added| && added[at] == added[j] == Plain(fn) && at != j
    ensures PlainCount(added[..j], fn) != PlainCount(added[..at], fn)
    ensures at < j <==> PlainCount(added[..at], fn) < PlainCount(added[..j], fn)
  {
    if j < at {
      PlainCountGrows(added, j, at, fn);
    } else {
      PlainCountGrows(added, at, j, fn);
    }
  }

  /** A removal of `at` and nothing else. */
  ghost predicate GoesNext(added: seq<Listener>, done: nat, at: nat)
    requires done < |added|
  {
    && at < |added| && Left(added, done, at) && Answers(added[at], added[done])
    && (forall j: nat :: at < j < |added| && Left(added, done, j) ==> !Answers(added[j], added[done]))
    && (forall j: nat :: j < |added| ==> (Left(added, done + 1, j) <==> Left(added, done, j) && j != at))
  }

  lemma WrapperGoesNext(before: seq<Listener>, added: seq<Listener>, done: nat)
    requires FreshWrappers(before, added) && done < |added| && added[done].Once?
    ensures GoesNext(added, done, done)
  {
    forall j: nat | j < |added| && j != done ensures Left(added, done + 1, j) <==> Left(added, done, j) {
      PlainCountAt(added, done, added[j].fn);
    }
  }

  lemma PlainGoesNext(added: seq<Listener>, done: nat) returns (at: nat)
    requires ComesOff(added) && done < |added| && added[done].Plain?
    ensures GoesNext(added, done, at)
  {
    var fn := added[done].fn;
    PlainCountAt(added, done, fn);
    at := NthPlain(added, fn, PlainCount(added, fn) - PlainCount(added[..done], fn) - 1);
    forall j: nat | at < j < |added| && Left(added, done, j) ensures !Answers(added[j], added[done]) {
      if added[j].Once? && added[j].fn == fn {
        WrapperAfter(added, done, at, j);
      } else if added[j] == Plain(fn) {
        RanksDiffer(added, at, j, fn);
      }
    }
    forall j: nat | j < |added| ensures Left(added, done + 1, j) <==> Left(added, done, j) && j != at {
      PlainCountAt(added, done, added[j].fn);
      if added[j] == Plain(fn) && j != at {
        RanksDiffer(added, at, j, fn);
      }
    }
  }

  lemma NextToGo(before: seq<Listener>, added: seq<Listener>, done: nat) returns (at: nat)
    requires FreshWrappers(before, added) && ComesOff(added) && done < |added|
    ensures GoesNext(added, done, at)
  {
    if added[done].Once? {
      at := done;
      WrapperGoesNext(before, added, done);
    } else {
      at := PlainGoesNext(added, done);
    }
  }

  lemma {:induction false} LastWrapperFrom(added: seq<Listener>, j: nat) returns (at: nat)
    requires j < |added| && added[j].Once?
    ensures j <= at && LastWrapper(added, at) && added[at].fn == added[j].fn
    decreases |added| - j
  {
    if k :| j < k < |added| && added[k].Once? && added[k].fn == added[j].fn {
      at := LastWrapperFrom(added, k);
    } else {
      at := j;
    }
  }

  /** No wrapper stands behind the plain entry that is next to go. */
  lemma {:induction false} WrapperAfter(added: seq<Listener>, done: nat, at: nat, j: nat)
    requires ComesOff(added) && done < |added| && at < j < |added|
    requires added[done].Plain? && added[at] == added[done] && added[j].Once? && added[j].fn == added[done].fn
    requires PlainCount(added[..at], added[done].fn) + PlainCount(added[..done], added[done].fn) + 1 == PlainCount(added, added[done].fn)
    ensures j < done
  {
    if done <= j {
      var last := LastWrapperFrom(added, j);
      TwoBeforeWrapper(added, done, at, last, added[done].fn);
    }
  }

  /** Two plain entries before a function's last wrapper: the counts before them leave room for both. */
  lemma TwoBeforeWrapper(added: seq<Listener>, done: nat, at: nat, last: nat, fn: nat)
    requires ComesOff(added) && LastWrapper(added, last) && added[last].fn == fn
    requires done < last && at < last && added[done] == added[at] == Plain(fn)
    ensures PlainCount(added[..at], fn) + PlainCount(added[..done], fn) + 1 < PlainCount(added, fn)
  {
    PlainCountGrows(added, at, last, fn);
    PlainCountGrows(added, done, last, fn);
    PlainCountAt(added, last, fn);
  }

  lemma {:induction false} SelectAll(entries: seq<Listener>, keep: seq<bool>)
    requires |entries| == |keep| && forall j :: 0 <= j < |keep| ==> keep[j]
    ensures Select(entries, keep) == entries
  {
    if entries != [] {
      SelectAll(entries[..|entries| - 1], keep[..|entries| - 1]);
    }
  }

  lemma {:induction false} SelectNone(entries: seq<Listener>, keep: seq<bool>)
    requires |entries| == |keep| && forall j :: 0 <= j < |keep| ==> !keep[j]
    ensures Select(entries, keep) == []
  {
    if entries != [] {
      SelectNone(entries[..|entries| - 1], keep[..|entries| - 1]);
    }
  }

  /** What is left of the appended entries after `done` removals. */
  function Remaining(added: seq<Listener>, done: nat): seq<Listener>
    requires done <= |added|
  {
    Select(added, Mask(added, done))
  }

  lemma OneGoes(before: seq<Listener>, added: seq<Listener>, done: nat)
    requires FreshWrappers(before, added) && ComesOff(added) && done < |added|
    ensures RemoveLast(before + Remaining(added, done), added[done]) == before + Remaining(added, done + 1)
  {
    var at := NextToGo(before, added, done);
    MaskStep(added, done, at);
    RemoveLastSplits(before, Remaining(added, done), added[done]);
  }

  lemma MaskStep(added: seq<Listener>, done: nat, at: nat)
    requires done < |added| && GoesNext(added, done, at)
    ensures HasAnswer(Remaining(added, done), added[done])
    ensures RemoveLast(Remaining(added, done), added[done]) == Remaining(added, done + 1)
  {
    assert Mask(added, done + 1) == Mask(added, done)[at := false];
    SelectRemoves(added, Mask(added, done), added[done], at);
  }

  lemma {:induction false} RemovedFrom(before: seq<Listener>, added: seq<Listener>, done: nat)
    requires FreshWrappers(before, added) && ComesOff(added) && done <= |added|
    ensures RemoveEach(before + Remaining(added, done), added[done..]) == before
    decreases |added| - done
  {
    if done < |added| {
      OneGoes(before, added, done);
      RemovedFrom(before, added, done + 1);
      assert added[done..][1..] == added[done + 1..];
    } else {
      assert added[..|added|] == added;
      SelectNone(added, Mask(added, done));
      assert before + [] == before;
    }
  }

  /** A load that only appends, and whose appends come off, leaves the listeners as they were. */
  lemma RestoredIfComesOff(before: seq<Listener>, added: seq<Listener>)
    requires FreshWrappers(before, added) && ComesOff(added)
    ensures ListenersAfter(before, before + added) == before
  {
    AppendedAreRemoved(before, added, before + added);
    forall j | 0 <= j < |added| ensures Mask(added, 0)[j] {
      PlainCountAt(added, j, added[j].fn);
      PlainCountGrows(added, j, j + 1, added[j].fn);
    }
    SelectAll(added, Mask(added, 0));
    RemovedFrom(before, added, 0);
    assert added[0..] == added;
  }

  // ----------------------------------------------------- and when they do not

  /** The wrapper stands once in the list, and no other wrapper of its function behind it. */
  ghost predicate StandsBetween(front: seq<Listener>, wrapper: Listener, back: seq<Listener>) {
    && wrapper.Once? && wrapper !in front && wrapper !in back
    && forall i :: 0 <= i < |back| ==> back[i].Plain? || back[i].fn != wrapper.fn
  }

  lemma {:induction false} RemoveLastCounts(entries: seq<Listener>, to: Listener, fn: nat)
    requires forall i :: 0 <= i < |entries| ==> entries[i].Plain? || entries[i].fn != fn
    ensures PlainCount(RemoveLast(entries, to), fn) ==
      PlainCount(entries, fn) - if to == Plain(fn) && HasAnswer(entries, to) then 1 else 0
    ensures to == Plain(fn) ==> (HasAnswer(entries, to) <==> PlainCount(entries, fn) > 0)
    ensures forall i :: 0 <= i < |RemoveLast(entries, to)| ==>
      RemoveLast(entries, to)[i].Plain? || RemoveLast(entries, to)[i].fn != fn
    decreases |entries|
  {
    if entries != [] {
      var last := |entries| - 1;
      RemoveLastCounts(entries[..last], to, fn);
      if !Answers(entries[last], to) {
        PlainCountAdds(RemoveLast(entries[..last], to), [entries[last]], fn);
        assert [entries[last]][..0] == [];
      }
    }
  }

  /** One removal before the wrapper's own turn: it uses up a plain entry behind the wrapper, or takes the wrapper. */
  lemma RemovalPassesWrapper(front: seq<Listener>, wrapper: Listener, back: seq<Listener>, to: Listener)
    returns (frontAfter: seq<Listener>, backAfter: seq<Listener>, gone: bool)
    requires StandsBetween(front, wrapper, back) && to != wrapper
    ensures gone ==> wrapper !in RemoveLast(front + [wrapper] + back, to)
    ensures !gone ==>
      && RemoveLast(front + [wrapper] + back, to) == frontAfter + [wrapper] + backAfter
      && StandsBetween(frontAfter, wrapper, backAfter)
      && PlainCount(backAfter, wrapper.fn) == PlainCount(back, wrapper.fn) - if to == Plain(wrapper.fn) then 1 else 0
  {
    frontAfter, backAfter, gone := front, back, false;
    RemoveLastCounts(back, to, wrapper.fn);
    RemoveLastSplits(front + [wrapper], back, to);
    RemoveLastSnoc(front, wrapper, to);
    if HasAnswer(back, to) {
      backAfter := RemoveLast(back, to);
    } else if to == Plain(wrapper.fn) {
      gone := true;
    } else {
      frontAfter := RemoveLast(front, to);
    }
  }

  lemma {:induction false} RemovesAtMost(target: seq<Listener>, entries: seq<Listener>)
    ensures |RemoveEach(target, entries)| >= |target| - |entries|
    decreases |entries|
  {
    if entries != [] {
      RemovesAtMost(RemoveLast(target, entries[0]), entries[1..]);
    }
  }

  lemma {:induction false} OnlyItselfAnswers(entries: seq<Listener>, wrapper: Listener)
    requires wrapper.Once? && wrapper !in entries
    ensures !HasAnswer(entries, wrapper)
  {
    if entries != [] {
      OnlyItselfAnswers(entries[..|entries| - 1], wrapper);
    }
  }

  /** A wrapper that is gone when its turn comes makes that turn take nothing. */
  lemma {:induction false} GoneWastesTurn(target: seq<Listener>, entries: seq<Listener>, at: nat)
    requires at < |entries| && entries[at].Once? && entries[at] !in target
    ensures |RemoveEach(target, entries)| > |target| - |entries|
    decreases |entries|
  {
    if at == 0 {
      OnlyItselfAnswers(target, entries[0]);
      RemovesAtMost(target, entries[1..]);
    } else {
      GoneWastesTurn(RemoveLast(target, entries[0]), entries[1..], at - 1);
    }
  }

  /** And with too few plain entries behind it, it is gone by then. */
  lemma {:induction false} OneTurnWasted(front: seq<Listener>, back: seq<Listener>, entries: seq<Listener>, at: nat)
    requires at < |entries| && StandsBetween(front, entries[at], back) && entries[at] !in entries[..at]
    requires PlainCount(back, entries[at].fn) < PlainCount(entries[..at], entries[at].fn)
    ensures |RemoveEach(front + [entries[at]] + back, entries)| > |front| + 1 + |back| - |entries|
    decreases |entries|
  {
    var wrapper := entries[at];
    if at > 0 {
      var rest := entries[1..];
      CountOfTail(entries, at, wrapper.fn);
      assert entries[0] in entries[..at];
      var frontAfter, backAfter, gone := RemovalPassesWrapper(front, wrapper, back, entries[0]);
      if gone {
        GoneWastesTurn(RemoveLast(front + [wrapper] + back, entries[0]), rest, at - 1);
      } else {
        assert wrapper !in rest[..at - 1] by {
          assert rest[..at - 1] == entries[..at][1..];
        }
        OneTurnWasted(frontAfter, backAfter, rest, at - 1);
      }
    }
  }

  lemma CountOfTail(entries: seq<Listener>, at: nat, fn: nat)
    requires 0 < at <= |entries|
    ensures PlainCount(entries[..at], fn) ==
      (if entries[0] == Plain(fn) then 1 else 0) + PlainCount(entries[1..][..at - 1], fn)
  {
    assert entries[..at] == [entries[0]] + entries[1..][..at - 1] && [entries[0]][..0] == [];
    PlainCountAdds([entries[0]], entries[1..][..at - 1], fn);
  }

  lemma NotRestoredUnlessComesOff(before: seq<Listener>, added: seq<Listener>)
    requires FreshWrappers(before, added) && !ComesOff(added)
    ensures ListenersAfter(before, before + added) != before
  {
    var at: nat :| LastWrapper(added, at) && PlainCount(added[..at], added[at].fn) > PlainCount(added[at + 1..], added[at].fn);
    NotRestoredAt(before, added, at);
  }

  lemma NotRestoredAt(before: seq<Listener>, added: seq<Listener>, at: nat)
    requires FreshWrappers(before, added) && LastWrapper(added, at)
    requires PlainCount(added[..at], added[at].fn) > PlainCount(added[at + 1..], added[at].fn)
    ensures ListenersAfter(before, before + added) != before
  {
    var front, back := before + added[..at], added[at + 1..];
    assert before + added == front + [added[at]] + back;
    AppendedAreRemoved(before, added, before + added);
    OneTurnWasted(front, back, added, at);
  }

  /**
    If the load only appends, the listeners come back as they were exactly when
    no function it also registered with `once` was registered plainly more often
    before its last wrapper than after it.
   */
  lemma RestoredIff(before: seq<Listener>, added: seq<Listener>)
    requires FreshWrappers(before, added)
    ensures ListenersAfter(before, before + added) == before <==> ComesOff(added)
  {
    if ComesOff(added) {
      RestoredIfComesOff(before, added);
    } else {
      NotRestoredUnlessComesOff(before, added);
    }
  }

  /** Registering each function in one way only is always undone, duplicates included. */
  lemma OneWayIsRestored(before: seq<Listener>, added: seq<Listener>)
    requires FreshWrappers(before, added)
    requires forall i, j :: 0 <= i < |added| && 0 <= j < |added| && added[i].Plain? && added[j].Once? ==> added[i].fn != added[j].fn
    ensures ListenersAfter(before, before + added) == before
  {
    forall at: nat | LastWrapper(added, at) ensures PlainCount(added[..at], added[at].fn) == 0 {
      NoPlain(added[..at], added[at].fn);
    }
    RestoredIff(before, added);
  }

  lemma {:induction false} NoPlain(entries: seq<Listener>, fn: nat)
    requires forall i :: 0 <= i < |entries| ==> entries[i] != Plain(fn)
    ensures PlainCount(entries, fn) == 0
  {
    if entries != [] {
      NoPlain(entries[..|entries| - 1], fn);
    }
  }

  /** A function registered plainly and then once does not come off. */
  lemma PlainThenOnceStays(fn: nat, wrapper: nat, before: seq<Listener>)
    requires Once(fn, wrapper) !in before
    ensures var added := [Plain(fn), Once(fn, wrapper)]; ListenersAfter(before, before + added) != before
  {
    var added := [Plain(fn), Once(fn, wrapper)];
    assert LastWrapper(added, 1);
    PlainCountAt(added, 1, fn);
    assert added[..1][..0] == [] && added[1 + 1..] == [];
    RestoredIff(before, added);
  }
}
