/**
  The install-store lock of cli/src/install-store.ts as a protocol over file
  system calls.  Each contender is one process with its own token; between any
  two calls any other process may run, and any process may crash.

  The code reads the owner, asks whether it lives, and unlinks in three
  separate calls.  Exclusion therefore needs that a reclaimer's unlink finds a
  dead owner's token in the file; the lemmas give the exact condition, a
  discipline that implies it, and runs that break it.
 */
module InstallLock {

  type Token = nat

  datatype Option<+T> = None | Some(value: T)

  /** The next call a contender makes.  `deadAtRead` remembers whether the owner was dead when the file was read. */
  datatype Pc =
    | Linking
    | Reading
    | Judging(owner: Token, deadAtRead: bool)
    | Unlinking(owner: Token, deadAtRead: bool)
    | InCallback
    | Releasing
    | Refused
    | Finished

  datatype State = State(file: Option<Token>, pcs: map<Token, Pc>, alive: set<Token>)

  datatype Event =
    | Begin(contender: Token)
    | Link(contender: Token)
    | Read(contender: Token)
    | Judge(contender: Token)
    | Unlink(contender: Token)
    | Leave(contender: Token)
    | Release(contender: Token)
    | Crash(contender: Token)

  const INITIAL := State(None, map[], {})

  predicate At(s: State, c: Token, pc: Pc) {
    c in s.pcs && s.pcs[c] == pc
  }

  predicate Enabled(s: State, e: Event) {
    match e
    case Begin(c) => c !in s.pcs
    case Link(c) => c in s.alive && At(s, c, Linking)
    case Read(c) => c in s.alive && At(s, c, Reading)
    case Judge(c) => c in s.alive && c in s.pcs && s.pcs[c].Judging?
    case Unlink(c) => c in s.alive && c in s.pcs && s.pcs[c].Unlinking?
    case Leave(c) => c in s.alive && At(s, c, InCallback)
    case Release(c) => c in s.alive && At(s, c, Releasing)
    case Crash(c) => c in s.alive
  }

  function Goto(s: State, c: Token, pc: Pc): State {
    s.(pcs := s.pcs[c := pc])
  }

  function Step(s: State, e: Event): State
    requires Enabled(s, e)
  {
    match e
    case Begin(c) =>
      // The temporary file with the token is written.
      Goto(s, c, Linking).(alive := s.alive + {c})
    case Link(c) =>
      if s.file == None then Goto(s, c, InCallback).(file := Some(c)) else Goto(s, c, Reading)
    case Read(c) =>
      // A lock file that has gone meanwhile makes the read throw.
      if s.file == None then Goto(s, c, Refused)
      else Goto(s, c, Judging(s.file.value, s.file.value !in s.alive))
    case Judge(c) =>
      var Judging(owner, deadAtRead) := s.pcs[c];
      if owner in s.alive then Goto(s, c, Refused) else Goto(s, c, Unlinking(owner, deadAtRead))
    case Unlink(c) =>
      // Deletes whatever the file holds by now, and tries to link again.
      if s.file == None then Goto(s, c, Refused) else Goto(s, c, Linking).(file := None)
    case Leave(c) =>
      Goto(s, c, if s.file == Some(c) then Releasing else Finished)
    case Release(c) =>
      Goto(s, c, Finished).(file := None)
    case Crash(c) =>
      s.(alive := s.alive - {c})
  }

  // --------------------------------------------------------------- invariant

  predicate Owning(pc: Pc) {
    pc.InCallback? || pc.Releasing?
  }

  ghost predicate Exclusive(s: State) {
    forall c, d :: c in s.alive && d in s.alive && At(s, c, InCallback) && At(s, d, InCallback) ==> c == d
  }

  /** The lock file names a contender that linked it, and everybody alive was started. */
  ghost predicate WellFormed(s: State) {
    && s.alive <= s.pcs.Keys
    && (s.file.Some? ==> s.file.value in s.pcs && Owning(s.pcs[s.file.value]))
  }

  /** Whoever is alive and past its link finds its own token in the lock file. */
  ghost predicate OwnersHoldFile(s: State) {
    forall c :: c in s.alive && c in s.pcs && Owning(s.pcs[c]) ==> s.file == Some(c)
  }

  lemma OwnersHoldFileExcludes(s: State)
    requires OwnersHoldFile(s)
    ensures Exclusive(s)
    ensures forall c: nat :: Enabled(s, Release(c)) ==> s.file == Some(c)
  {
  }

  lemma StepKeepsWellFormed(s: State, e: Event)
    requires WellFormed(s) && OwnersHoldFile(s) && Enabled(s, e)
    ensures WellFormed(Step(s, e))
  {
  }

  /** What a reclaimer's unlink would have to check first: the file names no living process. */
  predicate FileIsDead(s: State) {
    s.file.Some? ==> s.file.value !in s.alive
  }

  /**
    The exact condition, step by step: every other call keeps the invariant,
    and an unlink keeps it if and only if the file it deletes is a dead owner's.
   */
  lemma StepKeepsOwners(s: State, e: Event)
    requires WellFormed(s) && OwnersHoldFile(s) && Enabled(s, e)
    ensures !e.Unlink? ==> OwnersHoldFile(Step(s, e))
    ensures e.Unlink? ==> (OwnersHoldFile(Step(s, e)) <==> FileIsDead(s))
  {
    if e.Unlink? && !FileIsDead(s) {
      var owner := s.file.value;
      var next := Step(s, e);
      assert owner in next.alive && Owning(s.pcs[owner]);
      assert next.file == None;
      assert owner != e.contender;
    }
  }

  /**
    An unlink that deletes a living owner's token does break the lock: the
    reclaimer links at once, while the owner is still in its callback or is
    about to delete a token that is no longer its own.
   */
  lemma LiveUnlinkBreaksTheLock(s: State, c: Token)
    requires WellFormed(s) && OwnersHoldFile(s) && Enabled(s, Unlink(c)) && !FileIsDead(s)
    ensures var owner := s.file.value; var unlinked := Step(s, Unlink(c));
      && Enabled(unlinked, Link(c))
      && var linked := Step(unlinked, Link(c));
         (At(linked, owner, InCallback) && !Exclusive(linked))
         || (Enabled(linked, Release(owner)) && linked.file == Some(c) != Some(owner))
  {
    var owner := s.file.value;
    var linked := Step(Step(s, Unlink(c)), Link(c));
    assert owner != c;
    assert linked.pcs[owner] == s.pcs[owner];
    assert At(linked, c, InCallback) && c in linked.alive && owner in linked.alive;
  }

  // ------------------------------------------------------------------- runs

  ghost predicate Run(states: seq<State>, events: seq<Event>) {
    && |states| == |events| + 1 && states[0] == INITIAL
    && forall k :: 0 <= k < |events| ==> Enabled(states[k], events[k]) && states[k + 1] == Step(states[k], events[k])
  }

  /** Every unlink of the run deletes a dead owner's token. */
  ghost predicate UnlinksOnlyDead(states: seq<State>, events: seq<Event>)
    requires |states| == |events| + 1
  {
    forall k :: 0 <= k < |events| && events[k].Unlink? ==> FileIsDead(states[k])
  }

  /** Over all runs: the owners hold the file throughout if and only if no unlink deletes a living owner's token. */
  lemma {:induction false} ExclusionExactly(states: seq<State>, events: seq<Event>)
    requires Run(states, events)
    ensures UnlinksOnlyDead(states, events) <==> forall k :: 0 <= k < |states| ==> OwnersHoldFile(states[k])
    ensures UnlinksOnlyDead(states, events) ==> forall k :: 0 <= k < |states| ==> Exclusive(states[k])
  {
    if UnlinksOnlyDead(states, events) {
      forall k | 0 <= k < |states| ensures OwnersHoldFile(states[k]) && Exclusive(states[k]) {
        OwnersThroughout(states, events, k);
        OwnersHoldFileExcludes(states[k]);
      }
    } else if forall k :: 0 <= k < |states| ==> OwnersHoldFile(states[k]) {
      var k :| 0 <= k < |events| && events[k].Unlink? && !FileIsDead(states[k]);
      WellFormedThroughout(states, events, k);
      assert OwnersHoldFile(states[k]) && OwnersHoldFile(states[k + 1]);
      StepKeepsOwners(states[k], events[k]);
    }
  }

  lemma {:induction false} OwnersThroughout(states: seq<State>, events: seq<Event>, k: nat)
    requires Run(states, events) && k < |states|
    requires forall j :: 0 <= j < k && events[j].Unlink? ==> FileIsDead(states[j])
    ensures WellFormed(states[k]) && OwnersHoldFile(states[k])
  {
    if k > 0 {
      OwnersThroughout(states, events, k - 1);
      StepKeepsOwners(states[k - 1], events[k - 1]);
      StepKeepsWellFormed(states[k - 1], events[k - 1]);
    }
  }

  lemma {:induction false} WellFormedThroughout(states: seq<State>, events: seq<Event>, k: nat)
    requires Run(states, events) && k < |states|
    requires forall j :: 0 <= j < k ==> OwnersHoldFile(states[j])
    ensures WellFormed(states[k])
  {
    if k > 0 {
      WellFormedThroughout(states, events, k - 1);
      StepKeepsWellFormed(states[k - 1], events[k - 1]);
    }
  }

  // -------------------------------------------------------------- discipline

  /** Between reading a dead owner and unlinking. */
  predicate Reclaiming(pc: Pc) {
    (pc.Judging? && pc.deadAtRead) || pc.Unlinking?
  }

  ghost predicate OneReclaimer(s: State) {
    forall c, d :: c in s.alive && d in s.alive && c in s.pcs && d in s.pcs ==>
      Reclaiming(s.pcs[c]) && Reclaiming(s.pcs[d]) ==> c == d
  }

  /** Nobody condemns an owner that still lived when its token was read. */
  ghost predicate CondemnsOnlyDead(s: State) {
    forall c :: c in s.alive && c in s.pcs && s.pcs[c].Unlinking? ==> s.pcs[c].deadAtRead
  }

  /** While a reclaimer is at work the file keeps the dead token it read. */
  ghost predicate ReclaimersSeeFile(s: State) {
    forall c :: c in s.alive && c in s.pcs && Reclaiming(s.pcs[c]) ==>
      s.pcs[c].owner !in s.alive && s.file == Some(s.pcs[c].owner)
  }

  /** Tokens are never reused, so a dead owner stays dead. */
  lemma StepKeepsReclaimers(s: State, e: Event)
    requires WellFormed(s) && OwnersHoldFile(s) && ReclaimersSeeFile(s) && OneReclaimer(s) && CondemnsOnlyDead(s)
    requires Enabled(s, e)
    requires CondemnsOnlyDead(Step(s, e))
    ensures ReclaimersSeeFile(Step(s, e))
    ensures e.Unlink? ==> FileIsDead(s)
  {
    var next := Step(s, e);
    forall c | c in next.alive && c in next.pcs && Reclaiming(next.pcs[c])
      ensures next.pcs[c].owner !in next.alive && next.file == Some(next.pcs[c].owner)
    {
      if c != e.contender || e.Crash? {
        assert s.pcs[c] == next.pcs[c] && c in s.alive;
        assert s.file == Some(s.pcs[c].owner);
      }
    }
  }

  /**
    With at most one reclaimer at a time, and no owner condemned that lived
    when it was read, no two living processes run the callback together and a
    release deletes only the releaser's own token.
   */
  lemma DisciplineExcludes(states: seq<State>, events: seq<Event>)
    requires Run(states, events)
    requires forall k :: 0 <= k < |states| ==> OneReclaimer(states[k]) && CondemnsOnlyDead(states[k])
    ensures forall k :: 0 <= k < |states| ==> Exclusive(states[k])
    ensures forall k :: 0 <= k < |events| && events[k].Release? ==> states[k].file == Some(events[k].contender)
  {
    forall k | 0 <= k < |states| ensures OwnersHoldFile(states[k]) && Exclusive(states[k]) {
      DisciplineThroughout(states, events, k);
      OwnersHoldFileExcludes(states[k]);
    }
  }

  lemma {:induction false} DisciplineThroughout(states: seq<State>, events: seq<Event>, k: nat)
    requires Run(states, events) && k < |states|
    requires forall j :: 0 <= j < |states| ==> OneReclaimer(states[j]) && CondemnsOnlyDead(states[j])
    ensures WellFormed(states[k]) && OwnersHoldFile(states[k]) && ReclaimersSeeFile(states[k])
  {
    if k > 0 {
      DisciplineThroughout(states, events, k - 1);
      assert states[k] == Step(states[k - 1], events[k - 1]);
      StepKeepsReclaimers(states[k - 1], events[k - 1]);
      StepKeepsOwners(states[k - 1], events[k - 1]);
      StepKeepsWellFormed(states[k - 1], events[k - 1]);
    }
  }

  // -------------------------------------------------- a contender by itself

  /** The states a contender goes through when nobody else takes a step. */
  ghost predicate Alone(s: State, events: seq<Event>, end: State)
    decreases |events|
  {
    if events == [] then s == end else Enabled(s, events[0]) && Alone(Step(s, events[0]), events[1..], end)
  }

  lemma AloneStep(s: State, e: Event, rest: seq<Event>, end: State)
    requires Enabled(s, e) && Alone(Step(s, e), rest, end)
    ensures Alone(s, [e] + rest, end)
  {
    assert ([e] + rest)[1..] == rest;
  }

  /** A free lock is taken, and given back behind the callback. */
  lemma FreeLockIsTaken(s: State, c: Token)
    requires c in s.alive && At(s, c, Linking) && s.file == None
    ensures var held := s.(file := Some(c), pcs := s.pcs[c := InCallback]);
      Alone(s, [Link(c)], held) && Alone(held, [Leave(c), Release(c)], s.(pcs := s.pcs[c := Finished]))
  {
    var held := Step(s, Link(c));
    var left := Step(held, Leave(c));
    var released := Step(left, Release(c));
    assert released.pcs == s.pcs[c := Finished];
    assert Alone(released, [], released);
    AloneStep(left, Release(c), [], released);
    AloneStep(held, Leave(c), [Release(c)], released);
    AloneStep(s, Link(c), [], held);
  }

  /** A lock whose owner is dead is reclaimed and taken. */
  lemma StaleLockIsReclaimed(s: State, c: Token)
    requires c in s.alive && At(s, c, Linking) && s.file.Some? && s.file.value !in s.alive
    ensures Alone(s, [Link(c), Read(c), Judge(c), Unlink(c), Link(c)], s.(file := Some(c), pcs := s.pcs[c := InCallback]))
  {
    var s1 := Step(s, Link(c));
    var s2 := Step(s1, Read(c));
    var s3 := Step(s2, Judge(c));
    var s4 := Step(s3, Unlink(c));
    var s5 := Step(s4, Link(c));
    assert s5.pcs == s.pcs[c := InCallback];
    AloneStep(s4, Link(c), [], s5);
    AloneStep(s3, Unlink(c), [Link(c)], s5);
    AloneStep(s2, Judge(c), [Unlink(c), Link(c)], s5);
    AloneStep(s1, Read(c), [Judge(c), Unlink(c), Link(c)], s5);
    AloneStep(s, Link(c), [Read(c), Judge(c), Unlink(c), Link(c)], s5);
  }

  /** A lock whose owner lives is left alone, and the contender is refused. */
  lemma LiveLockRefuses(s: State, c: Token)
    requires c in s.alive && At(s, c, Linking) && s.file.Some? && s.file.value in s.alive
    ensures Alone(s, [Link(c), Read(c), Judge(c)], s.(pcs := s.pcs[c := Refused]))
  {
    var s1 := Step(s, Link(c));
    var s2 := Step(s1, Read(c));
    var s3 := Step(s2, Judge(c));
    assert s3.pcs == s.pcs[c := Refused];
    AloneStep(s2, Judge(c), [], s3);
    AloneStep(s1, Read(c), [Judge(c)], s3);
    AloneStep(s, Link(c), [Read(c), Judge(c)], s3);
  }

  /** A lock file that has gone refuses whoever was about to read or unlink it, and one that names another is not released. */
  lemma VanishedFile(s: State, c: Token)
    requires c in s.alive && c in s.pcs
    ensures s.file == None && Enabled(s, Read(c)) ==> Step(s, Read(c)) == s.(pcs := s.pcs[c := Refused])
    ensures s.file == None && Enabled(s, Unlink(c)) ==> Step(s, Unlink(c)) == s.(pcs := s.pcs[c := Refused])
    ensures s.file != Some(c) && Enabled(s, Leave(c)) ==> Step(s, Leave(c)) == s.(pcs := s.pcs[c := Finished])
  {
  }

  // ---------------------------------------------------------- a broken run

  /** One reclaimer only: it reads a living owner, which releases and exits before anybody asks for it. */
  const OWNER_LEAVES := [
    Begin(0), Link(0), Begin(1), Link(1), Read(1), Leave(0), Release(0), Crash(0),
    Begin(2), Link(2), Judge(1), Unlink(1), Link(1)]

  function OwnerLeavesState(k: int): State {
    if k == 0 then INITIAL
    else if k == 1 then State(None, map[0 := Linking], {0})
    else if k == 2 then State(Some(0), map[0 := InCallback], {0})
    else if k == 3 then State(Some(0), map[0 := InCallback, 1 := Linking], {0, 1})
    else if k == 4 then State(Some(0), map[0 := InCallback, 1 := Reading], {0, 1})
    else if k == 5 then State(Some(0), map[0 := InCallback, 1 := Judging(0, false)], {0, 1})
    else if k == 6 then State(Some(0), map[0 := Releasing, 1 := Judging(0, false)], {0, 1})
    else if k == 7 then State(None, map[0 := Finished, 1 := Judging(0, false)], {0, 1})
    else if k == 8 then State(None, map[0 := Finished, 1 := Judging(0, false)], {1})
    else if k == 9 then State(None, map[0 := Finished, 1 := Judging(0, false), 2 := Linking], {1, 2})
    else if k == 10 then State(Some(2), map[0 := Finished, 1 := Judging(0, false), 2 := InCallback], {1, 2})
    else if k == 11 then State(Some(2), map[0 := Finished, 1 := Unlinking(0, false), 2 := InCallback], {1, 2})
    else if k == 12 then State(None, map[0 := Finished, 1 := Linking, 2 := InCallback], {1, 2})
    else State(Some(1), map[0 := Finished, 1 := InCallback, 2 := InCallback], {1, 2})
  }

  /** Bounding the number of reclaimers alone does not save the lock. */
  lemma OneReclaimerIsNotEnough()
    ensures var states := seq(14, k => OwnerLeavesState(k));
      && Run(states, OWNER_LEAVES)
      && (forall k :: 0 <= k < 14 ==> OneReclaimer(states[k]))
      && !Exclusive(states[13])
  {
    var states := seq(14, k => OwnerLeavesState(k));
    assert forall k :: 0 <= k < 14 ==> states[k] == OwnerLeavesState(k);
    forall k | 0 <= k < 13
      ensures Enabled(states[k], OWNER_LEAVES[k]) && states[k + 1] == Step(states[k], OWNER_LEAVES[k])
    {
      OwnerLeavesStep(k);
    }
    forall k | 0 <= k < 14 ensures OneReclaimer(states[k]) {
      OwnerLeavesReclaimer(k);
    }
    var last := OwnerLeavesState(13);
    assert At(last, 1, InCallback) && At(last, 2, InCallback);
  }

  lemma OwnerLeavesStep(k: int)
    requires 0 <= k < 13
    ensures Enabled(OwnerLeavesState(k), OWNER_LEAVES[k])
    ensures Step(OwnerLeavesState(k), OWNER_LEAVES[k]) == OwnerLeavesState(k + 1)
  {
  }

  lemma OwnerLeavesReclaimer(k: int)
    ensures OneReclaimer(OwnerLeavesState(k))
  {
  }
}
