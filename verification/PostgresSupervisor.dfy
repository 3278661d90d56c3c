/**
  The embedded PostgreSQL supervisor of server/src/embedded-postgres-supervisor.ts.

  Code between two `await`s runs without interruption, so the supervisor is a
  machine whose steps are the event-loop turns: a process exit, a settled
  delay, hook, start or stop, a shutdown call, and its continuations.  A
  failed start leaves no process behind and a stop succeeds; hooks other than
  `beforeRestart` do not throw.
 */
module PostgresSupervisor {

  type Instance = nat

  /** Where the recovery coroutine waits; `index` counts the attempts already used up. */
  datatype Recovery =
    | Idle
    | Delaying(index: nat)
    | Preparing(index: nat)
    | Starting(index: nat, replacement: Instance)
    | StoppingReplacement(replacement: Instance)

  datatype Shutdown = NotRequested | AwaitingRecovery | StoppingActive | Resolved

  /**
    The unexpected exits, what was reported of them (`restarted` and `exhausted`
    count the calls of the two hooks), the recoveries a shutdown cut short, and
    the starts made.
   */
  datatype Tally = Tally(exits: nat, restarted: nat, exhausted: nat, abandoned: nat, starts: nat)

  datatype State = State(
    delays: seq<nat>,
    active: Instance,
    activeExited: bool,
    monitored: bool,
    shuttingDown: bool,
    recovery: Recovery,
    shutdown: Shutdown,
    running: set<Instance>,
    nextInstance: Instance,
    tally: Tally)

  datatype Event =
    | ProcessExited(instance: Instance)
    | DelayElapsed
    | Prepared(succeeded: bool)
    | StartSettled(succeeded: bool, hasProcess: bool)
    | ReplacementStopped
    | ShutdownCalled
    | ShutdownContinues
    | ActiveStopped

  /** Without a process to listen to, `monitor` reports an exhausted recovery. */
  function Monitored(t: Tally, hasProcess: bool): Tally {
    if hasProcess then t else t.(exhausted := t.exhausted + 1)
  }

  function Initial(delays: seq<nat>, hasProcess: bool): State {
    State(delays, 0, false, hasProcess, false, Idle, NotRequested, {0}, 1, Monitored(Tally(0, 0, 0, 0, 0), hasProcess))
  }

  predicate Enabled(s: State, e: Event) {
    match e
    case ProcessExited(instance) => instance in s.running
    case DelayElapsed => s.recovery.Delaying?
    case Prepared(_) => s.recovery.Preparing?
    case StartSettled(_, _) => s.recovery.Starting?
    case ReplacementStopped => s.recovery.StoppingReplacement?
    case ShutdownCalled => !s.shuttingDown
    case ShutdownContinues => s.shutdown.AwaitingRecovery? && s.recovery.Idle?
    case ActiveStopped => s.shutdown.StoppingActive?
  }

  function Abandon(s: State): State {
    s.(recovery := Idle, tally := s.tally.(abandoned := s.tally.abandoned + 1))
  }

  /** The head of the attempt loop, up to the next wait. */
  function Attempt(s: State, index: nat): State {
    if index >= |s.delays| then
      if s.shuttingDown then Abandon(s)
      else s.(recovery := Idle, tally := s.tally.(exhausted := s.tally.exhausted + 1))
    else if s.shuttingDown then Abandon(s)
    else if s.delays[index] > 0 then s.(recovery := Delaying(index))
    else s.(recovery := Preparing(index))
  }

  function Step(s: State, e: Event): State
    requires Enabled(s, e)
  {
    match e
    case ProcessExited(instance) =>
      var dead := s.(running := s.running - {instance});
      if instance != s.active || !s.monitored then dead
      else
        var noticed := dead.(activeExited := true);
        if s.shuttingDown then noticed
        else Attempt(noticed.(tally := s.tally.(exits := s.tally.exits + 1)), 0)
    case DelayElapsed =>
      if s.shuttingDown then Abandon(s) else s.(recovery := Preparing(s.recovery.index))
    case Prepared(succeeded) =>
      if !succeeded then Attempt(s, s.recovery.index + 1)
      else s.(recovery := Starting(s.recovery.index, s.nextInstance), nextInstance := s.nextInstance + 1,
              running := s.running + {s.nextInstance}, tally := s.tally.(starts := s.tally.starts + 1))
    case StartSettled(succeeded, hasProcess) =>
      var replacement := s.recovery.replacement;
      if !succeeded then
        Attempt(s.(running := s.running - {replacement}), s.recovery.index + 1)
      else if s.shuttingDown then
        s.(recovery := StoppingReplacement(replacement))
      else
        s.(active := replacement, activeExited := false, monitored := hasProcess, recovery := Idle,
           tally := Monitored(s.tally, hasProcess).(restarted := s.tally.restarted + 1))
    case ReplacementStopped =>
      Abandon(s.(running := s.running - {s.recovery.replacement}))
    case ShutdownCalled =>
      s.(shuttingDown := true, shutdown := AwaitingRecovery)
    case ShutdownContinues =>
      s.(shutdown := if s.activeExited then Resolved else StoppingActive)
    case ActiveStopped =>
      s.(shutdown := Resolved, running := s.running - {s.active})
  }

  // --------------------------------------------------------------- invariant

  /** Attempts of the current recovery whose start has been made. */
  function StartsUnderWay(r: Recovery): nat {
    match r
    case Delaying(index) => index
    case Preparing(index) => index
    case Starting(index, _) => index + 1
    case _ => 0
  }

  ghost predicate Inv(s: State) {
    && s.active < s.nextInstance
    && (s.recovery.Idle? ==> s.running <= {s.active})
    && (s.recovery.Delaying? || s.recovery.Preparing? ==> s.running == {} && s.recovery.index < |s.delays|)
    && (s.recovery.Starting? ==> s.recovery.index < |s.delays| && s.running <= {s.recovery.replacement})
    && (s.recovery.StoppingReplacement? ==> s.running <= {s.recovery.replacement} && s.shuttingDown)
    && (s.recovery.Starting? || s.recovery.StoppingReplacement? ==> s.active != s.recovery.replacement < s.nextInstance)
    && (!s.recovery.Idle? ==> s.activeExited)
    && (s.activeExited ==> s.active !in s.running)
    && (s.shuttingDown <==> !s.shutdown.NotRequested?)
    && (s.shutdown.StoppingActive? || s.shutdown.Resolved? ==> s.recovery.Idle?)
    && (s.shutdown.Resolved? ==> s.running == {})
  }

  lemma AttemptKeepsInv(s: State, index: nat)
    requires s.active < s.nextInstance && s.activeExited && s.running == {}
    requires s.shuttingDown <==> !s.shutdown.NotRequested?
    requires !s.shutdown.StoppingActive? && !s.shutdown.Resolved?
    ensures Inv(Attempt(s, index))
  {
  }

  lemma StepKeepsInv(s: State, e: Event)
    requires Inv(s) && Enabled(s, e)
    ensures Inv(Step(s, e))
  {
    match e
    case ProcessExited(instance) =>
      if instance == s.active && s.monitored && !s.shuttingDown {
        var noticed := s.(running := s.running - {instance}, activeExited := true,
                          tally := s.tally.(exits := s.tally.exits + 1));
        AttemptKeepsInv(noticed, 0);
      }
    case Prepared(succeeded) =>
      if !succeeded {
        AttemptKeepsInv(s, s.recovery.index + 1);
      }
    case StartSettled(succeeded, _) =>
      if !succeeded {
        AttemptKeepsInv(s.(running := s.running - {s.recovery.replacement}), s.recovery.index + 1);
      }
    case _ =>
  }

  // ------------------------------------------------------------------- runs

  ghost predicate Run(states: seq<State>, events: seq<Event>) {
    && |states| == |events| + 1
    && (exists hasProcess :: states[0] == Initial(states[0].delays, hasProcess))
    && forall k :: 0 <= k < |events| ==> Enabled(states[k], events[k]) && states[k + 1] == Step(states[k], events[k])
  }

  lemma {:induction false} RunKeepsInv(states: seq<State>, events: seq<Event>, k: nat)
    requires Run(states, events) && k < |states|
    ensures Inv(states[k])
  {
    if k > 0 {
      RunKeepsInv(states, events, k - 1);
      StepKeepsInv(states[k - 1], events[k - 1]);
    }
  }

  /** Over every interleaving at most one instance runs. */
  lemma AtMostOneRunning(states: seq<State>, events: seq<Event>, k: nat)
    requires Run(states, events) && k < |states|
    ensures forall a, b :: a in states[k].running && b in states[k].running ==> a == b
  {
    RunKeepsInv(states, events, k);
  }

  // ------------------------------------------------------------- accounting

  /** This turn makes a replacement active that has no process to listen to. */
  predicate AdoptsBlind(s: State, e: Event) {
    e == StartSettled(true, false) && !s.shuttingDown
  }

  /** How many instances without a process were made active, the first one included. */
  function BlindCount(states: seq<State>, events: seq<Event>, k: nat): nat
    requires k <= |events| < |states|
  {
    if k == 0 then if states[0].monitored then 0 else 1
    else BlindCount(states, events, k - 1) + if AdoptsBlind(states[k - 1], events[k - 1]) then 1 else 0
  }

  function Outcomes(t: Tally): nat {
    t.restarted + t.exhausted + t.abandoned
  }

  function UnderWay(r: Recovery): nat {
    if r.Idle? then 0 else 1
  }

  lemma StepAccounts(s: State, e: Event)
    requires Inv(s) && Enabled(s, e)
    ensures var next := Step(s, e);
      Outcomes(next.tally) + UnderWay(next.recovery) - next.tally.exits ==
        Outcomes(s.tally) + UnderWay(s.recovery) - s.tally.exits + if AdoptsBlind(s, e) then 1 else 0
  {
  }

  /** Outcomes and exits differ by the instances without a process, and by nothing else. */
  lemma {:induction false} OutcomesCounted(states: seq<State>, events: seq<Event>, k: nat)
    requires Run(states, events) && k < |states|
    ensures Outcomes(states[k].tally) + UnderWay(states[k].recovery) == states[k].tally.exits + BlindCount(states, events, k)
  {
    if k > 0 {
      OutcomesCounted(states, events, k - 1);
      RunKeepsInv(states, events, k - 1);
      StepAccounts(states[k - 1], events[k - 1]);
    }
  }

  lemma {:induction false} BlindCountZeroIff(states: seq<State>, events: seq<Event>, k: nat)
    requires k <= |events| < |states|
    ensures BlindCount(states, events, k) == 0 <==>
      states[0].monitored && forall j :: 0 <= j < k ==> !AdoptsBlind(states[j], events[j])
  {
    if k > 0 {
      BlindCountZeroIff(states, events, k - 1);
    }
  }

  /**
    Every exit has exactly one of restarted, exhausted and abandoned, or a
    recovery under way, if and only if no instance without a process was made
    active.
   */
  lemma ExitsAccountedIff(states: seq<State>, events: seq<Event>, k: nat)
    requires Run(states, events) && k < |states|
    ensures states[k].tally.exits == Outcomes(states[k].tally) + UnderWay(states[k].recovery) <==>
      states[0].monitored && forall j :: 0 <= j < k ==> !AdoptsBlind(states[j], events[j])
  {
    OutcomesCounted(states, events, k);
    BlindCountZeroIff(states, events, k);
  }

  /** No recovery is under way at `begin`, and one is all the time from there to the moment `k`, at which it may just have ended. */
  ghost predicate BusyBetween(states: seq<State>, begin: nat, k: nat) {
    begin < k < |states| && states[begin].recovery.Idle? && forall i :: begin < i < k ==> !states[i].recovery.Idle?
  }

  /** The same, for the recovery that an exit in turn `begin` set off. */
  ghost predicate InRecovery(states: seq<State>, begin: nat, k: nat) {
    BusyBetween(states, begin, k) && states[begin + 1].tally.exits == states[begin].tally.exits + 1
  }

  lemma RecoveryTurnAccounts(s: State, e: Event)
    requires Inv(s) && Enabled(s, e) && !s.recovery.Idle?
    ensures Step(s, e).tally.exits == s.tally.exits
  {
  }

  lemma {:induction false} OneExitPerRecovery(states: seq<State>, events: seq<Event>, begin: nat, k: nat)
    requires Run(states, events) && InRecovery(states, begin, k)
    ensures states[k].tally.exits == states[begin].tally.exits + 1
    decreases k
  {
    if begin + 1 < k {
      OneExitPerRecovery(states, events, begin, k - 1);
      RunKeepsInv(states, events, k - 1);
      RecoveryTurnAccounts(states[k - 1], events[k - 1]);
    }
  }

  lemma AdoptionEndsRecovery(s: State, e: Event)
    requires Enabled(s, e) && AdoptsBlind(s, e)
    ensures !s.recovery.Idle? && Step(s, e).recovery.Idle?
  {
  }

  /** In a recovery that goes on, no turn has adopted a replacement yet. */
  lemma NoAdoptionYet(states: seq<State>, events: seq<Event>, begin: nat, k: nat, i: nat)
    requires Run(states, events) && InRecovery(states, begin, k) && begin <= i < k - 1
    ensures !AdoptsBlind(states[i], events[i])
  {
    assert states[i + 1] == Step(states[i], events[i]) && !states[i + 1].recovery.Idle?;
    if AdoptsBlind(states[i], events[i]) {
      AdoptionEndsRecovery(states[i], events[i]);
    }
  }

  lemma {:induction false} BlindCountFrom(states: seq<State>, events: seq<Event>, begin: nat, k: nat)
    requires begin < k <= |events| < |states|
    requires forall i :: begin <= i < k - 1 ==> !AdoptsBlind(states[i], events[i])
    ensures BlindCount(states, events, k) ==
      BlindCount(states, events, begin) + if AdoptsBlind(states[k - 1], events[k - 1]) then 1 else 0
    decreases k
  {
    if begin + 1 < k {
      BlindCountFrom(states, events, begin, k - 1);
    }
  }

  /**
    A finished recovery has exactly one outcome if and only if it did not end by
    adopting a replacement without a process; otherwise it has two, restarted and exhausted.
   */
  lemma OneOutcomeIff(states: seq<State>, events: seq<Event>, begin: nat, end: nat)
    requires Run(states, events) && InRecovery(states, begin, end) && states[end].recovery.Idle?
    ensures Outcomes(states[end].tally) == Outcomes(states[begin].tally) + 1 <==> !AdoptsBlind(states[end - 1], events[end - 1])
    ensures AdoptsBlind(states[end - 1], events[end - 1]) ==> Outcomes(states[end].tally) == Outcomes(states[begin].tally) + 2
  {
    OutcomesCounted(states, events, begin);
    OutcomesCounted(states, events, end);
    OneExitPerRecovery(states, events, begin, end);
    forall i | begin <= i < end - 1 ensures !AdoptsBlind(states[i], events[i]) {
      NoAdoptionYet(states, events, begin, end, i);
    }
    BlindCountFrom(states, events, begin, end);
  }

  /** One exit reported both restarted and exhausted; and an exhausted recovery reported before any exit. */
  lemma BlindReplacementReportedTwice() returns (states: seq<State>, events: seq<Event>)
    ensures Run(states, events)
    ensures states[0].tally == Tally(0, 0, 0, 0, 0) && states[|events|].recovery.Idle?
    ensures states[|events|].tally == Tally(1, 1, 1, 0, 1)
    ensures Initial([], false).tally == Tally(0, 0, 1, 0, 0)
  {
    var s0 := Initial([0], true);
    var s1 := Step(s0, ProcessExited(0));
    var s2 := Step(s1, Prepared(true));
    var s3 := Step(s2, StartSettled(true, false));
    states := [s0, s1, s2, s3];
    events := [ProcessExited(0), Prepared(true), StartSettled(true, false)];
    assert states[0] == Initial(states[0].delays, true);
  }

  // --------------------------------------------------- how a recovery goes on

  /** An attempt fails: its hook throws or its start rejects. */
  predicate AttemptFails(e: Event) {
    e == Prepared(false) || (e.StartSettled? && !e.succeeded)
  }

  /** The attempts that failed in the turns from `begin` to `k`. */
  function Failures(events: seq<Event>, begin: nat, k: nat): nat
    requires begin <= k <= |events|
  {
    if k == begin then 0 else Failures(events, begin, k - 1) + if AttemptFails(events[k - 1]) then 1 else 0
  }

  /** The recovery waits in the attempt that follows this many failed ones; there are attempts left, and it delays only where it is to. */
  ghost predicate InAttempt(s: State, failures: nat) {
    match s.recovery
    case Delaying(index) => index == failures < |s.delays| && s.delays[index] > 0
    case Preparing(index) => index == failures < |s.delays|
    case Starting(index, _) => index == failures < |s.delays|
    case StoppingReplacement(_) => failures < |s.delays|
    case Idle => false
  }

  /** How a recovery that made this many failed attempts has ended in this turn. */
  ghost predicate EndsAs(s: State, e: Event, next: State, failures: nat) {
    var t, u := s.tally, next.tally;
    if e == StartSettled(true, true) && !s.shuttingDown then
      failures < |s.delays| && u == t.(restarted := t.restarted + 1)
    else if AdoptsBlind(s, e) then
      failures < |s.delays| && u == t.(restarted := t.restarted + 1, exhausted := t.exhausted + 1)
    else if failures == |s.delays| && !s.shuttingDown then
      u == t.(exhausted := t.exhausted + 1, exits := u.exits) && t.exits <= u.exits <= t.exits + 1
    else s.shuttingDown && u == t.(abandoned := t.abandoned + 1)
  }

  /** A turn of a recovery leads to the attempt after the failed ones, or ends it in the way it should. */
  lemma StepGoesOn(s: State, e: Event, failures: nat)
    requires Inv(s) && Enabled(s, e) && InAttempt(s, failures)
    ensures var next, now := Step(s, e), failures + if AttemptFails(e) then 1 else 0;
      if next.recovery.Idle? then EndsAs(s, e, next, now) else InAttempt(next, now) && next.tally.exits == s.tally.exits
  {
  }

  lemma ExitBegins(s: State, e: Event)
    requires Inv(s) && Enabled(s, e) && s.recovery.Idle? && Step(s, e).tally.exits == s.tally.exits + 1
    ensures e == ProcessExited(s.active) && !s.shuttingDown
    ensures if Step(s, e).recovery.Idle? then EndsAs(s, e, Step(s, e), 0) else InAttempt(Step(s, e), 0)
  {
  }

  lemma LastTurnEndsAs(s: State, e: Event, next: State, failures: nat)
    requires Inv(s) && Enabled(s, e) && InAttempt(s, failures) && next == Step(s, e) && next.recovery.Idle?
    ensures EndsAs(s, e, next, failures + if AttemptFails(e) then 1 else 0)
  {
    StepGoesOn(s, e, failures);
  }

  lemma FailuresNext(events: seq<Event>, begin: nat, k: nat)
    requires begin < k <= |events|
    ensures Failures(events, begin, k) == Failures(events, begin, k - 1) + if AttemptFails(events[k - 1]) then 1 else 0
  {
  }

  /** In a recovery the number of the attempt is the number of failed ones before it. */
  lemma {:induction false} AttemptsCounted(states: seq<State>, events: seq<Event>, begin: nat, k: nat)
    requires Run(states, events) && InRecovery(states, begin, k) && !states[k].recovery.Idle?
    ensures InAttempt(states[k], Failures(events, begin + 1, k))
    decreases k
  {
    RunKeepsInv(states, events, k - 1);
    if begin + 1 < k {
      AttemptsCounted(states, events, begin, k - 1);
      StepGoesOn(states[k - 1], events[k - 1], Failures(events, begin + 1, k - 1));
    } else {
      ExitBegins(states[begin], events[begin]);
    }
  }

  /**
    How a recovery ends: as restarted exactly when a start succeeded and no
    shutdown was called, as exhausted when all of its attempts failed and none
    was called, and as abandoned otherwise.
   */
  lemma RecoveryEndsAs(states: seq<State>, events: seq<Event>, begin: nat, end: nat)
    requires Run(states, events) && InRecovery(states, begin, end) && states[end].recovery.Idle?
    ensures EndsAs(states[end - 1], events[end - 1], states[end], Failures(events, begin + 1, end))
  {
    RunKeepsInv(states, events, end - 1);
    if begin + 1 < end {
      AttemptsCounted(states, events, begin, end - 1);
      FailuresNext(events, begin + 1, end);
      LastTurnEndsAs(states[end - 1], events[end - 1], states[end], Failures(events, begin + 1, end - 1));
    } else {
      ExitBegins(states[begin], events[begin]);
    }
  }

  /**
    So a finished recovery is reported exhausted exactly after as many failed
    attempts as there are delays, with no shutdown called, or, besides the
    restart, for a replacement without a process.
   */
  lemma GivesUpIff(states: seq<State>, events: seq<Event>, begin: nat, end: nat)
    requires Run(states, events) && InRecovery(states, begin, end) && states[end].recovery.Idle?
    ensures states[end].tally.exhausted == states[end - 1].tally.exhausted + 1 <==>
      || (Failures(events, begin + 1, end) == |states[end - 1].delays| && !states[end - 1].shuttingDown)
      || AdoptsBlind(states[end - 1], events[end - 1])
  {
    RecoveryEndsAs(states, events, begin, end);
  }

  /** A failed attempt before the last, with no shutdown called, is followed by the next: at once, or behind its delay if that is positive. */
  lemma FailureIsRetried(states: seq<State>, events: seq<Event>, begin: nat, k: nat)
    requires Run(states, events) && InRecovery(states, begin, k) && k < |events| && !states[k].recovery.Idle?
    requires AttemptFails(events[k]) && !states[k].shuttingDown
    requires Failures(events, begin + 1, k + 1) < |states[k].delays|
    ensures var next := Failures(events, begin + 1, k + 1);
      states[k + 1].recovery == if states[k].delays[next] > 0 then Delaying(next) else Preparing(next)
  {
    RunKeepsInv(states, events, k);
    AttemptsCounted(states, events, begin, k);
  }

  /** And a positive delay is waited for: an attempt behind one is prepared only by the turn in which the delay elapsed. */
  lemma PreparedAfterDelay(s: State, e: Event)
    requires Inv(s) && Enabled(s, e)
    requires Step(s, e).recovery.Preparing? && Step(s, e).recovery != s.recovery && s.delays[Step(s, e).recovery.index] > 0
    ensures e == DelayElapsed && s.recovery == Delaying(Step(s, e).recovery.index)
  {
  }

  /** Once a shutdown was called no attempt begins any more; only the one whose hook is running may still start, and is stopped then. */
  lemma NoAttemptAfterShutdown(s: State, e: Event)
    requires Inv(s) && Enabled(s, e) && s.shuttingDown
    ensures Step(s, e).recovery != s.recovery ==>
      match s.recovery
      case Preparing(_) => e.Prepared? && if e.succeeded then Step(s, e).recovery.Starting? else Step(s, e).recovery.Idle?
      case Starting(_, replacement) =>
        e.StartSettled? && Step(s, e).recovery == if e.succeeded then StoppingReplacement(replacement) else Idle
      case _ => Step(s, e).recovery.Idle?
    ensures Step(s, e).active == s.active && Step(s, e).tally.restarted == s.tally.restarted
  {
  }

  /** A recovery may make one start after a shutdown was called, if its hook was running then, and no more. */
  lemma {:induction false} OneStartAfterShutdown(states: seq<State>, events: seq<Event>, k: nat, later: nat)
    requires Run(states, events) && k <= later < |states| && states[k].shuttingDown
    ensures states[later].shuttingDown
    ensures states[later].tally.starts + (if states[later].recovery.Preparing? then 1 else 0) <=
      states[k].tally.starts + if states[k].recovery.Preparing? then 1 else 0
    decreases later
  {
    if k < later {
      OneStartAfterShutdown(states, events, k, later - 1);
      RunKeepsInv(states, events, later - 1);
      LateStarts(states[later - 1], events[later - 1]);
    }
  }

  lemma LateStarts(s: State, e: Event)
    requires Inv(s) && Enabled(s, e) && s.shuttingDown
    ensures Step(s, e).shuttingDown
    ensures Step(s, e).tally.starts + (if Step(s, e).recovery.Preparing? then 1 else 0) <=
      s.tally.starts + if s.recovery.Preparing? then 1 else 0
  {
  }

  /** When its wait is over a shutdown stops the active instance exactly if that is not known to have exited. */
  lemma ShutdownStopsActiveIff(s: State)
    requires Enabled(s, ShutdownContinues)
    ensures Step(s, ShutdownContinues).shutdown == StoppingActive <==> !s.activeExited
    ensures s.activeExited ==> Step(s, ShutdownContinues).shutdown == Resolved
  {
  }

  /** The turn makes a replacement active. */
  predicate Adopts(s: State, e: Event) {
    e.StartSettled? && e.succeeded && !s.shuttingDown
  }

  /** The supervisor listens to the active instance exactly if that had a process when it was made active. */
  lemma {:induction false} MonitoredIff(states: seq<State>, events: seq<Event>, k: nat, j: nat)
    requires Run(states, events) && j < k < |states|
    requires Adopts(states[j], events[j]) && forall i :: j < i < k ==> !Adopts(states[i], events[i])
    ensures states[k].monitored == events[j].hasProcess && Enabled(states[j], events[j])
    ensures states[j].recovery.Starting? && states[k].active == states[j].recovery.replacement
    decreases k
  {
    if j + 1 < k {
      MonitoredIff(states, events, k - 1, j);
      OnlyAdoptionChanges(states[k - 1], events[k - 1]);
    }
  }

  lemma OnlyAdoptionChanges(s: State, e: Event)
    requires Enabled(s, e) && !Adopts(s, e)
    ensures Step(s, e).monitored == s.monitored && Step(s, e).active == s.active
  {
  }

  // ------------------------------------------------------------ bounded starts

  /** `times` lots of `attempts`. */
  function Lots(attempts: nat, times: nat): nat
  {
    if times == 0 then 0 else Lots(attempts, times - 1) + attempts
  }

  lemma {:induction false} LotsIsProduct(attempts: nat, times: nat)
    ensures Lots(attempts, times) == attempts * times
  {
    if times > 0 {
      LotsIsProduct(attempts, times - 1);
      assert attempts * times == attempts * (times - 1) + attempts;
    }
  }

  /** The exits whose recovery has used up its whole allowance. */
  function SpentExits(s: State): int {
    s.tally.exits - if s.recovery.Idle? || s.recovery.StoppingReplacement? then 0 else 1
  }

  ghost predicate WithinBudget(s: State) {
    SpentExits(s) >= 0 && s.tally.starts <= Lots(|s.delays|, SpentExits(s)) + StartsUnderWay(s.recovery)
  }

  lemma LotsGrow(attempts: nat, times: nat)
    ensures Lots(attempts, times + 1) == Lots(attempts, times) + attempts
  {
  }

  /** The recovery of the last exit goes on with attempt `index`, having made that many starts at most. */
  lemma AttemptWithinBudget(s: State, index: nat)
    requires s.tally.exits > 0 && index <= |s.delays|
    requires s.tally.starts <= Lots(|s.delays|, s.tally.exits - 1) + index
    ensures WithinBudget(Attempt(s, index))
  {
    LotsGrow(|s.delays|, s.tally.exits - 1);
  }

  lemma AttemptKeepsTally(s: State, index: nat)
    ensures Attempt(s, index).delays == s.delays
    ensures Attempt(s, index).tally.exits == s.tally.exits && Attempt(s, index).tally.starts == s.tally.starts
  {
  }

  lemma StepKeepsDelays(s: State, e: Event)
    requires Enabled(s, e)
    ensures Step(s, e).delays == s.delays
  {
  }

  lemma FailureSpendsBudget(s: State, e: Event)
    requires Inv(s) && Enabled(s, e) && WithinBudget(s) && (e == Prepared(false) || (e.StartSettled? && !e.succeeded))
    ensures WithinBudget(Step(s, e))
  {
    var rest := if e.StartSettled? then s.(running := s.running - {s.recovery.replacement}) else s;
    AttemptWithinBudget(rest, s.recovery.index + 1);
  }

  lemma ExitSpendsBudget(s: State, instance: Instance)
    requires Inv(s) && Enabled(s, ProcessExited(instance)) && WithinBudget(s)
    ensures WithinBudget(Step(s, ProcessExited(instance)))
  {
    if instance == s.active && s.monitored && !s.shuttingDown {
      AttemptWithinBudget(s.(running := s.running - {instance}, activeExited := true,
                             tally := s.tally.(exits := s.tally.exits + 1)), 0);
    }
  }

  lemma StepSpendsBudget(s: State, e: Event)
    requires Inv(s) && Enabled(s, e) && WithinBudget(s)
    ensures WithinBudget(Step(s, e))
  {
    if e.ProcessExited? {
      ExitSpendsBudget(s, e.instance);
    } else if e == Prepared(false) || (e.StartSettled? && !e.succeeded) {
      FailureSpendsBudget(s, e);
    } else if !s.recovery.Idle? && !s.recovery.StoppingReplacement? {
      LotsGrow(|s.delays|, s.tally.exits - 1);
    }
  }

  lemma {:induction false} RunKeepsBudget(states: seq<State>, events: seq<Event>, k: nat)
    requires Run(states, events) && k < |states|
    ensures states[k].delays == states[0].delays && WithinBudget(states[k])
  {
    if k > 0 {
      RunKeepsBudget(states, events, k - 1);
      RunKeepsInv(states, events, k - 1);
      StepSpendsBudget(states[k - 1], events[k - 1]);
      StepKeepsDelays(states[k - 1], events[k - 1]);
    }
  }

  lemma BudgetIsProduct(s: State)
    requires Inv(s) && WithinBudget(s)
    ensures s.tally.starts <= |s.delays| * s.tally.exits
  {
    LotsGrow(|s.delays|, SpentExits(s));
    LotsIsProduct(|s.delays|, s.tally.exits);
  }

  /** At most `|delays|` starts are made for each unexpected exit. */
  lemma StartsBounded(states: seq<State>, events: seq<Event>, k: nat)
    requires Run(states, events) && k < |states|
    ensures states[k].tally.starts <= |states[0].delays| * states[k].tally.exits
  {
    RunKeepsInv(states, events, k);
    RunKeepsBudget(states, events, k);
    BudgetIsProduct(states[k]);
  }

  /** Starts a recovery may have made when it waits here; one that has ended, or stops its replacement, all it may. */
  function StartsAllowed(s: State): nat {
    if s.recovery.Idle? || s.recovery.StoppingReplacement? then |s.delays| else StartsUnderWay(s.recovery)
  }

  lemma AllowanceBounded(s: State)
    requires Inv(s)
    ensures StartsAllowed(s) <= |s.delays|
  {
  }

  lemma StepStartsWithinAllowance(s: State, e: Event, begun: nat)
    requires Inv(s) && Enabled(s, e) && !s.recovery.Idle? && begun <= s.tally.starts <= begun + StartsAllowed(s)
    ensures begun <= Step(s, e).tally.starts <= begun + StartsAllowed(Step(s, e))
  {
  }

  lemma IdleTurnStartsNothing(s: State, e: Event)
    requires Enabled(s, e) && s.recovery.Idle?
    ensures Step(s, e).tally.starts == s.tally.starts
  {
  }

  lemma {:induction false} StartsWithinAllowance(states: seq<State>, events: seq<Event>, begin: nat, k: nat)
    requires Run(states, events) && BusyBetween(states, begin, k)
    ensures states[begin].tally.starts <= states[k].tally.starts <= states[begin].tally.starts + StartsAllowed(states[k])
    decreases k
  {
    if begin + 1 < k {
      StartsWithinAllowance(states, events, begin, k - 1);
      RunKeepsInv(states, events, k - 1);
      StepStartsWithinAllowance(states[k - 1], events[k - 1], states[begin].tally.starts);
    } else {
      IdleTurnStartsNothing(states[begin], events[begin]);
    }
  }

  /**
    Each recovery by itself: from the exit in turn `begin` that set it off, to
    its end or to any earlier moment, at most `|delays|` starts are made.
   */
  lemma StartsBoundedPerRecovery(states: seq<State>, events: seq<Event>, begin: nat, k: nat)
    requires Run(states, events) && BusyBetween(states, begin, k)
    ensures states[begin].tally.starts <= states[k].tally.starts <= states[begin].tally.starts + |states[0].delays|
    ensures states[k].tally.starts <= states[begin].tally.starts + StartsAllowed(states[k])
  {
    StartsWithinAllowance(states, events, begin, k);
    RunKeepsBudget(states, events, k);
    RunKeepsInv(states, events, k);
    AllowanceBounded(states[k]);
  }

  /** Turns the recovery may still take, counting down to the end of its last attempt. */
  function TurnsLeft(s: State): nat
  {
    match s.recovery
    case Idle => 0
    case Delaying(index) => if index < |s.delays| then 4 * (|s.delays| - index) else 0
    case Preparing(index) => if index < |s.delays| then 4 * (|s.delays| - index) - 1 else 0
    case Starting(index, _) => if index < |s.delays| then 4 * (|s.delays| - index) - 2 else 0
    case StoppingReplacement(_) => 1
  }

  predicate RecoveryTurn(e: Event) {
    e.DelayElapsed? || e.Prepared? || e.StartSettled? || e.ReplacementStopped?
  }

  /** A recovery cannot go on for ever: each of its turns uses up one of finitely many, and no other turn gives any back. */
  lemma RecoveryTerminates(s: State, e: Event)
    requires Inv(s) && Enabled(s, e) && !s.recovery.Idle?
    ensures RecoveryTurn(e) ==> TurnsLeft(Step(s, e)) < TurnsLeft(s)
    ensures !RecoveryTurn(e) ==> TurnsLeft(Step(s, e)) == TurnsLeft(s)
  {
  }

  /** Once the first shutdown call resolved nothing runs, and over every later turn nothing is started. */
  lemma {:induction false} ResolvedMeansStopped(states: seq<State>, events: seq<Event>, k: nat, later: nat)
    requires Run(states, events) && k <= later < |states|
    requires states[k].shutdown.Resolved?
    ensures states[later].shutdown.Resolved? && states[later].running == {} && states[later].recovery.Idle?
    ensures states[later].tally == states[k].tally
  {
    RunKeepsInv(states, events, later);
    if later > k {
      ResolvedMeansStopped(states, events, k, later - 1);
      RunKeepsInv(states, events, later - 1);
    }
  }

  /** No exit noticed after the shutdown call starts a recovery. */
  lemma ShutdownStartsNothing(s: State, e: Event)
    requires Inv(s) && Enabled(s, e) && s.shuttingDown && s.recovery.Idle?
    ensures Step(s, e).recovery.Idle? && Step(s, e).running <= s.running
    ensures Step(s, e).tally == s.tally
  {
  }

  /** An exit sets a recovery off exactly when it is the active instance's, that one is monitored, and no shutdown was called. */
  lemma ExitCountsIff(s: State, instance: Instance)
    requires Inv(s) && Enabled(s, ProcessExited(instance))
    ensures Step(s, ProcessExited(instance)).tally.exits == s.tally.exits + 1 <==>
      instance == s.active && s.monitored && !s.shuttingDown
  {
    AttemptKeepsTally(s.(running := s.running - {instance}, activeExited := true,
                         tally := s.tally.(exits := s.tally.exits + 1)), 0);
  }

  /** The instance exits in a turn in which the supervisor does not listen to it. */
  predicate ExitsUnheard(s: State, e: Event, instance: Instance) {
    e == ProcessExited(instance) && !(s.active == instance && s.monitored)
  }

  /** The instances that have exited so. */
  function Unheard(states: seq<State>, events: seq<Event>, k: nat): set<Instance>
    requires k <= |events| < |states|
  {
    if k == 0 then {} else UnheardNext(states[k - 1], events[k - 1], Unheard(states, events, k - 1))
  }

  function UnheardNext(s: State, e: Event, before: set<Instance>): set<Instance> {
    if e.ProcessExited? && ExitsUnheard(s, e, e.instance) then before + {e.instance} else before
  }

  lemma {:induction false} UnheardIff(states: seq<State>, events: seq<Event>, k: nat, instance: Instance)
    requires k <= |events| < |states|
    ensures instance in Unheard(states, events, k) <==>
      exists j :: 0 <= j < k && ExitsUnheard(states[j], events[j], instance)
  {
    if k > 0 {
      UnheardIff(states, events, k - 1, instance);
    }
  }

  /** Whether an instance is gone follows from whether it is known to have exited, or did so unheard. */
  ghost predicate GoneIff(s: State, unheard: set<Instance>) {
    && (forall i :: i in unheard ==> i < s.nextInstance)
    && (!s.shutdown.Resolved? ==> (s.active !in s.running <==> s.activeExited || s.active in unheard))
    && (s.recovery.Starting? ==> (s.recovery.replacement !in s.running <==> s.recovery.replacement in unheard))
  }

  lemma StepKeepsGoneIff(s: State, e: Event, unheard: set<Instance>)
    requires Inv(s) && Enabled(s, e) && GoneIff(s, unheard)
    ensures GoneIff(Step(s, e), UnheardNext(s, e, unheard))
  {
  }

  lemma {:induction false} RunKeepsGoneIff(states: seq<State>, events: seq<Event>, k: nat)
    requires Run(states, events) && k < |states|
    ensures GoneIff(states[k], Unheard(states, events, k))
  {
    if k > 0 {
      RunKeepsInv(states, events, k - 1);
      RunKeepsGoneIff(states, events, k - 1);
      StepKeepsGoneIff(states[k - 1], events[k - 1], Unheard(states, events, k - 1));
    }
  }

  /**
    Until a shutdown has resolved, the active instance is gone exactly when
    the supervisor knows of its exit or it exited while it was not listened to.
   */
  lemma ActiveGoneIff(states: seq<State>, events: seq<Event>, k: nat)
    requires Run(states, events) && k < |states| && !states[k].shutdown.Resolved?
    ensures states[k].active !in states[k].running <==>
      states[k].activeExited || exists j :: 0 <= j < k && ExitsUnheard(states[j], events[j], states[k].active)
  {
    UnheardIff(states, events, k, states[k].active);
    RunKeepsGoneIff(states, events, k);
  }

  /** A replacement that exits before it is listened for: nothing runs, and the supervisor takes it for running. */
  lemma EarlyExitGoesUnnoticed() returns (states: seq<State>, events: seq<Event>)
    ensures Run(states, events)
    ensures var end := states[|events|];
      && end.recovery.Idle? && end.monitored && !end.activeExited && !end.shuttingDown
      && end.running == {} && end.tally.exits == end.tally.restarted == 1
  {
    var s0 := Initial([0], true);
    var s1 := Step(s0, ProcessExited(0));
    var s2 := Step(s1, Prepared(true));
    var s3 := Step(s2, ProcessExited(1));
    var s4 := Step(s3, StartSettled(true, true));
    states := [s0, s1, s2, s3, s4];
    events := [ProcessExited(0), Prepared(true), ProcessExited(1), StartSettled(true, true)];
    assert states[0] == Initial(states[0].delays, true);
  }

  /** A shutdown is never stuck: while it has not resolved, some turn of its own or of the recovery it waits for is enabled. */
  lemma ShutdownHasATurn(s: State)
    requires Inv(s) && s.shuttingDown && !s.shutdown.Resolved?
    ensures exists e :: Enabled(s, e) && !e.ProcessExited? && !e.ShutdownCalled?
  {
    var e := match s.recovery
      case Delaying(_) => DelayElapsed
      case Preparing(_) => Prepared(false)
      case Starting(_, _) => StartSettled(false, false)
      case StoppingReplacement(_) => ReplacementStopped
      case Idle => if s.shutdown.AwaitingRecovery? then ShutdownContinues else ActiveStopped;
    assert Enabled(s, e);
  }

  // ------------------------------------------------------------- the program

  /** The closure variables of `createEmbeddedPostgresSupervisor`, with the processes it has alive. */
  class Supervisor {
    const delays: seq<nat>
    var activeInstance: Instance
    var activeInstanceExited: bool
    var shuttingDown: bool
    var recovery: Recovery
    var shutdown: Shutdown
    var monitored: bool
    var running: set<Instance>
    var nextInstance: Instance
    ghost var tally: Tally

    ghost function View(): State
      reads this
    {
      State(delays, activeInstance, activeInstanceExited, monitored, shuttingDown, recovery, shutdown, running, nextInstance, tally)
    }

    constructor (delays: seq<nat>, hasProcess: bool)
      ensures View() == Initial(delays, hasProcess)
    {
      this.delays := delays;
      activeInstance, activeInstanceExited, shuttingDown, monitored := 0, false, false, hasProcess;
      recovery, shutdown, running, nextInstance := Idle, NotRequested, {0}, 1;
      tally := Monitored(Tally(0, 0, 0, 0, 0), hasProcess);
    }

    method Recover(index: nat)
      modifies this
      ensures View() == Attempt(old(View()), index)
    {
      if index >= |delays| {
        recovery := Idle;
        if !shuttingDown {
          tally := tally.(exhausted := tally.exhausted + 1);
        } else {
          tally := tally.(abandoned := tally.abandoned + 1);
        }
        return;
      }
      if shuttingDown {
        recovery, tally := Idle, tally.(abandoned := tally.abandoned + 1);
        return;
      }
      recovery := if delays[index] > 0 then Delaying(index) else Preparing(index);
    }

    method OnExit(instance: Instance)
      requires Enabled(View(), ProcessExited(instance))
      modifies this
      ensures View() == Step(old(View()), ProcessExited(instance))
    {
      running := running - {instance};
      if activeInstance != instance || !monitored {
        return;
      }
      activeInstanceExited := true;
      if shuttingDown {
        return;
      }
      tally := tally.(exits := tally.exits + 1);
      Recover(0);
    }

    method OnDelayElapsed()
      requires Enabled(View(), DelayElapsed)
      modifies this
      ensures View() == Step(old(View()), DelayElapsed)
    {
      if shuttingDown {
        recovery, tally := Idle, tally.(abandoned := tally.abandoned + 1);
      } else {
        recovery := Preparing(recovery.index);
      }
    }

    method OnPrepared(succeeded: bool)
      requires Enabled(View(), Prepared(succeeded))
      modifies this
      ensures View() == Step(old(View()), Prepared(succeeded))
    {
      if !succeeded {
        Recover(recovery.index + 1);
        return;
      }
      recovery, running := Starting(recovery.index, nextInstance), running + {nextInstance};
      nextInstance, tally := nextInstance + 1, tally.(starts := tally.starts + 1);
    }

    method OnStartSettled(succeeded: bool, hasProcess: bool)
      requires Enabled(View(), StartSettled(succeeded, hasProcess))
      modifies this
      ensures View() == Step(old(View()), StartSettled(succeeded, hasProcess))
    {
      if !succeeded {
        running := running - {recovery.replacement};
        Recover(recovery.index + 1);
        return;
      }
      if shuttingDown {
        recovery := StoppingReplacement(recovery.replacement);
        return;
      }
      activeInstance, activeInstanceExited, monitored := recovery.replacement, false, hasProcess;
      if !hasProcess {
        tally := tally.(exhausted := tally.exhausted + 1);
      }
      recovery, tally := Idle, tally.(restarted := tally.restarted + 1);
    }

    method OnReplacementStopped()
      requires Enabled(View(), ReplacementStopped)
      modifies this
      ensures View() == Step(old(View()), ReplacementStopped)
    {
      running := running - {recovery.replacement};
      recovery, tally := Idle, tally.(abandoned := tally.abandoned + 1);
    }

    /** The first call of `shutdown`, up to its wait for the recovery. */
    method CallShutdown()
      requires Enabled(View(), ShutdownCalled)
      modifies this
      ensures View() == Step(old(View()), ShutdownCalled)
    {
      shuttingDown, shutdown := true, AwaitingRecovery;
    }

    method ContinueShutdown()
      requires Enabled(View(), ShutdownContinues)
      modifies this
      ensures View() == Step(old(View()), ShutdownContinues)
    {
      shutdown := if activeInstanceExited then Resolved else StoppingActive;
    }

    method OnActiveStopped()
      requires Enabled(View(), ActiveStopped)
      modifies this
      ensures View() == Step(old(View()), ActiveStopped)
    {
      running, shutdown := running - {activeInstance}, Resolved;
    }
  }
}
