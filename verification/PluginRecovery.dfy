/**
  Lazy recovery of managed plugin workers, `createManagedBundledPluginWorkerRecovery`
  of server/src/app.ts.  Callers that find a recovery under way share it.  The
  worker manager changes worker states on its own; the calls made to it are
  recorded with what the recovery knew when it made them.
 */
module PluginRecovery {

  datatype Option<+T> = None | Some(value: T)

  datatype Status = WorkerStopped | Starting | Running | Stopping | Crashed | Backoff

  datatype Outcome = Yes | No | Threw

  /** Where a recovery attempt waits. */
  datatype Phase = Loading | Discarding(outcome: Outcome) | Settled(outcome: Outcome)

  datatype Attempt = Attempt(plugin: string, phase: Phase)

  /** A caller of the recovery; `owner` is the one whose call made the attempt. */
  datatype Caller = Caller(attempt: nat, owner: bool, answer: Option<Outcome>)

  /** Calls made to the loader and the worker manager. */
  datatype Action = LoadSingle(plugin: string, handle: Option<Status>) | StopWorker(plugin: string, handle: Option<Status>)

  datatype State = State(
    recoverable: set<string>,
    workers: map<string, Status>,
    starts: map<string, nat>,
    attempts: seq<Attempt>,
    callers: seq<Caller>,
    actions: seq<Action>)

  datatype LoadResult = Succeeded | Reported | Raised

  datatype Event =
    | Called(plugin: string, key: string, loaderReady: bool)
    | LoadSettled(attempt: nat, result: LoadResult)
    | StopSettled(attempt: nat)
    | Resumed(caller: nat)
    | WorkerChanged(plugin: string, status: Option<Status>)

  function Initial(recoverable: set<string>, workers: map<string, Status>): State {
    State(recoverable, workers, map[], [], [], [])
  }

  predicate Enabled(s: State, e: Event) {
    match e
    case Called(_, _, _) => true
    case LoadSettled(a, _) => a < |s.attempts| && s.attempts[a].phase.Loading?
    case StopSettled(a) => a < |s.attempts| && s.attempts[a].phase.Discarding?
    case Resumed(c) =>
      && c < |s.callers| && s.callers[c].answer.None?
      && s.callers[c].attempt < |s.attempts| && s.attempts[s.callers[c].attempt].phase.Settled?
    case WorkerChanged(_, _) => true
  }

  function Handle(s: State, plugin: string): Option<Status> {
    if plugin in s.workers then Some(s.workers[plugin]) else None
  }

  predicate IsRunning(s: State, plugin: string) {
    Handle(s, plugin) == Some(Running)
  }

  /** Whether a new attempt loads, or what it answers at once. */
  function FirstPhase(s: State, plugin: string, loaderReady: bool): Phase {
    if Handle(s, plugin).Some? then Settled(if IsRunning(s, plugin) then Yes else No)
    else if !loaderReady then Settled(No)
    else Loading
  }

  function Begin(s: State, plugin: string, loaderReady: bool): State {
    var phase := FirstPhase(s, plugin, loaderReady);
    s.(attempts := s.attempts + [Attempt(plugin, phase)],
       starts := s.starts[plugin := |s.attempts|],
       callers := s.callers + [Caller(|s.attempts|, true, None)],
       actions := s.actions + if phase.Loading? then [LoadSingle(plugin, Handle(s, plugin))] else [])
  }

  function Call(s: State, plugin: string, key: string, loaderReady: bool): State {
    if key !in s.recoverable then s
    else if plugin in s.starts then s.(callers := s.callers + [Caller(s.starts[plugin], false, None)])
    else Begin(s, plugin, loaderReady)
  }

  /** A dead handle is discarded; any other belongs to the worker manager. */
  predicate IsDead(handle: Option<Status>) {
    handle == Some(Crashed) || handle == Some(WorkerStopped)
  }

  function SetPhase(s: State, attempt: nat, phase: Phase): State
    requires attempt < |s.attempts|
  {
    s.(attempts := s.attempts[attempt := s.attempts[attempt].(phase := phase)])
  }

  function AfterLoad(s: State, attempt: nat, result: LoadResult): State
    requires attempt < |s.attempts|
  {
    var plugin := s.attempts[attempt].plugin;
    if result.Succeeded? || (result.Reported? && IsRunning(s, plugin)) then SetPhase(s, attempt, Settled(Yes))
    else
      var outcome := if result.Raised? then Threw else No;
      if IsDead(Handle(s, plugin)) then
        SetPhase(s, attempt, Discarding(outcome)).(actions := s.actions + [StopWorker(plugin, Handle(s, plugin))])
      else SetPhase(s, attempt, Settled(outcome))
  }

  /** A caller gets the answer; the owner also takes the attempt off the map, if it is still there. */
  function Resume(s: State, caller: nat): State
    requires Enabled(s, Resumed(caller))
  {
    var attempt := s.callers[caller].attempt;
    var plugin := s.attempts[attempt].plugin;
    s.(callers := s.callers[caller := s.callers[caller].(answer := Some(s.attempts[attempt].phase.outcome))],
       starts := if s.callers[caller].owner && plugin in s.starts && s.starts[plugin] == attempt
                 then s.starts - {plugin} else s.starts)
  }

  function Step(s: State, e: Event): State
    requires Enabled(s, e)
  {
    match e
    case Called(plugin, key, loaderReady) => Call(s, plugin, key, loaderReady)
    case LoadSettled(attempt, result) => AfterLoad(s, attempt, result)
    case StopSettled(attempt) => SetPhase(s, attempt, Settled(s.attempts[attempt].phase.outcome))
    case Resumed(caller) => Resume(s, caller)
    case WorkerChanged(plugin, status) =>
      s.(workers := if status.Some? then s.workers[plugin := status.value] else s.workers - {plugin})
  }

  // --------------------------------------------------------------- invariant

  /** An attempt that has not settled is the one on the map for its plugin. */
  ghost predicate StartsMatch(s: State) {
    && (forall a :: 0 <= a < |s.attempts| && !s.attempts[a].phase.Settled? ==>
      s.attempts[a].plugin in s.starts && s.starts[s.attempts[a].plugin] == a)
    && (forall p :: p in s.starts ==> s.starts[p] < |s.attempts| && s.attempts[s.starts[p]].plugin == p)
  }

  /** Every answer given is the outcome of the attempt the caller joined. */
  ghost predicate AnswersMatch(s: State) {
    forall c :: 0 <= c < |s.callers| ==> AnswerMatches(s.attempts, s.callers[c])
  }

  ghost predicate AnswerMatches(attempts: seq<Attempt>, caller: Caller) {
    && caller.attempt < |attempts|
    && (caller.answer.Some? ==> attempts[caller.attempt].phase == Settled(caller.answer.value))
  }

  /** Nothing is loaded over a handle, and only dead handles are stopped. */
  ghost predicate ActionsAllowed(actions: seq<Action>) {
    forall i :: 0 <= i < |actions| ==>
      match actions[i]
      case LoadSingle(_, handle) => handle.None?
      case StopWorker(_, handle) => IsDead(handle)
  }

  ghost predicate Inv(s: State) {
    StartsMatch(s) && AnswersMatch(s) && ActionsAllowed(s.actions)
  }

  lemma CallKeepsInv(s: State, plugin: string, key: string, loaderReady: bool)
    requires Inv(s)
    ensures Inv(Call(s, plugin, key, loaderReady))
  {
    var t := Call(s, plugin, key, loaderReady);
    forall c | 0 <= c < |s.callers| ensures AnswerMatches(t.attempts, s.callers[c]) {
      assert AnswerMatches(s.attempts, s.callers[c]);
    }
  }

  lemma SetPhaseKeepsInv(s: State, attempt: nat, phase: Phase)
    requires Inv(s) && attempt < |s.attempts| && !s.attempts[attempt].phase.Settled?
    ensures Inv(SetPhase(s, attempt, phase))
  {
    var t := SetPhase(s, attempt, phase);
    forall c | 0 <= c < |s.callers| ensures AnswerMatches(t.attempts, s.callers[c]) {
      assert AnswerMatches(s.attempts, s.callers[c]);
    }
  }

  lemma ResumeKeepsInv(s: State, caller: nat)
    requires Inv(s) && Enabled(s, Resumed(caller))
    ensures Inv(Resume(s, caller))
  {
    var t := Resume(s, caller);
    forall c | 0 <= c < |t.callers| ensures AnswerMatches(t.attempts, t.callers[c]) {
      assert AnswerMatches(s.attempts, s.callers[c]);
    }
  }

  lemma StepKeepsInv(s: State, e: Event)
    requires Inv(s) && Enabled(s, e)
    ensures Inv(Step(s, e))
  {
    match e
    case Called(plugin, key, loaderReady) => CallKeepsInv(s, plugin, key, loaderReady);
    case LoadSettled(attempt, result) =>
      SetPhaseKeepsInv(s, attempt, Step(s, e).attempts[attempt].phase);
    case StopSettled(attempt) => SetPhaseKeepsInv(s, attempt, Settled(s.attempts[attempt].phase.outcome));
    case Resumed(caller) => ResumeKeepsInv(s, caller);
    case WorkerChanged(_, _) =>
  }

  // ------------------------------------------------------------------- runs

  ghost predicate IsRun(states: seq<State>, events: seq<Event>) {
    && |states| == |events| + 1 && states[0] == Initial(states[0].recoverable, states[0].workers)
    && forall k :: 0 <= k < |events| ==> Enabled(states[k], events[k]) && states[k + 1] == Step(states[k], events[k])
  }

  lemma {:induction false} RunKeepsInv(states: seq<State>, events: seq<Event>, k: nat)
    requires IsRun(states, events) && k < |states|
    ensures Inv(states[k])
  {
    if k > 0 {
      RunKeepsInv(states, events, k - 1);
      StepKeepsInv(states[k - 1], events[k - 1]);
    }
  }

  /** However calls interleave, a plugin has at most one load, or discard after it, under way. */
  lemma OneLoadPerPlugin(states: seq<State>, events: seq<Event>, k: nat, a: nat, b: nat)
    requires IsRun(states, events) && k < |states|
    requires a < |states[k].attempts| && b < |states[k].attempts|
    requires !states[k].attempts[a].phase.Settled? && !states[k].attempts[b].phase.Settled?
    requires states[k].attempts[a].plugin == states[k].attempts[b].plugin
    ensures a == b
  {
    RunKeepsInv(states, events, k);
  }

  /** Callers that shared an attempt are answered alike, whenever each of them is resumed. */
  lemma SharedResult(states: seq<State>, events: seq<Event>, k: nat, c: nat, d: nat)
    requires IsRun(states, events) && k < |states|
    requires c < |states[k].callers| && d < |states[k].callers|
    requires states[k].callers[c].attempt == states[k].callers[d].attempt
    requires states[k].callers[c].answer.Some? && states[k].callers[d].answer.Some?
    ensures states[k].callers[c].answer == states[k].callers[d].answer
  {
    RunKeepsInv(states, events, k);
    assert AnswerMatches(states[k].attempts, states[k].callers[c]);
    assert AnswerMatches(states[k].attempts, states[k].callers[d]);
  }

  /** Over every run: a load is only made where no worker is registered, and only a crashed or stopped worker is ever stopped. */
  lemma OnlyDeadWorkersAreStopped(states: seq<State>, events: seq<Event>, k: nat)
    requires IsRun(states, events) && k < |states|
    ensures forall i :: 0 <= i < |states[k].actions| && states[k].actions[i].StopWorker? ==>
      states[k].actions[i].handle in {Some(Crashed), Some(WorkerStopped)}
    ensures forall i :: 0 <= i < |states[k].actions| && states[k].actions[i].LoadSingle? ==> states[k].actions[i].handle.None?
  {
    RunKeepsInv(states, events, k);
  }

  /** The last call made for a plugin. */
  ghost function LastFor(actions: seq<Action>, plugin: string): Option<Action> {
    if actions == [] then None
    else if actions[|actions| - 1].plugin == plugin then Some(actions[|actions| - 1])
    else LastFor(actions[..|actions| - 1], plugin)
  }

  lemma LastForSnoc(actions: seq<Action>, action: Action, plugin: string)
    ensures LastFor(actions + [action], plugin) == if action.plugin == plugin then Some(action) else LastFor(actions, plugin)
  {
    assert (actions + [action])[..|actions|] == actions;
  }

  predicate IsFreshLoad(last: Option<Action>) {
    last.Some? && last.value.LoadSingle? && last.value.handle.None?
  }

  /** While an attempt loads, its load is the last call made for its plugin. */
  ghost predicate LoadIsLast(s: State) {
    forall a :: 0 <= a < |s.attempts| && s.attempts[a].phase.Loading? ==> IsFreshLoad(LastFor(s.actions, s.attempts[a].plugin))
  }

  /** Each stop comes right after a load of the same plugin that found no worker. */
  ghost predicate StopsFollowLoads(actions: seq<Action>) {
    forall i :: 0 <= i < |actions| && actions[i].StopWorker? ==> IsFreshLoad(LastFor(actions[..i], actions[i].plugin))
  }

  lemma StopsFollowLoadsSnoc(actions: seq<Action>, action: Action)
    requires StopsFollowLoads(actions) && (action.StopWorker? ==> IsFreshLoad(LastFor(actions, action.plugin)))
    ensures StopsFollowLoads(actions + [action])
  {
    var next := actions + [action];
    forall i | 0 <= i < |next| && next[i].StopWorker? ensures IsFreshLoad(LastFor(next[..i], next[i].plugin)) {
      assert next[..i] == actions[..i];
      assert i == |actions| ==> actions[..i] == actions;
    }
  }

  lemma BeginKeepsOrder(s: State, plugin: string, loaderReady: bool)
    requires Inv(s) && LoadIsLast(s) && StopsFollowLoads(s.actions) && plugin !in s.starts
    ensures LoadIsLast(Begin(s, plugin, loaderReady)) && StopsFollowLoads(Begin(s, plugin, loaderReady).actions)
  {
    var load := LoadSingle(plugin, Handle(s, plugin));
    var next := Begin(s, plugin, loaderReady);
    if FirstPhase(s, plugin, loaderReady).Loading? {
      assert next.actions == s.actions + [load];
      StopsFollowLoadsSnoc(s.actions, load);
      forall a | 0 <= a < |next.attempts| && next.attempts[a].phase.Loading?
        ensures IsFreshLoad(LastFor(next.actions, next.attempts[a].plugin))
      {
        LastForSnoc(s.actions, load, next.attempts[a].plugin);
      }
    } else {
      assert next.actions == s.actions;
    }
  }

  lemma AfterLoadKeepsOrder(s: State, attempt: nat, result: LoadResult)
    requires Inv(s) && LoadIsLast(s) && StopsFollowLoads(s.actions) && Enabled(s, LoadSettled(attempt, result))
    ensures LoadIsLast(AfterLoad(s, attempt, result)) && StopsFollowLoads(AfterLoad(s, attempt, result).actions)
  {
    var plugin := s.attempts[attempt].plugin;
    var stop := StopWorker(plugin, Handle(s, plugin));
    StopsFollowLoadsSnoc(s.actions, stop);
    forall p {
      LastForSnoc(s.actions, stop, p);
    }
  }

  lemma StepKeepsOrder(s: State, e: Event)
    requires Inv(s) && LoadIsLast(s) && StopsFollowLoads(s.actions) && Enabled(s, e)
    ensures LoadIsLast(Step(s, e)) && StopsFollowLoads(Step(s, e).actions)
  {
    match e
    case Called(plugin, key, loaderReady) =>
      if key in s.recoverable && plugin !in s.starts {
        BeginKeepsOrder(s, plugin, loaderReady);
      }
    case LoadSettled(attempt, result) => AfterLoadKeepsOrder(s, attempt, result);
    case _ =>
  }

  lemma {:induction false} RunKeepsOrder(states: seq<State>, events: seq<Event>, k: nat)
    requires IsRun(states, events) && k < |states|
    ensures LoadIsLast(states[k]) && StopsFollowLoads(states[k].actions)
  {
    if k > 0 {
      RunKeepsOrder(states, events, k - 1);
      RunKeepsInv(states, events, k - 1);
      StepKeepsOrder(states[k - 1], events[k - 1]);
    }
  }

  /** Call `j` is the last one for the plugin before call `i`. */
  predicate IsLastBefore(actions: seq<Action>, plugin: string, j: nat, i: nat)
    requires i <= |actions|
  {
    j < i && actions[j].plugin == plugin && forall m :: j < m < i ==> actions[m].plugin != plugin
  }

  lemma {:induction false} LastForAt(actions: seq<Action>, plugin: string) returns (j: nat)
    requires LastFor(actions, plugin).Some?
    ensures IsLastBefore(actions, plugin, j, |actions|) && actions[j] == LastFor(actions, plugin).value
  {
    j := |actions| - 1;
    if actions[j].plugin != plugin {
      var front := actions[..j];
      j := LastForAt(front, plugin);
      assert forall m :: 0 <= m < |front| ==> actions[m] == front[m];
    }
  }

  /**
    Over every run the worker that a recovery stops was registered since its
    own load: the last call for the plugin before the stop is a load of it, and
    that load found no worker.
   */
  lemma OnlyOwnWorkersAreStopped(states: seq<State>, events: seq<Event>, k: nat, i: nat) returns (j: nat)
    requires IsRun(states, events) && k < |states|
    requires i < |states[k].actions| && states[k].actions[i].StopWorker?
    ensures IsDead(states[k].actions[i].handle)
    ensures IsLastBefore(states[k].actions, states[k].actions[i].plugin, j, i)
    ensures states[k].actions[j] == LoadSingle(states[k].actions[i].plugin, None)
  {
    RunKeepsInv(states, events, k);
    RunKeepsOrder(states, events, k);
    var actions := states[k].actions;
    j := LastForAt(actions[..i], actions[i].plugin);
    assert actions[..i][j] == actions[j];
    assert forall m :: 0 <= m < i ==> actions[..i][m] == actions[m];
  }

  // ------------------------------------------------- what a recovery decides

  /**
    A call that makes its own attempt loads exactly when no worker is registered
    and the loader is ready; else it answers at once, yes exactly for a running
    worker.  A plugin that is not recoverable is left alone.
   */
  lemma CallDecides(s: State, plugin: string, key: string, loaderReady: bool)
    ensures key !in s.recoverable ==> Call(s, plugin, key, loaderReady) == s
    ensures key in s.recoverable && plugin !in s.starts ==>
      var t := Call(s, plugin, key, loaderReady);
      var loads := plugin !in s.workers && loaderReady;
      && |t.attempts| == |s.attempts| + 1 && t.attempts[..|s.attempts|] == s.attempts
      && t.attempts[|s.attempts|] == Attempt(plugin,
           if loads then Loading
           else Settled(if plugin in s.workers && s.workers[plugin] == Running then Yes else No))
      && t.actions == s.actions + (if loads then [LoadSingle(plugin, None)] else [])
      && t.starts == s.starts[plugin := |s.attempts|]
      && t.callers == s.callers + [Caller(|s.attempts|, true, None)] && t.workers == s.workers
  {
  }

  /**
    A load is answered yes exactly when it succeeded or its worker runs in spite
    of a reported failure; a rejected one is passed on.  After any other answer a
    crashed or stopped worker is stopped before the answer is given.
   */
  lemma LoadDecides(s: State, attempt: nat, result: LoadResult)
    requires Enabled(s, LoadSettled(attempt, result))
    ensures var t, plugin := Step(s, LoadSettled(attempt, result)), s.attempts[attempt].plugin;
      var handle := if plugin in s.workers then Some(s.workers[plugin]) else None;
      var yes := result == Succeeded || (result == Reported && handle == Some(Running));
      var dead := handle == Some(Crashed) || handle == Some(WorkerStopped);
      var answer := if yes then Yes else if result == Raised then Threw else No;
      && t.attempts[attempt].phase == (if !yes && dead then Discarding(answer) else Settled(answer))
      && t.actions == s.actions + (if !yes && dead then [StopWorker(plugin, handle)] else [])
      && t == s.(attempts := t.attempts, actions := t.actions)
  {
  }

  /** The caller that made an attempt; it cleans up when it is resumed. */
  ghost predicate OwnerPending(s: State, attempt: nat) {
    exists c :: 0 <= c < |s.callers| && s.callers[c] == Caller(attempt, true, None)
  }

  /** Each attempt on the map has its owner still to be resumed, and each attempt one owner. */
  ghost predicate OwnersPending(s: State) {
    && (forall p :: p in s.starts ==> OwnerPending(s, s.starts[p]))
    && (forall c, d ::
          (0 <= c < |s.callers| && 0 <= d < |s.callers| && s.callers[c].owner && s.callers[d].owner
           && s.callers[c].attempt == s.callers[d].attempt) ==> c == d)
  }

  lemma CallerStays(s: State, t: State, attempt: nat, c: nat)
    requires c < |s.callers| <= |t.callers| && s.callers[c] == Caller(attempt, true, None) && t.callers[c] == s.callers[c]
    ensures OwnerPending(t, attempt)
  {
  }

  lemma CallKeepsOwners(s: State, plugin: string, key: string, loaderReady: bool)
    requires Inv(s) && OwnersPending(s)
    ensures OwnersPending(Call(s, plugin, key, loaderReady))
  {
    var t := Call(s, plugin, key, loaderReady);
    forall p | p in t.starts ensures OwnerPending(t, t.starts[p]) {
      if p in s.starts && t.starts[p] == s.starts[p] {
        var c :| 0 <= c < |s.callers| && s.callers[c] == Caller(s.starts[p], true, None);
        CallerStays(s, t, s.starts[p], c);
      } else {
        assert t.callers[|s.callers|] == Caller(t.starts[p], true, None);
      }
    }
    forall c | 0 <= c < |s.callers| ensures s.callers[c].attempt < |s.attempts| {
      assert AnswerMatches(s.attempts, s.callers[c]);
    }
  }

  lemma ResumeKeepsOwners(s: State, caller: nat)
    requires Inv(s) && OwnersPending(s) && Enabled(s, Resumed(caller))
    ensures OwnersPending(Resume(s, caller))
  {
    var t := Resume(s, caller);
    forall p | p in t.starts ensures OwnerPending(t, t.starts[p]) {
      var c :| 0 <= c < |s.callers| && s.callers[c] == Caller(s.starts[p], true, None);
      assert c != caller;
      CallerStays(s, t, s.starts[p], c);
    }
  }

  lemma {:induction false} RunKeepsOwners(states: seq<State>, events: seq<Event>, k: nat)
    requires IsRun(states, events) && k < |states|
    ensures OwnersPending(states[k])
  {
    if k > 0 {
      RunKeepsOwners(states, events, k - 1);
      RunKeepsInv(states, events, k - 1);
      var s, e := states[k - 1], events[k - 1];
      if e.Called? {
        CallKeepsOwners(s, e.plugin, e.key, e.loaderReady);
      } else if e.Resumed? {
        ResumeKeepsOwners(s, e.caller);
      } else {
        OthersKeepOwners(s, e);
      }
    }
  }

  lemma OthersKeepOwners(s: State, e: Event)
    requires OwnersPending(s) && Enabled(s, e) && !e.Called? && !e.Resumed?
    ensures OwnersPending(Step(s, e))
  {
    assert Step(s, e).callers == s.callers && Step(s, e).starts == s.starts;
    forall p | p in s.starts ensures OwnerPending(Step(s, e), s.starts[p]) {
      var c :| 0 <= c < |s.callers| && s.callers[c] == Caller(s.starts[p], true, None);
      CallerStays(s, Step(s, e), s.starts[p], c);
    }
  }

  /** Over every run: when its owner has been resumed an attempt is off the map, so the next call makes a new one. */
  lemma NoPluginStaysBlocked(states: seq<State>, events: seq<Event>, k: nat, c: nat)
    requires IsRun(states, events) && k < |states|
    requires c < |states[k].callers| && states[k].callers[c].owner && states[k].callers[c].answer.Some?
    ensures forall p :: p in states[k].starts ==> states[k].starts[p] != states[k].callers[c].attempt
  {
    RunKeepsOwners(states, events, k);
  }

  /** A call while a recovery of the plugin is under way joins it: nothing is loaded or stopped for it. */
  lemma CallJoins(s: State, attempt: nat, key: string, loaderReady: bool)
    requires Inv(s) && attempt < |s.attempts| && !s.attempts[attempt].phase.Settled? && key in s.recoverable
    ensures var t := Call(s, s.attempts[attempt].plugin, key, loaderReady);
      t == s.(callers := s.callers + [Caller(attempt, false, None)])
  {
  }

  // ------------------------------------------------------------- the program

  /** The closure of the recovery, with the worker manager's registry beside it. */
  class Recovery {
    const recoverablePluginKeys: set<string>
    var workers: map<string, Status>
    var inFlightStarts: map<string, nat>
    var attempts: seq<Attempt>
    var callers: seq<Caller>
    ghost var actions: seq<Action>

    ghost function View(): State
      reads this
    {
      State(recoverablePluginKeys, workers, inFlightStarts, attempts, callers, actions)
    }

    constructor (keys: set<string>, workers: map<string, Status>)
      ensures View() == Initial(keys, workers)
    {
      recoverablePluginKeys, this.workers := keys, workers;
      inFlightStarts, attempts, callers, actions := map[], [], [], [];
    }

    method GetWorker(plugin: string) returns (handle: Option<Status>)
      ensures handle == Handle(View(), plugin)
    {
      handle := if plugin in workers then Some(workers[plugin]) else None;
    }

    /** A call of the returned function, up to its wait for the attempt. */
    method Recover(plugin: string, key: string, loaderReady: bool)
      modifies this
      ensures View() == Step(old(View()), Called(plugin, key, loaderReady))
    {
      if key !in recoverablePluginKeys {
        return;
      }
      if plugin in inFlightStarts {
        callers := callers + [Caller(inFlightStarts[plugin], false, None)];
        return;
      }
      var handle := GetWorker(plugin);
      var phase := Loading;
      if handle.Some? {
        phase := Settled(if handle.value == Running then Yes else No);
      } else if !loaderReady {
        phase := Settled(No);
      } else {
        actions := actions + [LoadSingle(plugin, handle)];
      }
      inFlightStarts := inFlightStarts[plugin := |attempts|];
      callers := callers + [Caller(|attempts|, true, None)];
      attempts := attempts + [Attempt(plugin, phase)];
    }

    method OnLoadSettled(attempt: nat, result: LoadResult)
      requires Enabled(View(), LoadSettled(attempt, result))
      modifies this
      ensures View() == Step(old(View()), LoadSettled(attempt, result))
    {
      var plugin := attempts[attempt].plugin;
      var handle := GetWorker(plugin);
      if result.Succeeded? || (result.Reported? && handle == Some(Running)) {
        attempts := attempts[attempt := Attempt(plugin, Settled(Yes))];
        return;
      }
      var outcome := if result.Raised? then Threw else No;
      DiscardDeadRecoveryHandle(attempt, outcome, handle);
    }

    method DiscardDeadRecoveryHandle(attempt: nat, outcome: Outcome, handle: Option<Status>)
      requires attempt < |attempts|
      modifies this
      ensures View() ==
        if IsDead(handle) then
          SetPhase(old(View()), attempt, Discarding(outcome)).(
            actions := old(actions) + [StopWorker(old(attempts[attempt].plugin), handle)])
        else SetPhase(old(View()), attempt, Settled(outcome))
    {
      var plugin := attempts[attempt].plugin;
      if handle.None? || (handle.value != Crashed && handle.value != WorkerStopped) {
        attempts := attempts[attempt := Attempt(plugin, Settled(outcome))];
        return;
      }
      actions := actions + [StopWorker(plugin, handle)];
      attempts := attempts[attempt := Attempt(plugin, Discarding(outcome))];
    }

    /** A caller goes on after its wait; the one that made the attempt cleans up. */
    method OnResumed(caller: nat)
      requires Enabled(View(), Resumed(caller))
      modifies this
      ensures View() == Step(old(View()), Resumed(caller))
    {
      var attempt := callers[caller].attempt;
      var plugin := attempts[attempt].plugin;
      var owner := callers[caller].owner;
      callers := callers[caller := Caller(attempt, owner, Some(attempts[attempt].phase.outcome))];
      if owner && plugin in inFlightStarts && inFlightStarts[plugin] == attempt {
        inFlightStarts := inFlightStarts - {plugin};
      }
    }
  }
}
