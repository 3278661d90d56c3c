/**
  The dev supervisor of scripts/dev-runner.ts and the restart-request mailbox
  of server/src/dev-server-status.ts.

  Code between two `await`s runs without interruption, so the supervisor is a
  machine whose steps are the event-loop turns.  The mailbox lock is assumed to
  exclude, so a write and a compare-and-delete are single steps; a removal may
  find the lock busy and then changes nothing.
 */
module DevSupervisor {

  datatype Option<+T> = None | Some(value: T)

  type Child = nat

  type Snapshot = map<string, int>

  datatype Request = Request(requestedAt: string, id: Option<string>, previousIdentity: Option<string>)

  datatype Mailbox = Absent | Unreadable | Holds(request: Request)

  datatype Health = Health(enabled: bool, autoRestart: bool, activeRuns: int, identity: Option<string>)

  // ---------------------------------------------------------------- mailbox

  function Read(mailbox: Mailbox): Option<Request> {
    if mailbox.Holds? then Some(mailbox.request) else None
  }

  /** The id a removal for a picked-up request names: none when the request has none, or an empty one. */
  function NamedId(picked: Request): Option<string> {
    if picked.id.Some? && picked.id.value != "" then picked.id else None
  }

  /** Compare and delete under the lock; without an expected id whatever is there goes. */
  function Remove(mailbox: Mailbox, expected: Option<string>, busy: bool): Mailbox {
    if busy then mailbox
    else if expected.Some? && (Read(mailbox).None? || Read(mailbox).value.id != expected) then mailbox
    else Absent
  }

  // -------------------------------------------------------------- supervisor

  /** Where the starting or restarting coroutine waits; `target` is the child it set out to replace. */
  datatype Flow =
    | Booting
    | BootMarking
    | Idle
    | AwaitingHealth(picked: Option<Request>, target: Child)
    | Preflight(picked: Option<Request>, target: Child)
    | Stopping(picked: Option<Request>, target: Child)
    | Building(picked: Option<Request>, target: Child, consumed: bool)
    | Marking(picked: Option<Request>, target: Child, consumed: bool)
  {
    predicate Restarting() {
      !Booting? && !BootMarking? && !Idle?
    }
  }

  datatype Shutdown = NotRequested | Unregistering | AwaitingChild(awaited: Child)

  /** The files as last scanned, as they were when the running server was started, and the paths marked dirty since. */
  datatype Watch = Watch(previous: Snapshot, baseline: Snapshot, dirty: set<string>)

  datatype State = State(
    dev: bool,
    flow: Flow,
    restartInFlight: bool,
    intervals: bool,
    scanInFlight: bool,
    child: Option<Child>,
    exitWasExpected: bool,
    shutdown: Shutdown,
    terminated: bool,
    watch: Watch,
    migrations: nat,
    mailbox: Mailbox,
    live: set<Child>,
    nextChild: Child)

  /** What other processes do. */
  datatype Outside = Requested(request: Request) | ChildExited(exited: Child)

  /** Turns of the two intervals. */
  datatype Timer = Polled | Scanned(seen: Snapshot) | ScanSettled(pending: nat)

  /** Turns of the coroutine that starts or restarts the server. */
  datatype Turn =
    | Booted(files: Snapshot)
    | BootMarked(pending: nat)
    | HealthFailed
    | HealthAnswered(health: Health, busy: bool)
    | PreflightDone(pending: nat)
    | StopObserved(busy: bool)
    | Rebuilt(files: Snapshot)
    | Marked(pending: nat, busy: bool)

  /** Turns of the shutdown handler; `Failed` is any error that ends the process. */
  datatype Closing = ShutdownCalled | Unregistered | AwaitedChildGone | Failed

  datatype Event = World(outside: Outside) | Tick(timer: Timer) | Run(turn: Turn) | Close(closing: Closing)

  function Initial(dev: bool, files: Snapshot, mailbox: Mailbox): State {
    State(dev, Booting, false, false, false, None, false, NotRequested, false, Watch(files, files, {}), 0, mailbox, {}, 0)
  }

  predicate TurnEnabled(s: State, turn: Turn) {
    match turn
    case Booted(_) => s.flow.Booting?
    case BootMarked(_) => s.flow.BootMarking?
    case HealthFailed => s.flow.AwaitingHealth?
    case HealthAnswered(_, _) => s.flow.AwaitingHealth?
    case PreflightDone(_) => s.flow.Preflight?
    case StopObserved(_) => s.flow.Stopping? && s.flow.target !in s.live
    case Rebuilt(_) => s.flow.Building?
    case Marked(_, _) => s.flow.Marking?
  }

  predicate CloseEnabled(s: State, closing: Closing) {
    match closing
    case ShutdownCalled => s.shutdown.NotRequested?
    case Unregistered => s.shutdown.Unregistering?
    case AwaitedChildGone => s.shutdown.AwaitingChild? && s.shutdown.awaited !in s.live
    case Failed => true
  }

  predicate Enabled(s: State, e: Event) {
    match e
    case World(outside) => outside.ChildExited? ==> outside.exited in s.live
    case Tick(timer) => !s.terminated && if timer.ScanSettled? then s.scanInFlight else s.intervals
    case Run(turn) => !s.terminated && TurnEnabled(s, turn)
    case Close(closing) => !s.terminated && CloseEnabled(s, closing)
  }

  function Changed(before: Snapshot, after: Snapshot): set<string> {
    set p | p in before.Keys + after.Keys && !(p in before && p in after && before[p] == after[p])
  }

  /** A removal for the request that was picked up, if there was one. */
  function RemovePicked(mailbox: Mailbox, picked: Option<Request>, busy: bool): Mailbox {
    if picked.None? then mailbox else Remove(mailbox, NamedId(picked.value), busy)
  }

  /** The health answer shows that the server the request was made against is gone already. */
  predicate ServedAlready(picked: Option<Request>, health: Health) {
    && picked.Some? && picked.value.previousIdentity.Some? && picked.value.previousIdentity.value != ""
    && health.identity != picked.value.previousIdentity
  }

  /** Spawns the server and marks it as current, up to the next wait. */
  function Spawn(s: State, flow: Flow, files: Snapshot): State {
    s.(flow := flow, child := Some(s.nextChild), live := s.live + {s.nextChild}, nextChild := s.nextChild + 1,
       watch := Watch(files, files, {}))
  }

  function EndRestart(s: State): State {
    s.(flow := Idle, restartInFlight := false)
  }

  function Poll(s: State): State {
    if !s.dev || s.restartInFlight || s.child.None? then s
    else if Read(s.mailbox).None? && s.watch.dirty == {} && s.migrations == 0 then s
    else s.(restartInFlight := true, flow := AwaitingHealth(Read(s.mailbox), s.child.value))
  }

  function Scan(s: State, seen: Snapshot): State {
    if !s.dev || s.scanInFlight || s.restartInFlight then s
    else
      var changed := Changed(s.watch.previous, seen);
      s.(watch := Watch(seen, s.watch.baseline, s.watch.dirty + changed), scanInFlight := changed != {})
  }

  function Answer(s: State, health: Health, busy: bool): State
    requires s.flow.AwaitingHealth?
  {
    var picked := s.flow.picked;
    if !health.enabled then EndRestart(s)
    else if ServedAlready(picked, health) then EndRestart(s.(mailbox := RemovePicked(s.mailbox, picked, busy)))
    else if picked.None? && (!health.autoRestart || health.activeRuns > 0) then EndRestart(s)
    else s.(flow := Preflight(picked, s.flow.target))
  }

  function Exit(s: State, exited: Child): State {
    s.(live := s.live - {exited}, child := None, exitWasExpected := false,
       terminated := s.terminated || !(s.restartInFlight || s.exitWasExpected || !s.shutdown.NotRequested?))
  }

  function StepTimer(s: State, timer: Timer): State {
    match timer
    case Polled => Poll(s)
    case Scanned(seen) => Scan(s, seen)
    case ScanSettled(pending) => s.(scanInFlight := false, migrations := pending)
  }

  function StepTurn(s: State, turn: Turn): State
    requires TurnEnabled(s, turn)
  {
    match turn
    case Booted(files) => Spawn(s, BootMarking, files)
    case BootMarked(pending) => s.(flow := Idle, intervals := s.dev, migrations := pending)
    case HealthFailed => EndRestart(s)
    case HealthAnswered(health, busy) => Answer(s, health, busy)
    case PreflightDone(pending) =>
      s.(migrations := pending, flow := Stopping(s.flow.picked, s.flow.target),
         exitWasExpected := s.exitWasExpected || s.child.Some?)
    case StopObserved(busy) =>
      s.(mailbox := RemovePicked(s.mailbox, s.flow.picked, busy),
         flow := Building(s.flow.picked, s.flow.target, s.flow.picked.None? || !busy))
    case Rebuilt(files) => Spawn(s, Marking(s.flow.picked, s.flow.target, s.flow.consumed), files)
    case Marked(pending, busy) =>
      EndRestart(s.(migrations := pending,
                    mailbox := if s.flow.consumed then s.mailbox else RemovePicked(s.mailbox, s.flow.picked, busy)))
  }

  function StepClose(s: State, closing: Closing): State {
    match closing
    case ShutdownCalled => s.(shutdown := Unregistering, intervals := false)
    case Unregistered =>
      if s.child.None? then s.(terminated := true)
      else s.(exitWasExpected := true, shutdown := AwaitingChild(s.child.value))
    case AwaitedChildGone => s.(terminated := true)
    case Failed => s.(terminated := true)
  }

  function Step(s: State, e: Event): State
    requires Enabled(s, e)
  {
    match e
    case World(Requested(request)) => s.(mailbox := Holds(request))
    case World(ChildExited(exited)) => Exit(s, exited)
    case Tick(timer) => StepTimer(s, timer)
    case Run(turn) => StepTurn(s, turn)
    case Close(closing) => StepClose(s, closing)
  }

  // --------------------------------------------------------------- invariant

  /** The process that runs is the one the supervisor knows, and each wait finds it as the coroutine left it. */
  ghost predicate OneChild(s: State) {
    && (forall c :: c in s.live <==> s.child == Some(c))
    && (s.child.Some? ==> s.child.value < s.nextChild)
    && s.restartInFlight == s.flow.Restarting()
    && (s.intervals ==> s.flow.Idle? || s.flow.Restarting())
    && (s.flow.Booting? || s.flow.Building? ==> s.child.None?)
    && (s.flow.Restarting() ==> s.flow.target < s.nextChild)
    && (s.flow.AwaitingHealth? || s.flow.Preflight? || s.flow.Stopping? ==> s.child.None? || s.child == Some(s.flow.target))
    && (s.flow.Marking? ==> s.child != Some(s.flow.target))
    && (s.exitWasExpected ==> s.child.Some? && (s.flow.Stopping? || !s.shutdown.NotRequested?))
  }

  /** Every file that differs from what the running server was started on is marked dirty. */
  ghost predicate DirtyCoversDrift(watch: Watch) {
    Changed(watch.baseline, watch.previous) <= watch.dirty
  }

  ghost predicate Inv(s: State) {
    OneChild(s) && DirtyCoversDrift(s.watch)
  }

  lemma SpawnKeepsOneChild(s: State, flow: Flow, files: Snapshot)
    requires OneChild(s) && s.child.None? && (flow.BootMarking? || flow.Marking?)
    requires s.restartInFlight == flow.Restarting() && (s.intervals ==> flow.Marking?)
    requires flow.Marking? ==> flow.target < s.nextChild
    ensures OneChild(Spawn(s, flow, files))
  {
  }

  lemma ExitKeepsOneChild(s: State, exited: Child)
    requires OneChild(s) && exited in s.live
    ensures OneChild(Exit(s, exited))
  {
  }

  lemma EndKeepsOneChild(s: State, mailbox: Mailbox, pending: nat)
    requires OneChild(s) && s.flow.Restarting() && !s.flow.Stopping?
    ensures OneChild(EndRestart(s.(mailbox := mailbox, migrations := pending)))
  {
  }

  lemma AnswerKeepsOneChild(s: State, health: Health, busy: bool)
    requires OneChild(s) && s.flow.AwaitingHealth?
    ensures OneChild(Answer(s, health, busy))
  {
    var mailbox := RemovePicked(s.mailbox, s.flow.picked, busy);
    EndKeepsOneChild(s, s.mailbox, s.migrations);
    EndKeepsOneChild(s, mailbox, s.migrations);
    var served := s.(mailbox := mailbox);
    assert Answer(s, health, busy) in {EndRestart(s), EndRestart(served), s.(flow := Preflight(s.flow.picked, s.flow.target))};
  }

  lemma TimerKeepsOneChild(s: State, timer: Timer)
    requires OneChild(s) && (timer.ScanSettled? || s.intervals)
    ensures OneChild(StepTimer(s, timer))
  {
  }

  lemma TurnKeepsOneChild(s: State, turn: Turn)
    requires OneChild(s) && TurnEnabled(s, turn)
    ensures OneChild(StepTurn(s, turn))
  {
    match turn
    case Booted(files) => SpawnKeepsOneChild(s, BootMarking, files);
    case Rebuilt(files) => SpawnKeepsOneChild(s, Marking(s.flow.picked, s.flow.target, s.flow.consumed), files);
    case HealthFailed => EndKeepsOneChild(s, s.mailbox, s.migrations);
    case HealthAnswered(health, busy) => AnswerKeepsOneChild(s, health, busy);
    case Marked(pending, busy) => EndKeepsOneChild(s, StepTurn(s, turn).mailbox, pending);
    case _ =>
  }

  lemma CloseKeepsOneChild(s: State, closing: Closing)
    requires OneChild(s) && CloseEnabled(s, closing)
    ensures OneChild(StepClose(s, closing))
  {
  }

  lemma StepKeepsOneChild(s: State, e: Event)
    requires OneChild(s) && Enabled(s, e)
    ensures OneChild(Step(s, e))
  {
    match e
    case World(Requested(_)) =>
    case World(ChildExited(exited)) => ExitKeepsOneChild(s, exited);
    case Tick(timer) => TimerKeepsOneChild(s, timer);
    case Run(turn) => TurnKeepsOneChild(s, turn);
    case Close(closing) => CloseKeepsOneChild(s, closing);
  }

  lemma ChangesAddUp(baseline: Snapshot, previous: Snapshot, seen: Snapshot)
    ensures Changed(baseline, seen) <= Changed(baseline, previous) + Changed(previous, seen)
    ensures Changed(seen, seen) == {}
  {
  }

  lemma WatchChanges(s: State, turn: Turn)
    requires TurnEnabled(s, turn)
    ensures StepTurn(s, turn).watch ==
      if turn.Booted? || turn.Rebuilt? then Watch(turn.files, turn.files, {}) else s.watch
  {
  }

  lemma StepKeepsDirty(s: State, e: Event)
    requires DirtyCoversDrift(s.watch) && Enabled(s, e)
    ensures DirtyCoversDrift(Step(s, e).watch)
  {
    match e
    case World(_) =>
    case Close(_) =>
    case Tick(timer) =>
      if timer.Scanned? {
        ChangesAddUp(s.watch.baseline, s.watch.previous, timer.seen);
      }
    case Run(turn) =>
      WatchChanges(s, turn);
      if turn.Booted? || turn.Rebuilt? {
        ChangesAddUp(turn.files, turn.files, turn.files);
      }
  }

  lemma StepKeepsInv(s: State, e: Event)
    requires Inv(s) && Enabled(s, e)
    ensures Inv(Step(s, e))
  {
    StepKeepsOneChild(s, e);
    StepKeepsDirty(s, e);
  }

  // ------------------------------------------------------------------- runs

  ghost predicate Steps(states: seq<State>, events: seq<Event>) {
    && |states| == |events| + 1
    && forall k :: 0 <= k < |events| ==> Enabled(states[k], events[k]) && states[k + 1] == Step(states[k], events[k])
  }

  /** A run from the start of the supervisor, with any files and any mailbox. */
  ghost predicate IsRun(states: seq<State>, events: seq<Event>) {
    && Steps(states, events)
    && states[0] == Initial(states[0].dev, states[0].watch.previous, states[0].mailbox)
  }

  lemma {:induction false} RunKeepsInv(states: seq<State>, events: seq<Event>, k: nat)
    requires IsRun(states, events) && k < |states|
    ensures Inv(states[k])
  {
    if k > 0 {
      RunKeepsInv(states, events, k - 1);
      StepKeepsInv(states[k - 1], events[k - 1]);
    } else {
      ChangesAddUp(states[0].watch.previous, states[0].watch.previous, states[0].watch.previous);
    }
  }

  /** At most one server runs, over every interleaving, and the supervisor knows which. */
  lemma AtMostOneServer(states: seq<State>, events: seq<Event>, k: nat)
    requires IsRun(states, events) && k < |states|
    ensures forall a, b :: a in states[k].live && b in states[k].live ==> a == b
    ensures states[k].live == {} <==> states[k].child.None?
  {
    RunKeepsInv(states, events, k);
    assert states[k].child.Some? ==> states[k].child.value in states[k].live;
  }

  /** Only a poll starts a restart, and only between the coroutine's runs. */
  lemma StartOfRestart(s: State, e: Event)
    requires OneChild(s) && Enabled(s, e)
    requires !s.restartInFlight && Step(s, e).restartInFlight
    ensures e == Tick(Polled) && s.flow.Idle? && s.child.Some?
    ensures Step(s, e).flow == AwaitingHealth(Read(s.mailbox), s.child.value)
  {
    if e.Run? {
      TurnEndsRestart(s, e.turn);
    }
  }

  lemma TurnEndsRestart(s: State, turn: Turn)
    requires OneChild(s) && TurnEnabled(s, turn)
    ensures StepTurn(s, turn).restartInFlight ==> s.restartInFlight
  {
  }

  /** A server that dies on its own, with no restart and no shutdown under way, always takes the supervisor with it. */
  lemma CrashEndsTheSupervisor(s: State, exited: Child)
    requires OneChild(s) && exited in s.live && !s.restartInFlight && s.shutdown.NotRequested?
    ensures Step(s, World(ChildExited(exited))).terminated
  {
  }

  /** A file has changed if it came, went, or holds something else. */
  lemma ChangedIff(before: Snapshot, after: Snapshot, path: string)
    ensures path in Changed(before, after) <==>
      (path in before && path !in after) || (path !in before && path in after)
      || (path in before && path in after && before[path] != after[path])
  {
  }

  /** A file that differs from what the running server was started on makes the next poll look at the server's health. */
  lemma DriftIsNoticed(s: State)
    requires Inv(s) && Enabled(s, Tick(Polled)) && s.dev && s.child.Some? && !s.restartInFlight
    requires Changed(s.watch.baseline, s.watch.previous) != {}
    ensures Step(s, Tick(Polled)).flow == AwaitingHealth(Read(s.mailbox), s.child.value)
  {
  }

  /**
    A poll sets a restart out exactly in dev mode, with a server running and no
    restart under way, when there is a request, a dirty path or a pending migration.
   */
  lemma PollSetsOutIff(s: State)
    requires Inv(s) && Enabled(s, Tick(Polled))
    ensures Step(s, Tick(Polled)) != s <==>
      && s.dev && !s.restartInFlight && s.child.Some?
      && (Read(s.mailbox).Some? || s.watch.dirty != {} || s.migrations > 0)
    ensures Step(s, Tick(Polled)) != s ==>
      Step(s, Tick(Polled)) == s.(restartInFlight := true, flow := AwaitingHealth(Read(s.mailbox), s.child.value))
  {
  }

  /**
    A scan in dev mode, with none and no restart under way, takes in the files
    it saw, marks exactly the changed ones as well, and looks for migrations if
    there are any; another scan does nothing.
   */
  lemma ScanMarksIff(s: State, seen: Snapshot)
    requires Enabled(s, Tick(Scanned(seen)))
    ensures var t := Step(s, Tick(Scanned(seen)));
      if s.dev && !s.scanInFlight && !s.restartInFlight then
        && t.watch.previous == seen && t.watch.baseline == s.watch.baseline
        && (forall p :: p in t.watch.dirty <==> p in s.watch.dirty || p in Changed(s.watch.previous, seen))
        && (t.scanInFlight <==> Changed(s.watch.previous, seen) != {})
        && t == s.(watch := t.watch, scanInFlight := t.scanInFlight)
      else t == s
  {
  }

  /** What the other turns note: the migrations found, the exit to expect, and whether the request is yet to be removed. */
  lemma TurnsNote(s: State, e: Event)
    requires Enabled(s, e) && (e.Run? || e.Tick?)
    ensures e.Tick? && e.timer.ScanSettled? ==> Step(s, e) == s.(scanInFlight := false, migrations := e.timer.pending)
    ensures e.Run? && e.turn.BootMarked? ==>
      Step(s, e) == s.(flow := Idle, intervals := s.dev, migrations := e.turn.pending)
    ensures e.Run? && e.turn.PreflightDone? ==>
      && Step(s, e).migrations == e.turn.pending && Step(s, e).flow == Stopping(s.flow.picked, s.flow.target)
      && (Step(s, e).exitWasExpected <==> s.exitWasExpected || s.child.Some?)
    ensures e.Run? && e.turn.StopObserved? ==>
      Step(s, e).flow == Building(s.flow.picked, s.flow.target, s.flow.picked == None || !e.turn.busy)
    ensures e.Run? && e.turn.Marked? ==>
      Step(s, e).migrations == e.turn.pending && Step(s, e).flow == Idle && !Step(s, e).restartInFlight
  {
  }

  /** The exit of the server ends the supervisor exactly when it was not expected and neither a restart nor a shutdown is under way. */
  lemma ExitEndsIff(s: State, exited: Child)
    requires Enabled(s, World(ChildExited(exited)))
    ensures var t := Step(s, World(ChildExited(exited)));
      && (t.terminated <==> s.terminated || (!s.restartInFlight && !s.exitWasExpected && s.shutdown == NotRequested))
      && t.live == s.live - {exited} && t.child == None && !t.exitWasExpected
  {
  }

  /** A shutdown stops the intervals, asks a running server to stop, and ends the process once that server is gone. */
  lemma ShutdownWaitsForServer(s: State, closing: Closing)
    requires Enabled(s, Close(closing))
    ensures var t := Step(s, Close(closing));
      && (closing == ShutdownCalled ==> !t.intervals && t.shutdown == Unregistering && t.terminated == s.terminated)
      && (closing == Unregistered ==>
            && (t.terminated <==> s.child == None)
            && (s.child.Some? ==> t.exitWasExpected && t.shutdown == AwaitingChild(s.child.value)))
      && (closing == AwaitedChildGone ==> t.terminated && s.shutdown.awaited !in s.live)
  {
  }

  /**
    A restart nobody asked for goes on to its preflight exactly when health is
    enabled, automatic restarts are on and no run is active; one that was asked
    for, exactly when health is enabled and does not show another server than
    the one the request was made against.  Otherwise the restart ends.
   */
  lemma RestartGoesOnIff(s: State, health: Health, busy: bool)
    requires Enabled(s, Run(HealthAnswered(health, busy)))
    ensures var next, picked := Step(s, Run(HealthAnswered(health, busy))), s.flow.picked;
      && (next.flow == Preflight(picked, s.flow.target) <==>
            health.enabled &&
            if picked.None? then health.autoRestart && health.activeRuns <= 0
            else
              var named := picked.value.previousIdentity;
              named == None || named == Some("") || health.identity == named)
      && (next.flow != Preflight(picked, s.flow.target) ==> next.flow == Idle && !next.restartInFlight)
      && (next.flow == Preflight(picked, s.flow.target) ==>
            next.restartInFlight == s.restartInFlight && next.mailbox == s.mailbox)
  {
  }

  // ----------------------------------------------- who deletes what, and when

  /** The turns that try to remove the request they were started by. */
  predicate Removes(s: State, turn: Turn)
    requires TurnEnabled(s, turn)
  {
    match turn
    case HealthAnswered(health, _) => health.enabled && ServedAlready(s.flow.picked, health)
    case StopObserved(_) => s.flow.picked.Some?
    case Marked(_, _) => !s.flow.consumed
    case _ => false
  }

  predicate FoundBusy(turn: Turn) {
    (turn.HealthAnswered? || turn.StopObserved? || turn.Marked?) && turn.busy
  }

  /** A removal waiting to be repeated is for a request. */
  ghost predicate RetryHasRequest(flow: Flow) {
    (flow.Building? || flow.Marking?) && !flow.consumed ==> flow.picked.Some?
  }

  lemma StepKeepsRetry(s: State, e: Event)
    requires Enabled(s, e) && RetryHasRequest(s.flow)
    ensures RetryHasRequest(Step(s, e).flow)
  {
    if e.Run? {
      TurnKeepsRetry(s, e.turn);
    }
  }

  /** Only two turns lead to where a removal can be waiting. */
  lemma FlowAfter(s: State, turn: Turn)
    requires TurnEnabled(s, turn) && !turn.StopObserved? && !turn.Rebuilt?
    ensures !StepTurn(s, turn).flow.Building? && !StepTurn(s, turn).flow.Marking?
  {
  }

  lemma TurnKeepsRetry(s: State, turn: Turn)
    requires TurnEnabled(s, turn) && RetryHasRequest(s.flow)
    ensures RetryHasRequest(StepTurn(s, turn).flow)
  {
    if !turn.StopObserved? && !turn.Rebuilt? {
      FlowAfter(s, turn);
    }
  }

  /** What a turn of the coroutine does to the mailbox. */
  lemma MailboxAfter(s: State, turn: Turn)
    requires TurnEnabled(s, turn)
    ensures StepTurn(s, turn).mailbox ==
      if Removes(s, turn) then RemovePicked(s.mailbox, s.flow.picked, FoundBusy(turn)) else s.mailbox
  {
  }

  /**
    A request in the mailbox goes exactly when the coroutine removes the request
    it picked up, finds the lock free, and that request has no id or this one's.
   */
  lemma DeletedIff(s: State, turn: Turn)
    requires TurnEnabled(s, turn) && RetryHasRequest(s.flow) && s.mailbox.Holds?
    ensures StepTurn(s, turn).mailbox != s.mailbox <==>
      && Removes(s, turn) && !FoundBusy(turn)
      && var id := s.flow.picked.value.id;
         (id == None || id == Some("") || s.mailbox.request.id == id)
  {
    MailboxAfter(s, turn);
  }

  predicate CarriesId(request: Request) {
    request.id.Some? && request.id.value != ""
  }

  /** So the removal of a request that has an id names that id exactly when the picked-up request has one at all. */
  lemma DeletionNamesItIff(s: State, turn: Turn)
    requires TurnEnabled(s, turn) && RetryHasRequest(s.flow)
    requires s.mailbox.Holds? && CarriesId(s.mailbox.request) && StepTurn(s, turn).mailbox == Absent
    ensures s.flow.Restarting() && s.flow.picked.Some?
    ensures s.flow.picked.value.id == s.mailbox.request.id <==> CarriesId(s.flow.picked.value)
  {
    MailboxAfter(s, turn);
  }

  /** A deletion comes after the server the restart set out to replace is gone, or after health named another server. */
  lemma DeletedWhen(s: State, e: Event)
    requires OneChild(s) && Enabled(s, e) && s.mailbox.Holds? && Step(s, e).mailbox == Absent
    ensures e.Run? && s.flow.Restarting()
    ensures || s.flow.target !in s.live
            || (e.turn.HealthAnswered? && ServedAlready(s.flow.picked, e.turn.health))
  {
    if e.Run? {
      MailboxAfter(s, e.turn);
    }
  }

  // ------------------------------------------------------------ over a run

  lemma {:induction false} RunKeepsRetry(states: seq<State>, events: seq<Event>, k: nat)
    requires IsRun(states, events) && k < |states|
    ensures RetryHasRequest(states[k].flow)
  {
    if k > 0 {
      RunKeepsRetry(states, events, k - 1);
      StepKeepsRetry(states[k - 1], events[k - 1]);
    }
  }

  ghost predicate AllCarryIds(s: State) {
    && (s.mailbox.Holds? ==> CarriesId(s.mailbox.request))
    && (s.flow.Restarting() && s.flow.picked.Some? ==> CarriesId(s.flow.picked.value))
  }

  lemma TurnKeepsIds(s: State, turn: Turn)
    requires OneChild(s) && TurnEnabled(s, turn) && AllCarryIds(s)
    ensures AllCarryIds(StepTurn(s, turn))
  {
    MailboxAfter(s, turn);
    PickedStays(s, turn);
  }

  /** A restart keeps the request and the server it began with. */
  lemma PickedStays(s: State, turn: Turn)
    requires OneChild(s) && TurnEnabled(s, turn)
    ensures var t := StepTurn(s, turn).flow;
      t.Restarting() ==> s.flow.Restarting() && t.picked == s.flow.picked && t.target == s.flow.target
  {
  }

  /** Whoever writes a request gives it an id. */
  predicate WritesId(e: Event) {
    e.World? && e.outside.Requested? ==> CarriesId(e.outside.request)
  }

  lemma StepKeepsIds(s: State, e: Event)
    requires OneChild(s) && Enabled(s, e) && AllCarryIds(s) && WritesId(e)
    ensures AllCarryIds(Step(s, e))
  {
    if e.Run? {
      TurnKeepsIds(s, e.turn);
    }
  }

  lemma {:induction false} RunKeepsIds(states: seq<State>, events: seq<Event>, k: nat)
    requires IsRun(states, events) && k < |states| && AllCarryIds(states[0])
    requires forall j :: 0 <= j < |events| ==> WritesId(events[j])
    ensures AllCarryIds(states[k])
  {
    if k > 0 {
      RunKeepsIds(states, events, k - 1);
      RunKeepsInv(states, events, k - 1);
      StepKeepsIds(states[k - 1], events[k - 1]);
    }
  }

  /** If every request carries an id, each deletion names the id it deletes. */
  lemma DeletionsNameTheirRequest(states: seq<State>, events: seq<Event>, k: nat)
    requires IsRun(states, events) && k < |events| && AllCarryIds(states[0])
    requires forall j :: 0 <= j < |events| ==> WritesId(events[j])
    requires states[k].mailbox.Holds? && states[k + 1].mailbox == Absent
    ensures states[k].flow.Restarting() && states[k].flow.picked.Some?
    ensures states[k].flow.picked.value.id == states[k].mailbox.request.id
  {
    RunKeepsIds(states, events, k);
    RunKeepsInv(states, events, k);
    RunKeepsRetry(states, events, k);
    DeletedWhen(states[k], events[k]);
    DeletionNamesItIff(states[k], events[k].turn);
  }

  predicate Writes(e: Event) {
    e.World? && e.outside.Requested?
  }

  /** What was written last up to turn `k`, or the mailbox the run began with. */
  ghost function LastWritten(first: Mailbox, events: seq<Event>, k: nat): Mailbox
    requires k <= |events|
  {
    if k == 0 then first
    else if Writes(events[k - 1]) then Holds(events[k - 1].outside.request)
    else LastWritten(first, events, k - 1)
  }

  /** Nothing but a write puts anything into the mailbox. */
  lemma MailboxStaysOrEmpties(s: State, e: Event)
    requires Enabled(s, e) && !Writes(e)
    ensures Step(s, e).mailbox == s.mailbox || Step(s, e).mailbox == Absent
  {
    if e.Run? {
      MailboxAfter(s, e.turn);
    }
  }

  /** Over every run the mailbox holds the request written last, whole, or nothing. */
  lemma {:induction false} MailboxHoldsTheLastRequest(states: seq<State>, events: seq<Event>, k: nat)
    requires IsRun(states, events) && k < |states|
    ensures states[k].mailbox == LastWritten(states[0].mailbox, events, k) || states[k].mailbox == Absent
  {
    if k > 0 {
      MailboxHoldsTheLastRequest(states, events, k - 1);
      if !Writes(events[k - 1]) {
        MailboxStaysOrEmpties(states[k - 1], events[k - 1]);
      }
    }
  }

  /** So a restart that serves a request serves the one written last before it set out. */
  lemma RestartServesTheLastRequest(states: seq<State>, events: seq<Event>, k: nat)
    requires IsRun(states, events) && k < |events|
    requires !states[k].restartInFlight && states[k + 1].restartInFlight
    requires states[k + 1].flow.Restarting() && states[k + 1].flow.picked.Some?
    ensures LastWritten(states[0].mailbox, events, k) == Holds(states[k + 1].flow.picked.value)
  {
    RunKeepsInv(states, events, k);
    StartOfRestart(states[k], events[k]);
    MailboxHoldsTheLastRequest(states, events, k);
  }

  /** The coroutine is busy with this request. */
  predicate Serving(s: State, picked: Request) {
    s.flow.Restarting() && s.flow.picked == Some(picked)
  }

  lemma StepKeepsNewer(s: State, e: Event, picked: Request, newer: Request)
    requires OneChild(s) && RetryHasRequest(s.flow) && Enabled(s, e) && !Writes(e)
    requires Serving(s, picked) && NamedId(picked).Some? && newer.id != NamedId(picked)
    requires s.mailbox == Holds(newer)
    ensures Step(s, e).mailbox == Holds(newer)
    ensures Step(s, e).restartInFlight ==> Serving(Step(s, e), picked)
  {
    StepKeepsOneChild(s, e);
    if e.Run? {
      MailboxAfter(s, e.turn);
      PickedStays(s, e.turn);
    }
  }

  /** A newer request written during a restart that names its own id is still there when the restart ends. */
  lemma {:induction false} NewerRequestSurvives(states: seq<State>, events: seq<Event>, first: nat, last: nat,
                                                picked: Request, newer: Request)
    requires IsRun(states, events) && first <= last < |states|
    requires states[first].mailbox == Holds(newer) && newer.id != NamedId(picked) && NamedId(picked).Some?
    requires Serving(states[first], picked)
    requires forall j :: first <= j < last ==> states[j].restartInFlight && !Writes(events[j])
    ensures states[last].mailbox == Holds(newer)
    ensures states[last].restartInFlight ==> Serving(states[last], picked)
    decreases last
  {
    if first < last {
      NewerRequestSurvives(states, events, first, last - 1, picked, newer);
      RunKeepsInv(states, events, last - 1);
      RunKeepsRetry(states, events, last - 1);
      StepKeepsNewer(states[last - 1], events[last - 1], picked, newer);
    }
  }

  /**
    With a request that has no id the promise fails: a restart started by one
    deletes a later request that does have an id, without naming it.
   */
  lemma UnnamedRemovalTakesANewerRequest(unnamed: Request, newer: Request) returns (states: seq<State>, events: seq<Event>)
    requires NamedId(unnamed).None? && unnamed.previousIdentity == None && CarriesId(newer)
    ensures IsRun(states, events) && |events| == 9
    ensures states[8].mailbox == Holds(newer) && states[8].flow.Restarting() && states[8].flow.picked == Some(unnamed)
    ensures states[9].mailbox == Absent
  {
    var s0 := Initial(true, map[], Absent);
    var s1 := Step(s0, Run(Booted(map[])));
    var s2 := Step(s1, Run(BootMarked(0)));
    var s3 := Step(s2, World(Requested(unnamed)));
    var s4 := Step(s3, Tick(Polled));
    var s5 := Step(s4, Run(HealthAnswered(Health(true, true, 0, None), false)));
    var s6 := Step(s5, World(Requested(newer)));
    var s7 := Step(s6, Run(PreflightDone(0)));
    var s8 := Step(s7, World(ChildExited(0)));
    var s9 := Step(s8, Run(StopObserved(false)));
    states := [s0, s1, s2, s3, s4, s5, s6, s7, s8, s9];
    events := [
      Run(Booted(map[])), Run(BootMarked(0)), World(Requested(unnamed)), Tick(Polled),
      Run(HealthAnswered(Health(true, true, 0, None), false)), World(Requested(newer)), Run(PreflightDone(0)),
      World(ChildExited(0)), Run(StopObserved(false))];
  }

  // ------------------------------------------------------------- the program

  /** The request file, written and removed under its lock. */
  class RestartMailbox {
    var file: Mailbox

    constructor (file: Mailbox)
      ensures this.file == file
    {
      this.file := file;
    }

    method Write(request: Request)
      modifies this
      ensures file == Holds(request)
    {
      file := Holds(request);
    }

    /** Reports whether the lock was free; only then is the file compared and, if it is the expected one, removed. */
    method RemoveRequest(expected: Option<string>, busy: bool) returns (removed: bool)
      requires expected.Some? ==> expected.value != ""
      modifies this
      ensures file == Remove(old(file), expected, busy)
      ensures removed == !busy
    {
      if busy {
        return false;
      }
      var current := Read(file);
      if expected.Some? && (current.None? || current.value.id != expected) {
        return true;
      }
      file := Absent;
      return true;
    }
  }

  /** The module variables of the dev runner, with its mailbox and the server processes that are alive. */
  class DevRunner {
    const dev: bool
    const mailbox: RestartMailbox
    var flow: Flow
    var restartInFlight: bool
    var intervals: bool
    var scanInFlight: bool
    var child: Option<Child>
    var childExitWasExpected: bool
    var shutdown: Shutdown
    var terminated: bool
    var previousSnapshot: Snapshot
    ghost var baseline: Snapshot
    var dirtyPaths: set<string>
    var pendingMigrations: nat
    var live: set<Child>
    var nextChild: Child

    ghost function View(): State
      reads this, mailbox
    {
      State(dev, flow, restartInFlight, intervals, scanInFlight, child, childExitWasExpected, shutdown, terminated,
            Watch(previousSnapshot, baseline, dirtyPaths), pendingMigrations, mailbox.file, live, nextChild)
    }

    constructor (dev: bool, files: Snapshot, mailbox: RestartMailbox)
      ensures View() == Initial(dev, files, mailbox.file)
      ensures this.mailbox == mailbox
    {
      this.dev, this.mailbox := dev, mailbox;
      flow, restartInFlight, intervals, scanInFlight := Booting, false, false, false;
      child, childExitWasExpected, shutdown, terminated := None, false, NotRequested, false;
      previousSnapshot, baseline, dirtyPaths, pendingMigrations := files, files, {}, 0;
      live, nextChild := {}, 0;
    }

    /** Spawns the server; what `markChildAsCurrent` does before its first wait belongs to the same turn. */
    method StartServerChild(next: Flow, files: Snapshot)
      modifies this
      ensures View() == Spawn(old(View()), next, files)
    {
      ghost var after := Spawn(View(), next, files);
      child, live, nextChild := Some(nextChild), live + {nextChild}, nextChild + 1;
      previousSnapshot, baseline, dirtyPaths := files, files, {};
      flow := next;
      assert View() == after;
    }

    method OnChildExit(exited: Child)
      requires Enabled(View(), World(ChildExited(exited)))
      modifies this
      ensures View() == Step(old(View()), World(ChildExited(exited)))
    {
      var expected := childExitWasExpected;
      childExitWasExpected := false;
      child, live := None, live - {exited};
      if restartInFlight || expected || !shutdown.NotRequested? {
        return;
      }
      terminated := true;
    }

    method ScanForBackendChanges(seen: Snapshot)
      requires Enabled(View(), Tick(Scanned(seen)))
      modifies this
      ensures View() == Step(old(View()), Tick(Scanned(seen)))
    {
      if !dev || scanInFlight || restartInFlight {
        return;
      }
      var changed := Changed(previousSnapshot, seen);
      previousSnapshot := seen;
      if changed == {} {
        assert dirtyPaths == dirtyPaths + changed;
        return;
      }
      scanInFlight := true;
      AddDirtyPaths(changed);
    }

    method AddDirtyPaths(changed: set<string>)
      modifies this`dirtyPaths
      ensures dirtyPaths == old(dirtyPaths) + changed
    {
      var rest := changed;
      while rest != {}
        invariant rest <= changed && dirtyPaths + rest == old(dirtyPaths) + changed
        decreases rest
      {
        var relativePath :| relativePath in rest;
        dirtyPaths, rest := dirtyPaths + {relativePath}, rest - {relativePath};
      }
    }

    method MaybeAutoRestartChild()
      requires Enabled(View(), Tick(Polled))
      modifies this
      ensures View() == Step(old(View()), Tick(Polled))
    {
      if !dev || restartInFlight || child.None? {
        return;
      }
      var manualRestartRequest := Read(mailbox.file);
      if manualRestartRequest.None? && dirtyPaths == {} && pendingMigrations == 0 {
        return;
      }
      restartInFlight := true;
      flow := AwaitingHealth(manualRestartRequest, child.value);
    }

    method OnHealth(health: Health, busy: bool)
      requires Enabled(View(), Run(HealthAnswered(health, busy)))
      modifies this, mailbox
      ensures View() == Step(old(View()), Run(HealthAnswered(health, busy)))
    {
      var manualRestartRequest := flow.picked;
      if health.enabled {
        if ServedAlready(manualRestartRequest, health) {
          var _ := mailbox.RemoveRequest(NamedId(manualRestartRequest.value), busy);
        } else if manualRestartRequest.Some? || (health.autoRestart && health.activeRuns <= 0) {
          flow := Preflight(manualRestartRequest, flow.target);
          return;
        }
      }
      flow, restartInFlight := Idle, false;
    }

    /** The migrations are in order: ask the child to stop, if there still is one. */
    method StopChildForRestart(pending: nat)
      requires Enabled(View(), Run(PreflightDone(pending)))
      modifies this
      ensures View() == Step(old(View()), Run(PreflightDone(pending)))
    {
      pendingMigrations := pending;
      flow := Stopping(flow.picked, flow.target);
      if child.Some? {
        childExitWasExpected := true;
      }
    }

    method OnChildStopped(busy: bool)
      requires Enabled(View(), Run(StopObserved(busy)))
      modifies this, mailbox
      ensures View() == Step(old(View()), Run(StopObserved(busy)))
    {
      var consumed := true;
      if flow.picked.Some? {
        consumed := mailbox.RemoveRequest(NamedId(flow.picked.value), busy);
      }
      flow := Building(flow.picked, flow.target, consumed);
    }

    method OnMarked(pending: nat, busy: bool)
      requires Enabled(View(), Run(Marked(pending, busy)))
      modifies this, mailbox
      ensures View() == Step(old(View()), Run(Marked(pending, busy)))
    {
      pendingMigrations := pending;
      if flow.picked.Some? && !flow.consumed {
        var _ := mailbox.RemoveRequest(NamedId(flow.picked.value), busy);
      }
      flow, restartInFlight := Idle, false;
    }

    method CallShutdown()
      requires Enabled(View(), Close(ShutdownCalled))
      modifies this
      ensures View() == Step(old(View()), Close(ShutdownCalled))
    {
      shutdown, intervals := Unregistering, false;
    }

    method ContinueShutdown()
      requires Enabled(View(), Close(Unregistered))
      modifies this
      ensures View() == Step(old(View()), Close(Unregistered))
    {
      if child.None? {
        terminated := true;
        return;
      }
      childExitWasExpected, shutdown := true, AwaitingChild(child.value);
    }
  }

  /** Another process asks the supervisor to restart. */
  method WriteDevServerRestartRequest(runner: DevRunner, request: Request)
    modifies runner.mailbox
    ensures runner.View() == Step(old(runner.View()), World(Requested(request)))
  {
    runner.mailbox.Write(request);
  }
}
