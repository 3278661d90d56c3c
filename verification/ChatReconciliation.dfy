/**
  The chat reconciliation coordinator of server/src/app.ts, with the coalescing
  trigger of server/src/services/chat-publication-reconciliation.ts that two of
  its lanes use.  Steps are event-loop turns; how long a trigger waits before a
  pass is not modelled.
 */
module ChatReconciliation {

  // ---------------------------------------------------------------- trigger

  /** `owed` records a wake-up that came after the last pass began. */
  datatype Trigger = Trigger(stopped: bool, dirty: bool, scheduled: bool, running: bool, owed: bool)

  const IDLE_TRIGGER := Trigger(false, false, false, false, false)

  function Schedule(t: Trigger): Trigger {
    if t.stopped || t.scheduled || t.running then t else t.(scheduled := true)
  }

  function Notify(t: Trigger): Trigger {
    if t.stopped then t
    else
      var told := t.(owed := true);
      if t.running then told.(dirty := true) else Schedule(told)
  }

  function Poll(t: Trigger): Trigger {
    if t.stopped || t.running || t.scheduled then t else Schedule(t)
  }

  /** The scheduled turn comes: it starts a pass unless the trigger was stopped meanwhile. */
  function Fire(t: Trigger): Trigger
    requires t.scheduled
  {
    if t.stopped || t.running then t.(scheduled := false)
    else t.(scheduled := false, running := true, owed := false)
  }

  /** A pass ends, with or without an error. */
  function Finish(t: Trigger): Trigger
    requires t.running
  {
    var done := t.(running := false, dirty := false);
    if t.dirty && !t.stopped then Schedule(done) else done
  }

  function StopTrigger(t: Trigger): Trigger {
    t.(stopped := true, dirty := false, scheduled := false)
  }

  predicate Quiet(t: Trigger) {
    !t.scheduled && !t.running
  }

  datatype Nudge = Notified | Polled | Fired | Finished | Halted

  predicate NudgeEnabled(t: Trigger, nudge: Nudge) {
    (nudge.Fired? ==> t.scheduled) && (nudge.Finished? ==> t.running)
  }

  function Nudged(t: Trigger, nudge: Nudge): Trigger
    requires NudgeEnabled(t, nudge)
  {
    match nudge
    case Notified => Notify(t)
    case Polled => Poll(t)
    case Fired => Fire(t)
    case Finished => Finish(t)
    case Halted => StopTrigger(t)
  }

  /** A wake-up is never stranded behind a pass, and only a wake-up during a pass asks for another. */
  ghost predicate TriggerInv(t: Trigger) {
    && !(t.scheduled && t.running)
    && (t.dirty ==> t.running && t.owed)
    && (t.owed && !t.stopped ==> t.scheduled || (t.running && t.dirty))
    && (t.stopped ==> !t.scheduled && !t.dirty)
  }

  lemma NudgeKeepsInv(t: Trigger, nudge: Nudge)
    requires TriggerInv(t) && NudgeEnabled(t, nudge)
    ensures TriggerInv(Nudged(t, nudge))
  {
  }

  /** What a pass leaves behind: another pass exactly if there was a wake-up while it ran. */
  lemma FollowUpIff(t: Trigger)
    requires TriggerInv(t) && t.running && !t.stopped
    ensures Finish(t).scheduled <==> t.owed
    ensures t.owed ==> !Fire(Finish(t)).owed && Fire(Finish(t)).running
  {
  }

  /** A wake-up leads to a pass that begins after it: at once when none runs, and right behind the one that does. */
  lemma WakeUpIsServed(t: Trigger)
    requires TriggerInv(t) && !t.stopped
    ensures Notify(t).owed && (t.running ==> Notify(t).running)
    ensures var free := if t.running then Finish(Notify(t)) else Notify(t);
      free.scheduled && Fire(free).running && !Fire(free).owed
  {
  }

  /** A poll asks for a pass when none is on its way, and owes nothing. */
  lemma PollAsksForPass(t: Trigger)
    requires TriggerInv(t) && !t.stopped
    ensures Poll(t) == if t.running || t.scheduled then t else t.(scheduled := true)
    ensures !t.running ==> Fire(Poll(t)).running
  {
  }

  /** A stopped trigger starts no pass, whatever happens. */
  lemma StoppedStaysQuiet(t: Trigger, nudge: Nudge)
    requires TriggerInv(t) && NudgeEnabled(t, nudge) && t.stopped
    ensures Nudged(t, nudge).stopped && (Nudged(t, nudge).running ==> t.running) && !Nudged(t, nudge).scheduled
  {
  }

  // ------------------------------------------------------------- coordinator

  datatype Lane = ProviderRuntimes | Deliveries | GitHubWebhookRecovery | SlackFileReceipts | SlackSessionStatus

  datatype Task = Task(lane: Lane, id: nat)

  /** `stoppedFirst` tells whether the coordinator had been stopped when the drain was called. */
  datatype Drain =
    | NotDraining
    | AwaitingProducers(ids: set<Task>, milestonesDone: bool, stoppedFirst: bool)
    | AwaitingPublications(stoppedFirst: bool)
    | Drained(stoppedFirst: bool)

  datatype State = State(
    github: bool,
    stopped: bool,
    inFlight: map<Lane, nat>,
    tasks: set<Task>,
    nextId: nat,
    milestones: Trigger,
    publications: Trigger,
    drain: Drain)

  datatype Event =
    | Reconciled
    | PublicationsNotified
    | LaneSettled(task: Task)
    | MilestonesFired
    | MilestonesFinished(inserted: bool)
    | PublicationsFired
    | PublicationsFinished
    | Stopped
    | DrainCalled
    | MilestonesDrained
    | ProducersDrained
    | PublicationsDrained

  function Initial(github: bool): State {
    State(github, false, map[], {}, 0, IDLE_TRIGGER, IDLE_TRIGGER, NotDraining)
  }

  predicate Enabled(s: State, e: Event) {
    match e
    case Reconciled => true
    case PublicationsNotified => true
    case LaneSettled(task) => task in s.tasks
    case MilestonesFired => s.milestones.scheduled
    case MilestonesFinished(_) => s.milestones.running
    case PublicationsFired => s.publications.scheduled
    case PublicationsFinished => s.publications.running
    case Stopped => true
    case DrainCalled => s.drain.NotDraining? || s.drain.Drained?
    case MilestonesDrained => s.drain.AwaitingProducers? && Quiet(s.milestones)
    case ProducersDrained => s.drain.AwaitingProducers? && s.drain.milestonesDone && s.drain.ids !! s.tasks
    case PublicationsDrained => s.drain.AwaitingPublications? && Quiet(s.publications)
  }

  function StartLane(s: State, lane: Lane): State {
    if s.stopped || lane in s.inFlight then s
    else s.(inFlight := s.inFlight[lane := s.nextId], tasks := s.tasks + {Task(lane, s.nextId)}, nextId := s.nextId + 1)
  }

  function StartLanes(s: State, lanes: seq<Lane>): State
    decreases |lanes|
  {
    if lanes == [] then s else StartLanes(StartLane(s, lanes[0]), lanes[1..])
  }

  function Lanes(github: bool): seq<Lane> {
    [ProviderRuntimes, Deliveries] + (if github then [GitHubWebhookRecovery] else [])
    + [SlackFileReceipts, SlackSessionStatus]
  }

  function Reconcile(s: State): State {
    if s.stopped then s
    else StartLanes(s, Lanes(s.github)).(milestones := Poll(s.milestones), publications := Poll(s.publications))
  }

  function Settle(s: State, task: Task): State {
    s.(tasks := s.tasks - {task},
       inFlight := if task.lane in s.inFlight && s.inFlight[task.lane] == task.id then s.inFlight - {task.lane} else s.inFlight)
  }

  function StepTriggers(s: State, e: Event): State
    requires Enabled(s, e)
    requires e.PublicationsNotified? || e.MilestonesFired? || e.MilestonesFinished? || e.PublicationsFired? || e.PublicationsFinished?
  {
    match e
    case PublicationsNotified => s.(milestones := Notify(s.milestones), publications := Notify(s.publications))
    case MilestonesFired => s.(milestones := Fire(s.milestones))
    case MilestonesFinished(inserted) =>
      s.(milestones := Finish(s.milestones), publications := if inserted then Notify(s.publications) else s.publications)
    case PublicationsFired => s.(publications := Fire(s.publications))
    case PublicationsFinished => s.(publications := Finish(s.publications))
  }

  function StepDrain(s: State, e: Event): State
    requires Enabled(s, e)
    requires e.DrainCalled? || e.MilestonesDrained? || e.ProducersDrained? || e.PublicationsDrained?
  {
    match e
    case DrainCalled => s.(drain := AwaitingProducers(s.tasks, false, s.stopped))
    case MilestonesDrained => s.(drain := s.drain.(milestonesDone := true))
    case ProducersDrained => s.(drain := AwaitingPublications(s.drain.stoppedFirst))
    case PublicationsDrained => s.(drain := Drained(s.drain.stoppedFirst))
  }

  function Step(s: State, e: Event): State
    requires Enabled(s, e)
  {
    match e
    case Reconciled => Reconcile(s)
    case LaneSettled(task) => Settle(s, task)
    case Stopped => s.(stopped := true, milestones := StopTrigger(s.milestones), publications := StopTrigger(s.publications))
    case DrainCalled => StepDrain(s, e)
    case MilestonesDrained => StepDrain(s, e)
    case ProducersDrained => StepDrain(s, e)
    case PublicationsDrained => StepDrain(s, e)
    case _ => StepTriggers(s, e)
  }

  // --------------------------------------------------------------- invariant

  /** The map names exactly the tasks that run, one for a lane. */
  ghost predicate LanesMatch(s: State) {
    && (forall task :: task in s.tasks ==> task.lane in s.inFlight && s.inFlight[task.lane] == task.id)
    && (forall lane :: lane in s.inFlight ==> Task(lane, s.inFlight[lane]) in s.tasks)
  }

  ghost predicate TriggersMatch(s: State) {
    && TriggerInv(s.milestones) && TriggerInv(s.publications)
    && s.milestones.stopped == s.publications.stopped == s.stopped
  }

  /** How far a drain that was called on a stopped coordinator has come. */
  ghost predicate DrainMatches(s: State) {
    match s.drain
    case NotDraining => true
    case AwaitingProducers(ids, done, first) =>
      first ==> s.stopped && s.tasks <= ids && (done ==> !s.milestones.running)
    case AwaitingPublications(first) => first ==> s.stopped && s.tasks == {} && !s.milestones.running
    case Drained(first) => first ==> s.stopped && s.tasks == {} && !s.milestones.running && !s.publications.running
  }

  ghost predicate Inv(s: State) {
    LanesMatch(s) && TriggersMatch(s) && DrainMatches(s)
  }

  lemma StartKeepsLanes(s: State, lane: Lane)
    requires LanesMatch(s)
    ensures LanesMatch(StartLane(s, lane))
  {
  }

  lemma {:induction false} StartsKeepLanes(s: State, lanes: seq<Lane>)
    requires LanesMatch(s)
    ensures LanesMatch(StartLanes(s, lanes))
    decreases |lanes|
  {
    if lanes != [] {
      StartKeepsLanes(s, lanes[0]);
      StartsKeepLanes(StartLane(s, lanes[0]), lanes[1..]);
    }
  }

  lemma SettleKeepsLanes(s: State, task: Task)
    requires LanesMatch(s) && task in s.tasks
    ensures LanesMatch(Settle(s, task))
  {
  }

  lemma TriggersKeepInv(s: State, e: Event)
    requires Inv(s) && Enabled(s, e)
    requires e.PublicationsNotified? || e.MilestonesFired? || e.MilestonesFinished? || e.PublicationsFired? || e.PublicationsFinished?
    ensures Inv(StepTriggers(s, e))
  {
  }

  lemma DrainKeepsInv(s: State, e: Event)
    requires Inv(s) && Enabled(s, e)
    requires e.DrainCalled? || e.MilestonesDrained? || e.ProducersDrained? || e.PublicationsDrained?
    ensures Inv(StepDrain(s, e))
  {
    if e.ProducersDrained? && s.drain.stoppedFirst {
      assert s.tasks == s.tasks * s.drain.ids == {};
    }
  }

  lemma StepKeepsInv(s: State, e: Event)
    requires Inv(s) && Enabled(s, e)
    ensures Inv(Step(s, e))
  {
    match e
    case Reconciled =>
      StartsKeepLanes(s, Lanes(s.github));
      StartsKeepRest(s, Lanes(s.github));
    case LaneSettled(task) => SettleKeepsLanes(s, task);
    case Stopped =>
    case DrainCalled => DrainKeepsInv(s, e);
    case MilestonesDrained => DrainKeepsInv(s, e);
    case ProducersDrained => DrainKeepsInv(s, e);
    case PublicationsDrained => DrainKeepsInv(s, e);
    case _ => TriggersKeepInv(s, e);
  }

  // ------------------------------------------------------ what a turn starts

  /** `after` adds a task with a fresh id for each of these lanes that was idle, and leaves the busy ones alone. */
  ghost predicate LanesStarted(before: State, after: State, lanes: seq<Lane>) {
    && (forall lane :: lane in after.inFlight <==> lane in before.inFlight || lane in lanes)
    && (forall lane :: lane in before.inFlight ==> after.inFlight[lane] == before.inFlight[lane])
    && (forall lane :: lane in after.inFlight && lane !in before.inFlight ==> before.nextId <= after.inFlight[lane] < after.nextId)
    && before.nextId <= after.nextId
    && after == before.(inFlight := after.inFlight, tasks := after.tasks, nextId := after.nextId)
    && forall task :: task in after.tasks <==>
         task in before.tasks
         || (task.lane !in before.inFlight && task.lane in after.inFlight && task.id == after.inFlight[task.lane])
  }

  lemma {:induction false} StartLanesIs(s: State, lanes: seq<Lane>)
    requires !s.stopped
    ensures LanesStarted(s, StartLanes(s, lanes), lanes)
    decreases |lanes|
  {
    if lanes != [] {
      StartLanesIs(StartLane(s, lanes[0]), lanes[1..]);
      assert forall lane :: lane in lanes <==> lane == lanes[0] || lane in lanes[1..];
    }
  }

  /**
    One reconcile of a running coordinator starts every lane that is idle, the
    webhook lane only with GitHub, and asks both triggers for a pass.
   */
  lemma ReconcileCovers(s: State, lane: Lane)
    requires Inv(s) && !s.stopped
    ensures var t := Step(s, Reconciled);
      && (lane in t.inFlight <==> lane in s.inFlight || lane != GitHubWebhookRecovery || s.github)
      && (lane in s.inFlight ==> t.inFlight[lane] == s.inFlight[lane])
      && (lane in t.inFlight && lane !in s.inFlight ==> s.nextId <= t.inFlight[lane] && Task(lane, t.inFlight[lane]) in t.tasks)
      && t.milestones == (if Quiet(s.milestones) then s.milestones.(scheduled := true) else s.milestones)
      && t.publications == if Quiet(s.publications) then s.publications.(scheduled := true) else s.publications
  {
    var base := [ProviderRuntimes, Deliveries, SlackFileReceipts, SlackSessionStatus];
    StartLanesIs(s, Lanes(s.github));
    assert lane in Lanes(s.github) <==> lane in base || (s.github && lane == GitHubWebhookRecovery);
    assert lane in base <==> lane != GitHubWebhookRecovery by {
      assert base[0] == ProviderRuntimes && base[1] == Deliveries && base[2] == SlackFileReceipts && base[3] == SlackSessionStatus;
    }
  }

  /** A settled task frees its lane and no other; a stopped coordinator starts nothing. */
  lemma SettledLaneIsFree(s: State, task: Task)
    requires Inv(s) && task in s.tasks
    ensures var t := Step(s, LaneSettled(task));
      && task.lane !in t.inFlight && task !in t.tasks
      && (forall other :: other in s.tasks && other != task ==> other in t.tasks && other.lane in t.inFlight)
    ensures s.stopped ==> Step(s, Reconciled) == s
  {
  }

  /** A notification wakes both triggers; a milestone pass wakes the publications exactly when it inserted something. */
  lemma WakeUpsReach(s: State, inserted: bool)
    requires Inv(s) && !s.stopped
    ensures var t := Step(s, PublicationsNotified); t.milestones.owed && t.publications.owed
    ensures s.milestones.running ==>
      var t := Step(s, MilestonesFinished(inserted));
      && !t.milestones.running
      && (if inserted then t.publications.owed else t.publications == s.publications)
  {
  }

  // ------------------------------------------------------------------- runs

  ghost predicate IsRun(states: seq<State>, events: seq<Event>) {
    && |states| == |events| + 1 && states[0] == Initial(states[0].github)
    && forall k :: 0 <= k < |events| ==> Enabled(states[k], events[k]) && states[k + 1] == Step(states[k], events[k])
  }

  lemma {:induction false} RunKeepsInv(states: seq<State>, events: seq<Event>, k: nat)
    requires IsRun(states, events) && k < |states|
    ensures Inv(states[k])
  {
    if k > 0 {
      RunKeepsInv(states, events, k - 1);
      StepKeepsInv(states[k - 1], events[k - 1]);
    }
  }

  /** Over every interleaving each directly started lane has at most one task running. */
  lemma LanesAreSingleFlight(states: seq<State>, events: seq<Event>, k: nat, a: Task, b: Task)
    requires IsRun(states, events) && k < |states|
    requires a in states[k].tasks && b in states[k].tasks && a.lane == b.lane
    ensures a == b
  {
    RunKeepsInv(states, events, k);
  }

  /** Nothing runs in any lane. */
  predicate Still(s: State) {
    s.tasks == {} && s.inFlight == map[] && Quiet(s.milestones) && Quiet(s.publications)
  }

  lemma StillStays(s: State, e: Event)
    requires Inv(s) && Enabled(s, e) && s.stopped && Still(s)
    ensures Step(s, e).stopped && Still(Step(s, e))
  {
  }

  /** Stop, then drain: once the drain has returned nothing runs in any lane, and nothing ever starts. */
  lemma {:induction false} StopThenDrainIsStill(states: seq<State>, events: seq<Event>, k: nat, later: nat)
    requires IsRun(states, events) && k <= later < |states|
    requires states[k].drain == Drained(true)
    ensures states[later].stopped && Still(states[later])
    decreases later
  {
    RunKeepsInv(states, events, later);
    if k < later {
      StopThenDrainIsStill(states, events, k, later - 1);
      RunKeepsInv(states, events, later - 1);
      StillStays(states[later - 1], events[later - 1]);
    } else {
      assert states[k].inFlight.Keys == {};
    }
  }

  // ------------------------------------------------------------- the program

  class CoalescedAsyncTrigger {
    var stopped: bool
    var dirty: bool
    var scheduled: bool
    var running: bool
    ghost var owed: bool

    ghost function View(): Trigger
      reads this
    {
      Trigger(stopped, dirty, scheduled, running, owed)
    }

    constructor ()
      ensures View() == IDLE_TRIGGER
    {
      stopped, dirty, scheduled, running, owed := false, false, false, false, false;
    }

    method ScheduleTurn()
      modifies this
      ensures View() == Schedule(old(View()))
    {
      if stopped || scheduled || running {
        return;
      }
      scheduled := true;
    }

    method NotifyWork()
      modifies this
      ensures View() == Notify(old(View()))
    {
      if stopped {
        return;
      }
      owed := true;
      if running {
        dirty := true;
        return;
      }
      if scheduled {
        return;
      }
      ScheduleTurn();
    }

    method PollWork()
      modifies this
      ensures View() == Poll(old(View()))
    {
      if stopped || running || scheduled {
        return;
      }
      ScheduleTurn();
    }

    method OnScheduled()
      requires scheduled
      modifies this
      ensures View() == Fire(old(View()))
    {
      scheduled := false;
      if !stopped && !running {
        running, owed := true, false;
      }
    }

    method OnFinished()
      requires running
      modifies this
      ensures View() == Finish(old(View()))
    {
      running := false;
      var shouldRunAgain := dirty && !stopped;
      dirty := false;
      if shouldRunAgain {
        ScheduleTurn();
      }
    }

    method Stop()
      modifies this
      ensures View() == StopTrigger(old(View()))
    {
      stopped, dirty, scheduled := true, false, false;
    }
  }

  class Coordinator {
    const github: bool
    const milestones: CoalescedAsyncTrigger
    const publications: CoalescedAsyncTrigger
    var stopped: bool
    var inFlight: map<Lane, nat>
    var tasks: set<Task>
    var nextId: nat
    ghost var drain: Drain

    ghost function View(): State
      reads this, milestones, publications
    {
      State(github, stopped, inFlight, tasks, nextId, milestones.View(), publications.View(), drain)
    }

    constructor (github: bool)
      ensures View() == Initial(github)
      ensures fresh(milestones) && fresh(publications) && milestones != publications
    {
      this.github, stopped, inFlight, tasks, nextId, drain := github, false, map[], {}, 0, NotDraining;
      milestones := new CoalescedAsyncTrigger();
      publications := new CoalescedAsyncTrigger();
    }

    method Start(lane: Lane)
      modifies this
      ensures View() == StartLane(old(View()), lane)
    {
      if stopped || lane in inFlight {
        return;
      }
      inFlight, tasks, nextId := inFlight[lane := nextId], tasks + {Task(lane, nextId)}, nextId + 1;
    }

    method StartAll(lanes: seq<Lane>)
      modifies this
      ensures View() == StartLanes(old(View()), lanes)
    {
      for i := 0 to |lanes|
        invariant StartLanes(old(View()), lanes) == StartLanes(View(), lanes[i..])
      {
        assert lanes[i..][1..] == lanes[i + 1..];
        Start(lanes[i]);
      }
    }

    method ReconcileAll()
      requires milestones != publications
      modifies this, milestones, publications
      ensures View() == Step(old(View()), Reconciled)
    {
      if stopped {
        return;
      }
      ghost var s := View();
      StartAll(Lanes(github));
      StartsKeepRest(s, Lanes(github));
      milestones.PollWork();
      publications.PollWork();
    }

    method NotifyPublications()
      requires milestones != publications
      modifies milestones, publications
      ensures View() == Step(old(View()), PublicationsNotified)
    {
      milestones.NotifyWork();
      publications.NotifyWork();
    }

    /** The `finally` of a lane's task. */
    method OnLaneSettled(task: Task)
      requires task in tasks
      modifies this
      ensures View() == Step(old(View()), LaneSettled(task))
    {
      tasks := tasks - {task};
      if task.lane in inFlight && inFlight[task.lane] == task.id {
        inFlight := inFlight - {task.lane};
      }
    }

    /** A projection pass ends; what it inserted wakes the publications. */
    method OnMilestonesFinished(inserted: bool)
      requires milestones != publications && milestones.running
      modifies milestones, publications
      ensures View() == Step(old(View()), MilestonesFinished(inserted))
    {
      if inserted {
        publications.NotifyWork();
      }
      milestones.OnFinished();
    }

    method Stop()
      requires milestones != publications
      modifies this, milestones, publications
      ensures View() == Step(old(View()), Stopped)
    {
      stopped := true;
      milestones.Stop();
      publications.Stop();
    }
  }

  lemma {:induction false} StartsKeepRest(s: State, lanes: seq<Lane>)
    ensures var t := StartLanes(s, lanes); t == s.(inFlight := t.inFlight, tasks := t.tasks, nextId := t.nextId)
    decreases |lanes|
  {
    if lanes != [] {
      StartsKeepRest(StartLane(s, lanes[0]), lanes[1..]);
    }
  }
}
