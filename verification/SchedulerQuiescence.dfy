/**
  The heartbeat scheduler of server/src/index.ts and how it is brought to rest
  before the shutdown snapshot (server/src/shutdown.ts).

  Tracked work may start more tracked work after any `await`, also once the
  scheduler has been told to stop.  A piece of work is a finite tree: its turns
  between waits, and what each turn starts.
 */
module SchedulerQuiescence {

  datatype Option<+T> = None | Some(value: T)

  datatype Queue =
    Finalization | Replacement | ReconciliationDelivery | StatusDelivery | AutomaticDisposition | LocalAiLoginCleanup

  const QUEUES: seq<Queue> :=
    [Finalization, Replacement, ReconciliationDelivery, StatusDelivery, AutomaticDisposition, LocalAiLoginCleanup]

  /** What a turn does: start tracked work, start it unless stopped, or return if stopped. */
  datatype Action = Start(work: Work) | StartUnlessStopped(work: Work) | LeaveIfStopped

  /** What runs between two waits. */
  datatype Turn = Turn(actions: seq<Action>)

  datatype Work = Work(turns: seq<Turn>)

  /** A tracked promise; `queue` is the execution-control queue it still occupies. */
  datatype Task = Task(id: nat, queue: Option<Queue>, turns: seq<Turn>)

  datatype Wait = NotWaiting | Awaiting(ids: set<nat>) | Returned

  datatype State = State(
    stopped: bool,
    intervals: bool,
    inFlight: seq<Task>,
    sweeps: set<Queue>,
    nextId: nat,
    wait: Wait)

  datatype Event =
    | Swept(works: seq<Work>)
    | Ticked(work: Work)
    | Scheduled(work: Work)
    | Advanced(index: nat)
    | Stopped
    | WaitContinued

  function Initial(): State {
    State(false, true, [], {}, 0, NotWaiting)
  }

  function Ids(tasks: seq<Task>): set<nat> {
    set t | t in tasks :: t.id
  }

  predicate Enabled(s: State, e: Event) {
    match e
    case Swept(works) => s.intervals && |works| == |QUEUES|
    case Ticked(_) => s.intervals
    case Scheduled(_) => true
    case Advanced(index) => index < |s.inFlight|
    case Stopped => s.wait.NotWaiting?
    case WaitContinued => s.wait.Awaiting? && s.wait.ids !! Ids(s.inFlight)
  }

  function Track(s: State, work: Work, queue: Option<Queue>): State {
    s.(inFlight := s.inFlight + [Task(s.nextId, queue, work.turns)], nextId := s.nextId + 1)
  }

  function TrackAll(s: State, works: seq<Work>): State
    decreases |works|
  {
    if works == [] then s else TrackAll(Track(s, works[0], None), works[1..])
  }

  /** One sweep: every queue that has none in flight gets one. */
  function SweepQueue(s: State, queue: Queue, work: Work): State {
    if queue in s.sweeps then s else Track(s.(sweeps := s.sweeps + {queue}), work, Some(queue))
  }

  function SweepFrom(s: State, queues: seq<Queue>, works: seq<Work>): State
    requires |queues| == |works|
    decreases |queues|
  {
    if queues == [] then s else SweepFrom(SweepQueue(s, queues[0], works[0]), queues[1..], works[1..])
  }

  function Sweep(s: State, works: seq<Work>): State
    requires |works| == |QUEUES|
  {
    if s.stopped then s else SweepFrom(s, QUEUES, works)
  }

  /** The work a turn starts. */
  function Started(actions: seq<Action>, stopped: bool): seq<Work> {
    if actions == [] then []
    else match actions[0]
      case Start(work) => [work] + Started(actions[1..], stopped)
      case StartUnlessStopped(work) => (if stopped then [] else [work]) + Started(actions[1..], stopped)
      case LeaveIfStopped => if stopped then [] else Started(actions[1..], stopped)
  }

  predicate Leaves(actions: seq<Action>, stopped: bool) {
    stopped && LeaveIfStopped in actions
  }

  /** The task takes its next turn; when it has none left it frees its queue, and then is untracked. */
  function Advance(s: State, index: nat): State
    requires index < |s.inFlight|
  {
    var task := s.inFlight[index];
    if task.turns != [] then
      var rest := if Leaves(task.turns[0].actions, s.stopped) then [] else task.turns[1..];
      TrackAll(s.(inFlight := s.inFlight[index := task.(turns := rest)]), Started(task.turns[0].actions, s.stopped))
    else if task.queue.Some? then
      s.(inFlight := s.inFlight[index := task.(queue := None)], sweeps := s.sweeps - {task.queue.value})
    else
      s.(inFlight := s.inFlight[..index] + s.inFlight[index + 1..])
  }

  /** The head of the idle loop. */
  function AwaitAll(s: State): State {
    s.(wait := if s.inFlight == [] then Returned else Awaiting(Ids(s.inFlight)))
  }

  function Step(s: State, e: Event): State
    requires Enabled(s, e)
  {
    match e
    case Swept(works) => Sweep(s, works)
    case Ticked(work) => Track(s, work, None)
    case Scheduled(work) => if s.stopped then s else Track(s, work, None)
    case Advanced(index) => Advance(s, index)
    case Stopped => AwaitAll(s.(stopped := true, intervals := false))
    case WaitContinued => AwaitAll(s)
  }

  // --------------------------------------------------------------- invariant

  /** Ids are unique and queue markers name exactly the queues that tracked work occupies, each once. */
  ghost predicate Tidy(inFlight: seq<Task>, sweeps: set<Queue>, nextId: nat) {
    && (forall i :: 0 <= i < |inFlight| ==> inFlight[i].id < nextId)
    && (forall i, j :: 0 <= i < j < |inFlight| ==> inFlight[i].id != inFlight[j].id)
    && (forall i, j :: 0 <= i < j < |inFlight| && inFlight[i].queue.Some? ==> inFlight[i].queue != inFlight[j].queue)
    && (forall i :: 0 <= i < |inFlight| && inFlight[i].queue.Some? ==> inFlight[i].queue.value in sweeps)
    && (forall q :: q in sweeps ==> Occupied(inFlight, q))
  }

  ghost predicate Occupied(inFlight: seq<Task>, queue: Queue) {
    exists i :: 0 <= i < |inFlight| && inFlight[i].queue == Some(queue)
  }

  ghost predicate AtRest(s: State) {
    && (s.stopped <==> !s.wait.NotWaiting?)
    && (s.stopped ==> !s.intervals)
    && (s.wait.Returned? ==> s.inFlight == [])
  }

  ghost predicate Inv(s: State) {
    Tidy(s.inFlight, s.sweeps, s.nextId) && AtRest(s)
  }

  lemma OccupiedStays(inFlight: seq<Task>, more: seq<Task>, sweeps: set<Queue>)
    requires |inFlight| <= |more| && forall i :: 0 <= i < |inFlight| ==> more[i].queue == inFlight[i].queue
    ensures forall q :: q in sweeps && Occupied(inFlight, q) ==> Occupied(more, q)
  {
    forall q | q in sweeps && Occupied(inFlight, q) ensures Occupied(more, q) {
      var i :| 0 <= i < |inFlight| && inFlight[i].queue == Some(q);
      assert more[i].queue == Some(q);
    }
  }

  lemma TrackKeepsTidy(s: State, work: Work, queue: Option<Queue>)
    requires Tidy(s.inFlight, s.sweeps - (if queue.Some? then {queue.value} else {}), s.nextId)
    requires queue.Some? ==> queue.value in s.sweeps
    ensures Tidy(Track(s, work, queue).inFlight, s.sweeps, s.nextId + 1)
  {
    var t := Track(s, work, queue);
    OccupiedStays(s.inFlight, t.inFlight, s.sweeps);
    assert t.inFlight[|s.inFlight|].queue == queue;
  }

  lemma {:induction false} TrackAllKeepsTidy(s: State, works: seq<Work>)
    requires Tidy(s.inFlight, s.sweeps, s.nextId)
    ensures var t := TrackAll(s, works);
      && Tidy(t.inFlight, t.sweeps, t.nextId)
      && t == s.(inFlight := t.inFlight, nextId := t.nextId)
      && t.nextId == s.nextId + |works|
    decreases |works|
  {
    if works != [] {
      assert s.sweeps - {} == s.sweeps;
      TrackKeepsTidy(s, works[0], None);
      TrackAllKeepsTidy(Track(s, works[0], None), works[1..]);
    }
  }

  lemma SweepQueueKeepsTidy(s: State, queue: Queue, work: Work)
    requires Tidy(s.inFlight, s.sweeps, s.nextId)
    ensures var t := SweepQueue(s, queue, work);
      Tidy(t.inFlight, t.sweeps, t.nextId) && t.stopped == s.stopped && t.wait == s.wait && t.intervals == s.intervals
  {
    if queue !in s.sweeps {
      assert s.sweeps + {queue} - {queue} == s.sweeps;
      TrackKeepsTidy(s.(sweeps := s.sweeps + {queue}), work, Some(queue));
    }
  }

  lemma {:induction false} SweepKeepsTidy(s: State, queues: seq<Queue>, works: seq<Work>)
    requires |queues| == |works| && Tidy(s.inFlight, s.sweeps, s.nextId)
    ensures var t := SweepFrom(s, queues, works);
      Tidy(t.inFlight, t.sweeps, t.nextId) && t.stopped == s.stopped && t.wait == s.wait && t.intervals == s.intervals
    decreases |queues|
  {
    if queues != [] {
      SweepQueueKeepsTidy(s, queues[0], works[0]);
      SweepKeepsTidy(SweepQueue(s, queues[0], works[0]), queues[1..], works[1..]);
    }
  }

  lemma ReleaseKeepsTidy(inFlight: seq<Task>, sweeps: set<Queue>, nextId: nat, index: nat)
    requires Tidy(inFlight, sweeps, nextId) && index < |inFlight| && inFlight[index].queue.Some?
    ensures Tidy(inFlight[index := inFlight[index].(queue := None)], sweeps - {inFlight[index].queue.value}, nextId)
  {
    var after := inFlight[index := inFlight[index].(queue := None)];
    forall q | q in sweeps - {inFlight[index].queue.value} ensures Occupied(after, q) {
      var i :| 0 <= i < |inFlight| && inFlight[i].queue == Some(q);
      assert after[i].queue == Some(q);
    }
  }

  lemma UntrackKeepsTidy(inFlight: seq<Task>, sweeps: set<Queue>, nextId: nat, index: nat)
    requires Tidy(inFlight, sweeps, nextId) && index < |inFlight| && inFlight[index].queue.None?
    ensures Tidy(inFlight[..index] + inFlight[index + 1..], sweeps, nextId)
  {
    var after := inFlight[..index] + inFlight[index + 1..];
    assert forall i :: 0 <= i < |after| ==> after[i] == inFlight[if i < index then i else i + 1];
    forall q | q in sweeps ensures Occupied(after, q) {
      var i :| 0 <= i < |inFlight| && inFlight[i].queue == Some(q);
      assert after[if i < index then i else i - 1].queue == Some(q);
    }
  }

  lemma TurnKeepsTidy(inFlight: seq<Task>, sweeps: set<Queue>, nextId: nat, index: nat, rest: seq<Turn>)
    requires Tidy(inFlight, sweeps, nextId) && index < |inFlight|
    ensures Tidy(inFlight[index := inFlight[index].(turns := rest)], sweeps, nextId)
  {
    OccupiedStays(inFlight, inFlight[index := inFlight[index].(turns := rest)], sweeps);
  }

  lemma AdvanceKeepsInv(s: State, index: nat)
    requires Inv(s) && index < |s.inFlight|
    ensures Inv(Advance(s, index))
  {
    var task := s.inFlight[index];
    if task.turns != [] {
      var rest := if Leaves(task.turns[0].actions, s.stopped) then [] else task.turns[1..];
      TurnKeepsTidy(s.inFlight, s.sweeps, s.nextId, index, rest);
      TrackAllKeepsTidy(s.(inFlight := s.inFlight[index := task.(turns := rest)]), Started(task.turns[0].actions, s.stopped));
    } else if task.queue.Some? {
      ReleaseKeepsTidy(s.inFlight, s.sweeps, s.nextId, index);
    } else {
      UntrackKeepsTidy(s.inFlight, s.sweeps, s.nextId, index);
    }
  }

  lemma StepKeepsInv(s: State, e: Event)
    requires Inv(s) && Enabled(s, e)
    ensures Inv(Step(s, e))
  {
    assert s.sweeps - {} == s.sweeps;
    match e
    case Swept(works) => SweepKeepsTidy(s, QUEUES, works);
    case Ticked(work) => TrackKeepsTidy(s, work, None);
    case Scheduled(work) => TrackKeepsTidy(s, work, None);
    case Advanced(index) => AdvanceKeepsInv(s, index);
    case _ =>
  }

  /** Work that is scheduled starts exactly while the scheduler runs, and so does each missing sweep. */
  lemma StartsWhileRunning(s: State, work: Work, works: seq<Work>)
    requires |works| == |QUEUES|
    ensures !s.stopped ==>
      Step(s, Scheduled(work)) == s.(inFlight := s.inFlight + [Task(s.nextId, None, work.turns)], nextId := s.nextId + 1)
    ensures s.stopped ==> Step(s, Scheduled(work)) == s && Sweep(s, works) == s
  {
  }

  // ------------------------------------------------------------------- runs

  ghost predicate IsRun(states: seq<State>, events: seq<Event>) {
    && |states| == |events| + 1 && states[0] == Initial()
    && forall k :: 0 <= k < |events| ==> Enabled(states[k], events[k]) && states[k + 1] == Step(states[k], events[k])
  }

  lemma {:induction false} RunKeepsInv(states: seq<State>, events: seq<Event>, k: nat)
    requires IsRun(states, events) && k < |states|
    ensures Inv(states[k])
  {
    if k > 0 {
      RunKeepsInv(states, events, k - 1);
      StepKeepsInv(states[k - 1], events[k - 1]);
    }
  }

  /** Over every interleaving each execution-control queue has at most one sweep in flight. */
  lemma QueuesAreSingleFlight(states: seq<State>, events: seq<Event>, k: nat, i: nat, j: nat)
    requires IsRun(states, events) && k < |states|
    requires i < |states[k].inFlight| && j < |states[k].inFlight|
    requires states[k].inFlight[i].queue.Some? && states[k].inFlight[i].queue == states[k].inFlight[j].queue
    ensures i == j
  {
    RunKeepsInv(states, events, k);
  }

  /** A queue without a sweep in flight gets one from the next sweep: no queue is blocked by another, or for ever. */
  lemma {:induction false} SweepReaches(s: State, queues: seq<Queue>, works: seq<Work>, queue: Queue)
    requires |queues| == |works| && Tidy(s.inFlight, s.sweeps, s.nextId)
    requires queue in queues || Occupied(s.inFlight, queue)
    ensures Occupied(SweepFrom(s, queues, works).inFlight, queue)
    decreases |queues|
  {
    if queues != [] {
      var t := SweepQueue(s, queues[0], works[0]);
      SweepQueueKeepsTidy(s, queues[0], works[0]);
      if queue == queues[0] {
        assert queue in t.sweeps;
      } else if Occupied(s.inFlight, queue) {
        OccupiedStays(s.inFlight, t.inFlight, {queue});
      }
      SweepReaches(t, queues[1..], works[1..], queue);
    }
  }

  lemma EverySweepCoversAllQueues(s: State, works: seq<Work>, queue: Queue)
    requires Inv(s) && !s.stopped && |works| == |QUEUES|
    ensures Occupied(Sweep(s, works).inFlight, queue)
  {
    assert QUEUES[0] == Finalization && QUEUES[1] == Replacement && QUEUES[2] == ReconciliationDelivery;
    assert QUEUES[3] == StatusDelivery && QUEUES[4] == AutomaticDisposition && QUEUES[5] == LocalAiLoginCleanup;
    SweepReaches(s, QUEUES, works, queue);
  }

  /** Once the idle wait has returned nothing tracked runs, and none ever starts: the snapshot sees a still system. */
  lemma {:induction false} StillAfterWait(states: seq<State>, events: seq<Event>, k: nat, later: nat)
    requires IsRun(states, events) && k <= later < |states| && states[k].wait.Returned?
    ensures states[later].inFlight == [] && states[later].nextId == states[k].nextId
    ensures states[later].wait.Returned? && states[later].stopped
    decreases later
  {
    RunKeepsInv(states, events, later);
    if k < later {
      StillAfterWait(states, events, k, later - 1);
      RunKeepsInv(states, events, later - 1);
    }
  }

  // ------------------------------------------------------------ the wait ends

  function ActionWeight(action: Action): nat
    decreases action
  {
    match action
    case Start(work) => WorkWeight(work)
    case StartUnlessStopped(work) => WorkWeight(work)
    case LeaveIfStopped => 0
  }

  function ActionsWeight(actions: seq<Action>): nat
    decreases actions
  {
    if actions == [] then 0 else ActionWeight(actions[0]) + ActionsWeight(actions[1..])
  }

  function TurnsWeight(turns: seq<Turn>): nat
    decreases turns
  {
    if turns == [] then 0 else 1 + ActionsWeight(turns[0].actions) + TurnsWeight(turns[1..])
  }

  /** Turns the work can still take, with all it may start, and one to be untracked. */
  function WorkWeight(work: Work): nat
    decreases work
  {
    TurnsWeight(work.turns) + 1
  }

  function TaskWeight(task: Task): nat {
    TurnsWeight(task.turns) + if task.queue.Some? then 2 else 1
  }

  function Total(tasks: seq<Task>): nat {
    if tasks == [] then 0 else TaskWeight(tasks[0]) + Total(tasks[1..])
  }

  function WorksWeight(works: seq<Work>): nat {
    if works == [] then 0 else WorkWeight(works[0]) + WorksWeight(works[1..])
  }

  lemma {:induction false} TotalAdds(a: seq<Task>, b: seq<Task>)
    ensures Total(a + b) == Total(a) + Total(b)
  {
    if a == [] {
      assert a + b == b;
    } else {
      TotalAdds(a[1..], b);
      assert (a + b)[1..] == a[1..] + b;
    }
  }

  lemma TotalSplits(tasks: seq<Task>, index: nat)
    requires index < |tasks|
    ensures Total(tasks) == Total(tasks[..index]) + TaskWeight(tasks[index]) + Total(tasks[index + 1..])
  {
    TotalAdds(tasks[..index], tasks[index..]);
    assert tasks == tasks[..index] + tasks[index..];
  }

  lemma TotalUpdates(tasks: seq<Task>, index: nat, task: Task)
    requires index < |tasks|
    ensures Total(tasks[index := task]) == Total(tasks) - TaskWeight(tasks[index]) + TaskWeight(task)
  {
    TotalSplits(tasks, index);
    TotalSplits(tasks[index := task], index);
    assert tasks[index := task][index + 1..] == tasks[index + 1..];
  }

  lemma {:induction false} TotalTracked(s: State, works: seq<Work>)
    ensures Total(TrackAll(s, works).inFlight) == Total(s.inFlight) + WorksWeight(works)
    decreases |works|
  {
    if works != [] {
      var t := Track(s, works[0], None);
      TotalAdds(s.inFlight, [Task(s.nextId, None, works[0].turns)]);
      TotalTracked(t, works[1..]);
    }
  }

  lemma {:induction false} StartedWeight(actions: seq<Action>, stopped: bool)
    ensures WorksWeight(Started(actions, stopped)) <= ActionsWeight(actions)
  {
    if actions != [] {
      var rest := Started(actions[1..], stopped);
      StartedWeight(actions[1..], stopped);
      if actions[0].Start? || (actions[0].StartUnlessStopped? && !stopped) {
        assert ([actions[0].work] + rest)[1..] == rest;
      } else {
        assert [] + rest == rest;
      }
    }
  }

  /** Every turn of tracked work uses up weight, whatever it starts. */
  lemma AdvanceUsesWeight(s: State, index: nat)
    requires index < |s.inFlight|
    ensures Total(Advance(s, index).inFlight) < Total(s.inFlight)
    ensures Advance(s, index).wait == s.wait && Advance(s, index).stopped == s.stopped
  {
    var task := s.inFlight[index];
    TotalSplits(s.inFlight, index);
    if task.turns != [] {
      var rest := if Leaves(task.turns[0].actions, s.stopped) then [] else task.turns[1..];
      var turned := task.(turns := rest);
      var works := Started(task.turns[0].actions, s.stopped);
      TotalUpdates(s.inFlight, index, turned);
      TotalTracked(s.(inFlight := s.inFlight[index := turned]), works);
      StartedWeight(task.turns[0].actions, s.stopped);
      TrackAllKeepsRest(s.(inFlight := s.inFlight[index := turned]), works);
    } else if task.queue.Some? {
      TotalUpdates(s.inFlight, index, task.(queue := None));
    } else {
      TotalAdds(s.inFlight[..index], s.inFlight[index + 1..]);
    }
  }

  lemma {:induction false} TrackAllKeepsRest(s: State, works: seq<Work>)
    ensures var t := TrackAll(s, works); t == s.(inFlight := t.inFlight, nextId := t.nextId)
    decreases |works|
  {
    if works != [] {
      TrackAllKeepsRest(Track(s, works[0], None), works[1..]);
    }
  }

  /** What is left to do before the wait returns; a finished round of waiting counts for one. */
  function Remaining(s: State): nat {
    2 * Total(s.inFlight) + if s.wait.Awaiting? && s.wait.ids !! Ids(s.inFlight) then 1 else 0
  }

  predicate Progress(e: Event) {
    e.Advanced? || e.WaitContinued?
  }

  function Cost(e: Event): nat {
    if Progress(e) then 1 else 0
  }

  /** While the wait lasts, each turn that can still happen brings its end nearer, and nothing sets it back. */
  lemma WaitGetsNearer(s: State, e: Event)
    requires Inv(s) && Enabled(s, e) && s.wait.Awaiting?
    ensures Step(s, e).wait.Awaiting? ==> Remaining(Step(s, e)) + Cost(e) <= Remaining(s)
    ensures !Progress(e) ==> Step(s, e) == s
  {
    if e.Advanced? {
      AdvanceUsesWeight(s, e.index);
    }
    if e.WaitContinued? && s.inFlight != [] {
      assert s.inFlight[0].id in Ids(s.inFlight);
    }
  }

  /** And some such turn can always happen. */
  lemma WaitIsNotStuck(s: State)
    requires Inv(s) && s.wait.Awaiting?
    ensures exists e :: Enabled(s, e) && Progress(e)
  {
    if s.inFlight == [] {
      assert Enabled(s, WaitContinued);
    } else {
      assert Enabled(s, Advanced(0));
    }
  }

  /** How many of the turns from `first` on, up to `last`, were progress. */
  function ProgressTurns(events: seq<Event>, first: nat, last: nat): nat
    requires first <= last <= |events|
    decreases last
  {
    if first == last then 0 else ProgressTurns(events, first, last - 1) + Cost(events[last - 1])
  }

  lemma {:induction false} CostsAddUp(states: seq<State>, events: seq<Event>, first: nat, last: nat)
    requires first <= last < |states| && |states| == |events| + 1
    requires forall k :: first <= k < last ==> Remaining(states[k + 1]) + Cost(events[k]) <= Remaining(states[k])
    ensures ProgressTurns(events, first, last) + Remaining(states[last]) <= Remaining(states[first])
    decreases last
  {
    if first < last {
      CostsAddUp(states, events, first, last - 1);
      assert Remaining(states[last - 1 + 1]) + Cost(events[last - 1]) <= Remaining(states[last - 1]);
    }
  }

  /** So the wait takes at most as many turns as there is work in the finite forest it began with. */
  lemma {:induction false} WaitIsBounded(states: seq<State>, events: seq<Event>, first: nat, last: nat)
    requires IsRun(states, events) && first <= last < |states|
    requires forall k :: first <= k <= last ==> states[k].wait.Awaiting?
    ensures ProgressTurns(events, first, last) + Remaining(states[last]) <= Remaining(states[first])
  {
    forall k | first <= k < last ensures Remaining(states[k + 1]) + Cost(events[k]) <= Remaining(states[k]) {
      RunKeepsInv(states, events, k);
      WaitGetsNearer(states[k], events[k]);
    }
    CostsAddUp(states, events, first, last);
  }

  lemma StartsOne(s: State, id: nat, late: Work)
    requires s.inFlight == [Task(id, None, [Turn([Start(late)])])]
    ensures Advance(s, 0) == s.(inFlight := [Task(id, None, []), Task(s.nextId, None, late.turns)], nextId := s.nextId + 1)
  {
    var task := s.inFlight[0];
    assert task.turns[1..] == [];
    assert Started([Start(late)], s.stopped) == [late] + Started([], s.stopped);
    var turned := s.(inFlight := s.inFlight[0 := Task(id, None, [])]);
    assert turned.inFlight == [Task(id, None, [])];
    assert Advance(s, 0) == TrackAll(turned, [late]);
    assert [late][1..] == [];
    assert TrackAll(turned, [late]) == Track(turned, late, None);
  }

  /** One round of waiting is not enough: what it waited for can be done and have left new work behind. */
  lemma OneRoundIsNotEnough() returns (states: seq<State>, events: seq<Event>)
    ensures IsRun(states, events)
    ensures var s := states[|events|]; Enabled(s, WaitContinued) && s.inFlight != []
  {
    var late := Work([]);
    var tick := Work([Turn([Start(late)])]);
    var s1 := Step(Initial(), Ticked(tick));
    var s2 := Step(s1, Stopped);
    assert s2.inFlight == [Task(0, None, [Turn([Start(late)])])];
    StartsOne(s2, 0, late);
    var s3 := Step(s2, Advanced(0));
    var s4 := Step(s3, Advanced(0));
    assert s4.inFlight == [Task(1, None, [])];
    states := [Initial(), s1, s2, s3, s4];
    events := [Ticked(tick), Stopped, Advanced(0), Advanced(0)];
  }

  // ------------------------------------------------------ the scheduler tick

  /** The pieces of work one tick of the heartbeat interval may start. */
  datatype TickWork = TickWork(
    decisions: Work, retention: Work, timers: Work, externalObjects: Work, confirmations: Work, connectionEvents: Work,
    continuity: Work, workspaces: Work, adapterLogins: Work, setupTokens: Work, leases: Work, routines: Work,
    statusCards: Work, customImages: Work, toolHealth: Work, secretProposals: Work, connections: Work, reviews: Work,
    reviewDeliveries: Work, questionResponses: Work, recovery: Work)

  /** The second turn of the tick behind its timers; only the stop of the scheduler ends it early. */
  function AfterTimers(w: TickWork): seq<Action> {
    [LeaveIfStopped, StartUnlessStopped(w.externalObjects)]
    + ([LeaveIfStopped, StartUnlessStopped(w.confirmations)]
       + ([StartUnlessStopped(w.connectionEvents), StartUnlessStopped(w.continuity)]
          + ([StartUnlessStopped(w.workspaces), StartUnlessStopped(w.adapterLogins)]
             + ([StartUnlessStopped(w.setupTokens), StartUnlessStopped(w.leases)] + FromRoutines(w)))))
  }

  function FromRoutines(w: TickWork): seq<Action> {
    [LeaveIfStopped, Start(w.routines)]
    + ([LeaveIfStopped, Start(w.statusCards)]
       + ([LeaveIfStopped, Start(w.customImages)] + FromToolHealth(w)))
  }

  function FromToolHealth(w: TickWork): seq<Action> {
    [LeaveIfStopped, Start(w.toolHealth)]
    + ([Start(w.secretProposals), Start(w.connections)]
       + ([Start(w.reviews), Start(w.reviewDeliveries)] + [Start(w.questionResponses), LeaveIfStopped]))
  }

  /** The tick: its two waits are for the suppression check, first before the timers and then before the recovery. */
  function HeartbeatTick(w: TickWork, timersSuppressed: bool, recoverySuppressed: bool): Work {
    Work([
      Turn([LeaveIfStopped, Start(w.decisions), Start(w.retention)]),
      Turn((if timersSuppressed then [] else [Start(w.timers)]) + AfterTimers(w)),
      Turn(if recoverySuppressed then [] else [Start(w.recovery)])])
  }

  /** What the remaining turns of a piece of work start once the scheduler has been stopped. */
  function StartedOnceStopped(turns: seq<Turn>): seq<Work> {
    if turns == [] then []
    else Started(turns[0].actions, true) + if Leaves(turns[0].actions, true) then [] else StartedOnceStopped(turns[1..])
  }

  lemma StartsBeforeLeaving(before: seq<Action>, rest: seq<Action>)
    requires |before| <= 1 && rest != [] && rest[0].LeaveIfStopped?
    requires before != [] ==> before[0].Start?
    ensures Started(before + rest, true) == if before == [] then [] else [before[0].work]
    ensures Leaves(before + rest, true)
  {
    assert (before + rest)[|before|] == LeaveIfStopped;
    if before == [] {
      assert before + rest == rest;
    } else {
      assert (before + rest)[1..] == rest;
    }
  }

  /**
    A tick that is at its turn `k` when the scheduler stops starts one more
    piece of work at most, and only if a suppression check was under way.
   */
  lemma StoppedTickStartsAtMostOne(w: TickWork, timersSuppressed: bool, recoverySuppressed: bool, k: nat)
    requires k <= 3
    ensures StartedOnceStopped(HeartbeatTick(w, timersSuppressed, recoverySuppressed).turns[k..]) ==
      if k == 1 && !timersSuppressed then [w.timers] else if k == 2 && !recoverySuppressed then [w.recovery] else []
  {
    var turns := HeartbeatTick(w, timersSuppressed, recoverySuppressed).turns;
    if k == 0 {
      StartsBeforeLeaving([], turns[0].actions);
      assert [] + turns[0].actions == turns[0].actions;
    } else if k == 1 {
      var timers := if timersSuppressed then [] else [Start(w.timers)];
      StartsBeforeLeaving(timers, AfterTimers(w));
    } else if k == 2 {
      LastTurn(turns[2].actions, if recoverySuppressed then [] else [w.recovery]);
      assert turns[2..] == [turns[2]];
    }
  }

  lemma LastTurn(actions: seq<Action>, works: seq<Work>)
    requires |works| <= 1 && actions == if works == [] then [] else [Start(works[0])]
    ensures StartedOnceStopped([Turn(actions)]) == works
  {
    var turns := [Turn(actions)];
    assert turns[1..] == [] && !Leaves(actions, true);
    assert StartedOnceStopped(turns) == Started(actions, true) + StartedOnceStopped([]);
    if works != [] {
      assert actions[1..] == [];
      assert Started(actions, true) == [works[0]] + Started([], true);
    }
  }

  /** What the turns of a piece of work start, all told, while the scheduler runs. */
  function StartedRunning(turns: seq<Turn>): seq<Work> {
    if turns == [] then [] else Started(turns[0].actions, false) + StartedRunning(turns[1..])
  }

  function StartedBy(action: Action): seq<Work> {
    if action.LeaveIfStopped? then [] else [action.work]
  }

  lemma StartedOne(action: Action, rest: seq<Action>)
    ensures Started([action] + rest, false) == StartedBy(action) + Started(rest, false)
  {
    assert ([action] + rest)[1..] == rest;
    assert [] + Started(rest, false) == Started(rest, false);
  }

  lemma Associates(a: seq<Work>, b: seq<Work>, c: seq<Work>)
    ensures a + (b + c) == a + b + c
  {
  }

  lemma StartedTwo(a: Action, b: Action, rest: seq<Action>)
    ensures Started([a, b] + rest, false) == StartedBy(a) + StartedBy(b) + Started(rest, false)
  {
    StartedOne(a, [b] + rest);
    StartedOne(b, rest);
    assert [a, b] + rest == [a] + ([b] + rest);
    Associates(StartedBy(a), StartedBy(b), Started(rest, false));
  }

  /** The pieces of work that the second turn of a tick starts besides the timers. */
  function SecondTurnWork(w: TickWork): seq<Work> {
    [w.externalObjects, w.confirmations, w.connectionEvents, w.continuity, w.workspaces, w.adapterLogins, w.setupTokens,
     w.leases] + RoutineWork(w)
  }

  function RoutineWork(w: TickWork): seq<Work> {
    [w.routines, w.statusCards, w.customImages]
    + [w.toolHealth, w.secretProposals, w.connections, w.reviews, w.reviewDeliveries, w.questionResponses]
  }

  lemma ToolHealthStarts(w: TickWork)
    ensures Started(FromToolHealth(w), false) ==
      [w.toolHealth, w.secretProposals, w.connections, w.reviews, w.reviewDeliveries, w.questionResponses]
  {
    var last := [Start(w.questionResponses), LeaveIfStopped];
    var reviews := [Start(w.reviews), Start(w.reviewDeliveries)] + last;
    StartedTwo(LeaveIfStopped, Start(w.toolHealth), [Start(w.secretProposals), Start(w.connections)] + reviews);
    StartedTwo(Start(w.secretProposals), Start(w.connections), reviews);
    StartedTwo(Start(w.reviews), Start(w.reviewDeliveries), last);
    StartedTwo(Start(w.questionResponses), LeaveIfStopped, []);
    assert last + [] == last;
  }

  lemma RoutinesStart(w: TickWork)
    ensures Started(FromRoutines(w), false) == RoutineWork(w)
  {
    var images := [LeaveIfStopped, Start(w.customImages)] + FromToolHealth(w);
    ToolHealthStarts(w);
    StartedTwo(LeaveIfStopped, Start(w.routines), [LeaveIfStopped, Start(w.statusCards)] + images);
    StartedTwo(LeaveIfStopped, Start(w.statusCards), images);
    StartedTwo(LeaveIfStopped, Start(w.customImages), FromToolHealth(w));
  }

  lemma SecondTurnStarts(w: TickWork)
    ensures Started(AfterTimers(w), false) == SecondTurnWork(w)
  {
    var tokens := [StartUnlessStopped(w.setupTokens), StartUnlessStopped(w.leases)] + FromRoutines(w);
    var workspaces := [StartUnlessStopped(w.workspaces), StartUnlessStopped(w.adapterLogins)] + tokens;
    var events := [StartUnlessStopped(w.connectionEvents), StartUnlessStopped(w.continuity)] + workspaces;
    var confirmations := [LeaveIfStopped, StartUnlessStopped(w.confirmations)] + events;
    RoutinesStart(w);
    StartedTwo(LeaveIfStopped, StartUnlessStopped(w.externalObjects), confirmations);
    StartedTwo(LeaveIfStopped, StartUnlessStopped(w.confirmations), events);
    StartedTwo(StartUnlessStopped(w.connectionEvents), StartUnlessStopped(w.continuity), workspaces);
    StartedTwo(StartUnlessStopped(w.workspaces), StartUnlessStopped(w.adapterLogins), tokens);
    StartedTwo(StartUnlessStopped(w.setupTokens), StartUnlessStopped(w.leases), FromRoutines(w));
  }

  /**
    A tick of a running scheduler starts each of its pieces of work once and in
    this order: the timers and the recovery unless suppressed, all others always.
   */
  lemma RunningTickStarts(w: TickWork, timersSuppressed: bool, recoverySuppressed: bool)
    ensures StartedRunning(HeartbeatTick(w, timersSuppressed, recoverySuppressed).turns) ==
      [w.decisions, w.retention]
      + ((if timersSuppressed then [] else [w.timers]) + SecondTurnWork(w))
      + (if recoverySuppressed then [] else [w.recovery])
  {
    var turns := HeartbeatTick(w, timersSuppressed, recoverySuppressed).turns;
    FirstTurnStarts(w);
    SecondTurnStarts(w);
    StartedOne(Start(w.timers), AfterTimers(w));
    assert [] + AfterTimers(w) == AfterTimers(w);
    StartedOne(Start(w.recovery), []);
    assert [Start(w.recovery)] + [] == [Start(w.recovery)];
    ThreeTurns(turns[0], turns[1], turns[2]);
    assert turns == [turns[0], turns[1], turns[2]];
  }

  lemma ThreeTurns(a: Turn, b: Turn, c: Turn)
    ensures StartedRunning([a, b, c]) == Started(a.actions, false) + Started(b.actions, false) + Started(c.actions, false)
  {
    assert [a, b, c][1..] == [b, c] && [b, c][1..] == [c] && [c][1..] == [];
    assert StartedRunning([c]) == Started(c.actions, false) + [];
    assert StartedRunning([b, c]) == Started(b.actions, false) + StartedRunning([c]);
  }

  lemma FirstTurnStarts(w: TickWork)
    ensures Started([LeaveIfStopped, Start(w.decisions), Start(w.retention)], false) == [w.decisions, w.retention]
  {
    StartedOne(LeaveIfStopped, [Start(w.decisions), Start(w.retention)]);
    StartedTwo(Start(w.decisions), Start(w.retention), []);
    assert [LeaveIfStopped] + [Start(w.decisions), Start(w.retention)] == [LeaveIfStopped, Start(w.decisions), Start(w.retention)];
    assert [Start(w.decisions), Start(w.retention)] + [] == [Start(w.decisions), Start(w.retention)];
  }

  // ------------------------------------------------------------- the program

  /** The scheduler variables of the server, with the promises that are in flight. */
  class Scheduler {
    var heartbeatSchedulerStopped: bool
    var intervals: bool
    var heartbeatSchedulerInFlight: seq<Task>
    var executionControlSweepsInFlight: set<Queue>
    var nextId: nat
    var wait: Wait

    function View(): State
      reads this
    {
      State(heartbeatSchedulerStopped, intervals, heartbeatSchedulerInFlight, executionControlSweepsInFlight, nextId, wait)
    }

    constructor ()
      ensures View() == Initial()
    {
      heartbeatSchedulerStopped, intervals := false, true;
      heartbeatSchedulerInFlight, executionControlSweepsInFlight, nextId := [], {}, 0;
      wait := NotWaiting;
    }

    method TrackHeartbeatSchedulerWork(work: Work, queue: Option<Queue>)
      modifies this
      ensures View() == Track(old(View()), work, queue)
    {
      heartbeatSchedulerInFlight := heartbeatSchedulerInFlight + [Task(nextId, queue, work.turns)];
      nextId := nextId + 1;
    }

    method SweepExecutionControl(works: seq<Work>)
      requires Enabled(View(), Swept(works))
      modifies this
      ensures View() == Step(old(View()), Swept(works))
    {
      if heartbeatSchedulerStopped {
        return;
      }
      SweepEach(QUEUES, works);
    }

    method SweepEach(queues: seq<Queue>, works: seq<Work>)
      requires |queues| == |works|
      modifies this
      ensures View() == SweepFrom(old(View()), queues, works)
    {
      for i := 0 to |queues|
        invariant SweepFrom(old(View()), queues, works) == SweepFrom(View(), queues[i..], works[i..])
      {
        SweepStep(View(), queues, works, i);
        if queues[i] !in executionControlSweepsInFlight {
          executionControlSweepsInFlight := executionControlSweepsInFlight + {queues[i]};
          TrackHeartbeatSchedulerWork(works[i], Some(queues[i]));
        }
      }
    }

    method OnHeartbeatInterval(work: Work)
      requires Enabled(View(), Ticked(work))
      modifies this
      ensures View() == Step(old(View()), Ticked(work))
    {
      TrackHeartbeatSchedulerWork(work, None);
    }

    method Schedule(work: Work)
      modifies this
      ensures View() == Step(old(View()), Scheduled(work))
    {
      if heartbeatSchedulerStopped {
        return;
      }
      TrackHeartbeatSchedulerWork(work, None);
    }

    /** What a tracked piece of work does between two waits. */
    method Perform(actions: seq<Action>)
      modifies this
      ensures View() == TrackAll(old(View()), Started(actions, old(heartbeatSchedulerStopped)))
    {
      for i := 0 to |actions|
        invariant heartbeatSchedulerStopped == old(heartbeatSchedulerStopped)
        invariant TrackAll(old(View()), Started(actions, heartbeatSchedulerStopped)) ==
          TrackAll(View(), Started(actions[i..], heartbeatSchedulerStopped))
      {
        StartedStep(View(), actions, i, heartbeatSchedulerStopped);
        match actions[i]
        case Start(work) => TrackHeartbeatSchedulerWork(work, None);
        case StartUnlessStopped(work) =>
          if !heartbeatSchedulerStopped {
            TrackHeartbeatSchedulerWork(work, None);
          }
        case LeaveIfStopped =>
          if heartbeatSchedulerStopped {
            return;
          }
      }
    }

    method OnWorkContinues(index: nat)
      requires index < |heartbeatSchedulerInFlight|
      modifies this
      ensures View() == Step(old(View()), Advanced(index))
    {
      var task := heartbeatSchedulerInFlight[index];
      if task.turns != [] {
        var rest := if Leaves(task.turns[0].actions, heartbeatSchedulerStopped) then [] else task.turns[1..];
        heartbeatSchedulerInFlight := heartbeatSchedulerInFlight[index := task.(turns := rest)];
        Perform(task.turns[0].actions);
      } else if task.queue.Some? {
        heartbeatSchedulerInFlight := heartbeatSchedulerInFlight[index := task.(queue := None)];
        executionControlSweepsInFlight := executionControlSweepsInFlight - {task.queue.value};
      } else {
        heartbeatSchedulerInFlight := heartbeatSchedulerInFlight[..index] + heartbeatSchedulerInFlight[index + 1..];
      }
    }

    /** The shutdown handler up to its first wait for the scheduler. */
    method Stop()
      requires Enabled(View(), Stopped)
      modifies this
      ensures View() == Step(old(View()), Stopped)
    {
      heartbeatSchedulerStopped, intervals := true, false;
      WaitForIdle();
    }

    /** The head of the idle loop. */
    method WaitForIdle()
      modifies this`wait
      ensures View() == AwaitAll(old(View()))
    {
      if |heartbeatSchedulerInFlight| > 0 {
        wait := Awaiting(Ids(heartbeatSchedulerInFlight));
      } else {
        wait := Returned;
      }
    }
  }

  lemma SweepStep(s: State, queues: seq<Queue>, works: seq<Work>, i: nat)
    requires |queues| == |works| && i < |queues|
    ensures SweepFrom(s, queues[i..], works[i..]) ==
      SweepFrom(SweepQueue(s, queues[i], works[i]), queues[i + 1..], works[i + 1..])
  {
    assert queues[i..][1..] == queues[i + 1..] && works[i..][1..] == works[i + 1..];
  }

  lemma StartedStep(s: State, actions: seq<Action>, i: nat, stopped: bool)
    requires i < |actions|
    ensures TrackAll(s, Started(actions[i..], stopped)) ==
      if actions[i].Start? || (actions[i].StartUnlessStopped? && !stopped) then
        TrackAll(Track(s, actions[i].work, None), Started(actions[i + 1..], stopped))
      else if actions[i].LeaveIfStopped? && stopped then s
      else TrackAll(s, Started(actions[i + 1..], stopped))
  {
    var rest := Started(actions[i + 1..], stopped);
    assert actions[i..][1..] == actions[i + 1..];
    assert [] + rest == rest;
    if !actions[i].LeaveIfStopped? {
      assert ([actions[i].work] + rest)[1..] == rest;
    }
  }
}
