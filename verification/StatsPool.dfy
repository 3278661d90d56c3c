/**
  The worker pool of `enrichCommitStats` in scripts/geetorus-commit-metrics.ts.

  Every worker takes indices from one shared counter until it meets a commit
  to fetch (then it waits) or runs off the list (then it retires).  Between
  two waits a worker runs alone, so a run is any sequence of `Event`s.
 */
module StatsPool {

  type Sha = string

  datatype Worker =
    | Idle
    | Fetching(index: nat)
    | Failed(index: nat)
    | Retired

  datatype Pool = Pool(
    nextIndex: nat,
    workers: seq<Worker>,
    fetched: nat,
    stats: set<Sha>,
    requests: seq<nat>)

  datatype Event =
    | Begin(worker: nat)
    | FetchSucceeded(worker: nat)
    | FetchFailed(worker: nat)

  datatype Job = Job(pending: seq<Sha>, commits: set<Sha>, concurrency: nat)

  function Min(a: nat, b: nat): nat { if a <= b then a else b }

  /** A pending sha that is fetched when its index comes up. */
  predicate Eligible(job: Job, index: nat) {
    index < |job.pending| && job.pending[index] != "" && job.pending[index] in job.commits
  }

  /** The eligible indices below `bound`, in order: what the shared counter has handed out. */
  function EligibleBelow(job: Job, bound: nat): seq<nat>
  {
    if bound == 0 then []
    else EligibleBelow(job, bound - 1) + if Eligible(job, bound - 1) then [bound - 1] else []
  }

  /** What one worker does until its next wait: the new counter and the state it waits in. */
  function Scan(job: Job, nextIndex: nat): (r: (nat, Worker))
    ensures r.0 > nextIndex
    ensures r.1.Fetching? || r.1.Retired?
    ensures r.1.Fetching? ==> nextIndex <= r.1.index == r.0 - 1 && Eligible(job, r.1.index)
    ensures r.1.Retired? ==> r.0 > |job.pending| || job.pending[r.0 - 1] == ""
    decreases |job.pending| - nextIndex
  {
    if nextIndex >= |job.pending| || job.pending[nextIndex] == "" then (nextIndex + 1, Retired)
    else if job.pending[nextIndex] !in job.commits then Scan(job, nextIndex + 1)
    else (nextIndex + 1, Fetching(nextIndex))
  }

  function Initial(job: Job, stats: set<Sha>): Pool {
    Pool(0, seq(Min(job.concurrency, |job.pending|), _ => Idle), 0, stats, [])
  }

  predicate Enabled(pool: Pool, event: Event) {
    event.worker < |pool.workers| &&
    match event
    case Begin(w) => pool.workers[w].Idle?
    case _ => pool.workers[event.worker].Fetching?
  }

  /** The worker goes on from its loop head. */
  function Continue(job: Job, pool: Pool, worker: nat): Pool
    requires worker < |pool.workers|
  {
    var (next, state) := Scan(job, pool.nextIndex);
    pool.(nextIndex := next, workers := pool.workers[worker := state],
          requests := pool.requests + if state.Fetching? then [state.index] else [])
  }

  function Record(job: Job, pool: Pool, worker: nat): Pool
    requires worker < |pool.workers| && pool.workers[worker].Fetching?
    requires pool.workers[worker].index < |job.pending|
  {
    pool.(fetched := pool.fetched + 1, stats := pool.stats + {job.pending[pool.workers[worker].index]})
  }

  function Step(job: Job, pool: Pool, event: Event): Pool
    requires InRange(job, pool) && Enabled(pool, event)
  {
    match event
    case Begin(w) => Continue(job, pool, w)
    case FetchSucceeded(w) => Continue(job, Record(job, pool, w), w)
    case FetchFailed(w) => pool.(workers := pool.workers[w := Failed(pool.workers[w].index)])
  }

  predicate InRange(job: Job, pool: Pool) {
    forall w :: 0 <= w < |pool.workers| && pool.workers[w].Fetching? ==> pool.workers[w].index < |job.pending|
  }

  // --------------------------------------------------------------- invariant

  ghost predicate Holds(worker: Worker, index: nat) {
    worker == Fetching(index) || worker == Failed(index)
  }

  /** No index is with two workers. */
  ghost predicate OneHolder(workers: seq<Worker>) {
    forall v, w, i ::
      (0 <= v < |workers| && 0 <= w < |workers| && Holds(workers[v], i) && Holds(workers[w], i)) ==> v == w
  }

  ghost predicate Held(workers: seq<Worker>, index: nat) {
    exists w :: 0 <= w < |workers| && Holds(workers[w], index)
  }

  /** Requested and no longer with any worker: the fetch succeeded. */
  ghost function Done(pool: Pool): set<nat> {
    set i | i in pool.requests && !Held(pool.workers, i)
  }

  /** An index at which a worker retires: an empty sha, or past the end of the list. */
  predicate IsStop(job: Job, index: nat) {
    index >= |job.pending| || job.pending[index] == ""
  }

  function StopsBelow(job: Job, bound: nat): nat {
    if bound == 0 then 0 else StopsBelow(job, bound - 1) + if IsStop(job, bound - 1) then 1 else 0
  }

  /** How many workers are in a state of this kind. */
  function Count(workers: seq<Worker>, kind: Worker -> bool): nat {
    if workers == [] then 0
    else Count(workers[..|workers| - 1], kind) + if kind(workers[|workers| - 1]) then 1 else 0
  }

  predicate IsRetired(worker: Worker) {
    worker.Retired?
  }

  predicate IsLive(worker: Worker) {
    worker.Idle? || worker.Fetching?
  }

  /** The worker has, or ended with, an index below `bound`. */
  function HeldUnder(bound: nat): Worker -> bool {
    (worker: Worker) => (worker.Fetching? || worker.Failed?) && worker.index < bound
  }

  /** For every index handed out some worker is, or ended, at that index or behind it. */
  ghost predicate SomeoneGotThere(job: Job, workers: seq<Worker>, requests: seq<nat>) {
    forall i :: i in requests ==> StopsBelow(job, i) + Count(workers, HeldUnder(i)) < |workers|
  }

  ghost predicate HoldsRequested(workers: seq<Worker>, requests: seq<nat>) {
    forall w :: 0 <= w < |workers| && (workers[w].Fetching? || workers[w].Failed?) ==> workers[w].index in requests
  }

  /** The counter, the requests made and the workers agree on what has been handed out. */
  ghost predicate Handed(job: Job, workers: seq<Worker>, nextIndex: nat, requests: seq<nat>) {
    && |workers| == Min(job.concurrency, |job.pending|)
    && requests == EligibleBelow(job, nextIndex)
    && HoldsRequested(workers, requests) && OneHolder(workers)
    && Count(workers, IsRetired) == StopsBelow(job, nextIndex)
    && SomeoneGotThere(job, workers, requests)
  }

  ghost predicate Inv(job: Job, stats: set<Sha>, pool: Pool) {
    && Handed(job, pool.workers, pool.nextIndex, pool.requests)
    && pool.fetched == |Done(pool)|
    && pool.stats == stats + ShasAt(job, Done(pool))
  }

  ghost predicate Increasing(indices: seq<nat>) {
    forall a, b :: 0 <= a < b < |indices| ==> indices[a] < indices[b]
  }

  /** The counter hands out exactly the eligible indices, each once and in order. */
  lemma {:induction false} EligibleBelowIs(job: Job, bound: nat)
    ensures forall i: nat :: i in EligibleBelow(job, bound) <==> i < bound && Eligible(job, i)
    ensures Increasing(EligibleBelow(job, bound))
  {
    if bound > 0 {
      EligibleBelowIs(job, bound - 1);
      var before := EligibleBelow(job, bound - 1);
      forall a | 0 <= a < |before| ensures before[a] < bound - 1 {
        assert before[a] in before;
      }
    }
  }

  lemma {:induction false} ScanHandsOut(job: Job, nextIndex: nat)
    ensures var (next, state) := Scan(job, nextIndex);
      EligibleBelow(job, next) == EligibleBelow(job, nextIndex) + if state.Fetching? then [state.index] else []
    decreases |job.pending| - nextIndex
  {
    if nextIndex < |job.pending| && job.pending[nextIndex] != "" && job.pending[nextIndex] !in job.commits {
      ScanHandsOut(job, nextIndex + 1);
      assert EligibleBelow(job, nextIndex + 1) == EligibleBelow(job, nextIndex) + [];
    }
  }

  /** A scan passes one stop if it retires its worker, and none otherwise. */
  lemma {:induction false} ScanPassesStop(job: Job, nextIndex: nat)
    ensures var (next, state) := Scan(job, nextIndex);
      && StopsBelow(job, next) == StopsBelow(job, nextIndex) + (if state.Retired? then 1 else 0)
      && (state.Retired? ==> IsStop(job, next - 1))
    decreases |job.pending| - nextIndex
  {
    if nextIndex < |job.pending| && job.pending[nextIndex] != "" && job.pending[nextIndex] !in job.commits {
      ScanPassesStop(job, nextIndex + 1);
    }
  }

  lemma {:induction false} CountAfter(workers: seq<Worker>, kind: Worker -> bool, worker: nat, state: Worker)
    requires worker < |workers|
    ensures Count(workers[worker := state], kind) + (if kind(workers[worker]) then 1 else 0) ==
      Count(workers, kind) + if kind(state) then 1 else 0
  {
    var last := |workers| - 1;
    if worker == last {
      assert workers[worker := state][..last] == workers[..last];
    } else {
      CountAfter(workers[..last], kind, worker, state);
      assert workers[worker := state][..last] == workers[..last][worker := state];
    }
  }

  lemma {:induction false} CountNone(workers: seq<Worker>, kind: Worker -> bool)
    requires forall w :: 0 <= w < |workers| ==> !kind(workers[w])
    ensures Count(workers, kind) == 0
  {
    if workers != [] {
      CountNone(workers[..|workers| - 1], kind);
    }
  }

  /** Two kinds that no worker has both of. */
  lemma {:induction false} CountsApart(workers: seq<Worker>, a: Worker -> bool, b: Worker -> bool)
    requires forall w :: 0 <= w < |workers| ==> !(a(workers[w]) && b(workers[w]))
    ensures Count(workers, a) + Count(workers, b) <= |workers|
    ensures (exists w :: 0 <= w < |workers| && !a(workers[w]) && !b(workers[w])) <==>
      Count(workers, a) + Count(workers, b) < |workers|
  {
    if workers != [] {
      var front, last := workers[..|workers| - 1], workers[|workers| - 1];
      CountsApart(front, a, b);
      if a(last) || b(last) {
        forall w | 0 <= w < |workers| && !a(workers[w]) && !b(workers[w])
          ensures exists v :: 0 <= v < |front| && !a(front[v]) && !b(front[v])
        {
          assert front[w] == workers[w];
        }
      }
    }
  }

  /** Taking a new index leaves the finished ones alone. */
  lemma ContinueDone(job: Job, stats: set<Sha>, pool: Pool, worker: nat, freed: set<nat>)
    requires pool.requests == EligibleBelow(job, pool.nextIndex)
    requires worker < |pool.workers| && !pool.workers[worker].Failed?
    requires forall i :: i in freed <==> pool.workers[worker] == Fetching(i)
    requires forall i :: i in freed ==> i in pool.requests
    requires OneHolder(pool.workers)
    ensures Done(Continue(job, pool, worker)) == Done(pool) + freed
    ensures Done(pool) !! freed
  {
    var next := Continue(job, pool, worker);
    var (bound, state) := Scan(job, pool.nextIndex);
    ScanHandsOut(job, pool.nextIndex);
    EligibleBelowIs(job, pool.nextIndex);
    forall i: nat ensures i in Done(next) <==> i in Done(pool) || i in freed {
      assert next.workers[worker] == state;
      if Held(next.workers, i) {
        var w :| 0 <= w < |next.workers| && Holds(next.workers[w], i);
        assert w != worker ==> Holds(pool.workers[w], i);
      }
      if Held(pool.workers, i) {
        var w :| 0 <= w < |pool.workers| && Holds(pool.workers[w], i);
        assert w != worker ==> Holds(next.workers[w], i);
      }
      if i in freed {
        assert Holds(pool.workers[worker], i);
        assert i < pool.nextIndex;
      }
    }
    forall i | i in freed ensures i !in Done(pool) {
      assert Holds(pool.workers[worker], i);
    }
  }

  lemma ContinueKeepsInv(job: Job, stats: set<Sha>, pool: Pool, worker: nat)
    requires Inv(job, stats, pool) && worker < |pool.workers| && pool.workers[worker].Idle?
    ensures Inv(job, stats, Continue(job, pool, worker))
  {
    ContinueDone(job, stats, pool, worker, {});
    ContinueRest(job, pool, worker);
  }

  lemma ContinueRest(job: Job, pool: Pool, worker: nat)
    requires Handed(job, pool.workers, pool.nextIndex, pool.requests) && worker < |pool.workers|
    requires IsLive(pool.workers[worker])
    ensures var next := Continue(job, pool, worker); Handed(job, next.workers, next.nextIndex, next.requests)
  {
    var (bound, state) := Scan(job, pool.nextIndex);
    ScanHandsOut(job, pool.nextIndex);
    ScanPassesStop(job, pool.nextIndex);
    EligibleBelowIs(job, pool.nextIndex);
    CountAfter(pool.workers, IsRetired, worker, state);
    ContinueHolds(pool.workers, worker, state, pool.requests);
    ContinueGetsThere(job, pool.workers, pool.nextIndex, pool.requests, worker);
  }

  lemma ContinueHolds(workers: seq<Worker>, worker: nat, state: Worker, requests: seq<nat>)
    requires worker < |workers| && OneHolder(workers) && HoldsRequested(workers, requests)
    requires state.Retired? || (state.Fetching? && state.index !in requests)
    ensures var after := workers[worker := state];
      && OneHolder(after)
      && HoldsRequested(after, requests + if state.Fetching? then [state.index] else [])
  {
    var after := workers[worker := state];
    forall v, i: nat | 0 <= v < |workers| && v != worker && Holds(after[v], i) ensures i in requests {
      assert Holds(workers[v], i);
    }
  }

  /** An index that is handed out stands behind all that ended the other workers. */
  lemma NewIndexReached(job: Job, workers: seq<Worker>, worker: nat, i: nat)
    requires worker < |workers| && IsLive(workers[worker]) && Count(workers, IsRetired) == StopsBelow(job, i)
    ensures StopsBelow(job, i) + Count(workers[worker := Fetching(i)], HeldUnder(i)) < |workers|
  {
    var after := workers[worker := Fetching(i)];
    CountAfter(workers, IsRetired, worker, Fetching(i));
    assert !IsRetired(after[worker]) && !HeldUnder(i)(after[worker]);
    CountsApart(after, IsRetired, HeldUnder(i));
  }

  /** For an index handed out before, the worker that goes on or retires is out of the count. */
  lemma OldIndexReached(job: Job, workers: seq<Worker>, worker: nat, state: Worker, i: nat)
    requires worker < |workers| && !HeldUnder(i)(state)
    requires StopsBelow(job, i) + Count(workers, HeldUnder(i)) < |workers|
    ensures StopsBelow(job, i) + Count(workers[worker := state], HeldUnder(i)) < |workers|
  {
    CountAfter(workers, HeldUnder(i), worker, state);
  }

  lemma NoStopBefore(job: Job, nextIndex: nat)
    ensures var (next, state) := Scan(job, nextIndex);
      state.Fetching? ==> StopsBelow(job, state.index) == StopsBelow(job, nextIndex)
  {
    ScanPassesStop(job, nextIndex);
  }

  lemma ContinueGetsThere(job: Job, workers: seq<Worker>, nextIndex: nat, requests: seq<nat>, worker: nat)
    requires Count(workers, IsRetired) == StopsBelow(job, nextIndex)
    requires forall i :: i in requests ==> i < nextIndex
    requires SomeoneGotThere(job, workers, requests) && worker < |workers| && IsLive(workers[worker])
    ensures var (next, state) := Scan(job, nextIndex);
      SomeoneGotThere(job, workers[worker := state], requests + if state.Fetching? then [state.index] else [])
  {
    var (next, state) := Scan(job, nextIndex);
    var after := workers[worker := state];
    forall i | i in requests ensures StopsBelow(job, i) + Count(after, HeldUnder(i)) < |after| {
      OldIndexReached(job, workers, worker, state, i);
    }
    if state.Fetching? {
      NoStopBefore(job, nextIndex);
      NewIndexReached(job, workers, worker, state.index);
    }
  }

  lemma SuccessKeepsInv(job: Job, stats: set<Sha>, pool: Pool, worker: nat)
    requires Inv(job, stats, pool) && InRange(job, pool) && Enabled(pool, FetchSucceeded(worker))
    ensures Inv(job, stats, Step(job, pool, FetchSucceeded(worker)))
  {
    var index := pool.workers[worker].index;
    var recorded := Record(job, pool, worker);
    var next := Continue(job, recorded, worker);
    assert Holds(pool.workers[worker], index);
    assert Done(recorded) == Done(pool);
    ContinueDone(job, stats, recorded, worker, {index});
    ContinueRest(job, pool, worker);
    assert next == Continue(job, pool, worker).(fetched := recorded.fetched, stats := recorded.stats);
    assert next.fetched == |Done(next)|;
    ShasGrow(job, Done(pool), index);
  }

  function ShasAt(job: Job, indices: set<nat>): set<Sha> {
    set i | i in indices && i < |job.pending| :: job.pending[i]
  }

  lemma ShasGrow(job: Job, indices: set<nat>, index: nat)
    requires index < |job.pending|
    ensures ShasAt(job, indices + {index}) == ShasAt(job, indices) + {job.pending[index]}
  {
    forall sha | sha in ShasAt(job, indices) + {job.pending[index]} ensures sha in ShasAt(job, indices + {index}) {
      assert exists i :: i in indices + {index} && i < |job.pending| && job.pending[i] == sha;
    }
  }

  lemma FailureKeepsInv(job: Job, stats: set<Sha>, pool: Pool, worker: nat)
    requires Inv(job, stats, pool) && InRange(job, pool) && Enabled(pool, FetchFailed(worker))
    ensures Inv(job, stats, Step(job, pool, FetchFailed(worker)))
  {
    var next := Step(job, pool, FetchFailed(worker));
    assert forall v, i: nat :: 0 <= v < |pool.workers| ==> (Holds(pool.workers[v], i) <==> Holds(next.workers[v], i));
    SameHolders(pool.workers, next.workers);
    CountAfter(pool.workers, IsRetired, worker, next.workers[worker]);
    forall i | i in pool.requests ensures Count(next.workers, HeldUnder(i)) == Count(pool.workers, HeldUnder(i)) {
      CountAfter(pool.workers, HeldUnder(i), worker, next.workers[worker]);
    }
    assert Done(next) == Done(pool);
  }

  lemma SameHolders(before: seq<Worker>, after: seq<Worker>)
    requires |before| == |after|
    requires forall v, i: nat :: 0 <= v < |before| ==> (Holds(before[v], i) <==> Holds(after[v], i))
    ensures forall i: nat :: Held(before, i) <==> Held(after, i)
    ensures OneHolder(before) <==> OneHolder(after)
  {
    forall i: nat | Held(before, i) ensures Held(after, i) {
      var v :| 0 <= v < |before| && Holds(before[v], i);
      assert Holds(after[v], i);
    }
  }

  lemma StepKeepsInv(job: Job, stats: set<Sha>, pool: Pool, event: Event)
    requires Inv(job, stats, pool) && Enabled(pool, event)
    ensures InRange(job, pool) && Inv(job, stats, Step(job, pool, event))
  {
    EligibleBelowIs(job, pool.nextIndex);
    assert InRange(job, pool);
    match event
    case Begin(w) => ContinueKeepsInv(job, stats, pool, w);
    case FetchSucceeded(w) => SuccessKeepsInv(job, stats, pool, w);
    case FetchFailed(w) => FailureKeepsInv(job, stats, pool, w);
  }

  // -------------------------------------------------------------------- runs

  ghost predicate Run(job: Job, stats: set<Sha>, states: seq<Pool>, events: seq<Event>) {
    && |states| == |events| + 1 && states[0] == Initial(job, stats)
    && forall k :: 0 <= k < |events| ==>
      InRange(job, states[k]) && Enabled(states[k], events[k]) && states[k + 1] == Step(job, states[k], events[k])
  }

  lemma {:induction false} StopsGrow(job: Job, low: nat, high: nat)
    requires low <= high
    ensures StopsBelow(job, low) <= StopsBelow(job, high)
    ensures low < high && IsStop(job, low) ==> StopsBelow(job, low) < StopsBelow(job, high)
    decreases high
  {
    if low < high {
      StopsGrow(job, low, high - 1);
    }
  }

  lemma {:induction false} RunKeepsInv(job: Job, stats: set<Sha>, states: seq<Pool>, events: seq<Event>, k: nat)
    requires Run(job, stats, states, events) && k < |states|
    ensures Inv(job, stats, states[k])
  {
    if k == 0 {
      assert Done(states[0]) == {};
      CountNone(states[0].workers, IsRetired);
    } else {
      RunKeepsInv(job, stats, states, events, k - 1);
      StepKeepsInv(job, stats, states[k - 1], events[k - 1]);
    }
  }

  /** The workers with a request open. */
  ghost function Open(workers: seq<Worker>): set<nat>
  {
    if workers == [] then {}
    else Open(workers[..|workers| - 1]) + if workers[|workers| - 1].Fetching? then {|workers| - 1} else {}
  }

  lemma {:induction false} OpenIs(workers: seq<Worker>)
    ensures forall w: nat :: w in Open(workers) <==> w < |workers| && workers[w].Fetching?
    ensures |Open(workers)| <= |workers|
  {
    if workers != [] {
      OpenIs(workers[..|workers| - 1]);
    }
  }

  /** In every reachable state no index was requested twice and the pool size bounds the open requests. */
  lemma AtMostOnce(job: Job, stats: set<Sha>, states: seq<Pool>, events: seq<Event>, k: nat)
    requires Run(job, stats, states, events) && k < |states|
    ensures Increasing(states[k].requests)
    ensures forall i :: i in states[k].requests ==> Eligible(job, i)
    ensures |Open(states[k].workers)| <= Min(job.concurrency, |job.pending|)
  {
    RunKeepsInv(job, stats, states, events, k);
    EligibleBelowIs(job, states[k].nextIndex);
    OpenIs(states[k].workers);
  }

  lemma StepTakesTurn(job: Job, pool: Pool, event: Event)
    requires InRange(job, pool) && Enabled(pool, event)
    ensures var next := Step(job, pool, event);
      |next.requests| - Count(next.workers, IsLive) == |pool.requests| - Count(pool.workers, IsLive) + 1
  {
    CountAfter(pool.workers, IsLive, event.worker, Step(job, pool, event).workers[event.worker]);
  }

  lemma {:induction false} FewRequests(job: Job, bound: nat)
    ensures |EligibleBelow(job, bound)| <= Min(bound, |job.pending|)
  {
    if bound > 0 {
      FewRequests(job, bound - 1);
    }
  }

  lemma {:induction false} CountAll(workers: seq<Worker>, kind: Worker -> bool)
    requires forall w :: 0 <= w < |workers| ==> kind(workers[w])
    ensures Count(workers, kind) == |workers|
  {
    if workers != [] {
      CountAll(workers[..|workers| - 1], kind);
    }
  }

  /** Each turn hands out an index or ends a worker. */
  lemma {:induction false} TurnsCounted(job: Job, stats: set<Sha>, states: seq<Pool>, events: seq<Event>, k: nat)
    requires Run(job, stats, states, events) && k < |states|
    ensures k == |states[k].requests| + Workers(job) - Count(states[k].workers, IsLive)
  {
    if k > 0 {
      TurnsCounted(job, stats, states, events, k - 1);
      StepTakesTurn(job, states[k - 1], events[k - 1]);
    } else {
      CountAll(states[0].workers, IsLive);
    }
  }

  lemma StuckIffFinished(pool: Pool)
    ensures (forall e :: !Enabled(pool, e)) <==> Finished(pool.workers)
  {
    forall w: nat | w < |pool.workers| && IsLive(pool.workers[w]) ensures exists e :: Enabled(pool, e) {
      assert Enabled(pool, Begin(w)) || Enabled(pool, FetchFailed(w));
    }
  }

  /** So a run cannot go on for ever, and it can go on exactly until every worker has ended. */
  lemma RunEnds(job: Job, stats: set<Sha>, states: seq<Pool>, events: seq<Event>)
    requires Run(job, stats, states, events)
    ensures |events| <= |job.pending| + Workers(job)
    ensures (forall e :: !Enabled(states[|events|], e)) <==> Finished(states[|events|].workers)
  {
    RunKeepsInv(job, stats, states, events, |events|);
    TurnsCounted(job, stats, states, events, |events|);
    FewRequests(job, states[|events|].nextIndex);
    StuckIffFinished(states[|events|]);
  }

  function Workers(job: Job): nat {
    Min(job.concurrency, |job.pending|)
  }

  /** Every worker has come to its end, at a stop or by a rejected fetch. */
  ghost predicate Finished(workers: seq<Worker>) {
    forall w :: 0 <= w < |workers| ==> workers[w].Retired? || workers[w].Failed?
  }

  /** How many fetches of indices below `bound` were rejected. */
  function RejectedBelow(workers: seq<Worker>, bound: nat): nat {
    Count(workers, HeldUnder(bound))
  }

  /**
    When every worker has come to its end, a pending sha with a known commit
    was requested if and only if the empty shas and the rejected fetches before
    it are together fewer than the workers.  What was stored is what was
    requested and not rejected.
   */
  lemma FinishedReachedIff(job: Job, stats: set<Sha>, states: seq<Pool>, events: seq<Event>)
    requires Run(job, stats, states, events) && Finished(states[|events|].workers)
    ensures var final := states[|events|];
      && (forall i: nat :: i in final.requests <==>
            Eligible(job, i) && StopsBelow(job, i) + RejectedBelow(final.workers, i) < Workers(job))
      && final.fetched == |Done(final)| && final.stats == stats + ShasAt(job, Done(final))
  {
    var final := states[|events|];
    RunKeepsInv(job, stats, states, events, |events|);
    EligibleBelowIs(job, final.nextIndex);
    forall i: nat | Eligible(job, i) && i >= final.nextIndex
      ensures StopsBelow(job, i) + RejectedBelow(final.workers, i) >= Workers(job)
    {
      StopsGrow(job, final.nextIndex, i);
      CountsApart(final.workers, IsRetired, HeldUnder(i));
    }
  }

  /** An eligible index before which fewer empty shas stand than there are workers. */
  predicate Reached(job: Job, index: nat) {
    Eligible(job, index) && StopsBelow(job, index) < Workers(job)
  }

  lemma RetiredHoldNone(final: Pool)
    requires forall w :: 0 <= w < |final.workers| ==> final.workers[w].Retired?
    ensures Done(final) == Elements(final.requests)
  {
  }

  /** The shas of the indices that are reached. */
  function ReachedShas(job: Job): set<Sha> {
    set i | 0 <= i < |job.pending| && Reached(job, i) :: job.pending[i]
  }

  /**
    When every worker has retired, a pending sha with a known commit was
    requested if and only if fewer empty shas stand before it than there are
    workers; each of these was requested once, and their statistics are stored.
   */
  lemma FinishedFetchesReached(job: Job, stats: set<Sha>, states: seq<Pool>, events: seq<Event>)
    requires Run(job, stats, states, events)
    requires forall w :: 0 <= w < |states[|events|].workers| ==> states[|events|].workers[w].Retired?
    ensures var final := states[|events|];
      && Increasing(final.requests) && (forall i: nat :: i in final.requests <==> Reached(job, i))
      && final.fetched == |final.requests|
      && final.stats == stats + ReachedShas(job)
  {
    var final := states[|events|];
    RunKeepsInv(job, stats, states, events, |events|);
    EligibleBelowIs(job, final.nextIndex);
    FinishedReachedIff(job, stats, states, events);
    forall i: nat ensures i in final.requests <==> Reached(job, i) {
      CountNone(final.workers, HeldUnder(i));
    }
    DistinctSize(final.requests);
    RetiredHoldNone(final);
    StoredShas(job, final);
  }

  lemma StoredShas(job: Job, final: Pool)
    requires forall i: nat :: i in Done(final) <==> Reached(job, i)
    ensures ShasAt(job, Done(final)) == ReachedShas(job)
  {
    forall sha | sha in ReachedShas(job) ensures sha in ShasAt(job, Done(final)) {
      var i: nat :| i < |job.pending| && Reached(job, i) && job.pending[i] == sha;
      assert i in Done(final);
    }
  }

  /** So everything that could be fetched was, if and only if no such sha stands behind as many empty ones as there are workers. */
  lemma FinishedFetchesAllIff(job: Job, stats: set<Sha>, states: seq<Pool>, events: seq<Event>)
    requires Run(job, stats, states, events)
    requires forall w :: 0 <= w < |states[|events|].workers| ==> states[|events|].workers[w].Retired?
    ensures (forall i: nat :: Eligible(job, i) ==> i in states[|events|].requests)
      <==> forall i: nat :: Eligible(job, i) ==> StopsBelow(job, i) < Workers(job)
  {
    FinishedFetchesReached(job, stats, states, events);
  }

  lemma {:induction false} NoStops(job: Job, bound: nat)
    requires bound <= |job.pending| && "" !in job.pending
    ensures StopsBelow(job, bound) == 0
  {
    if bound > 0 {
      NoStops(job, bound - 1);
    }
  }

  /** Without an empty sha nothing is passed over. */
  lemma FinishedFetchesAll(job: Job, stats: set<Sha>, states: seq<Pool>, events: seq<Event>)
    requires Run(job, stats, states, events)
    requires job.concurrency >= 1 && "" !in job.pending
    requires forall w :: 0 <= w < |states[|events|].workers| ==> states[|events|].workers[w].Retired?
    ensures forall i: nat :: i in states[|events|].requests <==> Eligible(job, i)
  {
    FinishedFetchesReached(job, stats, states, events);
    forall i: nat | Eligible(job, i) ensures Reached(job, i) {
      NoStops(job, i);
    }
  }

  /** With an empty sha first and one worker, the run ends and the known commit behind it is never asked for. */
  lemma EmptyShaHidesTheNext(sha: Sha, stats: set<Sha>) returns (job: Job, states: seq<Pool>, events: seq<Event>)
    requires sha != ""
    ensures job == Job(["", sha], {sha}, 1) && Run(job, stats, states, events)
    ensures forall w :: 0 <= w < |states[|events|].workers| ==> states[|events|].workers[w].Retired?
    ensures Eligible(job, 1) && 1 !in states[|events|].requests
  {
    job := Job(["", sha], {sha}, 1);
    var start := Initial(job, stats);
    assert Scan(job, 0) == (1, Retired);
    events := [Begin(0)];
    states := [start, Step(job, start, Begin(0))];
  }

  ghost function Elements(indices: seq<nat>): (e: set<nat>)
    ensures forall i: nat :: i in e <==> i in indices
  {
    if indices == [] then {} else {indices[0]} + Elements(indices[1..])
  }

  lemma {:induction false} DistinctSize(indices: seq<nat>)
    requires Increasing(indices)
    ensures |Elements(indices)| == |indices|
  {
    if indices != [] {
      DistinctSize(indices[1..]);
      assert indices[0] !in Elements(indices[1..]);
    }
  }

  // ------------------------------------------------------------- the program

  /** The closure variables of `enrichCommitStats`, updated by its workers. */
  class StatsEnricher {
    const job: Job
    var nextIndex: nat
    var workers: seq<Worker>
    var fetched: nat
    var stats: set<Sha>
    ghost var requests: seq<nat>

    ghost function View(): Pool
      reads this
    {
      Pool(nextIndex, workers, fetched, stats, requests)
    }

    constructor (job: Job, stats: set<Sha>)
      ensures this.job == job && View() == Initial(job, stats)
    {
      this.job := job;
      nextIndex, fetched, this.stats, requests := 0, 0, stats, [];
      workers := seq(Min(job.concurrency, |job.pending|), _ => Idle);
    }

    /** The worker's loop, from its head to its next wait or its return. */
    method Advance(worker: nat)
      requires worker < |workers|
      modifies this
      ensures View() == Continue(job, old(View()), worker)
    {
      ghost var from := nextIndex;
      while true
        invariant worker < |workers| && from <= nextIndex
        invariant Scan(job, from) == Scan(job, nextIndex)
        invariant View() == old(View()).(nextIndex := nextIndex)
        decreases |job.pending| - nextIndex
      {
        var currentIndex := nextIndex;
        nextIndex := nextIndex + 1;
        if currentIndex >= |job.pending| || job.pending[currentIndex] == "" {
          workers := workers[worker := Retired];
          return;
        }
        if job.pending[currentIndex] in job.commits {
          workers := workers[worker := Fetching(currentIndex)];
          requests := requests + [currentIndex];
          return;
        }
      }
    }

    /** A fetch came back: store its statistics, count it, and go on. */
    method Settle(worker: nat)
      requires InRange(job, View()) && Enabled(View(), FetchSucceeded(worker))
      modifies this
      ensures View() == Step(job, old(View()), FetchSucceeded(worker))
    {
      stats := stats + {job.pending[workers[worker].index]};
      fetched := fetched + 1;
      Advance(worker);
    }

    /** A fetch rejected: its worker ends, the others go on. */
    method Reject(worker: nat)
      requires InRange(job, View()) && Enabled(View(), FetchFailed(worker))
      modifies this
      ensures View() == Step(job, old(View()), FetchFailed(worker))
    {
      workers := workers[worker := Failed(workers[worker].index)];
    }
  }
}
