/**
  The windowed commit search of scripts/geetorus-commit-metrics.ts.

  GitHub answers a search with at most a thousand hits, so `SearchWindow`
  bisects a time range until a window is small enough, pages through it, and
  memoises every window it finished.  The reference definition is the plain
  set `ShasIn` of all matching commits.
 */
module CommitSearch {

  const SEARCH_WINDOW_LIMIT := 900
  const MIN_WINDOW_MS := 60_000
  const PER_PAGE := 100

  type Sha = string

  datatype Commit = Commit(sha: Sha, time: int, repository: string)

  datatype Window = Window(start: int, end: int)

  datatype WindowEntry = WindowEntry(shas: set<Sha>, totalCount: nat)

  datatype SearchResponse = SearchResponse(totalCount: nat, items: seq<Commit>, incomplete: bool)

  datatype SearchError =
    | IncompleteResults(window: Window)
    | StillTooDense(window: Window, count: nat)

  datatype SearchResult = Found(shas: set<Sha>, totalCount: nat) | Thrown(error: SearchError)

  /** The commits of the universe whose indexed date lies in the window, in index order. */
  function Hits(universe: seq<Commit>, window: Window): (hits: seq<Commit>)
    ensures |hits| <= |universe|
    ensures forall c :: c in hits <==> c in universe && window.start <= c.time <= window.end
  {
    if universe == [] then []
    else
      var rest := Hits(universe[1..], window);
      if window.start <= universe[0].time <= window.end then [universe[0]] + rest else rest
  }

  function ShasOf(commits: seq<Commit>): set<Sha>
  {
    set c | c in commits :: c.sha
  }

  function ShasIn(universe: seq<Commit>, window: Window): set<Sha>
  {
    set c | c in universe && window.start <= c.time <= window.end :: c.sha
  }

  ghost predicate DistinctShas(commits: seq<Commit>) {
    forall i, j :: 0 <= i < j < |commits| ==> commits[i].sha != commits[j].sha
  }

  lemma HitShas(universe: seq<Commit>, window: Window)
    ensures ShasOf(Hits(universe, window)) == ShasIn(universe, window)
  {
  }

  lemma ShasOfFirst(commits: seq<Commit>)
    requires commits != []
    ensures ShasOf(commits) == {commits[0].sha} + ShasOf(commits[1..])
    ensures DistinctShas(commits) <==> DistinctShas(commits[1..]) && commits[0].sha !in ShasOf(commits[1..])
  {
    var rest := commits[1..];
    assert forall c :: c in commits <==> c == commits[0] || c in rest;
    assert forall i :: 0 < i < |commits| ==> commits[i] == rest[i - 1];
    assert forall c :: c in rest ==> c.sha in ShasOf(rest);
  }

  /** There are as many shas as commits exactly when no two commits share one. */
  lemma {:induction false} ShaCount(commits: seq<Commit>)
    ensures |ShasOf(commits)| <= |commits|
    ensures |ShasOf(commits)| == |commits| <==> DistinctShas(commits)
  {
    if commits != [] {
      ShaCount(commits[1..]);
      ShasOfFirst(commits);
    }
  }

  lemma {:induction false} DistinctHits(universe: seq<Commit>, window: Window)
    requires DistinctShas(universe)
    ensures DistinctShas(Hits(universe, window))
  {
    if universe != [] {
      var rest := universe[1..];
      DistinctHits(rest, window);
      forall c | c in Hits(rest, window) ensures c.sha != universe[0].sha {
        assert c in rest;
      }
    }
  }

  /** A narrower window has no more hits. */
  lemma {:induction false} NarrowerHits(universe: seq<Commit>, outer: Window, inner: Window)
    requires outer.start <= inner.start && inner.end <= outer.end
    ensures |Hits(universe, inner)| <= |Hits(universe, outer)|
  {
    if universe != [] {
      NarrowerHits(universe[1..], outer, inner);
    }
  }

  /** Splitting at any millisecond partitions the matching commits, so no commit falls between the halves. */
  lemma SplitWindow(universe: seq<Commit>, window: Window, midpoint: int)
    requires window.start <= midpoint < window.end
    ensures ShasIn(universe, window) ==
      ShasIn(universe, Window(window.start, midpoint)) + ShasIn(universe, Window(midpoint + 1, window.end))
  {
  }

  /**
    A memo entry is exact when its shas are the matching ones and its count
    lies between the distinct shas and the raw hits (a sha indexed in several
    forks is one sha but several hits).
   */
  ghost predicate ExactEntry(universe: seq<Commit>, window: Window, entry: WindowEntry) {
    && entry.shas == ShasIn(universe, window)
    && |entry.shas| <= entry.totalCount
    && (entry.totalCount == |entry.shas| || entry.totalCount == |Hits(universe, window)|)
  }

  lemma ExactCount(universe: seq<Commit>, window: Window, entry: WindowEntry)
    requires ExactEntry(universe, window, entry) && DistinctShas(universe)
    ensures entry.totalCount == |ShasIn(universe, window)| == |Hits(universe, window)|
  {
    HitShas(universe, window);
    DistinctHits(universe, window);
    ShaCount(Hits(universe, window));
  }

  /** The total a search reports: the shas of a window that had to be split, the hits of any other. */
  ghost function CountOf(universe: seq<Commit>, window: Window): nat {
    if |Hits(universe, window)| > SEARCH_WINDOW_LIMIT then |ShasIn(universe, window)| else |Hits(universe, window)|
  }

  /** It is the number of commits exactly when the window was split, or no sha of it is indexed twice. */
  lemma CountsCommitsIff(universe: seq<Commit>, window: Window)
    ensures CountOf(universe, window) == |ShasIn(universe, window)| <==>
      |Hits(universe, window)| > SEARCH_WINDOW_LIMIT || DistinctShas(Hits(universe, window))
  {
    HitShas(universe, window);
    ShaCount(Hits(universe, window));
  }

  /** What makes the bisection give up: at most a minute wide and still too many hits. */
  ghost predicate TooDense(universe: seq<Commit>, window: Window) {
    window.end - window.start <= MIN_WINDOW_MS && |Hits(universe, window)| > SEARCH_WINDOW_LIMIT
  }

  ghost predicate Within(inner: Window, outer: Window) {
    outer.start <= inner.start && inner.end <= outer.end
  }

  /** Every memoised window is exact, and every sha it names has its commit record. */
  ghost predicate ExactTables(universe: seq<Commit>, windows: map<Window, WindowEntry>, commits: map<Sha, Commit>) {
    && (forall w :: w in windows ==> ExactEntry(universe, w, windows[w]))
    && (forall w :: w in windows ==> windows[w].shas <= commits.Keys)
    && (forall sha :: sha in commits ==> commits[sha].sha == sha && commits[sha] in universe)
  }

  /** `after` keeps the records of `before` except where an ingested item replaced or added one. */
  ghost predicate Ingested(before: map<Sha, Commit>, items: seq<Commit>, after: map<Sha, Commit>) {
    && after.Keys == before.Keys + ShasOf(items)
    && forall sha :: sha in after ==>
      (sha in before && after[sha] == before[sha]) || (after[sha] in items && after[sha].sha == sha)
  }

  lemma IngestKeepsExact(universe: seq<Commit>, windows: map<Window, WindowEntry>, before: map<Sha, Commit>,
                         items: seq<Commit>, after: map<Sha, Commit>)
    requires ExactTables(universe, windows, before)
    requires Ingested(before, items, after)
    requires forall c :: c in items ==> c in universe
    ensures ExactTables(universe, windows, after)
  {
  }

  lemma MemoKeepsExact(universe: seq<Commit>, windows: map<Window, WindowEntry>, commits: map<Sha, Commit>,
                       window: Window, entry: WindowEntry)
    requires ExactTables(universe, windows, commits)
    requires ExactEntry(universe, window, entry) && entry.shas <= commits.Keys
    ensures ExactTables(universe, windows[window := entry], commits)
  {
  }

  // --------------------------------------------- which windows are asked for

  /** The last millisecond of the left half: the halves are equally long, or the left one is one longer. */
  function Midpoint(window: Window): (m: int)
    requires window.start < window.end
    ensures window.start <= m < window.end
    ensures 0 <= (m - window.start) - (window.end - (m + 1)) <= 1
  {
    window.start + (window.end - window.start) / 2
  }

  function LeftHalf(window: Window): Window
    requires window.start < window.end
  {
    Window(window.start, Midpoint(window))
  }

  function RightHalf(window: Window): Window
    requires window.start < window.end
  {
    Window(Midpoint(window) + 1, window.end)
  }

  /** The window is answered completely, has too many hits, and is wide enough to be split. */
  ghost predicate Splits(universe: seq<Commit>, incompleteWindows: set<Window>, window: Window) {
    window !in incompleteWindows && |Hits(universe, window)| > SEARCH_WINDOW_LIMIT && window.end - window.start > MIN_WINDOW_MS
  }

  /** The search of a window ends in a throw at `w`. */
  ghost predicate Fails(universe: seq<Commit>, incompleteWindows: set<Window>, w: Window) {
    w in incompleteWindows || TooDense(universe, w)
  }

  /** GitHub is asked for `w` when a window is searched, the windows in `known` being answered from the memo. */
  ghost predicate Asks(universe: seq<Commit>, incompleteWindows: set<Window>, known: set<Window>, window: Window, w: Window)
    decreases window.end - window.start
  {
    && window !in known
    && (w == window
        || (Splits(universe, incompleteWindows, window)
            && (Asks(universe, incompleteWindows, known, LeftHalf(window), w)
                || Asks(universe, incompleteWindows, known, RightHalf(window), w))))
  }

  /**
    A search throws if and only if some window it asks for fails, and then at
    the first of these from the left; it says incomplete exactly when GitHub did.
   */
  ghost predicate ThrowsAtFirstFailure(universe: seq<Commit>, incompleteWindows: set<Window>, known: set<Window>,
                                       window: Window, result: SearchResult)
  {
    match result
    case Found(_, _) =>
      forall w :: Asks(universe, incompleteWindows, known, window, w) ==> !Fails(universe, incompleteWindows, w)
    case Thrown(error) =>
      && Asks(universe, incompleteWindows, known, window, error.window)
      && Fails(universe, incompleteWindows, error.window)
      && (error.IncompleteResults? <==> error.window in incompleteWindows)
      && forall w :: Asks(universe, incompleteWindows, known, window, w) && Fails(universe, incompleteWindows, w)
           ==> w == error.window || error.window.end < w.start
  }

  /** The memo keeps its windows and gains asked ones that did not fail. */
  ghost predicate MemoGrows(universe: seq<Commit>, incompleteWindows: set<Window>, known: set<Window>, window: Window,
                            before: set<Window>, after: set<Window>)
  {
    && before <= after
    && forall w :: w in after && w !in before ==>
         Asks(universe, incompleteWindows, known, window, w) && !Fails(universe, incompleteWindows, w)
  }

  /** One search: where it throws, and what it memoises; if it does not throw, all it asked for. */
  ghost predicate Searched(universe: seq<Commit>, incompleteWindows: set<Window>, known: set<Window>, window: Window,
                           before: set<Window>, after: set<Window>, result: SearchResult)
  {
    && ThrowsAtFirstFailure(universe, incompleteWindows, known, window, result)
    && MemoGrows(universe, incompleteWindows, known, window, before, after)
    && (result.Found? ==> forall w :: Asks(universe, incompleteWindows, known, window, w) ==> w in after)
  }

  /** The same before the window itself is memoised. */
  ghost predicate SearchedParts(universe: seq<Commit>, incompleteWindows: set<Window>, known: set<Window>, window: Window,
                                before: set<Window>, after: set<Window>, result: SearchResult)
  {
    && ThrowsAtFirstFailure(universe, incompleteWindows, known, window, result)
    && MemoGrows(universe, incompleteWindows, known, window, before, after)
    && (result.Found? ==> forall w :: Asks(universe, incompleteWindows, known, window, w) ==> w in after + {window})
  }

  lemma {:induction false} AskedWithin(universe: seq<Commit>, incompleteWindows: set<Window>, known: set<Window>,
                                       window: Window, w: Window)
    requires Asks(universe, incompleteWindows, known, window, w)
    ensures Within(w, window) && (window.start <= window.end ==> w.start <= w.end)
    decreases window.end - window.start
  {
    if w != window {
      if Asks(universe, incompleteWindows, known, LeftHalf(window), w) {
        AskedWithin(universe, incompleteWindows, known, LeftHalf(window), w);
      } else {
        AskedWithin(universe, incompleteWindows, known, RightHalf(window), w);
      }
    }
  }

  /** What is memoised outside of a window does not matter to its search. */
  lemma {:induction false} AsksAlike(universe: seq<Commit>, incompleteWindows: set<Window>, known: set<Window>,
                                     more: set<Window>, window: Window, w: Window)
    requires window.start <= window.end
    requires forall v :: Within(v, window) && v.start <= v.end ==> (v in known <==> v in more)
    ensures Asks(universe, incompleteWindows, known, window, w) <==> Asks(universe, incompleteWindows, more, window, w)
    decreases window.end - window.start
  {
    assert Within(window, window);
    if Splits(universe, incompleteWindows, window) {
      AsksAlike(universe, incompleteWindows, known, more, LeftHalf(window), w);
      AsksAlike(universe, incompleteWindows, known, more, RightHalf(window), w);
    }
  }

  /** The left half leaves the memo of the right half alone. */
  lemma LeftLeavesRight(universe: seq<Commit>, incompleteWindows: set<Window>, known: set<Window>, window: Window,
                        before: set<Window>, after: set<Window>, w: Window)
    requires Splits(universe, incompleteWindows, window)
    requires MemoGrows(universe, incompleteWindows, known, LeftHalf(window), before, after)
    ensures Asks(universe, incompleteWindows, before, RightHalf(window), w) <==>
      Asks(universe, incompleteWindows, after, RightHalf(window), w)
  {
    forall v | Within(v, RightHalf(window)) && v.start <= v.end ensures v in before <==> v in after {
      if v in after && v !in before {
        AskedWithin(universe, incompleteWindows, known, LeftHalf(window), v);
      }
    }
    AsksAlike(universe, incompleteWindows, before, after, RightHalf(window), w);
  }

  /** A throw in the left half is the first of the whole window. */
  lemma LeftThrowsFirst(universe: seq<Commit>, incompleteWindows: set<Window>, known: set<Window>, window: Window,
                        left: SearchResult)
    requires Splits(universe, incompleteWindows, window) && window !in known && left.Thrown?
    requires ThrowsAtFirstFailure(universe, incompleteWindows, known, LeftHalf(window), left)
    ensures ThrowsAtFirstFailure(universe, incompleteWindows, known, window, left)
  {
    var at := left.error.window;
    AskedWithin(universe, incompleteWindows, known, LeftHalf(window), at);
    forall w | Asks(universe, incompleteWindows, known, window, w) && Fails(universe, incompleteWindows, w)
      ensures w == at || at.end < w.start
    {
      if !Asks(universe, incompleteWindows, known, LeftHalf(window), w) {
        AskedWithin(universe, incompleteWindows, known, RightHalf(window), w);
      }
    }
  }

  lemma LeftThrows(universe: seq<Commit>, incompleteWindows: set<Window>, known: set<Window>, window: Window,
                   before: set<Window>, after: set<Window>, left: SearchResult)
    requires Splits(universe, incompleteWindows, window) && window !in known && left.Thrown?
    requires Searched(universe, incompleteWindows, known, LeftHalf(window), before, after, left)
    ensures SearchedParts(universe, incompleteWindows, known, window, before, after, left)
  {
    LeftThrowsFirst(universe, incompleteWindows, known, window, left);
  }

  /** With a left half that did not throw, the whole window does what the right half does. */
  lemma RightDecides(universe: seq<Commit>, incompleteWindows: set<Window>, known: set<Window>, window: Window,
                     left: SearchResult, right: SearchResult, result: SearchResult)
    requires Splits(universe, incompleteWindows, window) && window !in known && left.Found?
    requires ThrowsAtFirstFailure(universe, incompleteWindows, known, LeftHalf(window), left)
    requires ThrowsAtFirstFailure(universe, incompleteWindows, known, RightHalf(window), right)
    requires result == right || (right.Found? && result.Found?)
    ensures ThrowsAtFirstFailure(universe, incompleteWindows, known, window, result)
  {
  }

  /** The right half is searched with what the left half left in the memo; that makes no difference. */
  lemma RightAlike(universe: seq<Commit>, incompleteWindows: set<Window>, known: set<Window>, window: Window,
                   before: set<Window>, between: set<Window>, knownRight: set<Window>, after: set<Window>, right: SearchResult)
    requires Splits(universe, incompleteWindows, window)
    requires MemoGrows(universe, incompleteWindows, known, LeftHalf(window), before, between)
    requires (known == before && knownRight == between) || known == knownRight
    requires Searched(universe, incompleteWindows, knownRight, RightHalf(window), between, after, right)
    ensures Searched(universe, incompleteWindows, known, RightHalf(window), between, after, right)
  {
    forall w ensures Asks(universe, incompleteWindows, known, RightHalf(window), w) <==>
        Asks(universe, incompleteWindows, knownRight, RightHalf(window), w)
    {
      LeftLeavesRight(universe, incompleteWindows, known, window, before, between, w);
    }
  }

  function Joined(left: SearchResult, right: SearchResult): SearchResult
    requires left.Found?
  {
    if right.Thrown? then right else Found(left.shas + right.shas, |left.shas + right.shas|)
  }

  lemma HalvesCombine(universe: seq<Commit>, incompleteWindows: set<Window>, known: set<Window>, window: Window,
                      before: set<Window>, between: set<Window>, knownRight: set<Window>, after: set<Window>,
                      left: SearchResult, right: SearchResult)
    requires Splits(universe, incompleteWindows, window) && window !in known && left.Found?
    requires Searched(universe, incompleteWindows, known, LeftHalf(window), before, between, left)
    requires (known == before && knownRight == between) || known == knownRight
    requires Searched(universe, incompleteWindows, knownRight, RightHalf(window), between, after, right)
    ensures SearchedParts(universe, incompleteWindows, known, window, before, after, Joined(left, right))
  {
    RightAlike(universe, incompleteWindows, known, window, before, between, knownRight, after, right);
    RightDecides(universe, incompleteWindows, known, window, left, right, Joined(left, right));
  }

  lemma WindowMemoised(universe: seq<Commit>, incompleteWindows: set<Window>, known: set<Window>, window: Window,
                       before: set<Window>, after: set<Window>, result: SearchResult)
    requires SearchedParts(universe, incompleteWindows, known, window, before, after, result)
    requires window !in known && result.Found?
    ensures Searched(universe, incompleteWindows, known, window, before, after + {window}, result)
  {
    assert Asks(universe, incompleteWindows, known, window, window);
  }

  /** A window that is answered at once, and is not to be split, is all its search asks for. */
  lemma AsksOnlyItself(universe: seq<Commit>, incompleteWindows: set<Window>, known: set<Window>, window: Window, before: set<Window>,
                       result: SearchResult)
    requires window !in known && !Splits(universe, incompleteWindows, window)
    requires if Fails(universe, incompleteWindows, window)
             then result.Thrown? && result.error.window == window && (result.error.IncompleteResults? <==> window in incompleteWindows)
             else result.Found?
    ensures SearchedParts(universe, incompleteWindows, known, window, before, before, result)
  {
    assert Asks(universe, incompleteWindows, known, window, window);
  }

  /** What one search of a window may promise its caller, found or thrown. */
  ghost predicate SearchOutcome(universe: seq<Commit>, incompleteWindows: set<Window>, refreshSearch: bool,
                                window: Window, result: SearchResult)
  {
    match result
    case Found(shas, totalCount) =>
      && ExactEntry(universe, window, WindowEntry(shas, totalCount))
      && (refreshSearch ==> NoCrowdedInstant(universe, window))
    case Thrown(IncompleteResults(w)) =>
      w in incompleteWindows && Within(w, window)
    case Thrown(StillTooDense(w, count)) =>
      TooDense(universe, w) && Within(w, window) && count == |Hits(universe, w)|
  }

  /** No single millisecond of the window holds more hits than one search may return. */
  ghost predicate NoCrowdedInstant(universe: seq<Commit>, window: Window) {
    forall t :: window.start <= t <= window.end ==> |Hits(universe, Window(t, t))| <= SEARCH_WINDOW_LIMIT
  }

  /** A finished small window is exact and has no crowded instant. */
  lemma LeafOutcome(universe: seq<Commit>, incompleteWindows: set<Window>, refreshSearch: bool, window: Window)
    requires |Hits(universe, window)| <= SEARCH_WINDOW_LIMIT
    ensures SearchOutcome(universe, incompleteWindows, refreshSearch, window,
                          Found(ShasIn(universe, window), |Hits(universe, window)|))
  {
    HitShas(universe, window);
    ShaCount(Hits(universe, window));
    forall t | window.start <= t <= window.end
      ensures |Hits(universe, Window(t, t))| <= SEARCH_WINDOW_LIMIT
    {
      NarrowerHits(universe, window, Window(t, t));
    }
  }

  /** Two finished halves make a finished window. */
  lemma SplitOutcome(universe: seq<Commit>, incompleteWindows: set<Window>, refreshSearch: bool, window: Window,
                     midpoint: int, left: SearchResult, right: SearchResult)
    requires window.start <= midpoint < window.end
    requires left.Found? && right.Found?
    requires SearchOutcome(universe, incompleteWindows, refreshSearch, Window(window.start, midpoint), left)
    requires SearchOutcome(universe, incompleteWindows, refreshSearch, Window(midpoint + 1, window.end), right)
    ensures var shas := left.shas + right.shas;
      SearchOutcome(universe, incompleteWindows, refreshSearch, window, Found(shas, |shas|))
  {
    SplitWindow(universe, window, midpoint);
  }

  lemma PagesTransitive(a: seq<int>, b: seq<int>, c: seq<int>)
    requires PagesAllowed(a, b) && PagesAllowed(b, c)
    ensures PagesAllowed(a, c)
  {
  }

  class GitHubClient {
    const universe: seq<Commit>
    // The windows for which GitHub reports that its answer timed out.
    const incompleteWindows: set<Window>
    var requestedPages: seq<int>

    constructor (universe: seq<Commit>, incompleteWindows: set<Window>)
      ensures this.universe == universe && this.incompleteWindows == incompleteWindows
      ensures requestedPages == []
    {
      this.universe := universe;
      this.incompleteWindows := incompleteWindows;
      requestedPages := [];
    }

    method SearchPage(window: Window, page: nat) returns (response: SearchResponse)
      requires page >= 1
      modifies this
      ensures requestedPages == old(requestedPages) + [page]
      ensures response == PageOf(universe, window, page, window in incompleteWindows)
    {
      requestedPages := requestedPages + [page];
      response := PageOf(universe, window, page, window in incompleteWindows);
    }
  }

  function Min(a: int, b: int): int { if a <= b then a else b }

  /** Page `page` (from one) of the hits, cut at a hundred items a page. */
  function PageOf(universe: seq<Commit>, window: Window, page: nat, incomplete: bool): SearchResponse
    requires page >= 1
  {
    var hits := Hits(universe, window);
    var from := Min((page - 1) * PER_PAGE, |hits|);
    SearchResponse(|hits|, hits[from..Min(page * PER_PAGE, |hits|)], incomplete)
  }

  ghost predicate PagesAllowed(before: seq<int>, after: seq<int>) {
    && before <= after
    && forall i :: |before| <= i < |after| ==> 1 <= after[i] <= 9
  }

  class SearchCache {
    var windows: map<Window, WindowEntry>
    var commits: map<Sha, Commit>

    constructor ()
      ensures windows == map[] && commits == map[]
    {
      windows, commits := map[], map[];
    }

    ghost predicate Exact(universe: seq<Commit>)
      reads this
    {
      ExactTables(universe, windows, commits)
    }

    /** Records the items of one page in the commit table and in the window's set. */
    method IngestSearchItems(items: seq<Commit>, shas: set<Sha>) returns (next: set<Sha>)
      modifies this`commits
      ensures next == shas + ShasOf(items)
      ensures Ingested(old(commits), items, commits)
    {
      next := shas;
      for i := 0 to |items|
        invariant next == shas + ShasOf(items[..i])
        invariant Ingested(old(commits), items[..i], commits)
      {
        assert ShasOf(items[..i + 1]) == ShasOf(items[..i]) + {items[i].sha} by {
          assert items[..i + 1] == items[..i] + [items[i]];
          assert forall c :: c in items[..i + 1] <==> c in items[..i] || c == items[i];
        }
        next := next + {items[i].sha};
        commits := commits[items[i].sha := items[i]];
      }
      assert items[..|items|] == items;
    }
  }

  /** Reads every page of a window that is small enough. */
  method CollectPages(client: GitHubClient, cache: SearchCache, window: Window, first: SearchResponse)
    returns (shas: set<Sha>)
    requires cache.Exact(client.universe)
    requires first == PageOf(client.universe, window, 1, first.incomplete)
    requires first.totalCount <= SEARCH_WINDOW_LIMIT
    modifies client, cache`commits
    ensures cache.Exact(client.universe)
    ensures shas == ShasIn(client.universe, window) && shas <= cache.commits.Keys
    ensures old(cache.commits).Keys <= cache.commits.Keys
    ensures PagesAllowed(old(client.requestedPages), client.requestedPages)
  {
    ghost var hits := Hits(client.universe, window);
    var pageCount := (first.totalCount + PER_PAGE - 1) / PER_PAGE;
    JoinShas(hits, 0, Min(PER_PAGE, |hits|));
    shas := cache.IngestSearchItems(first.items, {});
    IngestKeepsExact(client.universe, cache.windows, old(cache.commits), first.items, cache.commits);
    var page := 2;
    while page <= pageCount
      invariant 2 <= page && pageCount <= 9
      invariant cache.Exact(client.universe)
      invariant shas == ShasOf(hits[..Min((page - 1) * PER_PAGE, |hits|)])
      invariant shas <= cache.commits.Keys
      invariant old(cache.commits).Keys <= cache.commits.Keys
      invariant PagesAllowed(old(client.requestedPages), client.requestedPages)
    {
      var response := client.SearchPage(window, page);
      JoinShas(hits, Min((page - 1) * PER_PAGE, |hits|), Min(page * PER_PAGE, |hits|));
      ghost var before := cache.commits;
      shas := cache.IngestSearchItems(response.items, shas);
      IngestKeepsExact(client.universe, cache.windows, before, response.items, cache.commits);
      page := page + 1;
    }
    assert hits[..|hits|] == hits;
    HitShas(client.universe, window);
  }

  lemma JoinShas(commits: seq<Commit>, from: nat, to: nat)
    requires from <= to <= |commits|
    ensures ShasOf(commits[..to]) == ShasOf(commits[..from]) + ShasOf(commits[from..to])
    ensures forall c :: c in commits[from..to] ==> c in commits
  {
    assert commits[..to] == commits[..from] + commits[from..to];
    assert forall c :: c in commits[..to] <==> c in commits[..from] || c in commits[from..to];
  }

  /** The windows that are not asked for again: none when the search is to be refreshed. */
  function Known(refreshSearch: bool, windows: map<Window, WindowEntry>): set<Window> {
    if refreshSearch then {} else windows.Keys
  }

  /**
    The recursive search.  From any exact cache it terminates, and unless it
    throws it returns exactly the matching shas; the cache stays exact either way.
   */
  method SearchWindow(client: GitHubClient, cache: SearchCache, refreshSearch: bool, window: Window)
    returns (result: SearchResult)
    requires cache.Exact(client.universe)
    modifies client, cache
    decreases window.end - window.start
    ensures cache.Exact(client.universe)
    ensures old(cache.windows).Keys <= cache.windows.Keys && old(cache.commits).Keys <= cache.commits.Keys
    ensures SearchOutcome(client.universe, client.incompleteWindows, refreshSearch, window, result)
    ensures Searched(client.universe, client.incompleteWindows, Known(refreshSearch, old(cache.windows)), window,
                     old(cache.windows).Keys, cache.windows.Keys, result)
    ensures result.Found? ==>
      window in cache.windows && cache.windows[window] == WindowEntry(result.shas, result.totalCount)
    ensures !refreshSearch && window in old(cache.windows) ==>
      && result == Found(old(cache.windows)[window].shas, old(cache.windows)[window].totalCount)
      && client.requestedPages == old(client.requestedPages)
    ensures result.Found? && (refreshSearch || window !in old(cache.windows)) ==>
      result.totalCount == CountOf(client.universe, window)
    ensures PagesAllowed(old(client.requestedPages), client.requestedPages)
  {
    if !refreshSearch && window in cache.windows {
      var cached := cache.windows[window];
      return Found(cached.shas, cached.totalCount);
    }
    ghost var known := Known(refreshSearch, cache.windows);
    var first := client.SearchPage(window, 1);
    if first.incomplete {
      result := Thrown(IncompleteResults(window));
      AsksOnlyItself(client.universe, client.incompleteWindows, known, window, cache.windows.Keys, result);
      return;
    }
    if first.totalCount > SEARCH_WINDOW_LIMIT {
      var duration := window.end - window.start;
      if duration <= MIN_WINDOW_MS {
        result := Thrown(StillTooDense(window, first.totalCount));
        AsksOnlyItself(client.universe, client.incompleteWindows, known, window, cache.windows.Keys, result);
        return;
      }
      result := SearchHalves(client, cache, refreshSearch, window);
    } else {
      var shas := CollectPages(client, cache, window, first);
      LeafOutcome(client.universe, client.incompleteWindows, refreshSearch, window);
      result := Found(shas, first.totalCount);
      AsksOnlyItself(client.universe, client.incompleteWindows, known, window, cache.windows.Keys, result);
    }
    if result.Found? {
      var entry := WindowEntry(result.shas, result.totalCount);
      MemoKeepsExact(client.universe, cache.windows, cache.commits, window, entry);
      WindowMemoised(client.universe, client.incompleteWindows, known, window, old(cache.windows).Keys, cache.windows.Keys, result);
      cache.windows := cache.windows[window := entry];
    }
  }

  /** Searches both halves of a window and unites what they found; the first half that throws ends it. */
  method SearchHalves(client: GitHubClient, cache: SearchCache, refreshSearch: bool, window: Window)
    returns (result: SearchResult)
    requires cache.Exact(client.universe)
    requires Splits(client.universe, client.incompleteWindows, window)
    requires window !in Known(refreshSearch, cache.windows)
    modifies client, cache
    decreases window.end - window.start, 0
    ensures cache.Exact(client.universe)
    ensures old(cache.windows).Keys <= cache.windows.Keys && old(cache.commits).Keys <= cache.commits.Keys
    ensures SearchOutcome(client.universe, client.incompleteWindows, refreshSearch, window, result)
    ensures SearchedParts(client.universe, client.incompleteWindows, Known(refreshSearch, old(cache.windows)), window,
                          old(cache.windows).Keys, cache.windows.Keys, result)
    ensures result.Found? ==> result.shas <= cache.commits.Keys && result.totalCount == |ShasIn(client.universe, window)|
    ensures PagesAllowed(old(client.requestedPages), client.requestedPages)
  {
    var midpoint := window.start + (window.end - window.start) / 2;
    var leftHalf, rightHalf := Window(window.start, midpoint), Window(midpoint + 1, window.end);
    assert leftHalf == LeftHalf(window) && rightHalf == RightHalf(window);
    ghost var known, before := Known(refreshSearch, cache.windows), cache.windows.Keys;
    var left := SearchWindow(client, cache, refreshSearch, leftHalf);
    if left.Thrown? {
      LeftThrows(client.universe, client.incompleteWindows, known, window, before, cache.windows.Keys, left);
      return left;
    }
    assert cache.windows[leftHalf].shas == left.shas;
    ghost var afterLeft, knownRight, between := client.requestedPages, Known(refreshSearch, cache.windows), cache.windows.Keys;
    var right := SearchWindow(client, cache, refreshSearch, rightHalf);
    PagesTransitive(old(client.requestedPages), afterLeft, client.requestedPages);
    HalvesCombine(client.universe, client.incompleteWindows, known, window, before, between, knownRight, cache.windows.Keys, left, right);
    if right.Thrown? {
      return right;
    }
    SplitOutcome(client.universe, client.incompleteWindows, refreshSearch, window, midpoint, left, right);
    result := Found(left.shas + right.shas, |left.shas + right.shas|);
  }

  /**
    A whole run from a fresh cache: it agrees with the plain definition, and the
    total is the number of commits exactly when the window was split or no sha
    of it is indexed twice.
   */
  method SearchFromScratch(universe: seq<Commit>, incompleteWindows: set<Window>, refreshSearch: bool, window: Window)
    returns (result: SearchResult)
    ensures result.Found? ==> result.shas == ShasIn(universe, window) && result.totalCount == CountOf(universe, window)
    ensures result.Found? ==>
      (result.totalCount == |result.shas| <==>
        |Hits(universe, window)| > SEARCH_WINDOW_LIMIT || DistinctShas(Hits(universe, window)))
    ensures result.Found? && DistinctShas(universe) ==> result.totalCount == |Hits(universe, window)|
    ensures ThrowsAtFirstFailure(universe, incompleteWindows, {}, window, result)
    ensures result.Found? ==> window !in incompleteWindows
    ensures result.Thrown? && incompleteWindows == {} ==>
      exists w :: Within(w, window) && TooDense(universe, w)
  {
    var client := new GitHubClient(universe, incompleteWindows);
    var cache := new SearchCache();
    assert Known(refreshSearch, cache.windows) == {};
    result := SearchWindow(client, cache, refreshSearch, window);
    CountsCommitsIff(universe, window);
    if result.Found? && DistinctShas(universe) {
      ExactCount(universe, window, WindowEntry(result.shas, result.totalCount));
    }
  }

  /** A commit that is indexed in two repositories is found once and counted twice. */
  method SearchForked(sha: Sha, time: int, repository: string, fork: string, window: Window) returns (result: SearchResult)
    requires window.start <= time <= window.end && repository != fork
    ensures result == Found({sha}, 2)
  {
    var universe := [Commit(sha, time, repository), Commit(sha, time, fork)];
    assert universe[1..] == [Commit(sha, time, fork)] && universe[1..][1..] == [];
    result := SearchFromScratch(universe, {}, false, window);
    assert Hits(universe, window) == universe;
    assert ShasIn(universe, window) == {sha} by {
      assert universe[0].sha == sha;
    }
  }
}
