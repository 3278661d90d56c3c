/**
  The org chart builder of scripts/generate-company-assets.ts. It groups the
  agents by the manager they name and unfolds the groups from the top, with no
  record of what it has visited. It stops exactly when no slug that it reaches
  lies on a loop, which distinct slugs ensure; and then, with distinct slugs,
  the forest holds exactly the agents whose reporting chain ends, each once.
 */
module OrgForest {

  datatype Option<+T> = None | Some(value: T)

  datatype Agent = Agent(slug: string, name: string, role: string, reportsTo: Option<string>)

  datatype OrgNode = OrgNode(id: string, name: string, role: string, status: string, reports: seq<OrgNode>)

  const ROLE_LABELS := map[
    "ceo" := "Chief Executive", "cto" := "Technology", "cmo" := "Marketing", "cfo" := "Finance",
    "coo" := "Operations", "vp" := "VP", "manager" := "Manager", "engineer" := "Engineer", "agent" := "Agent"]

  function RoleLabel(role: string): string {
    if role in ROLE_LABELS then ROLE_LABELS[role] else role
  }

  /** A role without a label of its own is shown as it is. */
  lemma RoleShown(role: string)
    ensures role !in {"ceo", "cto", "cmo", "cfo", "coo", "vp", "manager", "engineer", "agent"} <==> role !in ROLE_LABELS
    ensures role !in ROLE_LABELS ==> RoleLabel(role) == role
    ensures RoleLabel("ceo") == "Chief Executive" && RoleLabel("vp") == "VP" && RoleLabel("agent") == "Agent"
  {
  }

  function NodeOf(agent: Agent, reports: seq<OrgNode>): OrgNode {
    OrgNode(agent.slug, agent.name, RoleLabel(agent.role), "active", reports)
  }

  function Slugs(agents: seq<Agent>): set<string> {
    set i | 0 <= i < |agents| :: agents[i].slug
  }

  ghost predicate Distinct(agents: seq<Agent>) {
    forall i, j :: 0 <= i < j < |agents| ==> agents[i].slug != agents[j].slug
  }

  function Filter(agents: seq<Agent>, keep: Agent -> bool): (kept: seq<Agent>)
    ensures forall a :: a in kept <==> a in agents && keep(a)
  {
    if agents == [] then []
    else
      var last := |agents| - 1;
      Filter(agents[..last], keep) + if keep(agents[last]) then [agents[last]] else []
  }

  /** The agents that name `parent` as manager, in manifest order. */
  function Members(agents: seq<Agent>, parent: Option<string>): seq<Agent> {
    Filter(agents, (a: Agent) => a.reportsTo == parent)
  }

  predicate IsStray(slugs: set<string>, agent: Agent) {
    agent.reportsTo.Some? && agent.reportsTo.value != "" && agent.reportsTo.value !in slugs
  }

  /** The agents that name a manager nobody is. */
  function Strays(agents: seq<Agent>, slugs: set<string>): seq<Agent> {
    Filter(agents, (a: Agent) => IsStray(slugs, a))
  }

  function Ids(agents: seq<Agent>): seq<string> {
    seq(|agents|, i requires 0 <= i < |agents| => agents[i].slug)
  }

  // ------------------------------------------------------- reporting chains

  /** The agent with this slug. */
  ghost function Find(agents: seq<Agent>, slug: string): (agent: Agent)
    requires slug in Slugs(agents)
    ensures agent in agents && agent.slug == slug
  {
    var i :| 0 <= i < |agents| && agents[i].slug == slug;
    agents[i]
  }

  lemma FindIs(agents: seq<Agent>, agent: Agent)
    requires Distinct(agents) && agent in agents
    ensures agent.slug in Slugs(agents) && Find(agents, agent.slug) == agent
  {
    var i :| 0 <= i < |agents| && agents[i] == agent;
    assert agents[i].slug in Slugs(agents);
  }

  ghost predicate HasManager(agents: seq<Agent>, agent: Agent) {
    agent.reportsTo.Some? && agent.reportsTo.value in Slugs(agents)
  }

  /** Placed at the top level: no manager, or one that is not in the manifest. */
  ghost predicate Top(agents: seq<Agent>, agent: Agent) {
    agent.reportsTo.None? || IsStray(Slugs(agents), agent)
  }

  /** Names the empty slug, which nobody has: neither a top agent nor anyone's report. */
  ghost predicate Blank(agents: seq<Agent>, agent: Agent) {
    agent.reportsTo == Some("") && "" !in Slugs(agents)
  }

  /** `n` steps up the chain of `slug` stands a top agent. */
  ghost predicate EndsIn(agents: seq<Agent>, slug: string, n: nat)
    requires slug in Slugs(agents)
    decreases n
  {
    var agent := Find(agents, slug);
    if HasManager(agents, agent) then n > 0 && EndsIn(agents, agent.reportsTo.value, n - 1)
    else n == 0 && Top(agents, agent)
  }

  ghost predicate Grounded(agents: seq<Agent>, slug: string) {
    slug in Slugs(agents) && exists n: nat :: EndsIn(agents, slug, n)
  }

  lemma {:induction false} EndsOnce(agents: seq<Agent>, slug: string, n: nat, m: nat)
    requires slug in Slugs(agents) && EndsIn(agents, slug, n) && EndsIn(agents, slug, m)
    ensures n == m
    decreases n
  {
    if HasManager(agents, Find(agents, slug)) {
      EndsOnce(agents, Find(agents, slug).reportsTo.value, n - 1, m - 1);
    }
  }

  ghost function Depth(agents: seq<Agent>, slug: string): (n: nat)
    requires Grounded(agents, slug)
    ensures EndsIn(agents, slug, n)
  {
    var n: nat :| EndsIn(agents, slug, n);
    n
  }

  ghost predicate EndsBy(agents: seq<Agent>, slug: string, n: nat) {
    slug in Slugs(agents) && exists d: nat :: d <= n && EndsIn(agents, slug, d)
  }

  /** The slugs on the chain of `slug`; their depths are all different. */
  lemma {:induction false} ChainOf(agents: seq<Agent>, slug: string, n: nat) returns (chain: set<string>)
    requires slug in Slugs(agents) && EndsIn(agents, slug, n)
    ensures |chain| == n + 1
    ensures forall s :: s in chain ==> EndsBy(agents, s, n)
    decreases n
  {
    if n == 0 {
      chain := {slug};
    } else {
      var above := ChainOf(agents, Find(agents, slug).reportsTo.value, n - 1);
      if slug in above {
        var d: nat :| d <= n - 1 && EndsIn(agents, slug, d);
        EndsOnce(agents, slug, n, d);
        assert false;
      }
      chain := above + {slug};
    }
    assert EndsBy(agents, slug, n);
  }

  lemma SubsetSize(small: set<string>, big: set<string>)
    requires small <= big
    ensures |small| <= |big|
  {
    assert big == small + (big - small);
  }

  lemma {:induction false} SlugCount(agents: seq<Agent>)
    ensures |Slugs(agents)| <= |agents|
  {
    if agents != [] {
      SlugCount(agents[1..]);
      assert Slugs(agents) <= Slugs(agents[1..]) + {agents[0].slug} by {
        forall i | 0 <= i < |agents| ensures agents[i].slug in Slugs(agents[1..]) + {agents[0].slug} {
          if i > 0 {
            assert agents[i] == agents[1..][i - 1];
          }
        }
      }
      SubsetSize(Slugs(agents), Slugs(agents[1..]) + {agents[0].slug});
    }
  }

  /** A reporting chain that ends is shorter than the manifest. */
  lemma DepthBound(agents: seq<Agent>, slug: string)
    requires Grounded(agents, slug)
    ensures Depth(agents, slug) < |agents|
  {
    var chain := ChainOf(agents, slug, Depth(agents, slug));
    SubsetSize(chain, Slugs(agents));
    SlugCount(agents);
  }

  /** An agent with a manager in the manifest is grounded exactly when that manager is, one step deeper. */
  lemma GroundedStep(agents: seq<Agent>, agent: Agent)
    requires Distinct(agents) && agent in agents && HasManager(agents, agent)
    ensures Grounded(agents, agent.slug) <==> Grounded(agents, agent.reportsTo.value)
    ensures Grounded(agents, agent.slug) ==> Depth(agents, agent.slug) == Depth(agents, agent.reportsTo.value) + 1
  {
    FindIs(agents, agent);
    if Grounded(agents, agent.reportsTo.value) {
      var d := Depth(agents, agent.reportsTo.value);
      assert EndsIn(agents, agent.slug, d + 1);
      EndsOnce(agents, agent.slug, d + 1, Depth(agents, agent.slug));
    }
    if Grounded(agents, agent.slug) {
      assert EndsIn(agents, agent.reportsTo.value, Depth(agents, agent.slug) - 1);
    }
  }

  lemma TopGrounded(agents: seq<Agent>, agent: Agent)
    requires Distinct(agents) && agent in agents && Top(agents, agent)
    ensures Grounded(agents, agent.slug)
  {
    FindIs(agents, agent);
    assert EndsIn(agents, agent.slug, 0);
  }

  lemma ReportsGrounded(agents: seq<Agent>, slug: string)
    requires Distinct(agents) && Grounded(agents, slug)
    ensures forall m :: m in Members(agents, Some(slug)) ==>
      Grounded(agents, m.slug) && Depth(agents, slug) < Depth(agents, m.slug) < |agents|
  {
    forall m | m in Members(agents, Some(slug))
      ensures Grounded(agents, m.slug) && Depth(agents, slug) < Depth(agents, m.slug) < |agents|
    {
      GroundedStep(agents, m);
      DepthBound(agents, m.slug);
    }
  }

  // ------------------------------------------------------------- the forest

  /** Top-level agents first, then those with an unknown manager. */
  function Roots(agents: seq<Agent>): seq<Agent> {
    Members(agents, None) + Strays(agents, Slugs(agents))
  }

  lemma RootsGrounded(agents: seq<Agent>)
    requires Distinct(agents)
    ensures forall m :: m in Roots(agents) ==> m in agents && Grounded(agents, m.slug)
  {
    forall m | m in Roots(agents)
      ensures m in agents && Grounded(agents, m.slug)
    {
      TopGrounded(agents, m);
    }
  }

  /** How many nodes of the forest, at any level, carry this id. */
  ghost function Count(forest: seq<OrgNode>, id: string): nat {
    if forest == [] then 0
    else (if forest[0].id == id then 1 else 0) + Count(forest[0].reports, id) + Count(forest[1..], id)
  }

  /** How many of the given ids are `id`. */
  ghost function CountIds(ids: seq<string>, id: string): nat {
    if ids == [] then 0
    else CountIds(ids[..|ids| - 1], id) + if ids[|ids| - 1] == id then 1 else 0
  }

  /** The forest shows these agents in order, and under each of them the agents naming it, in manifest order. */
  ghost predicate Unfolds(agents: seq<Agent>, members: seq<Agent>, forest: seq<OrgNode>)
    decreases forest
  {
    && |forest| == |members|
    && forall i :: 0 <= i < |forest| ==>
      && forest[i] == NodeOf(members[i], forest[i].reports)
      && Unfolds(agents, Members(agents, Some(members[i].slug)), forest[i].reports)
  }

  ghost predicate IsChart(agents: seq<Agent>, forest: seq<OrgNode>) {
    Unfolds(agents, Roots(agents), forest)
  }

  /** The equations have at most one finite solution, whatever the manifest. */
  lemma {:induction false} UnfoldsUnique(agents: seq<Agent>, members: seq<Agent>, a: seq<OrgNode>, b: seq<OrgNode>)
    requires Unfolds(agents, members, a) && Unfolds(agents, members, b)
    ensures a == b
    decreases a
  {
    forall i | 0 <= i < |a| ensures a[i] == b[i] {
      UnfoldsUnique(agents, Members(agents, Some(members[i].slug)), a[i].reports, b[i].reports);
    }
  }

  // ------------------------------------------------ when the unfolding stops

  /** `k` steps down from `upper` stands `lower`; a step goes to the slug of some agent naming the last. */
  ghost predicate Path(agents: seq<Agent>, upper: string, lower: string, k: nat)
    decreases k
  {
    if k == 0 then upper == lower
    else exists m :: m in agents && m.reportsTo == Some(upper) && Path(agents, m.slug, lower, k - 1)
  }

  ghost predicate Reaches(agents: seq<Agent>, upper: string, lower: string) {
    exists k: nat :: Path(agents, upper, lower, k)
  }

  ghost predicate IsBelow(agents: seq<Agent>, upper: string, lower: string) {
    exists k: nat :: k > 0 && Path(agents, upper, lower, k)
  }

  ghost predicate NoLoopFrom(agents: seq<Agent>, slug: string) {
    forall s :: Reaches(agents, slug, s) ==> !IsBelow(agents, s, s)
  }

  /** No slug that can be reached from a root lies on a loop. */
  ghost predicate LoopFree(agents: seq<Agent>) {
    forall m :: m in Roots(agents) ==> NoLoopFrom(agents, m.slug)
  }

  /** Below `parent` there are at most `n` levels. */
  ghost predicate Fits(agents: seq<Agent>, parent: Option<string>, n: nat)
    decreases n
  {
    forall m :: m in agents && m.reportsTo == parent ==> n > 0 && Fits(agents, Some(m.slug), n - 1)
  }

  lemma {:induction false} PathsJoin(agents: seq<Agent>, a: string, b: string, c: string, j: nat, k: nat)
    requires Path(agents, a, b, j) && Path(agents, b, c, k)
    ensures Path(agents, a, c, j + k)
    decreases j
  {
    if j > 0 {
      var m :| m in agents && m.reportsTo == Some(a) && Path(agents, m.slug, b, j - 1);
      PathsJoin(agents, m.slug, b, c, j - 1, k);
    }
  }

  lemma {:induction false} FitsMore(agents: seq<Agent>, parent: Option<string>, n: nat, more: nat)
    requires Fits(agents, parent, n) && n <= more
    ensures Fits(agents, parent, more)
    decreases n
  {
    forall m | m in agents && m.reportsTo == parent ensures more > 0 && Fits(agents, Some(m.slug), more - 1) {
      FitsMore(agents, Some(m.slug), n - 1, more - 1);
    }
  }

  lemma {:induction false} FitsAlong(agents: seq<Agent>, upper: string, lower: string, n: nat, k: nat)
    requires Fits(agents, Some(upper), n) && Path(agents, upper, lower, k)
    ensures k <= n && Fits(agents, Some(lower), n - k)
    decreases k
  {
    if k > 0 {
      var m :| m in agents && m.reportsTo == Some(upper) && Path(agents, m.slug, lower, k - 1);
      FitsAlong(agents, m.slug, lower, n - 1, k - 1);
    }
  }

  lemma {:induction false} NothingFitsALoop(agents: seq<Agent>, slug: string, n: nat, k: nat)
    requires k > 0 && Path(agents, slug, slug, k)
    ensures !Fits(agents, Some(slug), n)
    decreases n
  {
    if Fits(agents, Some(slug), n) {
      FitsAlong(agents, slug, slug, n, k);
      NothingFitsALoop(agents, slug, n - k, k);
    }
  }

  lemma FittingIsLoopFree(agents: seq<Agent>, slug: string, n: nat)
    requires Fits(agents, Some(slug), n)
    ensures NoLoopFrom(agents, slug)
  {
    forall s | Reaches(agents, slug, s) ensures !IsBelow(agents, s, s) {
      var j: nat :| Path(agents, slug, s, j);
      FitsAlong(agents, slug, s, n, j);
      if k: nat :| k > 0 && Path(agents, s, s, k) {
        NothingFitsALoop(agents, s, n - j, k);
      }
    }
  }

  lemma StepDown(agents: seq<Agent>, upper: string, m: Agent)
    requires m in agents && m.reportsTo == Some(upper)
    ensures IsBelow(agents, upper, m.slug)
    ensures forall t :: IsBelow(agents, t, upper) ==> IsBelow(agents, t, m.slug)
    ensures NoLoopFrom(agents, upper) ==> NoLoopFrom(agents, m.slug)
  {
    assert Path(agents, m.slug, m.slug, 0);
    assert Path(agents, upper, m.slug, 1);
    forall t | IsBelow(agents, t, upper) ensures IsBelow(agents, t, m.slug) {
      var k: nat :| k > 0 && Path(agents, t, upper, k);
      PathsJoin(agents, t, upper, m.slug, k, 1);
    }
    forall s | Reaches(agents, m.slug, s) ensures Reaches(agents, upper, s) {
      var k: nat :| Path(agents, m.slug, s, k);
      PathsJoin(agents, upper, m.slug, s, 1, k);
    }
  }

  /** The slugs passed on the way down to a slug from which no loop can be reached. */
  ghost predicate OnTrail(agents: seq<Agent>, slug: string, trail: set<string>) {
    && slug in Slugs(agents) && trail <= Slugs(agents) && NoLoopFrom(agents, slug)
    && forall t :: t in trail ==> IsBelow(agents, t, slug)
  }

  lemma NotOnOwnTrail(agents: seq<Agent>, slug: string, trail: set<string>)
    requires OnTrail(agents, slug, trail)
    ensures slug in Slugs(agents) - trail
  {
    assert Path(agents, slug, slug, 0);
    assert Reaches(agents, slug, slug);
  }

  lemma TrailGrows(agents: seq<Agent>, slug: string, trail: set<string>, m: Agent)
    requires OnTrail(agents, slug, trail) && m in agents && m.reportsTo == Some(slug)
    ensures OnTrail(agents, m.slug, trail + {slug})
  {
    StepDown(agents, slug, m);
    assert m.slug in Slugs(agents);
  }

  lemma LeavesOneFewer(all: set<string>, trail: set<string>, slug: string)
    requires slug in all - trail
    ensures |all - (trail + {slug})| == |all - trail| - 1
  {
    assert all - (trail + {slug}) == (all - trail) - {slug};
  }

  /** Without a loop each step down leaves one slug behind for good, so there are no more levels than slugs. */
  lemma {:induction false} LoopFreeFits(agents: seq<Agent>, slug: string, trail: set<string>)
    requires OnTrail(agents, slug, trail)
    ensures Fits(agents, Some(slug), |Slugs(agents) - trail|)
    decreases |Slugs(agents) - trail|
  {
    NotOnOwnTrail(agents, slug, trail);
    LeavesOneFewer(Slugs(agents), trail, slug);
    var levels := |Slugs(agents) - trail|;
    forall m | m in agents && m.reportsTo == Some(slug) ensures Fits(agents, Some(m.slug), levels - 1) {
      TrailGrows(agents, slug, trail, m);
      LoopFreeFits(agents, m.slug, trail + {slug});
    }
  }

  ghost function Height(forest: seq<OrgNode>): nat {
    if forest == [] then 0
    else
      var first, rest := Height(forest[0].reports) + 1, Height(forest[1..]);
      if first >= rest then first else rest
  }

  ghost predicate AllFit(agents: seq<Agent>, members: seq<Agent>, n: nat) {
    forall m :: m in members ==> n > 0 && Fits(agents, Some(m.slug), n - 1)
  }

  lemma MembersFit(agents: seq<Agent>, slug: string, n: nat)
    requires AllFit(agents, Members(agents, Some(slug)), n)
    ensures Fits(agents, Some(slug), n)
  {
    forall m | m in agents && m.reportsTo == Some(slug) ensures n > 0 && Fits(agents, Some(m.slug), n - 1) {
      assert m in Members(agents, Some(slug));
    }
  }

  lemma AllFitOneMore(agents: seq<Agent>, members: seq<Agent>, first: nat, rest: nat, n: nat)
    requires members != [] && first < n && rest <= n
    requires Fits(agents, Some(members[0].slug), first) && AllFit(agents, members[1..], rest)
    ensures AllFit(agents, members, n)
  {
    FitsMore(agents, Some(members[0].slug), first, n - 1);
    forall m | m in members ensures Fits(agents, Some(m.slug), n - 1) {
      if m != members[0] {
        assert m in members[1..];
        FitsMore(agents, Some(m.slug), rest - 1, n - 1);
      }
    }
  }

  /** A finite forest fits, level by level. */
  lemma {:induction false} UnfoldedFits(agents: seq<Agent>, members: seq<Agent>, forest: seq<OrgNode>)
    requires Unfolds(agents, members, forest)
    ensures AllFit(agents, members, Height(forest))
    decreases forest
  {
    if forest != [] {
      var first, reports := members[0].slug, forest[0].reports;
      UnfoldedFits(agents, Members(agents, Some(first)), reports);
      MembersFit(agents, first, Height(reports));
      UnfoldedFits(agents, members[1..], forest[1..]);
      AllFitOneMore(agents, members, Height(reports), Height(forest[1..]), Height(forest));
    }
  }

  lemma UnfoldsSnoc(agents: seq<Agent>, members: seq<Agent>, forest: seq<OrgNode>, last: Agent, reports: seq<OrgNode>)
    requires Unfolds(agents, members, forest) && Unfolds(agents, Members(agents, Some(last.slug)), reports)
    ensures Unfolds(agents, members + [last], forest + [NodeOf(last, reports)])
  {
  }

  /** And what fits has a finite forest. */
  lemma {:induction false} FittingUnfolds(agents: seq<Agent>, members: seq<Agent>, n: nat) returns (forest: seq<OrgNode>)
    requires AllFit(agents, members, n)
    ensures Unfolds(agents, members, forest)
    decreases n, |members|
  {
    if members == [] {
      forest := [];
    } else {
      var front, last := members[..|members| - 1], members[|members| - 1];
      assert forall m :: m in front ==> m in members;
      var rest := FittingUnfolds(agents, front, n);
      assert last in members;
      var reports := FittingUnfolds(agents, Members(agents, Some(last.slug)), n - 1);
      UnfoldsSnoc(agents, front, rest, last, reports);
      assert members == front + [last];
      forest := rest + [NodeOf(last, reports)];
    }
  }

  lemma RootFits(agents: seq<Agent>, root: Agent)
    requires LoopFree(agents) && root in Roots(agents)
    ensures Fits(agents, Some(root.slug), |Slugs(agents)|)
  {
    assert root.slug in Slugs(agents);
    LoopFreeFits(agents, root.slug, {});
    assert Slugs(agents) - {} == Slugs(agents);
  }

  lemma FittingRootIsLoopFree(agents: seq<Agent>, root: Agent, n: nat)
    requires AllFit(agents, Roots(agents), n) && root in Roots(agents)
    ensures NoLoopFrom(agents, root.slug)
  {
    FittingIsLoopFree(agents, root.slug, n - 1);
  }

  lemma ChartIsLoopFree(agents: seq<Agent>, forest: seq<OrgNode>)
    requires IsChart(agents, forest)
    ensures LoopFree(agents)
  {
    UnfoldedFits(agents, Roots(agents), forest);
    forall m | m in Roots(agents) ensures NoLoopFrom(agents, m.slug) {
      FittingRootIsLoopFree(agents, m, Height(forest));
    }
  }

  lemma LoopFreeHasChart(agents: seq<Agent>) returns (forest: seq<OrgNode>)
    requires LoopFree(agents)
    ensures IsChart(agents, forest)
  {
    forall m | m in Roots(agents) ensures Fits(agents, Some(m.slug), |Slugs(agents)|) {
      RootFits(agents, m);
    }
    forest := FittingUnfolds(agents, Roots(agents), |Slugs(agents)| + 1);
  }

  /** Whatever the manifest, a finite chart exists if and only if no slug reached from a root lies on a loop. */
  lemma ChartExistsIff(agents: seq<Agent>)
    ensures (exists forest :: IsChart(agents, forest)) <==> LoopFree(agents)
  {
    if forest :| IsChart(agents, forest) {
      ChartIsLoopFree(agents, forest);
    }
    if LoopFree(agents) {
      var forest := LoopFreeHasChart(agents);
    }
  }

  lemma {:induction false} GroundedFits(agents: seq<Agent>, slug: string)
    requires Distinct(agents) && Grounded(agents, slug)
    ensures Depth(agents, slug) < |agents| && Fits(agents, Some(slug), |agents| - Depth(agents, slug))
    decreases |agents| - Depth(agents, slug)
  {
    DepthBound(agents, slug);
    ReportsGrounded(agents, slug);
    var n := |agents| - Depth(agents, slug);
    forall m | m in agents && m.reportsTo == Some(slug) ensures n > 0 && Fits(agents, Some(m.slug), n - 1) {
      assert m in Members(agents, Some(slug));
      GroundedFits(agents, m.slug);
      FitsMore(agents, Some(m.slug), |agents| - Depth(agents, m.slug), n - 1);
    }
  }

  /** Distinct slugs are enough: a loop cannot be reached from a root. */
  lemma DistinctIsLoopFree(agents: seq<Agent>)
    requires Distinct(agents)
    ensures LoopFree(agents)
  {
    RootsGrounded(agents);
    forall m | m in Roots(agents) ensures NoLoopFrom(agents, m.slug) {
      GroundedFits(agents, m.slug);
      FittingIsLoopFree(agents, m.slug, |agents| - Depth(agents, m.slug));
    }
  }

  /** A top agent that shares its slug with a self-report has no finite chart. */
  lemma SharedSlugHasNoChart(agents: seq<Agent>, top: Agent, self: Agent, forest: seq<OrgNode>)
    requires top in agents && top.reportsTo == None
    requires self in agents && self.slug == top.slug && self.reportsTo == Some(self.slug)
    ensures !IsChart(agents, forest)
  {
    assert top in Roots(agents);
    assert Path(agents, top.slug, top.slug, 0);
    StepDown(agents, top.slug, self);
    if IsChart(agents, forest) {
      ChartIsLoopFree(agents, forest);
    }
  }

  /** Sharing a slug does no harm by itself. */
  lemma SharedSlugMayHaveChart(top: Agent)
    requires top.reportsTo == None
    ensures !Distinct([top, top]) && LoopFree([top, top])
  {
    var agents := [top, top];
    assert agents[0].slug == agents[1].slug;
    forall m | m in Roots(agents) ensures NoLoopFrom(agents, m.slug) {
      assert Fits(agents, Some(m.slug), 0);
      FittingIsLoopFree(agents, m.slug, 0);
    }
  }

  // ------------------------------------------------------------ who is in it

  lemma FilterStep(agents: seq<Agent>, keep: Agent -> bool, id: string, last: nat)
    requires last + 1 == |agents|
    ensures CountIds(Ids(Filter(agents, keep)), id) == CountIds(Ids(Filter(agents[..last], keep)), id)
      + if keep(agents[last]) && agents[last].slug == id then 1 else 0
  {
    var front := Filter(agents[..last], keep);
    var kept := Filter(agents, keep);
    if keep(agents[last]) {
      assert kept == front + [agents[last]];
      assert Ids(kept)[..|front|] == Ids(front) && Ids(kept)[|front|] == agents[last].slug;
    } else {
      assert kept == front;
    }
  }

  lemma {:induction false} CountIdsAbsent(agents: seq<Agent>, keep: Agent -> bool, id: string)
    requires forall a :: a in agents ==> a.slug != id
    ensures CountIds(Ids(Filter(agents, keep)), id) == 0
  {
    if agents != [] {
      var last := |agents| - 1;
      CountIdsAbsent(agents[..last], keep, id);
      FilterStep(agents, keep, id, last);
    }
  }

  /** A filter keeps an agent of the manifest once or not at all. */
  lemma {:induction false} CountIdsOfFilter(agents: seq<Agent>, keep: Agent -> bool, agent: Agent)
    requires Distinct(agents) && agent in agents
    ensures CountIds(Ids(Filter(agents, keep)), agent.slug) == if keep(agent) then 1 else 0
  {
    var last := |agents| - 1;
    FilterStep(agents, keep, agent.slug, last);
    if agents[last] == agent {
      CountIdsAbsent(agents[..last], keep, agent.slug);
    } else {
      CountIdsOfFilter(agents[..last], keep, agent);
    }
  }

  lemma {:induction false} CountIdsAdds(a: seq<string>, b: seq<string>, id: string)
    ensures CountIds(a + b, id) == CountIds(a, id) + CountIds(b, id)
    decreases |b|
  {
    if b == [] {
      assert a + b == a;
    } else {
      CountIdsAdds(a, b[..|b| - 1], id);
      assert (a + b)[..|a + b| - 1] == a + b[..|b| - 1];
    }
  }

  lemma OneFewer(agents: seq<Agent>, members: seq<Agent>, forest: seq<OrgNode>, id: string)
    requires forest != [] && Unfolds(agents, members, forest)
    ensures Unfolds(agents, members[1..], forest[1..])
    ensures CountIds(Ids(members), id) == (if members[0].slug == id then 1 else 0) + CountIds(Ids(members[1..]), id)
  {
    assert Ids(members) == [members[0].slug] + Ids(members[1..]);
    CountIdsAdds([members[0].slug], Ids(members[1..]), id);
    assert [members[0].slug][..0] == [];
  }

  /** Nothing but the manifest's slugs occurs in the chart. */
  lemma {:induction false} OnlyAgentsOccur(agents: seq<Agent>, members: seq<Agent>, forest: seq<OrgNode>, id: string)
    requires Unfolds(agents, members, forest) && (forall m :: m in members ==> m in agents) && id !in Slugs(agents)
    ensures Count(forest, id) == 0
    decreases forest
  {
    if forest != [] {
      assert members[0] in agents && members[0].slug in Slugs(agents);
      OneFewer(agents, members, forest, id);
      OnlyAgentsOccur(agents, Members(agents, Some(members[0].slug)), forest[0].reports, id);
      OnlyAgentsOccur(agents, members[1..], forest[1..], id);
    }
  }

  /** An agent occurs at the top of a forest, or below an occurrence of its manager, once for each. */
  lemma {:induction false} OccursBelowManager(agents: seq<Agent>, members: seq<Agent>, forest: seq<OrgNode>, agent: Agent)
    requires Distinct(agents) && agent in agents && Unfolds(agents, members, forest)
    ensures Count(forest, agent.slug) == CountIds(Ids(members), agent.slug)
      + if agent.reportsTo.Some? then Count(forest, agent.reportsTo.value) else 0
    decreases forest
  {
    if forest != [] {
      var parent := Some(members[0].slug);
      OneFewer(agents, members, forest, agent.slug);
      OccursBelowManager(agents, Members(agents, parent), forest[0].reports, agent);
      OccursBelowManager(agents, members[1..], forest[1..], agent);
      MembersOnce(agents, parent, agent);
    }
  }

  lemma MembersOnce(agents: seq<Agent>, parent: Option<string>, agent: Agent)
    requires Distinct(agents) && agent in agents
    ensures CountIds(Ids(Members(agents, parent)), agent.slug) == if agent.reportsTo == parent then 1 else 0
  {
    CountIdsOfFilter(agents, (a: Agent) => a.reportsTo == parent, agent);
  }

  /** At the top of the chart stands each top agent, once, and nobody else. */
  lemma TopCount(agents: seq<Agent>, agent: Agent)
    requires Distinct(agents) && agent in agents
    ensures CountIds(Ids(Roots(agents)), agent.slug) ==
      if Top(agents, agent) then 1 else 0
  {
    var slugs := Slugs(agents);
    var members := Members(agents, None);
    var strays := Strays(agents, slugs);
    MembersOnce(agents, None, agent);
    CountIdsOfFilter(agents, (a: Agent) => IsStray(slugs, a), agent);
    assert Ids(members + strays) == Ids(members) + Ids(strays);
    CountIdsAdds(Ids(members), Ids(strays), agent.slug);
  }

  /** An agent whose chain ends is in the chart exactly once. */
  lemma {:induction false} GroundedOnce(agents: seq<Agent>, forest: seq<OrgNode>, slug: string)
    requires Distinct(agents) && IsChart(agents, forest) && Grounded(agents, slug)
    ensures Count(forest, slug) == 1
    decreases Depth(agents, slug)
  {
    var agent := Find(agents, slug);
    OccursBelowManager(agents, Roots(agents), forest, agent);
    TopCount(agents, agent);
    if HasManager(agents, agent) {
      GroundedStep(agents, agent);
      GroundedOnce(agents, forest, agent.reportsTo.value);
    } else if agent.reportsTo.Some? {
      OnlyAgentsOccur(agents, Roots(agents), forest, agent.reportsTo.value);
    }
  }

  /** Below grounded agents everyone is grounded. */
  lemma {:induction false} OnlyGroundedOccur(agents: seq<Agent>, members: seq<Agent>, forest: seq<OrgNode>, slug: string)
    requires Distinct(agents) && Unfolds(agents, members, forest)
    requires forall m :: m in members ==> Grounded(agents, m.slug)
    requires !Grounded(agents, slug)
    ensures Count(forest, slug) == 0
    decreases forest
  {
    if forest != [] {
      assert members[0] in members;
      ReportsGrounded(agents, members[0].slug);
      OneFewer(agents, members, forest, slug);
      OnlyGroundedOccur(agents, Members(agents, Some(members[0].slug)), forest[0].reports, slug);
      OnlyGroundedOccur(agents, members[1..], forest[1..], slug);
    }
  }

  /** Whoever has a chain that ends is in the chart once; nobody else is in it. */
  lemma ChartHoldsExactlyTheGrounded(agents: seq<Agent>, forest: seq<OrgNode>, slug: string)
    requires Distinct(agents) && IsChart(agents, forest)
    ensures Count(forest, slug) == if Grounded(agents, slug) then 1 else 0
  {
    if Grounded(agents, slug) {
      GroundedOnce(agents, forest, slug);
    } else {
      RootsGrounded(agents);
      OnlyGroundedOccur(agents, Roots(agents), forest, slug);
    }
  }

  // --------------------------------------------------------------- building

  type Groups = map<Option<string>, seq<Agent>>

  function At(childrenOf: Groups, parent: Option<string>): seq<Agent> {
    if parent in childrenOf then childrenOf[parent] else []
  }

  ghost predicate Grouped(agents: seq<Agent>, childrenOf: Groups) {
    forall parent :: At(childrenOf, parent) == Members(agents, parent)
  }

  lemma FilterSnoc(agents: seq<Agent>, keep: Agent -> bool, last: Agent)
    ensures Filter(agents + [last], keep) == Filter(agents, keep) + if keep(last) then [last] else []
  {
    assert (agents + [last])[..|agents|] == agents;
  }

  lemma GroupedNext(agents: seq<Agent>, i: nat, childrenOf: Groups)
    requires i < |agents| && Grouped(agents[..i], childrenOf)
    ensures Grouped(agents[..i + 1], childrenOf[agents[i].reportsTo := At(childrenOf, agents[i].reportsTo) + [agents[i]]])
  {
    GroupedSnoc(agents[..i], childrenOf, agents[i]);
    assert agents[..i + 1] == agents[..i] + [agents[i]];
  }

  lemma GroupedSnoc(agents: seq<Agent>, childrenOf: Groups, a: Agent)
    requires Grouped(agents, childrenOf)
    ensures Grouped(agents + [a], childrenOf[a.reportsTo := At(childrenOf, a.reportsTo) + [a]])
  {
    var after := childrenOf[a.reportsTo := At(childrenOf, a.reportsTo) + [a]];
    forall parent ensures At(after, parent) == Members(agents + [a], parent) {
      FilterSnoc(agents, (b: Agent) => b.reportsTo == parent, a);
      assert At(childrenOf, parent) == Members(agents, parent);
    }
  }

  method GroupByManager(agents: seq<Agent>) returns (childrenOf: Groups)
    ensures Grouped(agents, childrenOf)
  {
    childrenOf := map[];
    for i := 0 to |agents|
      invariant Grouped(agents[..i], childrenOf)
    {
      var a := agents[i];
      GroupedNext(agents, i, childrenOf);
      childrenOf := childrenOf[a.reportsTo := At(childrenOf, a.reportsTo) + [a]];
    }
    assert agents[..|agents|] == agents;
  }

  lemma MemberFits(agents: seq<Agent>, childrenOf: Groups, parent: Option<string>, levels: nat, i: nat)
    requires Grouped(agents, childrenOf) && Fits(agents, parent, levels) && i < |At(childrenOf, parent)|
    ensures levels > 0 && Fits(agents, Some(At(childrenOf, parent)[i].slug), levels - 1)
  {
    assert At(childrenOf, parent)[i] in Members(agents, parent);
  }

  lemma UnfoldsNext(agents: seq<Agent>, members: seq<Agent>, i: nat, nodes: seq<OrgNode>, reports: seq<OrgNode>)
    requires i < |members| && Unfolds(agents, members[..i], nodes)
    requires Unfolds(agents, Members(agents, Some(members[i].slug)), reports)
    ensures Unfolds(agents, members[..i + 1], nodes + [NodeOf(members[i], reports)])
  {
    UnfoldsSnoc(agents, members[..i], nodes, members[i], reports);
    assert members[..i + 1] == members[..i] + [members[i]];
  }

  /** Unfolds the agents that report to `parent`; it stops because every step leaves fewer levels below. */
  method Build(agents: seq<Agent>, childrenOf: Groups, parent: Option<string>, ghost levels: nat) returns (nodes: seq<OrgNode>)
    requires Grouped(agents, childrenOf) && Fits(agents, parent, levels)
    ensures Unfolds(agents, Members(agents, parent), nodes)
    decreases levels
  {
    var members := At(childrenOf, parent);
    nodes := [];
    for i := 0 to |members|
      invariant Unfolds(agents, members[..i], nodes)
    {
      var m := members[i];
      MemberFits(agents, childrenOf, parent, levels, i);
      var reports := Build(agents, childrenOf, Some(m.slug), levels - 1);
      UnfoldsNext(agents, members, i, nodes, reports);
      nodes := nodes + [NodeOf(m, reports)];
    }
    assert members[..|members|] == members;
  }

  lemma {:induction false} StrayFits(agents: seq<Agent>, i: nat)
    requires LoopFree(agents) && i < |agents| && IsStray(Slugs(agents), agents[i])
    ensures Fits(agents, Some(agents[i].slug), |Slugs(agents)|)
  {
    assert agents[i] in Strays(agents, Slugs(agents));
    RootFits(agents, agents[i]);
  }

  lemma TopFits(agents: seq<Agent>)
    requires LoopFree(agents)
    ensures Fits(agents, None, |Slugs(agents)| + 1)
  {
    forall m | m in agents && m.reportsTo == None ensures Fits(agents, Some(m.slug), |Slugs(agents)|) {
      assert m in Roots(agents);
      RootFits(agents, m);
    }
  }

  lemma StraysNext(top: seq<Agent>, agents: seq<Agent>, i: nat, slugs: set<string>)
    requires i < |agents|
    ensures top + Strays(agents[..i + 1], slugs) ==
      top + Strays(agents[..i], slugs) + if IsStray(slugs, agents[i]) then [agents[i]] else []
  {
    assert agents[..i + 1] == agents[..i] + [agents[i]];
    FilterSnoc(agents[..i], (a: Agent) => IsStray(slugs, a), agents[i]);
  }

  /** Builds the chart; the condition is the one under which there is one to build. */
  method BuildOrgTree(agents: seq<Agent>) returns (tree: seq<OrgNode>)
    requires LoopFree(agents)
    ensures IsChart(agents, tree)
  {
    var slugs := Slugs(agents);
    var childrenOf := GroupByManager(agents);
    ghost var levels := |slugs|;
    TopFits(agents);
    tree := Build(agents, childrenOf, None, levels + 1);
    ghost var top := Members(agents, None);
    for i := 0 to |agents|
      invariant Unfolds(agents, top + Strays(agents[..i], slugs), tree)
    {
      var root := agents[i];
      StraysNext(top, agents, i, slugs);
      if IsStray(slugs, root) {
        StrayFits(agents, i);
        var reports := Build(agents, childrenOf, Some(root.slug), levels);
        UnfoldsSnoc(agents, top + Strays(agents[..i], slugs), tree, root, reports);
        tree := tree + [NodeOf(root, reports)];
      }
    }
    assert agents[..|agents|] == agents;
  }

  // ------------------------------------------------- who is left out, and why

  /** The slug `k` steps up the chain. */
  ghost function Climb(agents: seq<Agent>, slug: string, k: nat): Option<string>
    decreases k
  {
    if k == 0 then Some(slug)
    else if slug in Slugs(agents) && HasManager(agents, Find(agents, slug)) then
      Climb(agents, Find(agents, slug).reportsTo.value, k - 1)
    else None
  }

  ghost predicate Above(agents: seq<Agent>, slug: string, upper: string) {
    exists k: nat :: k > 0 && Climb(agents, slug, k) == Some(upper)
  }

  /** The slug is its own manager's manager's ... manager. */
  ghost predicate OnCycle(agents: seq<Agent>, slug: string) {
    Above(agents, slug, slug)
  }

  /** The chain of `slug` passes through `upper`, where it cannot end. */
  ghost predicate StuckAt(agents: seq<Agent>, slug: string, upper: string) {
    && upper in Slugs(agents)
    && (upper == slug || Above(agents, slug, upper))
    && (OnCycle(agents, upper) || Blank(agents, Find(agents, upper)))
  }

  lemma {:induction false} ClimbEnds(agents: seq<Agent>, slug: string, k: nat, n: nat)
    requires slug in Slugs(agents) && EndsIn(agents, slug, n) && Climb(agents, slug, k).Some?
    ensures k <= n
    ensures Climb(agents, slug, k).value in Slugs(agents) && EndsIn(agents, Climb(agents, slug, k).value, n - k)
    decreases k
  {
    if k > 0 {
      ClimbEnds(agents, Find(agents, slug).reportsTo.value, k - 1, n - 1);
    }
  }

  lemma {:induction false} ClimbOneMore(agents: seq<Agent>, slug: string, k: nat, upper: string)
    requires Climb(agents, slug, k) == Some(upper) && upper in Slugs(agents) && HasManager(agents, Find(agents, upper))
    ensures Climb(agents, slug, k + 1) == Some(Find(agents, upper).reportsTo.value)
    decreases k
  {
    if k > 0 {
      ClimbOneMore(agents, Find(agents, slug).reportsTo.value, k - 1, upper);
    }
  }

  lemma StuckNotGrounded(agents: seq<Agent>, slug: string, upper: string)
    requires StuckAt(agents, slug, upper)
    ensures !Grounded(agents, slug)
  {
    var k: nat :| Climb(agents, slug, k) == Some(upper);
    forall n: nat | slug in Slugs(agents) ensures !EndsIn(agents, slug, n) {
      if EndsIn(agents, slug, n) {
        ClimbEnds(agents, slug, k, n);
        if OnCycle(agents, upper) {
          var c: nat :| c > 0 && Climb(agents, upper, c) == Some(upper);
          ClimbEnds(agents, upper, c, n - k);
          EndsOnce(agents, upper, n - k, n - k - c);
        }
      }
    }
  }

  /** Climbing from `at`, with `trail` all below it, the chain either ends or is stuck. */
  lemma {:induction false} ClimbToCause(agents: seq<Agent>, slug: string, at: string, trail: set<string>) returns (upper: string)
    requires Distinct(agents) && at in Slugs(agents) && !Grounded(agents, at)
    requires trail <= Slugs(agents) && (at == slug || Above(agents, slug, at))
    requires forall t :: t in trail ==> Above(agents, t, at)
    ensures StuckAt(agents, slug, upper)
    decreases Slugs(agents) - trail
  {
    var agent := Find(agents, at);
    if at in trail {
      upper := at;
    } else if HasManager(agents, agent) {
      var next := agent.reportsTo.value;
      GroundedStep(agents, agent);
      forall t | t in trail + {at, slug} && (t == at || Above(agents, t, at)) ensures Above(agents, t, next) {
        var k: nat :| Climb(agents, t, k) == Some(at);
        ClimbOneMore(agents, t, k, at);
      }
      upper := ClimbToCause(agents, slug, next, trail + {at});
    } else {
      assert !Top(agents, agent) by {
        if Top(agents, agent) {
          TopGrounded(agents, agent);
        }
      }
      upper := at;
    }
  }

  /** An agent is missing exactly when its chain runs into a cycle, or into one naming the empty slug that nobody has. */
  lemma MissingIff(agents: seq<Agent>, forest: seq<OrgNode>, slug: string)
    requires Distinct(agents) && IsChart(agents, forest) && slug in Slugs(agents)
    ensures Count(forest, slug) == 0 <==> exists upper :: StuckAt(agents, slug, upper)
  {
    ChartHoldsExactlyTheGrounded(agents, forest, slug);
    if Grounded(agents, slug) {
      if upper :| StuckAt(agents, slug, upper) {
        StuckNotGrounded(agents, slug, upper);
      }
    } else {
      var upper := ClimbToCause(agents, slug, slug, {});
    }
  }
}
