/**
  Worktree port allocation and repair, server/src/worktree-config.ts.

  Worktrees that share a home directory each run the repair step under the
  registry lock, in any order and any number of times, while further config
  files appear.  A path is a list of segments in normal form.
 */
module WorktreePorts {

  type Path = seq<string>

  datatype Option<+T> = None | Some(value: T)

  /** A port is whatever number the file holds. */
  datatype Config = Config(
    embedded: bool,
    serverPort: real,
    databasePort: real,
    dataDir: Path,
    backupEnabled: bool,
    backupDir: Path,
    logDir: Path,
    storageDir: Path,
    keyFile: Path)

  /** A config file on disk: readable, or not JSON. */
  datatype File = Readable(config: Config) | Malformed

  datatype Context = Context(configPath: Path, instanceRoot: Path)

  // -------------------------------------------------------------- allocation

  function Max(a: int, b: int): int { if a >= b then a else b }

  ghost function AtLeast(claimed: set<int>, port: int): set<int> {
    set p | p in claimed && p >= port
  }

  lemma FewerAbove(claimed: set<int>, port: int)
    requires port in claimed
    ensures AtLeast(claimed, port + 1) < AtLeast(claimed, port)
  {
    assert port in AtLeast(claimed, port) && port !in AtLeast(claimed, port + 1);
  }

  /** The least unclaimed port from `port` on. */
  ghost predicate IsNextUnclaimed(port: int, claimed: set<int>, next: int) {
    next >= port && next !in claimed && forall p :: port <= p < next ==> p in claimed
  }

  function NextUnclaimed(port: int, claimed: set<int>): (next: int)
    ensures IsNextUnclaimed(port, claimed, next)
    decreases AtLeast(claimed, port)
  {
    if port in claimed then
      FewerAbove(claimed, port);
      NextUnclaimed(port + 1, claimed)
    else port
  }

  method FindNextUnclaimedPort(preferred: int, claimed: set<int>) returns (port: int)
    ensures port >= 1 && IsNextUnclaimed(Max(1, preferred), claimed, port)
    ensures port == NextUnclaimed(Max(1, preferred), claimed)
  {
    port := Max(1, preferred);
    while port in claimed
      invariant port >= Max(1, preferred)
      invariant forall p :: Max(1, preferred) <= p < port ==> p in claimed
      invariant NextUnclaimed(Max(1, preferred), claimed) == NextUnclaimed(port, claimed)
      decreases AtLeast(claimed, port)
    {
      FewerAbove(claimed, port);
      port := port + 1;
    }
  }

  // ------------------------------------------------------------------ repair

  predicate IsPathInside(candidate: Path, root: Path) {
    root <= candidate
  }

  function BuildIsolated(config: Config, context: Context, serverPort: real, databasePort: real): Config {
    var root := context.instanceRoot;
    var shared := config.(serverPort := serverPort, logDir := root + ["logs"],
                          storageDir := root + ["data", "storage"], keyFile := root + ["secrets", "master.key"]);
    if config.embedded then
      shared.(databasePort := databasePort, dataDir := root + ["db"], backupEnabled := false,
              backupDir := root + ["data", "backups"])
    else shared
  }

  predicate NeedsRepair(config: Config, context: Context) {
    || (config.embedded && (config.backupEnabled || !IsPathInside(config.dataDir, context.instanceRoot)
                            || !IsPathInside(config.backupDir, context.instanceRoot)))
    || !IsPathInside(config.logDir, context.instanceRoot)
    || !IsPathInside(config.storageDir, context.instanceRoot)
    || !IsPathInside(config.keyFile, context.instanceRoot)
  }

  /** What the repair builds is isolated. */
  lemma IsolatedNeedsNoRepair(config: Config, context: Context, serverPort: real, databasePort: real)
    ensures !NeedsRepair(BuildIsolated(config, context, serverPort, databasePort), context)
  {
  }

  // ---------------------------------------------------------------- siblings

  datatype Ports = Ports(server: set<int>, database: set<int>)

  /** Only positive integers are claimed. */
  predicate Claimable(port: real) {
    port.Floor as real == port && port > 0.0
  }

  predicate Claimed(port: real, claimed: set<int>) {
    port.Floor as real == port && port.Floor in claimed
  }

  ghost function PortsOf(files: map<Path, File>, siblings: set<Path>): Ports {
    Ports(
      set s | s in siblings && s in files && files[s].Readable? && Claimable(files[s].config.serverPort) :: files[s].config.serverPort.Floor,
      set s | s in siblings && s in files && files[s].Readable? && Claimable(files[s].config.databasePort) :: files[s].config.databasePort.Floor)
  }

  /** Registered configs that still exist, and whatever the directory scans discover, but never the own config. */
  function Siblings(files: map<Path, File>, registry: set<Path>, discovered: set<Path>, own: Path): set<Path> {
    set p | p in registry + discovered && p in files && p != own
  }

  /** The registry file keeps only the paths that exist. */
  function Existing(files: map<Path, File>, paths: set<Path>): set<Path> {
    set p | p in paths && p in files
  }

  /** Reads every sibling; the unreadable ones and the ports that are not positive integers are skipped. */
  method CollectSiblingPorts(files: map<Path, File>, siblings: set<Path>) returns (ports: Ports)
    ensures ports == PortsOf(files, siblings)
  {
    ports := Ports({}, {});
    var left := siblings;
    ghost var seen: set<Path> := {};
    while left != {}
      invariant seen + left == siblings && seen !! left
      invariant ports == PortsOf(files, seen)
      decreases left
    {
      var s :| s in left;
      left := left - {s};
      ghost var before := seen;
      seen := seen + {s};
      AddSibling(files, before, s);
      if s in files && files[s].Readable? {
        var config := files[s].config;
        ports := Ports(ports.server + (if Claimable(config.serverPort) then {config.serverPort.Floor} else {}),
                       ports.database + (if Claimable(config.databasePort) then {config.databasePort.Floor} else {}));
      }
    }
  }

  lemma AddSibling(files: map<Path, File>, seen: set<Path>, s: Path)
    ensures var before, after := PortsOf(files, seen), PortsOf(files, seen + {s});
      if s in files && files[s].Readable? then
        && after.server == before.server + (if Claimable(files[s].config.serverPort) then {files[s].config.serverPort.Floor} else {})
        && after.database == before.database + (if Claimable(files[s].config.databasePort) then {files[s].config.databasePort.Floor} else {})
      else after == before
  {
  }

  // -------------------------------------------------------------------- step

  /** The home directory: its config files, the registry, and the worktrees that have completed a repair step. */
  datatype Home = Home(files: map<Path, File>, registry: set<Path>, completed: set<Path>)

  predicate ServerCollides(config: Config, ports: Ports) {
    Claimed(config.serverPort, ports.server)
  }

  predicate DatabaseCollides(config: Config, ports: Ports) {
    config.embedded && Claimed(config.databasePort, ports.database)
  }

  predicate MustChange(config: Config, context: Context, ports: Ports) {
    NeedsRepair(config, context) || ServerCollides(config, ports) || DatabaseCollides(config, ports)
  }

  /** Fractions are cut off; below 1, where that differs from `Floor`, the search begins at 1 anyway. */
  function PreferredServerPort(config: Config): int {
    if config.serverPort == 3100.0 then 3101 else config.serverPort.Floor
  }

  function PreferredDatabasePort(config: Config): int {
    if config.databasePort == 54329.0 then 54330 else config.databasePort.Floor
  }

  /** The config the locked section settles on. */
  function SelectConfig(config: Config, context: Context, ports: Ports): Config {
    if !MustChange(config, context, ports) then config
    else
      var serverPort := NextUnclaimed(Max(1, PreferredServerPort(config)), ports.server);
      var databasePort := NextUnclaimed(Max(1, PreferredDatabasePort(config)), ports.database + {serverPort});
      BuildIsolated(config, context, serverPort as real, databasePort as real)
  }

  predicate IsPort(port: real) {
    port.Floor as real == port && 1.0 <= port <= 65535.0
  }

  /** What the schema asks of the ports. */
  predicate Storable(config: Config) {
    IsPort(config.serverPort) && IsPort(config.databasePort)
  }

  /** The file can be read, and if it must be rewritten the old and the new config pass the schema; otherwise the section throws. */
  ghost predicate StepSucceeds(home: Home, context: Context, discovered: set<Path>) {
    var own := context.configPath;
    && own in home.files && home.files[own].Readable?
    && var ports := PortsOf(home.files, Siblings(home.files, home.registry, discovered, own));
       (MustChange(home.files[own].config, context, ports) ==>
          Storable(home.files[own].config) && Storable(SelectConfig(home.files[own].config, context, ports)))
  }

  ghost function RepairStep(home: Home, context: Context, discovered: set<Path>): Home {
    var own := context.configPath;
    if !StepSucceeds(home, context, discovered) then home
    else
      var siblings := Siblings(home.files, home.registry, discovered, own);
      var config := SelectConfig(home.files[own].config, context, PortsOf(home.files, siblings));
      var files := home.files[own := Readable(config)];
      Home(files, Existing(files, home.registry + siblings + {own}), home.completed + {own})
  }

  // ------------------------------------------------------------ the guarantee

  predicate IsReadable(home: Home, p: Path) {
    p in home.files && home.files[p].Readable?
  }

  /** The worktrees hold no claimable server port in common nor, in embedded mode, a claimable database port. */
  ghost predicate PortsDistinct(home: Home, p: Path, q: Path)
    requires IsReadable(home, p) && IsReadable(home, q)
  {
    var a, b := home.files[p].config, home.files[q].config;
    && (a.serverPort == b.serverPort ==> !Claimable(a.serverPort))
    && (a.embedded && b.embedded && a.databasePort == b.databasePort ==> !Claimable(a.databasePort))
  }

  ghost predicate Inv(home: Home) {
    && home.completed <= home.registry
    && (forall p :: p in home.completed ==> IsReadable(home, p))
    && forall p, q :: p in home.completed && q in home.completed && p != q ==> PortsDistinct(home, p, q)
  }

  /** A claimed port of a sibling is in the collected sets. */
  lemma SiblingClaims(files: map<Path, File>, siblings: set<Path>, s: Path)
    requires s in siblings && s in files && files[s].Readable?
    ensures Claimable(files[s].config.serverPort) ==> Claimed(files[s].config.serverPort, PortsOf(files, siblings).server)
    ensures Claimable(files[s].config.databasePort) ==> Claimed(files[s].config.databasePort, PortsOf(files, siblings).database)
  {
  }

  /** Whatever was on disk before, the selected config avoids every port a sibling claims. */
  lemma SelectedAvoidsSiblings(config: Config, context: Context, ports: Ports)
    ensures var selected := SelectConfig(config, context, ports);
      && !Claimed(selected.serverPort, ports.server)
      && (selected.embedded ==> !Claimed(selected.databasePort, ports.database))
      && selected.embedded == config.embedded
  {
  }

  /**
    After a successful step the worktree shares no claimable port with any
    other readable config that is registered or that the scans discovered.
   */
  lemma StepAvoidsOthers(home: Home, context: Context, discovered: set<Path>, p: Path)
    requires StepSucceeds(home, context, discovered)
    requires p in home.registry + discovered && p != context.configPath && IsReadable(home, p)
    ensures var next := RepairStep(home, context, discovered);
      && IsReadable(next, context.configPath) && IsReadable(next, p) && next.files[p] == home.files[p]
      && PortsDistinct(next, context.configPath, p)
      && var own, other := next.files[context.configPath].config, home.files[p].config;
         (own.embedded && own.databasePort == other.databasePort ==> !Claimable(own.databasePort))
  {
    var siblings := Siblings(home.files, home.registry, discovered, context.configPath);
    assert p in siblings;
    SiblingClaims(home.files, siblings, p);
    SelectedAvoidsSiblings(home.files[context.configPath].config, context, PortsOf(home.files, siblings));
  }

  /** And the registry then names exactly the existing paths among the registered ones, the discovered ones and its own. */
  lemma StepRegisters(home: Home, context: Context, discovered: set<Path>)
    requires StepSucceeds(home, context, discovered)
    ensures var next := RepairStep(home, context, discovered);
      && (forall p :: p in next.registry <==>
            p in home.files && (p in home.registry || p in discovered || p == context.configPath))
      && next.files.Keys == home.files.Keys
      && next.completed == home.completed + {context.configPath}
      && forall p :: p in home.files && p != context.configPath ==> next.files[p] == home.files[p]
  {
  }

  predicate Is(port: real, n: int) {
    port == n as real
  }

  /** Claimable ports are the positive integers, storable ones those up to 65535. */
  lemma PortsAreIntegers(port: real)
    ensures Claimable(port) <==> exists n: int :: n > 0 && Is(port, n)
    ensures IsPort(port) <==> exists n: int :: 1 <= n <= 65535 && Is(port, n)
  {
    if port.Floor as real == port {
      assert Is(port, port.Floor);
    }
  }

  /** Everything the worktree keeps lies under its own root, and an embedded database makes no backups. */
  predicate Isolated(config: Config, root: Path) {
    && root <= config.logDir && root <= config.storageDir && root <= config.keyFile
    && (config.embedded ==> root <= config.dataDir && root <= config.backupDir && !config.backupEnabled)
  }

  /** Another readable config, registered or discovered. */
  predicate Beside(home: Home, own: Path, discovered: set<Path>, p: Path) {
    (p in home.registry || p in discovered) && p != own && IsReadable(home, p)
  }

  /** Such a config holds this positive integer as its server port. */
  ghost predicate ServerPortTaken(home: Home, own: Path, discovered: set<Path>, port: int) {
    port > 0 && exists p :: Beside(home, own, discovered, p) && Is(home.files[p].config.serverPort, port)
  }

  ghost predicate DatabasePortTaken(home: Home, own: Path, discovered: set<Path>, port: int) {
    port > 0 && exists p :: Beside(home, own, discovered, p) && Is(home.files[p].config.databasePort, port)
  }

  /** The collected ports are the taken ones. */
  lemma CollectedIsTaken(home: Home, own: Path, discovered: set<Path>, port: int)
    ensures var ports := PortsOf(home.files, Siblings(home.files, home.registry, discovered, own));
      && (port in ports.server <==> ServerPortTaken(home, own, discovered, port))
      && (port in ports.database <==> DatabasePortTaken(home, own, discovered, port))
  {
    var siblings := Siblings(home.files, home.registry, discovered, own);
    if ServerPortTaken(home, own, discovered, port) {
      var p :| Beside(home, own, discovered, p) && Is(home.files[p].config.serverPort, port);
      assert p in siblings;
      SiblingClaims(home.files, siblings, p);
    }
    if DatabasePortTaken(home, own, discovered, port) {
      var p :| Beside(home, own, discovered, p) && Is(home.files[p].config.databasePort, port);
      assert p in siblings;
      SiblingClaims(home.files, siblings, p);
    }
  }

  /**
    A config is rewritten exactly when it is not isolated or shares a port that
    is a positive integer, in embedded mode also a database port, with another
    readable config that is registered or discovered; otherwise it stays as it is.
   */
  lemma RewrittenIff(home: Home, context: Context, discovered: set<Path>)
    requires IsReadable(home, context.configPath)
    ensures var own := home.files[context.configPath].config;
      Rewrites(home, context, discovered) <==>
        || !Isolated(own, context.instanceRoot)
        || (exists n: int :: Is(own.serverPort, n) && ServerPortTaken(home, context.configPath, discovered, n))
        || (own.embedded
            && exists n: int :: Is(own.databasePort, n) && DatabasePortTaken(home, context.configPath, discovered, n))
    ensures StepSucceeds(home, context, discovered) && !Rewrites(home, context, discovered) ==>
      RepairStep(home, context, discovered).files == home.files
  {
    var own := home.files[context.configPath].config;
    CollectedIsTaken(home, context.configPath, discovered, own.serverPort.Floor);
    CollectedIsTaken(home, context.configPath, discovered, own.databasePort.Floor);
    assert own.serverPort.Floor as real == own.serverPort ==> Is(own.serverPort, own.serverPort.Floor);
    assert own.databasePort.Floor as real == own.databasePort ==> Is(own.databasePort, own.databasePort.Floor);
  }

  /** The least port that is at least 1 and what is wanted, and not taken. */
  ghost predicate IsLeastFree(port: int, wanted: int, taken: int -> bool) {
    && port >= 1 && port >= wanted && !taken(port)
    && forall p :: 1 <= p < port && p >= wanted ==> taken(p)
  }

  /**
    A rewritten config is isolated.  Its ports are the least free ones from the
    old ones on, where the default ports give way to the next, and the database
    port differs from the server port; nothing else is changed.
   */
  lemma RewriteIs(home: Home, context: Context, discovered: set<Path>)
    requires StepSucceeds(home, context, discovered) && Rewrites(home, context, discovered)
    ensures var own, root := context.configPath, context.instanceRoot;
      var was, now := home.files[own].config, RepairStep(home, context, discovered).files[own].config;
      && Isolated(now, root) && now.embedded == was.embedded
      && now.logDir == root + ["logs"] && now.storageDir == root + ["data", "storage"]
      && now.keyFile == root + ["secrets", "master.key"]
      && (now.embedded ==> now.dataDir == root + ["db"] && now.backupDir == root + ["data", "backups"])
      && (!now.embedded ==>
            now.databasePort == was.databasePort && now.dataDir == was.dataDir
            && now.backupDir == was.backupDir && now.backupEnabled == was.backupEnabled)
    ensures var own := context.configPath;
      var was, now := home.files[own].config, RepairStep(home, context, discovered).files[own].config;
      && IsPort(was.serverPort) && IsPort(now.serverPort) && IsPort(was.databasePort) && IsPort(now.databasePort)
      && IsLeastFree(now.serverPort.Floor, if was.serverPort == 3100.0 then 3101 else was.serverPort.Floor,
                     p => ServerPortTaken(home, own, discovered, p))
      && (now.embedded ==>
            IsLeastFree(now.databasePort.Floor, if was.databasePort == 54329.0 then 54330 else was.databasePort.Floor,
                        p => p == now.serverPort.Floor || DatabasePortTaken(home, own, discovered, p)))
  {
    var own := context.configPath;
    var ports := PortsOf(home.files, Siblings(home.files, home.registry, discovered, own));
    var now := SelectConfig(home.files[own].config, context, ports);
    forall p: int
      ensures p in ports.server <==> ServerPortTaken(home, own, discovered, p)
      ensures p in ports.database + {now.serverPort.Floor} <==>
        p == now.serverPort.Floor || DatabasePortTaken(home, own, discovered, p)
    {
      CollectedIsTaken(home, own, discovered, p);
    }
  }

  /** A config that disappears takes its worktree's completion with it, and what is written from outside is there. */
  lemma OutsideTurns(home: Home, e: Event)
    requires Enabled(home, e)
    ensures e.Removed? ==>
      Step(home, e) == Home(home.files - {e.path}, home.registry, home.completed - {e.path})
    ensures e.Written? ==>
      IsReadable(Step(home, e), e.path) == e.file.Readable? && Step(home, e).files[e.path] == e.file
      && Step(home, e).registry == home.registry && Step(home, e).completed == home.completed
  {
  }

  lemma RepairKeepsInv(home: Home, context: Context, discovered: set<Path>)
    requires Inv(home)
    ensures Inv(RepairStep(home, context, discovered))
  {
    if StepSucceeds(home, context, discovered) {
      var own := context.configPath;
      var siblings := Siblings(home.files, home.registry, discovered, own);
      var ports := PortsOf(home.files, siblings);
      var next := RepairStep(home, context, discovered);
      SelectedAvoidsSiblings(home.files[own].config, context, ports);
      forall q | q in home.completed && q != own
        ensures PortsDistinct(next, own, q) && PortsDistinct(next, q, own)
      {
        assert q in siblings;
        SiblingClaims(home.files, siblings, q);
      }
    }
  }

  /** After an actual repair in embedded mode the two ports of the worktree differ, and both are positive integers. */
  lemma RepairSeparatesPorts(config: Config, context: Context, ports: Ports)
    requires config.embedded && MustChange(config, context, ports)
    ensures var selected := SelectConfig(config, context, ports);
      selected.databasePort != selected.serverPort && Claimable(selected.databasePort) && Claimable(selected.serverPort)
  {
  }

  /** A second step with the same siblings changes nothing at all. */
  lemma RepairIdempotent(home: Home, context: Context, discovered: set<Path>)
    requires StepSucceeds(home, context, discovered)
    ensures var once := RepairStep(home, context, discovered);
      RepairStep(once, context, discovered) == once && StepSucceeds(once, context, discovered)
  {
    var own := context.configPath;
    var once := RepairStep(home, context, discovered);
    var siblings := Siblings(home.files, home.registry, discovered, own);
    var config := home.files[own].config;
    var ports := PortsOf(home.files, siblings);
    assert Siblings(once.files, once.registry, discovered, own) == siblings;
    assert PortsOf(once.files, siblings) == ports;
    SelectedAvoidsSiblings(config, context, ports);
    assert !MustChange(once.files[own].config, context, ports);
    assert once.files[own := Readable(once.files[own].config)] == once.files;
    assert once.registry == Existing(once.files, once.registry + siblings + {own});
  }

  // -------------------------------------------------------------------- runs

  /**
    A repair step of some worktree, a config file written from outside, but not
    over a completed one, or a config file that disappears with its worktree.
   */
  datatype Event =
    | Repair(context: Context, discovered: set<Path>)
    | Written(path: Path, file: File)
    | Removed(path: Path)

  ghost predicate Enabled(home: Home, e: Event) {
    e.Written? ==> e.path !in home.completed
  }

  ghost function Step(home: Home, e: Event): Home {
    match e
    case Repair(context, discovered) => RepairStep(home, context, discovered)
    case Written(path, file) => home.(files := home.files[path := file])
    case Removed(path) => home.(files := home.files - {path}, completed := home.completed - {path})
  }

  lemma StepKeepsInv(home: Home, e: Event)
    requires Inv(home) && Enabled(home, e)
    ensures Inv(Step(home, e))
  {
    if e.Repair? {
      RepairKeepsInv(home, e.context, e.discovered);
    }
  }

  /** The states of a run that starts with no step completed. */
  ghost predicate Run(states: seq<Home>, events: seq<Event>) {
    && |states| == |events| + 1 && states[0].completed == {}
    && forall k :: 0 <= k < |events| ==> Enabled(states[k], events[k]) && states[k + 1] == Step(states[k], events[k])
  }

  /** Over every run the completed worktrees hold pairwise distinct ports. */
  lemma {:induction false} PortsDistinctThroughout(states: seq<Home>, events: seq<Event>, k: nat)
    requires Run(states, events) && k < |states|
    ensures Inv(states[k])
  {
    if k > 0 {
      PortsDistinctThroughout(states, events, k - 1);
      StepKeepsInv(states[k - 1], events[k - 1]);
    }
  }

  // ------------------------------------------------- exactly when ports meet

  /** The step of a worktree rewrites its config. */
  ghost predicate Rewrites(home: Home, context: Context, discovered: set<Path>)
    requires IsReadable(home, context.configPath)
  {
    MustChange(home.files[context.configPath].config, context,
               PortsOf(home.files, Siblings(home.files, home.registry, discovered, context.configPath)))
  }

  ghost predicate SameServerPort(home: Home, p: Path, q: Path)
    requires IsReadable(home, p) && IsReadable(home, q)
  {
    home.files[p].config.serverPort == home.files[q].config.serverPort
  }

  ghost predicate SameDatabasePort(home: Home, p: Path, q: Path)
    requires IsReadable(home, p) && IsReadable(home, q)
  {
    home.files[p].config.databasePort == home.files[q].config.databasePort
  }

  /**
    After a step its worktree shares a port with a completed one exactly when
    the step left the config alone, and the two held that port before, which is
    no positive integer.
   */
  lemma StepMeetsIff(home: Home, context: Context, discovered: set<Path>, q: Path)
    requires Inv(home) && StepSucceeds(home, context, discovered)
    requires q in home.completed && q != context.configPath
    ensures var own, next := context.configPath, RepairStep(home, context, discovered);
      && IsReadable(next, own) && IsReadable(next, q)
      && (SameServerPort(next, own, q) <==>
            !Rewrites(home, context, discovered) && SameServerPort(home, own, q) && !Claimable(home.files[own].config.serverPort))
      && (home.files[own].config.embedded ==>
            (SameDatabasePort(next, own, q) <==>
              !Rewrites(home, context, discovered) && SameDatabasePort(home, own, q) && !Claimable(home.files[own].config.databasePort)))
  {
    var own := context.configPath;
    var siblings := Siblings(home.files, home.registry, discovered, own);
    assert q in siblings;
    SiblingClaims(home.files, siblings, q);
    SelectedIsPositiveOrKept(home.files[own].config, context, PortsOf(home.files, siblings));
    SelectedAvoidsSiblings(home.files[own].config, context, PortsOf(home.files, siblings));
  }

  lemma SelectedIsPositiveOrKept(config: Config, context: Context, ports: Ports)
    ensures var selected := SelectConfig(config, context, ports);
      if MustChange(config, context, ports) then
        Claimable(selected.serverPort) && (config.embedded ==> Claimable(selected.databasePort))
      else selected == config
  {
  }

  /** A step of `p` or of `q` that goes through. */
  ghost predicate Steps(home: Home, e: Event, p: Path, q: Path) {
    e.Repair? && StepSucceeds(home, e.context, e.discovered) && e.context.configPath in {p, q}
  }

  function Other(e: Event, p: Path, q: Path): Path
    requires e.Repair?
  {
    if e.context.configPath == p then q else p
  }

  /** In this turn one of the two completes beside the other and keeps the port that both hold and that is no positive integer. */
  ghost predicate Meets(home: Home, e: Event, p: Path, q: Path)
    requires e.Repair? && Steps(home, e, p, q)
  {
    var own, other := e.context.configPath, Other(e, p, q);
    && IsReadable(home, other) && other in home.completed
    && !Rewrites(home, e.context, e.discovered)
    && SameServerPort(home, own, other) && !Claimable(home.files[own].config.serverPort)
  }

  /** A turn that is no step of `p` or `q` leaves both as they are, if both are completed after it. */
  lemma OthersLeaveAlone(home: Home, e: Event, p: Path, q: Path)
    requires Inv(home) && Enabled(home, e) && !Steps(home, e, p, q)
    requires p in Step(home, e).completed && q in Step(home, e).completed
    ensures p in home.completed && q in home.completed
    ensures Step(home, e).files[p] == home.files[p] && Step(home, e).files[q] == home.files[q]
  {
  }

  /** The last turn up to `k` in which one of two completed worktrees stepped; the other was completed already. */
  lemma {:induction false} LastStep(states: seq<Home>, events: seq<Event>, k: nat, p: Path, q: Path) returns (j: nat)
    requires Run(states, events) && k < |states| && p != q
    requires p in states[k].completed && q in states[k].completed
    ensures j < k && Steps(states[j], events[j], p, q) && Other(events[j], p, q) in states[j].completed
    ensures forall i :: j < i < k ==> !Steps(states[i], events[i], p, q)
    ensures IsReadable(states[j + 1], p) && IsReadable(states[j + 1], q) && IsReadable(states[k], p) && IsReadable(states[k], q)
    ensures states[j + 1].files[p] == states[k].files[p] && states[j + 1].files[q] == states[k].files[q]
  {
    PortsDistinctThroughout(states, events, k);
    PortsDistinctThroughout(states, events, k - 1);
    var home, e := states[k - 1], events[k - 1];
    if Steps(home, e, p, q) {
      j := k - 1;
    } else {
      OthersLeaveAlone(home, e, p, q);
      j := LastStep(states, events, k - 1, p, q);
    }
  }

  /**
    Over every run: two completed worktrees hold the same server port exactly
    when the later of their steps left its config alone with a port that is no
    positive integer and that the other held.
   */
  lemma RunMeetsIff(states: seq<Home>, events: seq<Event>, k: nat, p: Path, q: Path)
    requires Run(states, events) && k < |states| && p != q
    requires p in states[k].completed && q in states[k].completed
    ensures IsReadable(states[k], p) && IsReadable(states[k], q)
    ensures SameServerPort(states[k], p, q) <==>
      exists j: nat :: j < k && Steps(states[j], events[j], p, q) && Meets(states[j], events[j], p, q)
        && forall i :: j < i < k ==> !Steps(states[i], events[i], p, q)
  {
    var j := LastStep(states, events, k, p, q);
    PortsDistinctThroughout(states, events, j);
    StepMeetsIff(states[j], events[j].context, events[j].discovered, Other(events[j], p, q));
    assert SameServerPort(states[k], p, q) <==> Meets(states[j], events[j], p, q);
  }

  /** The same for database ports of two worktrees in embedded mode. */
  ghost predicate MeetsInDatabase(home: Home, e: Event, p: Path, q: Path)
    requires e.Repair? && Steps(home, e, p, q)
  {
    var own, other := e.context.configPath, Other(e, p, q);
    && IsReadable(home, other) && other in home.completed
    && !Rewrites(home, e.context, e.discovered)
    && SameDatabasePort(home, own, other) && !Claimable(home.files[own].config.databasePort)
  }

  lemma RepairKeepsMode(home: Home, context: Context, discovered: set<Path>)
    requires StepSucceeds(home, context, discovered)
    ensures var own := context.configPath;
      home.files[own].config.embedded == RepairStep(home, context, discovered).files[own].config.embedded
  {
  }

  lemma RunMeetsInDatabaseIff(states: seq<Home>, events: seq<Event>, k: nat, p: Path, q: Path)
    requires Run(states, events) && k < |states| && p != q
    requires p in states[k].completed && q in states[k].completed
    requires IsReadable(states[k], p) && states[k].files[p].config.embedded
    requires IsReadable(states[k], q) && states[k].files[q].config.embedded
    ensures SameDatabasePort(states[k], p, q) <==>
      exists j: nat :: j < k && Steps(states[j], events[j], p, q) && MeetsInDatabase(states[j], events[j], p, q)
        && forall i :: j < i < k ==> !Steps(states[i], events[i], p, q)
  {
    var j := LastStep(states, events, k, p, q);
    PortsDistinctThroughout(states, events, j);
    RepairKeepsMode(states[j], events[j].context, events[j].discovered);
    StepMeetsIff(states[j], events[j].context, events[j].discovered, Other(events[j], p, q));
    assert SameDatabasePort(states[k], p, q) <==> MeetsInDatabase(states[j], events[j], p, q);
  }

  /**
    Two worktrees side by side, each isolated under its own root, complete with
    any such port in common, zero or a fraction, and nothing is rewritten.
   */
  lemma UnclaimablePortsCollide(config: Config, a: Context, b: Context, port: real) returns (states: seq<Home>, events: seq<Event>)
    requires a.configPath != b.configPath && !Claimable(port)
    ensures Run(states, events) && |states| == 3
    ensures var end := states[2];
      && end.completed == {a.configPath, b.configPath}
      && end.files == map[a.configPath := Readable(BuildIsolated(config, a, port, port)),
                          b.configPath := Readable(BuildIsolated(config, b, port, port))]
      && SameServerPort(end, a.configPath, b.configPath) && end.files[a.configPath].config.serverPort == port
  {
    var ca, cb := BuildIsolated(config, a, port, port), BuildIsolated(config, b, port, port);
    var files := map[a.configPath := Readable(ca), b.configPath := Readable(cb)];
    var start := Home(files, {}, {});
    var middle := RepairStep(start, a, {});
    assert !MustChange(ca, a, PortsOf(files, Siblings(files, {}, {}, a.configPath)));
    assert files[a.configPath := Readable(ca)] == files;
    assert !MustChange(cb, b, PortsOf(files, Siblings(files, middle.registry, {}, b.configPath)));
    assert files[b.configPath := Readable(cb)] == files;
    events := [Repair(a, {}), Repair(b, {})];
    states := [start, middle, RepairStep(middle, b, {})];
  }

  // ------------------------------------------------------------- the program

  class WorktreeHome {
    var files: map<Path, File>
    var registry: set<Path>
    ghost var completed: set<Path>

    ghost function View(): Home
      reads this
    {
      Home(files, registry, completed)
    }

    constructor (files: map<Path, File>, registry: set<Path>)
      ensures View() == Home(files, registry, {})
    {
      this.files, this.registry, completed := files, registry, {};
    }

    /** The locked section of the repair; `done` is false when it throws, and then nothing has changed. */
    method MaybeRepair(context: Context, discovered: set<Path>) returns (done: bool, repaired: bool)
      modifies this
      ensures View() == RepairStep(old(View()), context, discovered)
      ensures done <==> StepSucceeds(old(View()), context, discovered)
      ensures !repaired ==> forall p :: p in old(files) ==> p in files && files[p] == old(files)[p]
    {
      var own := context.configPath;
      done, repaired := false, false;
      if own !in files || files[own].Malformed? {
        return;
      }
      var parsed := files[own].config;
      var siblings := Siblings(files, registry, discovered, own);
      var ports := CollectSiblingPorts(files, siblings);
      var selected := parsed;
      if MustChange(parsed, context, ports) {
        var serverPort := FindNextUnclaimedPort(PreferredServerPort(parsed), ports.server);
        var databasePort := parsed.databasePort;
        if parsed.embedded {
          var unclaimed := FindNextUnclaimedPort(PreferredDatabasePort(parsed), ports.database + {serverPort});
          databasePort := unclaimed as real;
        }
        selected := BuildIsolated(parsed, context, serverPort as real, databasePort);
        assert selected == SelectConfig(parsed, context, ports);
        if !Storable(parsed) || !Storable(selected) {
          return;
        }
        repaired := true;
      }
      assert !repaired ==> files[own := Readable(selected)] == files;
      files := files[own := Readable(selected)];
      registry := Existing(files, registry + siblings + {own});
      completed := completed + {own};
      done := true;
    }
  }
}
