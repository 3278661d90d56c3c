/**
  The install manifest's rollback history and the pruning of payloads,
  cli/src/install-store.ts.  A payload path is a list of segments in normal
  form; two records stand for the same payload when their paths are equal.
 */
module InstallHistory {

  type Path = seq<string>

  datatype Option<+T> = None | Some(value: T)

  datatype Record = Record(payloadPath: Path, version: string, channel: string, installedAt: string)

  datatype Manifest = Manifest(current: Record, previous: seq<Record>)

  // ----------------------------------------------------------------- history

  function Without(records: seq<Record>, path: Path): seq<Record>
  {
    if records == [] then []
    else if records[0].payloadPath == path then Without(records[1..], path)
    else [records[0]] + Without(records[1..], path)
  }

  /** Keeps the first record of every payload. */
  function FirstOfEach(records: seq<Record>): seq<Record>
    decreases |records|
  {
    if records == [] then []
    else
      WithoutShrinks(records[1..], records[0].payloadPath);
      [records[0]] + FirstOfEach(Without(records[1..], records[0].payloadPath))
  }

  lemma {:induction false} WithoutShrinks(records: seq<Record>, path: Path)
    ensures |Without(records, path)| <= |records|
    ensures forall r :: r in Without(records, path) <==> r in records && r.payloadPath != path
  {
    if records != [] {
      WithoutShrinks(records[1..], path);
    }
  }

  function Take(records: seq<Record>, count: nat): seq<Record> {
    if |records| <= count then records else records[..count]
  }

  function BuildNextManifest(record: Record, current: Option<Manifest>): Manifest {
    var candidates := if current.None? then [] else [current.value.current] + current.value.previous;
    Manifest(record, Take(FirstOfEach(Without(candidates, record.payloadPath)), 2))
  }

  /** All payloads ever installed, the latest first, each with its latest record. */
  function MostRecentlyUsed(installs: seq<Record>): seq<Record>
  {
    if installs == [] then []
    else
      var last := installs[|installs| - 1];
      [last] + Without(MostRecentlyUsed(installs[..|installs| - 1]), last.payloadPath)
  }

  /** The manifest after a sequence of installs into an empty store. */
  function ManifestAfter(installs: seq<Record>): Manifest
    requires installs != []
  {
    var n := |installs| - 1;
    BuildNextManifest(installs[n], if n == 0 then None else Some(ManifestAfter(installs[..n])))
  }

  ghost predicate DistinctPayloads(records: seq<Record>) {
    forall i, j :: 0 <= i < j < |records| ==> records[i].payloadPath != records[j].payloadPath
  }

  lemma {:induction false} WithoutKeepsDistinct(records: seq<Record>, path: Path)
    requires DistinctPayloads(records)
    ensures DistinctPayloads(Without(records, path))
  {
    if records != [] {
      WithoutKeepsDistinct(records[1..], path);
      WithoutShrinks(records[1..], path);
    }
  }

  lemma {:induction false} DistinctStays(records: seq<Record>)
    requires DistinctPayloads(records)
    ensures FirstOfEach(records) == records
  {
    if records != [] {
      var rest := records[1..];
      forall r | r in rest ensures r.payloadPath != records[0].payloadPath {
        var i :| 0 <= i < |rest| && rest[i] == r;
        assert records[i + 1] == r;
      }
      WithoutAbsent(rest, records[0].payloadPath);
      DistinctStays(rest);
    }
  }

  lemma {:induction false} WithoutAbsent(records: seq<Record>, path: Path)
    requires forall r :: r in records ==> r.payloadPath != path
    ensures Without(records, path) == records
  {
    if records != [] {
      WithoutAbsent(records[1..], path);
    }
  }

  lemma {:induction false} MostRecentDistinct(installs: seq<Record>)
    ensures DistinctPayloads(MostRecentlyUsed(installs))
  {
    if installs != [] {
      var n := |installs| - 1;
      MostRecentDistinct(installs[..n]);
      WithoutKeepsDistinct(MostRecentlyUsed(installs[..n]), installs[n].payloadPath);
      WithoutShrinks(MostRecentlyUsed(installs[..n]), installs[n].payloadPath);
    }
  }

  /** Cutting a list of distinct payloads to one more than is kept loses nothing that is kept. */
  lemma {:induction false} CutThenDrop(records: seq<Record>, path: Path, count: nat)
    requires DistinctPayloads(records)
    ensures Take(Without(Take(records, count + 1), path), count) == Take(Without(records, path), count)
  {
    if |records| > count + 1 {
      if count == 0 {
      } else if records[0].payloadPath == path {
        forall r | r in records[1..] ensures r.payloadPath != path {
          var i :| 0 <= i < |records[1..]| && records[1..][i] == r;
          assert records[i + 1] == r;
        }
        WithoutAbsent(records[1..], path);
        assert records[..count + 1][1..] == records[1..][..count];
        forall r | r in records[1..][..count] ensures r.payloadPath != path {
          assert r in records[1..];
        }
        WithoutAbsent(records[1..][..count], path);
      } else {
        CutThenDrop(records[1..], path, count - 1);
        assert records[..count + 1][1..] == records[1..][..count];
        var cut, all := Without(records[1..][..count], path), Without(records[1..], path);
        assert Take([records[0]] + cut, count) == [records[0]] + Take(cut, count - 1);
        assert Take([records[0]] + all, count) == [records[0]] + Take(all, count - 1);
      }
    }
  }

  /** Over any installs, the current payload and the two rollback targets are the three most recently used. */
  lemma {:induction false} HistoryIsMostRecent(installs: seq<Record>)
    requires installs != []
    ensures var manifest := ManifestAfter(installs);
      [manifest.current] + manifest.previous == Take(MostRecentlyUsed(installs), 3)
  {
    var n := |installs| - 1;
    var record, earlier := installs[n], installs[..n];
    var mru := MostRecentlyUsed(earlier);
    MostRecentDistinct(earlier);
    CutThenDrop(mru, record.payloadPath, 2);
    if n > 0 {
      HistoryIsMostRecent(earlier);
    } else {
      assert mru == [];
    }
    assert DistinctPayloads(Take(mru, 3));
    WithoutKeepsDistinct(Take(mru, 3), record.payloadPath);
    DistinctStays(Without(Take(mru, 3), record.payloadPath));
    var kept := Without(mru, record.payloadPath);
    assert Take([record] + kept, 3) == [record] + Take(kept, 2);
  }

  /** Whatever manifest was on disk, the next one names no payload twice. */
  lemma NextManifestDistinct(record: Record, current: Option<Manifest>)
    ensures var next := BuildNextManifest(record, current);
      |next.previous| <= 2 && DistinctPayloads([next.current] + next.previous)
  {
    var candidates := if current.None? then [] else [current.value.current] + current.value.previous;
    var others := Without(candidates, record.payloadPath);
    WithoutShrinks(candidates, record.payloadPath);
    FirstOfEachDistinct(others);
    forall r | r in Take(FirstOfEach(others), 2) ensures r.payloadPath != record.payloadPath {
      assert r in FirstOfEach(others);
    }
  }

  lemma {:induction false} FirstOfEachDistinct(records: seq<Record>)
    ensures DistinctPayloads(FirstOfEach(records))
    ensures forall r :: r in FirstOfEach(records) ==> r in records
    decreases |records|
  {
    if records != [] {
      var rest := Without(records[1..], records[0].payloadPath);
      WithoutShrinks(records[1..], records[0].payloadPath);
      FirstOfEachDistinct(rest);
    }
  }

  // ----------------------------------------------------------------- pruning

  /** A source directory under the installs root. */
  datatype Directory = Missing | Unsafe | Listed(entries: seq<string>)

  datatype PruneResult = Pruned(removed: seq<Path>) | Refused(source: string)

  const SOURCES := ["npm", "git"]

  function RetainedPaths(manifest: Manifest): set<Path> {
    {manifest.current.payloadPath} + set r | r in manifest.previous :: r.payloadPath
  }

  predicate IsDotFile(entry: string) {
    entry != "" && entry[0] == '.'
  }

  /** Dot files are not payloads; everything else must be retained by name to survive. */
  predicate Survives(root: Path, source: string, retained: set<Path>, entry: string) {
    IsDotFile(entry) || root + [source, entry] in retained
  }

  function Kept(root: Path, source: string, retained: set<Path>, entries: seq<string>): seq<string>
  {
    if entries == [] then []
    else (if Survives(root, source, retained, entries[0]) then [entries[0]] else []) + Kept(root, source, retained, entries[1..])
  }

  function Dropped(root: Path, source: string, retained: set<Path>, entries: seq<string>): seq<Path>
  {
    if entries == [] then []
    else
      var first := if Survives(root, source, retained, entries[0]) then [] else [root + [source, entries[0]]];
      first + Dropped(root, source, retained, entries[1..])
  }

  /** Pruning keeps exactly the surviving entries, and reports exactly the others. */
  lemma {:induction false} PruningIsExact(root: Path, source: string, retained: set<Path>, entries: seq<string>)
    ensures forall e :: e in Kept(root, source, retained, entries) <==> e in entries && Survives(root, source, retained, e)
    ensures forall p :: p in Dropped(root, source, retained, entries) <==>
      exists e :: e in entries && !Survives(root, source, retained, e) && p == root + [source, e]
  {
    if entries != [] {
      PruningIsExact(root, source, retained, entries[1..]);
      var dropped, rest := Dropped(root, source, retained, entries), Dropped(root, source, retained, entries[1..]);
      forall p ensures p in dropped <==> exists e :: e in entries && !Survives(root, source, retained, e) && p == root + [source, e] {
        if p in rest {
          var e :| e in entries[1..] && !Survives(root, source, retained, e) && p == root + [source, e];
          assert e in entries;
        } else if p in dropped {
          assert entries[0] in entries && p == root + [source, entries[0]];
        }
      }
    }
  }

  class InstallsRoot {
    const root: Path
    var directories: map<string, Directory>

    constructor (root: Path, directories: map<string, Directory>)
      ensures this.root == root && this.directories == directories
    {
      this.root, this.directories := root, directories;
    }

    /** Removes the entries of one source directory that do not survive. */
    method PruneSource(source: string, retained: set<Path>) returns (removed: seq<Path>)
      requires source in directories && directories[source].Listed?
      modifies this
      ensures directories == old(directories)[source := Listed(Kept(root, source, retained, old(directories)[source].entries))]
      ensures removed == Dropped(root, source, retained, old(directories)[source].entries)
    {
      var entries := directories[source].entries;
      var kept: seq<string> := [];
      removed := [];
      for i := 0 to |entries|
        invariant directories == old(directories)
        invariant Kept(root, source, retained, entries) == kept + Kept(root, source, retained, entries[i..])
        invariant Dropped(root, source, retained, entries) == removed + Dropped(root, source, retained, entries[i..])
      {
        assert entries[i..][0] == entries[i] && entries[i..][1..] == entries[i + 1..];
        if Survives(root, source, retained, entries[i]) {
          kept := kept + [entries[i]];
        } else {
          removed := removed + [root + [source, entries[i]]];
        }
      }
      assert kept == Kept(root, source, retained, entries);
      directories := directories[source := Listed(kept)];
    }

    /**
      Prunes both sources.  A source root that is not a plain directory
      refuses the rest; a missing one is skipped.
     */
    method PruneInstallPayloads(manifest: Manifest) returns (result: PruneResult)
      requires forall s :: s in SOURCES ==> s in directories
      modifies this
      ensures directories.Keys == old(directories).Keys
      ensures result.Refused? <==> old(directories)["npm"].Unsafe? || old(directories)["git"].Unsafe?
      ensures result.Refused? ==>
        && result.source == (if old(directories)["npm"].Unsafe? then "npm" else "git")
        && directories["git"] == old(directories)["git"]
        && directories["npm"] == if old(directories)["npm"].Unsafe? then old(directories)["npm"]
                                 else PrunedDirectory(root, "npm", manifest, old(directories)["npm"])
      ensures result.Pruned? ==>
        && directories["npm"] == PrunedDirectory(root, "npm", manifest, old(directories)["npm"])
        && directories["git"] == PrunedDirectory(root, "git", manifest, old(directories)["git"])
        && result.removed == DroppedFrom(root, "npm", manifest, old(directories)["npm"])
                           + DroppedFrom(root, "git", manifest, old(directories)["git"])
    {
      assert "npm" in SOURCES && "git" in SOURCES by { assert SOURCES[0] == "npm" && SOURCES[1] == "git"; }
      var retained := RetainedPaths(manifest);
      var removed: seq<Path> := [];
      if directories["npm"].Unsafe? {
        return Refused("npm");
      }
      if directories["npm"].Listed? {
        removed := PruneSource("npm", retained);
      }
      if directories["git"].Unsafe? {
        return Refused("git");
      }
      if directories["git"].Listed? {
        var more := PruneSource("git", retained);
        removed := removed + more;
      }
      result := Pruned(removed);
    }
  }

  function PrunedDirectory(root: Path, source: string, manifest: Manifest, directory: Directory): Directory {
    if directory.Listed? then Listed(Kept(root, source, RetainedPaths(manifest), directory.entries)) else directory
  }

  function DroppedFrom(root: Path, source: string, manifest: Manifest, directory: Directory): seq<Path> {
    if directory.Listed? then Dropped(root, source, RetainedPaths(manifest), directory.entries) else []
  }

  /** What stays keeps its order and number, and so does what goes. */
  lemma {:induction false} KeptJoins(root: Path, source: string, retained: set<Path>, a: seq<string>, b: seq<string>)
    ensures Kept(root, source, retained, a + b) == Kept(root, source, retained, a) + Kept(root, source, retained, b)
  {
    if a == [] {
      assert a + b == b;
    } else {
      KeptJoins(root, source, retained, a[1..], b);
      assert (a + b)[1..] == a[1..] + b && (a + b)[0] == a[0];
    }
  }

  lemma {:induction false} DroppedJoins(root: Path, source: string, retained: set<Path>, a: seq<string>, b: seq<string>)
    ensures Dropped(root, source, retained, a + b) == Dropped(root, source, retained, a) + Dropped(root, source, retained, b)
  {
    if a == [] {
      assert a + b == b;
    } else {
      DroppedJoins(root, source, retained, a[1..], b);
      assert (a + b)[1..] == a[1..] + b && (a + b)[0] == a[0];
    }
  }

  /** The payload of the current install, or of one to roll back to. */
  predicate IsRetained(manifest: Manifest, path: Path) {
    path == manifest.current.payloadPath || exists r :: r in manifest.previous && r.payloadPath == path
  }

  /**
    A listed source directory keeps exactly its dot entries and the retained
    payloads, and all others are reported as removed; any other directory is
    left as it is.
   */
  lemma DirectoryAfterPruning(root: Path, source: string, manifest: Manifest, directory: Directory)
    ensures directory.Listed? ==>
      var after := PrunedDirectory(root, source, manifest, directory);
      && after.Listed?
      && (forall e :: e in after.entries <==> e in directory.entries && ("." <= e || IsRetained(manifest, root + [source, e])))
      && (forall p :: p in DroppedFrom(root, source, manifest, directory) <==>
            exists e :: e in directory.entries && e !in after.entries && p == root + [source, e])
    ensures !directory.Listed? ==>
      PrunedDirectory(root, source, manifest, directory) == directory && DroppedFrom(root, source, manifest, directory) == []
  {
    if directory.Listed? {
      PruningIsExact(root, source, RetainedPaths(manifest), directory.entries);
    }
  }

  /** After any installs, a payload on disk survives pruning if and only if it is one of the three most recently used, or a dot file. */
  lemma PruneKeepsRollbackTargets(root: Path, source: string, installs: seq<Record>, entries: seq<string>, entry: string)
    requires installs != [] && entry in entries
    ensures var manifest := ManifestAfter(installs);
      entry in Kept(root, source, RetainedPaths(manifest), entries) <==>
        "." <= entry || exists r :: r in Take(MostRecentlyUsed(installs), 3) && r.payloadPath == root + [source, entry]
  {
    var manifest := ManifestAfter(installs);
    HistoryIsMostRecent(installs);
    PruningIsExact(root, source, RetainedPaths(manifest), entries);
    var recent := Take(MostRecentlyUsed(installs), 3);
    assert recent == [manifest.current] + manifest.previous;
    forall r ensures r in recent <==> r == manifest.current || r in manifest.previous {
    }
    var path := root + [source, entry];
    if path in RetainedPaths(manifest) {
      if path == manifest.current.payloadPath {
        assert manifest.current in recent;
      } else {
        var r :| r in manifest.previous && r.payloadPath == path;
        assert r in recent;
      }
    }
  }
}
