/** What `sync` sees of a project: the walk to each path that a plan looks at, and the sync that plans on what it has
    seen (crates/minco-cli/src/agent_cmd.rs, `build_plan`, `sync` and module `secure`). */
module AgentInspections {
  import opened Disks
  import opened DiskPaths
  import opened FileSystems
  import OpenPaths
  import opened TreeShapes
  import opened Options
  import opened Paths
  import opened Sorting
  import opened AgentStaging
  import opened AgentPublication
  import opened AgentPlan
  import opened AgentPlanFacts
  import opened AgentSync
  import opened AgentRuns
  import opened AgentOnDisk
  import SourceOnDisk
  import SourceWalk

  // ---------- One path ----------

  /** What there is to be seen at a path. */
  function InspectionOf(d: Disk, path: Path): Inspection
    requires path != []
  {
    if OpenPaths.Blocked(d, d.root, Parent(path)) then Unsafe
    else
      match EntryAt(d, path)
      case None => Inspection.Missing
      case Some(i) => if i in d.nodes && d.nodes[i].File? then Regular(d.nodes[i].data, i) else Unsafe
  }

  /** `seen` is what is there, or a call has failed and it reads as unsafe. */
  predicate SeenRight(d: Disk, path: Path, seen: Inspection, failed: bool)
    requires path != []
  {
    seen == InspectionOf(d, path) || (failed && seen.Unsafe?)
  }

  /** `inspect`. */
  method InspectPath(p: Publisher, path: Path) returns (result: Result<Inspection>)
    requires p.fs.Valid()
    modifies p.fs`disk, p.fs`next, p.fs`log, p.fs`faults
    ensures p.fs.Valid() && old(p.fs.faults) <= p.fs.faults
    ensures result == Err(InvalidPath) <==> !ValidRelative(path)
    ensures !p.fs.shared ==> p.fs.disk == old(p.fs.disk)
    ensures !p.fs.shared && result.Ok? ==>
      path != [] && SeenRight(p.fs.disk, path, result.value, p.fs.faults > old(p.fs.faults))
    ensures !p.fs.shared && p.fs.faults == old(p.fs.faults) && ValidRelative(path) ==> result.Ok?
  {
    hide FileSystem.Valid, KindsKept;
    if !ValidRelative(path) {
      return Err(InvalidPath);
    }
    var root := p.fs.OpenRoot();
    if root.None? {
      return Err(SystemCallFailed);
    }
    var current, dirs := root.value, Parent(path);
    var k := 0;
    while k < |dirs|
      invariant 0 <= k <= |dirs|
      invariant p.fs.Valid() && old(p.fs.faults) <= p.fs.faults
      invariant !p.fs.shared ==> p.fs.disk == old(p.fs.disk)
      invariant !p.fs.shared ==> Descend(p.fs.disk, p.fs.disk.root, dirs) == Descend(p.fs.disk, current, dirs[k..])
      invariant !p.fs.shared ==>
        (OpenPaths.Blocked(p.fs.disk, p.fs.disk.root, dirs) <==> OpenPaths.Blocked(p.fs.disk, current, dirs[k..]))
    {
      var slot := Slot(current, dirs[k]);
      var stat := p.fs.Stat(slot);
      match stat {
        case StatFailed => return Err(SystemCallFailed);
        case Missing => return Ok(Inspection.Missing);
        case Found(_, node) =>
          if !node.Directory? {
            return Ok(Unsafe);
          }
      }
      var dir := p.fs.OpenDirectory(slot);
      if dir.None? {
        return Ok(Unsafe);
      }
      assert dirs[k..][1..] == dirs[k + 1..];
      current := dir.value;
      k := k + 1;
    }
    result := p.InspectAt(Slot(current, FileName(path)));
  }

  // ---------- The paths that a plan looks at ----------

  /** What the plan for `target` looks at in `seen`: the manifest, for Claude the project's own instructions, and every
      desired file but a bridge that has nothing to bridge. */
  ghost predicate LookedAt(b: Bundle, seen: Tree, target: Target, path: Path) {
    || path == MANIFEST_PATH
    || (path == AGENTS_FILE && Selects(target, Claude))
    || exists f :: f in DesiredFiles(b, target) && !Skipped(BridgeAvailable(seen, target), f) && f.path == path
  }

  ghost predicate SeenAlike(b: Bundle, seen: Tree, tree: Tree, target: Target) {
    forall path :: LookedAt(b, seen, target, path) ==> Inspect(seen, path) == Inspect(tree, path)
  }

  lemma {:induction false} FilesAlike(
      seen: Tree, tree: Tree, recorded: seq<ManagedFile>, available: bool, files: seq<DesiredFile>)
    requires forall f :: f in files && !Skipped(available, f) ==> Inspect(seen, f.path) == Inspect(tree, f.path)
    ensures PlanFiles(seen, recorded, available, files) == PlanFiles(tree, recorded, available, files)
  {
    hide KindFor, ConflictFor, Find, Skipped;
    if files != [] {
      assert files[|files| - 1] in files;
      FilesAlike(seen, tree, recorded, available, files[..|files| - 1]);
    }
  }

  lemma BridgeAlike(seen: Tree, tree: Tree, recorded: seq<ManagedFile>, target: Target)
    requires Selects(target, Claude) ==> Inspect(seen, AGENTS_FILE) == Inspect(tree, AGENTS_FILE)
    ensures BridgeAvailable(seen, target) == BridgeAvailable(tree, target)
    ensures BridgeConflicts(seen, recorded, target) == BridgeConflicts(tree, recorded, target)
    ensures BridgeManual(seen, recorded, target) == BridgeManual(tree, recorded, target)
  {
    hide Find;
  }

  /** All that a plan is made of. */
  lemma PlanParts(b: Bundle, seen: Tree, tree: Tree, target: Target)
    requires Inspect(seen, MANIFEST_PATH) == Inspect(tree, MANIFEST_PATH)
    requires var recorded := Records(b, seen);
      && BridgeAvailable(seen, target) == BridgeAvailable(tree, target)
      && BridgeConflicts(seen, recorded, target) == BridgeConflicts(tree, recorded, target)
      && BridgeManual(seen, recorded, target) == BridgeManual(tree, recorded, target)
      && PlanFiles(seen, recorded, BridgeAvailable(seen, target), DesiredFiles(b, target)) ==
         PlanFiles(tree, recorded, BridgeAvailable(seen, target), DesiredFiles(b, target))
    ensures PlanFor(b, seen, target) == PlanFor(b, tree, target)
  {
    hide PlanFiles, Sort, LoadManifest, NextManifest, ManifestAction, ManifestConflicts, DesiredFiles, BridgeAvailable,
      BridgeConflicts, BridgeManual, McpActions, Inspect;
  }

  /** A plan depends on nothing but what it looks at. */
  lemma PlanOfSeen(b: Bundle, seen: Tree, tree: Tree, target: Target)
    requires SeenAlike(b, seen, tree, target)
    ensures PlanFor(b, seen, target) == PlanFor(b, tree, target)
  {
    hide PlanFor, PlanFiles, LoadManifest, DesiredFiles, Skipped, BridgeAvailable, BridgeConflicts, BridgeManual,
      Inspect;
    assert LookedAt(b, seen, target, MANIFEST_PATH);
    assert Selects(target, Claude) ==> LookedAt(b, seen, target, AGENTS_FILE);
    BridgeAlike(seen, tree, Records(b, seen), target);
    var available := BridgeAvailable(seen, target);
    forall f | f in DesiredFiles(b, target) && !Skipped(available, f)
      ensures Inspect(seen, f.path) == Inspect(tree, f.path)
    {
      assert LookedAt(b, seen, target, f.path);
    }
    FilesAlike(seen, tree, Records(b, seen), available, DesiredFiles(b, target));
    PlanParts(b, seen, tree, target);
  }

  /** Whatever reads as unsafe makes the plan unsafe. */
  lemma UnsafeIsRefused(b: Bundle, seen: Tree, target: Target, path: Path)
    requires ValidBundle(b) && LookedAt(b, seen, target, path) && Inspect(seen, path).Unsafe?
    ensures !PlanFor(b, seen, target).safe
  {
    hide PlanFor, ValidBundle, DesiredFiles, Desired, LoadManifest, Find;
    SafePlans(b, seen, target);
    if path != MANIFEST_PATH && !(path == AGENTS_FILE && Selects(target, Claude)) {
      var f :| f in DesiredFiles(b, target) && !Skipped(BridgeAvailable(seen, target), f) && f.path == path;
      DesiredMembers(b, target, f);
      assert Takes(b, seen, target, f);
    }
  }

  // ---------- The planner's tree of a disk ----------

  function LeafPaths(tree: SourceWalk.Tree): set<Path> {
    match tree
    case File(_) => {[]}
    case Directory(children) => set name, q | name in children && q in LeafPaths(children[name]) :: [name] + q
    case _ => {}
  }

  lemma {:induction false} FilesAreLeaves(tree: SourceWalk.Tree, path: Path)
    requires SourceWalk.Look(tree, path).Some? && SourceWalk.Look(tree, path).value.File?
    ensures path in LeafPaths(tree)
    decreases path
  {
    if path != [] {
      FilesAreLeaves(tree.children[path[0]], path[1..]);
      assert path == [path[0]] + path[1..];
    }
  }

  function FixedPaths(b: Bundle): set<Path> {
    {MANIFEST_PATH, AGENTS_FILE} + set f | f in DesiredFiles(b, All) :: f.path
  }

  /** The files of the disk and what stands at the fixed paths, as the planner's model has them. */
  function TreeOn(d: Disk, b: Bundle): Tree {
    map path | path in LeafPaths(SourceOnDisk.ProjectTree(d)) + FixedPaths(b) && path != [] :: InspectionOf(d, path)
  }

  lemma FilesAreSeen(d: Disk, path: Path)
    requires TreeShaped(d) && d.nodes[d.root].Directory? && FileAt(d, path).Some?
    ensures path in LeafPaths(SourceOnDisk.ProjectTree(d))
  {
    var tree := SourceOnDisk.ProjectTree(d);
    SourceOnDisk.ProjectTreeRepresents(d);
    SourceOnDisk.TreeLookup(d, d.root, tree, path);
    SourceOnDisk.FileAtIsBelow(d, path, FileAt(d, path).value);
    hide SourceOnDisk.ProjectTree, SourceOnDisk.Represents, SourceOnDisk.NodeBelow, FileAt;
    FilesAreLeaves(tree, path);
  }

  lemma InspectionMeans(d: Disk, path: Path)
    requires path != []
    ensures match InspectionOf(d, path)
      case Regular(contents, id) => EntryAt(d, path) == Some(id) && id in d.nodes && d.nodes[id] == Node.File(contents)
      case Missing => EntryAt(d, path).None? && !OpenPaths.Blocked(d, d.root, Parent(path))
      case Unsafe => FileAt(d, path).None?
  {
    if EntryAt(d, path).Some? {
      OpenPaths.EntryIsUnblocked(d, path);
    }
  }

  /** The planner's tree of a disk is a true picture of it. */
  lemma TreeOnIsSeen(d: Disk, b: Bundle)
    requires TreeShaped(d) && d.nodes[d.root].Directory?
    ensures SeenOn(d, TreeOn(d, b))
    ensures forall path :: path in FixedPaths(b) ==> MissingOn(d, TreeOn(d, b), path)
    ensures forall path :: path in FixedPaths(b) && path != [] ==> Inspect(TreeOn(d, b), path) == InspectionOf(d, path)
  {
    hide LeafPaths, SourceOnDisk.ProjectTree, FixedPaths, InspectionOf, TreeShaped, EntryAt, FileAt;
    forall path: Path | path != []
      ensures match Inspect(TreeOn(d, b), path)
        case Regular(contents, id) =>
          EntryAt(d, path) == Some(id) && id in d.nodes && d.nodes[id] == Node.File(contents)
        case Missing => FileAt(d, path).None?
        case Unsafe => FileAt(d, path).None?
      ensures path in FixedPaths(b) ==> MissingOn(d, TreeOn(d, b), path)
    {
      InspectionMeans(d, path);
      if FileAt(d, path).Some? {
        FilesAreSeen(d, path);
      }
      NoFileWithoutEntry(d, path);
    }
  }

  lemma NoFileWithoutEntry(d: Disk, path: Path)
    ensures EntryAt(d, path).None? ==> FileAt(d, path).None?
  {
  }

  // ---------- The whole of sync ----------

  lemma LookedAtIsFixed(b: Bundle, seen: Tree, target: Target, path: Path)
    requires InstallableBundle(b) && LookedAt(b, seen, target, path)
    ensures path in FixedPaths(b) && ValidRelative(path) && path != []
  {
    hide ValidBundle, DesiredFiles, Desired;
    FixedPathsAreValid();
    assert IsNormal("AGENTS.md");
    if path != MANIFEST_PATH && path != AGENTS_FILE {
      var f :| f in DesiredFiles(b, target) && !Skipped(BridgeAvailable(seen, target), f) && f.path == path;
      DesiredFits(b, target, f);
    }
  }

  lemma DesiredFits(b: Bundle, target: Target, f: DesiredFile)
    requires InstallableBundle(b) && f in DesiredFiles(b, target)
    ensures f.path in FixedPaths(b) && f.path != [] && f.path != MANIFEST_PATH && f.path != AGENTS_FILE
    ensures IsTarget(b, f.path) && ValidRelative(f.path)
  {
    hide DesiredFiles, InstallableBundle;
    DesiredMembers(b, target, f);
    DesiredMembers(b, All, f);
    assert Desired(b, All, f) && IsTarget(b, f.path);
    TargetsAreValid(b, f.path);
    DesiredIsNotFixed(b, f);
  }

  lemma DesiredIsNotFixed(b: Bundle, f: DesiredFile)
    requires Desired(b, All, f)
    ensures f.path != [] && f.path != MANIFEST_PATH && f.path != AGENTS_FILE
  {
    FirstComponentsDiffer();
    assert "CLAUDE.md"[0] != "AGENTS.md"[0];
    if f != Bridge(b) {
      var a :| a in b.assets && f == Projection(f.client, a);
      assert f.path[0] == ProjectionRoot(f.client)[0];
      assert |f.path| >= 2;
    }
  }

  /** Everything looked at so far was seen right. */
  ghost predicate SeenSoFar(b: Bundle, d: Disk, seen: Tree, target: Target, files: seq<DesiredFile>, failed: bool) {
    && SeenRight(d, MANIFEST_PATH, Inspect(seen, MANIFEST_PATH), failed)
    && (Selects(target, Claude) ==> SeenRight(d, AGENTS_FILE, Inspect(seen, AGENTS_FILE), failed))
    && (forall f :: f in files && !Skipped(BridgeAvailable(seen, target), f) && f.path != [] ==>
          SeenRight(d, f.path, Inspect(seen, f.path), failed))
  }

  lemma SeenFirst(b: Bundle, d: Disk, seen: Tree, target: Target, failed: bool)
    requires MANIFEST_PATH in seen && SeenRight(d, MANIFEST_PATH, seen[MANIFEST_PATH], failed)
    requires Selects(target, Claude) ==> AGENTS_FILE in seen && SeenRight(d, AGENTS_FILE, seen[AGENTS_FILE], failed)
    ensures SeenSoFar(b, d, seen, target, [], failed)
  {
    hide SeenRight;
  }

  lemma OneMoreSkipped(b: Bundle, d: Disk, seen: Tree, target: Target, files: seq<DesiredFile>, failed: bool,
                       f: DesiredFile)
    requires SeenSoFar(b, d, seen, target, files, failed) && Skipped(BridgeAvailable(seen, target), f)
    ensures SeenSoFar(b, d, seen, target, files + [f], failed)
  {
    hide SeenRight, Skipped, BridgeAvailable, Inspect;
  }

  lemma SeenStays(d: Disk, path: Path, seen: Inspection, failed: bool, failed': bool)
    requires path != [] && SeenRight(d, path, seen, failed) && (failed ==> failed')
    ensures SeenRight(d, path, seen, failed')
  {
    hide InspectionOf;
  }

  lemma OneMoreSeen(b: Bundle, d: Disk, seen: Tree, target: Target, files: seq<DesiredFile>, failed: bool,
                    f: DesiredFile, state: Inspection, failed': bool)
    requires SeenSoFar(b, d, seen, target, files, failed) && (failed ==> failed')
    requires f.path != [] && f.path != MANIFEST_PATH && f.path != AGENTS_FILE
    requires SeenRight(d, f.path, state, failed')
    ensures BridgeAvailable(seen[f.path := state], target) == BridgeAvailable(seen, target)
    ensures SeenSoFar(b, d, seen[f.path := state], target, files + [f], failed')
  {
    hide InspectionOf;
  }

  /** An inspection as a part of several. */
  method InspectNext(p: Publisher, path: Path, ghost faults: nat) returns (state: Option<Inspection>)
    requires p.fs.Valid() && ValidRelative(path) && path != [] && faults <= p.fs.faults
    modifies p.fs`disk, p.fs`next, p.fs`log, p.fs`faults
    ensures p.fs.Valid() && old(p.fs.faults) <= p.fs.faults
    ensures !p.fs.shared ==> p.fs.disk == old(p.fs.disk)
    ensures !p.fs.shared && p.fs.faults == old(p.fs.faults) ==> state.Some?
    ensures !p.fs.shared && state.Some? ==> SeenRight(p.fs.disk, path, state.value, p.fs.faults > faults)
  {
    hide FileSystem.Valid, KindsKept, InspectionOf, ValidRelative;
    var result := InspectPath(p, path);
    state := if result.Ok? then Some(result.value) else None;
  }

  /** The inspections of `build_plan` before its loop. */
  method SeeFirst(p: Publisher, b: Bundle, target: Target) returns (seen: Option<Tree>)
    requires p.fs.Valid()
    modifies p.fs`disk, p.fs`next, p.fs`log, p.fs`faults
    ensures p.fs.Valid() && old(p.fs.faults) <= p.fs.faults
    ensures !p.fs.shared ==> p.fs.disk == old(p.fs.disk)
    ensures !p.fs.shared && p.fs.faults == old(p.fs.faults) ==> seen.Some?
    ensures !p.fs.shared && seen.Some? ==>
      SeenSoFar(b, p.fs.disk, seen.value, target, [], p.fs.faults > old(p.fs.faults))
  {
    FixedPathsAreValid();
    InstructionsAreValid();
    hide FileSystem.Valid, KindsKept, InspectionOf, ValidRelative, SeenSoFar, SeenRight, MANIFEST_PATH, AGENTS_FILE;
    ghost var faults := p.fs.faults;
    var manifest := InspectNext(p, MANIFEST_PATH, faults);
    if manifest.None? {
      return None;
    }
    var tree: Tree := map[MANIFEST_PATH := manifest.value];
    if Selects(target, Claude) {
      ghost var failed := p.fs.faults > faults;
      var agents := InspectNext(p, AGENTS_FILE, faults);
      if agents.None? {
        return None;
      }
      if !p.fs.shared {
        SeenStays(p.fs.disk, MANIFEST_PATH, manifest.value, failed, p.fs.faults > faults);
      }
      tree := tree[AGENTS_FILE := agents.value];
    }
    if !p.fs.shared {
      SeenFirst(b, p.fs.disk, tree, target, p.fs.faults > faults);
    }
    seen := Some(tree);
  }

  lemma InstructionsAreValid()
    ensures ValidRelative(AGENTS_FILE) && AGENTS_FILE != [] && MANIFEST_PATH != [] && AGENTS_FILE != MANIFEST_PATH
  {
    assert IsNormal("AGENTS.md");
  }

  /** The inspections of `build_plan`. */
  method See(p: Publisher, b: Bundle, target: Target) returns (seen: Option<Tree>)
    requires p.fs.Valid() && InstallableBundle(b)
    modifies p.fs`disk, p.fs`next, p.fs`log, p.fs`faults
    ensures p.fs.Valid() && old(p.fs.faults) <= p.fs.faults
    ensures !p.fs.shared ==> p.fs.disk == old(p.fs.disk)
    ensures !p.fs.shared && p.fs.faults == old(p.fs.faults) ==> seen.Some?
    ensures !p.fs.shared && seen.Some? ==>
      SeenSoFar(b, p.fs.disk, seen.value, target, DesiredFiles(b, target), p.fs.faults > old(p.fs.faults))
  {
    hide FileSystem.Valid, KindsKept, InstallableBundle, InspectionOf, DesiredFiles, ValidRelative, Skipped, SeenSoFar,
      SeenRight, BridgeAvailable, MANIFEST_PATH, AGENTS_FILE;
    ghost var faults := p.fs.faults;
    seen := SeeFirst(p, b, target);
    if seen.None? {
      return;
    }
    var tree := seen.value;
    var available := BridgeAvailable(tree, target);
    var desired := DesiredFiles(b, target);
    for k := 0 to |desired|
      invariant p.fs.Valid() && faults <= p.fs.faults
      invariant !p.fs.shared ==> p.fs.disk == old(p.fs.disk)
      invariant available == BridgeAvailable(tree, target)
      invariant !p.fs.shared ==> SeenSoFar(b, p.fs.disk, tree, target, desired[..k], p.fs.faults > faults)
    {
      var f := desired[k];
      TakeOneMore(desired, k);
      assert f in desired;
      ghost var failed := p.fs.faults > faults;
      if Skipped(available, f) {
        if !p.fs.shared {
          OneMoreSkipped(b, p.fs.disk, tree, target, desired[..k], failed, f);
        }
        continue;
      }
      DesiredFits(b, target, f);
      var state := InspectNext(p, f.path, faults);
      if state.None? {
        return None;
      }
      BridgeKept(tree, target, f.path, state.value);
      if !p.fs.shared {
        OneMoreSeen(b, p.fs.disk, tree, target, desired[..k], failed, f, state.value, p.fs.faults > faults);
      }
      tree := tree[f.path := state.value];
    }
    TakeAll(desired);
    seen := Some(tree);
  }

  lemma BridgeKept(tree: Tree, target: Target, path: Path, state: Inspection)
    requires path != AGENTS_FILE
    ensures BridgeAvailable(tree[path := state], target) == BridgeAvailable(tree, target)
  {
  }

  /** What was seen is the planner's tree of the disk, unless a call failed and the plan is not safe. */
  lemma SeenIsTree(b: Bundle, d: Disk, seen: Tree, target: Target, failed: bool)
    requires InstallableBundle(b) && TreeShaped(d) && d.nodes[d.root].Directory?
    requires SeenSoFar(b, d, seen, target, DesiredFiles(b, target), failed)
    ensures PlanFor(b, seen, target) == PlanFor(b, TreeOn(d, b), target) || (failed && !PlanFor(b, seen, target).safe)
  {
    hide PlanFor, TreeOn, InspectionOf, DesiredFiles, Skipped, BridgeAvailable, FixedPaths, Inspect, TreeShaped, SeenOn,
      MissingOn, MANIFEST_PATH, AGENTS_FILE;
    TreeOnIsSeen(d, b);
    if exists path :: LookedAt(b, seen, target, path) && Inspect(seen, path) != Inspect(TreeOn(d, b), path) {
      var path :| LookedAt(b, seen, target, path) && Inspect(seen, path) != Inspect(TreeOn(d, b), path);
      LookedAtIsFixed(b, seen, target, path);
      assert SeenRight(d, path, Inspect(seen, path), failed);
      UnsafeIsRefused(b, seen, target, path);
    } else {
      PlanOfSeen(b, seen, TreeOn(d, b), target);
    }
  }

  lemma RequestsArePlanned(b: Bundle, tree: Tree, target: Target, planned: set<string>)
    requires InstallableBundle(b) && forall path, c :: IsTarget(b, path) && c in path ==> c in planned
    ensures forall r, c :: r in Requests(PlanFor(b, tree, target)) && c in r.path ==> c in planned
  {
    hide PlanFor, IsTarget, Requests, InstallOrder;
    forall r | r in Requests(PlanFor(b, tree, target)) ensures IsTarget(b, r.path) {
      var a := WriteOfRequest(PlanFor(b, tree, target), r);
      InstallOrderMembers(b, tree, target);
      WritesAreTargets(b, tree, target, a);
    }
  }

  lemma TargetsAreMissing(b: Bundle, d: Disk)
    requires InstallableBundle(b) && TreeShaped(d) && d.nodes[d.root].Directory?
    ensures SeenOn(d, TreeOn(d, b)) && forall path :: IsTarget(b, path) ==> MissingOn(d, TreeOn(d, b), path)
  {
    TreeOnIsSeen(d, b);
    hide TreeOn, TreeShaped, SeenOn, MissingOn;
    forall path | IsTarget(b, path) ensures path in FixedPaths(b) {
      if path != MANIFEST_PATH {
        var f :| Desired(b, All, f) && f.path == path;
        DesiredMembers(b, All, f);
      }
    }
  }

  /** `sync`. The plan is made of what is seen, and published if it is the approved one and safe. Without other
      processes all is as the planner's model has it on the tree of the disk. */
  method Sync(p: Publisher, b: Bundle, target: Target, approved: PlanDigest)
    returns (result: SyncResult, ghost leaked: bool, ghost undone: bool)
    requires p.fs.Valid() && p.staged == [] && InstallableBundle(b)
    requires forall path, c :: IsTarget(b, path) && c in path ==> c in p.planned
    requires !p.fs.shared ==>
      TreeShaped(p.fs.disk) && Rooted(p.fs.disk) && p.fs.disk.nodes[p.fs.disk.root].Directory?
    modifies p, p.fs
    ensures p.fs.Valid() && old(p.fs.faults) <= p.fs.faults
    ensures result.Synchronized? ==> exists seen ::
      approved == DigestOf(PlanFor(b, seen, target)) && PlanFor(b, seen, target).safe
    ensures !p.fs.shared && result.Synchronized? ==>
      && var tree := TreeOn(old(p.fs.disk), b);
      && var plan := PlanFor(b, tree, target);
      && plan.safe && approved == DigestOf(plan) && result.writes == |Writes(plan)|
      && (forall ids :: Mirrors(Swept(p.fs.disk, p.staged), Synced(b, tree, target, ids)))
      && (undone ==> Swept(p.fs.disk, p.staged) == p.fs.disk)
      && (Writes(plan) == [] ==> p.fs.disk == old(p.fs.disk))
    ensures !p.fs.shared && result.SyncFailed? && undone && !leaked ==>
      Mirrors(p.fs.disk, TreeOn(old(p.fs.disk), b))
    ensures !p.fs.shared && result.SyncFailed? && !result.error.PublicationFailed? ==>
      undone && p.fs.disk == old(p.fs.disk)
    // what comes of a sync in which no call fails
    ensures !p.fs.shared && p.fs.faults == old(p.fs.faults) ==>
      && var plan := PlanFor(b, TreeOn(old(p.fs.disk), b), target);
      && undone && result ==
           if approved != DigestOf(plan) then SyncFailed(StaleDigest)
           else if !plan.safe then SyncFailed(Refused(|plan.conflicts|))
           else Synchronized(|Writes(plan)|)
    // a failed sync is made good unless two calls fail, or the `fstat` of a new file
    ensures !p.fs.shared && result.SyncFailed? && p.fs.faults <= old(p.fs.faults) + 1 ==> undone
    ensures !p.fs.shared && leaked ==> p.fs.statFaults > old(p.fs.statFaults)
  {
    hide FileSystem.Valid, KindsKept, InstallableBundle, TreeShaped, Rooted, PlanFor, DesiredFiles, SeenSoFar, TreeOn,
      IsTarget, MissingOn, SeenOn, DigestOf, Mirrors, Swept, Synced, Requests;
    leaked, undone := false, true;
    ghost var d0 := p.fs.disk;
    if !p.fs.shared {
      TargetsAreMissing(b, d0);
      SeenMirrors(d0, TreeOn(d0, b));
    }
    ghost var faults := p.fs.faults;
    var seen := See(p, b, target);
    if seen.None? {
      return SyncFailed(InspectionFailed), leaked, undone;
    }
    if !p.fs.shared {
      SeenIsTree(b, d0, seen.value, target, p.fs.faults > faults);
    }
    var plan := BuildPlan(b, seen.value, target);
    if approved != DigestOf(plan) {
      return SyncFailed(StaleDigest), leaked, undone;
    }
    if !plan.safe {
      return SyncFailed(Refused(|plan.conflicts|)), leaked, undone;
    }
    ghost var tree := if p.fs.shared then seen.value else TreeOn(d0, b);
    RequestsArePlanned(b, tree, target, p.planned);
    result, leaked, undone := PublishPlan(p, b, plan, tree, target);
  }
}
