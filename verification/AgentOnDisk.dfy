/** The planner and the publisher together: what a sync does to the files of a disk is what the planner's model
    of a sync says (crates/minco-cli/src/agent_cmd.rs, `sync`). */
module AgentOnDisk {
  import opened Disks
  import opened DiskPaths
  import opened FileSystems
  import OpenPaths
  import opened TreeShapes
  import opened Options
  import opened Paths
  import opened Sorting
  import opened AgentStaging
  import opened AgentReadiness
  import opened AgentTracking
  import opened AgentPublication
  import opened AgentPlan
  import opened AgentPlanFacts
  import opened AgentSync
  import opened AgentRuns

  /** The requests that `sync` makes of the publisher. */
  function RequestFor(a: PlanAction): WriteRequest {
    WriteRequest(a.path, a.contents, a.expected)
  }

  function Requests(plan: Plan): (r: seq<WriteRequest>)
    ensures |r| == |Writes(plan)| && forall k :: 0 <= k < |r| ==> r[k] == RequestFor(Writes(plan)[k])
  {
    seq(|Writes(plan)|, k requires 0 <= k < |Writes(plan)| => RequestFor(Writes(plan)[k]))
  }

  /** The files of the disk are those of the tree. */
  ghost predicate Mirrors(d: Disk, tree: Tree) {
    forall p :: p != [] ==> FileAt(d, p) == ContentAt(tree, p)
  }

  // ---------- Publication by path ----------

  /** Publishing changes no directory. */
  lemma SameDirectories(base: Disk, d: Disk, staged: seq<StagedWrite>, s: Slot)
    requires Published(base, d, staged) && DirectoriesKept(base, d) && WellFormed(base)
    ensures NodeAt(d, s) == Some(Directory) <==> NodeAt(base, s) == Some(Directory)
    ensures NodeAt(base, s) == Some(Directory) ==> d.names[s] == base.names[s]
  {
    if forall w :: w in staged ==> w.Target() != s {
      assert IdentityAt(d, s) == IdentityAt(base, s);
      assert s in base.names ==> base.names[s] in base.nodes;
    }
  }

  lemma {:induction false} SameDescent(base: Disk, d: Disk, staged: seq<StagedWrite>, dir: Inode, path: Path)
    requires Published(base, d, staged) && DirectoriesKept(base, d) && WellFormed(base)
    ensures Descend(d, dir, path) == Descend(base, dir, path)
    decreases path
  {
    if path != [] {
      var s := Slot(dir, path[0]);
      SameDirectories(base, d, staged, s);
      if NodeAt(base, s) == Some(Directory) {
        SameDescent(base, d, staged, base.names[s], path[1..]);
      }
    }
  }

  /** A requested path holds the requested bytes. */
  lemma RequestedFile(d0: Disk, base: Disk, d: Disk, requests: seq<WriteRequest>, staged: seq<StagedWrite>,
                      r: WriteRequest)
    requires PublishedOk(d0, base, d, requests, staged) && r in requests && r.path != []
    ensures FileAt(d, r.path) == Some(r.contents)
  {
    var w :| w in staged && PublishedAt(d, w, r);
    assert IdentityAt(d, w.Target()) == Some(w.stagedIdentity);
    hide Descend;
  }

  /** No other path changes. */
  lemma OtherFile(d0: Disk, base: Disk, d: Disk, requests: seq<WriteRequest>, staged: seq<StagedWrite>, p: Path)
    requires PublishedOk(d0, base, d, requests, staged) && TreeShaped(d0) && Rooted(d0)
    requires p != [] && forall r :: r in requests ==> r.path != p
    ensures FileAt(d, p) == FileAt(d0, p)
  {
    OnlyDirectoriesKeep(d0, base);
    TreeShapeKept(d0, base);
    SameDescent(base, d, staged, base.root, Parent(p));
    assert SlotOf(d, p) == SlotOf(base, p);
    if SlotOf(base, p).Some? {
      var s := SlotOf(base, p).value;
      forall w | w in staged ensures w.Target() != s {
        NotItsTarget(d0, base, d, requests, staged, p, w);
      }
      assert IdentityAt(d, s) == IdentityAt(base, s);
      assert s in base.names ==> base.names[s] in base.nodes;
      assert FileAt(d, p) == FileAt(base, p);
      KeepsDirectories(d0, base);
      EntriesBeforeDirectories(d0, base, p);
    } else {
      NoSlotBefore(d0, base, p);
    }
  }

  lemma NoSlotBefore(d0: Disk, base: Disk, p: Path)
    requires Keeps(d0, base) && p != [] && SlotOf(base, p).None?
    ensures FileAt(d0, p).None?
  {
    KeepsDirectories(d0, base);
    if SlotOf(d0, p).Some? {
      DescendKept(d0, base, d0.root, Parent(p));
    }
  }

  lemma PublishedSlot(base: Disk, d: Disk, w: StagedWrite, r: WriteRequest)
    requires PublishedAt(d, w, r) && d.root == base.root
    requires Descend(d, base.root, Parent(r.path)) == Descend(base, base.root, Parent(r.path))
    ensures r.path != [] && SlotOf(base, r.path) == Some(w.Target())
  {
  }

  lemma NotItsTarget(d0: Disk, base: Disk, d: Disk, requests: seq<WriteRequest>, staged: seq<StagedWrite>, p: Path,
                     w: StagedWrite)
    requires PublishedOk(d0, base, d, requests, staged) && TreeShaped(base) && w in staged
    requires p != [] && SlotOf(base, p).Some? && forall r :: r in requests ==> r.path != p
    ensures w.Target() != SlotOf(base, p).value
  {
    var r :| r in requests && PublishedAt(d, w, r);
    hide Widened, WellFormed, Published, DirectoriesKept, TreeShaped;
    SameDescent(base, d, staged, base.root, Parent(r.path));
    PublishedSlot(base, d, w, r);
    hide PublishedAt, Descend;
    if SlotOf(base, p) == SlotOf(base, r.path) {
      OneSlot(base, p, r.path);
    }
  }

  // ---------- Sync ----------

  lemma RequestOfWrite(plan: Plan, a: PlanAction)
    requires a in InstallOrder(plan)
    ensures RequestFor(a) in Requests(plan)
  {
    SamePermutation(Writes(plan), InstallOrder(plan));
    var k :| 0 <= k < |Writes(plan)| && Writes(plan)[k] == a;
    assert Requests(plan)[k] == RequestFor(a);
  }

  lemma WriteOfRequest(plan: Plan, r: WriteRequest) returns (a: PlanAction)
    requires r in Requests(plan)
    ensures a in InstallOrder(plan) && r == RequestFor(a)
  {
    SamePermutation(Writes(plan), InstallOrder(plan));
    var k :| 0 <= k < |Requests(plan)| && Requests(plan)[k] == r;
    a := Writes(plan)[k];
    assert a in Writes(plan);
  }

  lemma InstalledContent(tree: Tree, order: seq<PlanAction>, ids: Path -> Inode, p: Path)
    requires DistinctBy(order, ActionPath)
    ensures forall a :: a in order && a.path == p ==> ContentAt(Installed(tree, order, ids), p) == Some(a.contents)
    ensures (forall a :: a in order ==> a.path != p) ==>
      ContentAt(Installed(tree, order, ids), p) == ContentAt(tree, p)
  {
    InstalledLookup(tree, order, ids, p);
    hide Installed, DistinctBy;
  }

  /** One file of a disk behind a sync. */
  lemma FileBehindSync(plan: Plan, tree: Tree, ids: Path -> Inode, d0: Disk, base: Disk, d: Disk,
                       staged: seq<StagedWrite>, p: Path)
    requires DistinctBy(InstallOrder(plan), ActionPath) && p != [] && FileAt(d0, p) == ContentAt(tree, p)
    requires TreeShaped(d0) && Rooted(d0) && PublishedOk(d0, base, d, Requests(plan), staged)
    ensures FileAt(d, p) == ContentAt(Installed(tree, InstallOrder(plan), ids), p)
  {
    var order := InstallOrder(plan);
    InstalledContent(tree, order, ids, p);
    hide InstallOrder, Requests, Installed, ContentAt, FileAt, PublishedOk, DistinctBy, TreeShaped, Rooted;
    if a :| a in order && a.path == p {
      RequestOfWrite(plan, a);
      RequestedFile(d0, base, d, Requests(plan), staged, RequestFor(a));
    } else {
      forall r | r in Requests(plan) ensures r.path != p {
        var a := WriteOfRequest(plan, r);
      }
      OtherFile(d0, base, d, Requests(plan), staged, p);
    }
  }

  /** A sync on a disk does to its files what the planner's model of a sync does to the tree. */
  lemma SyncOnDisk(b: Bundle, tree: Tree, target: Target, ids: Path -> Inode,
                   d0: Disk, base: Disk, d: Disk, staged: seq<StagedWrite>)
    requires ValidBundle(b) && PlanFor(b, tree, target).safe && Mirrors(d0, tree) && TreeShaped(d0) && Rooted(d0)
    requires PublishedOk(d0, base, d, Requests(PlanFor(b, tree, target)), staged)
    ensures Mirrors(d, Synced(b, tree, target, ids))
  {
    var plan := PlanFor(b, tree, target);
    InstallOrderMembers(b, tree, target);
    hide PlanFor, ValidBundle, TreeShaped, Rooted, PublishedOk, FileAt, Installed, InstallOrder, DistinctBy;
    forall p | p != [] ensures FileAt(d, p) == ContentAt(Synced(b, tree, target, ids), p) {
      FileBehindSync(plan, tree, ids, d0, base, d, staged, p);
    }
  }

  /** A publication that failed and was undone leaves the files as they were. */
  lemma SyncUndoneOnDisk(tree: Tree, d0: Disk, d: Disk)
    requires Mirrors(d0, tree) && Widened(d0, d) && WellFormed(d0) && Rooted(d0)
    ensures Mirrors(d, tree)
  {
    OnlyDirectoriesKeep(d0, d);
    forall p | p != [] ensures FileAt(d, p) == FileAt(d0, p) {
      if SlotOf(d, p).Some? {
        KeepsDirectories(d0, d);
        EntriesBeforeDirectories(d0, d, p);
      } else {
        NoSlotBefore(d0, d, p);
      }
    }
  }

  /** The tree holds the files of `d` with their identities, and no others. */
  ghost predicate SeenOn(d: Disk, tree: Tree) {
    forall p :: p != [] ==>
      match Inspect(tree, p)
      case Regular(contents, id) => EntryAt(d, p) == Some(id) && id in d.nodes && d.nodes[id] == File(contents)
      case Missing => FileAt(d, p).None?
      case Unsafe => FileAt(d, p).None?
  }

  /** What `inspect` reports as missing is missing, with nothing in the way of it. */
  ghost predicate MissingOn(d: Disk, tree: Tree, p: Path) {
    p != [] && Inspect(tree, p).Missing? ==> EntryAt(d, p).None? && !OpenPaths.Blocked(d, d.root, Parent(p))
  }

  lemma SeenMirrors(d: Disk, tree: Tree)
    requires SeenOn(d, tree)
    ensures Mirrors(d, tree)
  {
    forall p | p != [] ensures FileAt(d, p) == ContentAt(tree, p) {
      hide SlotOf;
    }
  }

  /** Every action expects what the plan was made on. */
  lemma ActionExpects(b: Bundle, tree: Tree, target: Target, a: PlanAction)
    requires ValidBundle(b) && a in PlanFor(b, tree, target).actions
    ensures a.expected == ExpectedFor(Inspect(tree, a.path)) && a.path != []
  {
    PlanActions(b, tree, target);
    if f :| Takes(b, tree, target, f) && a == ActionAt(b, tree, f) {
      TakenIsDesired(b, tree, target, f);
      DesiredHasPath(b, target, f);
    }
    hide PlanFor, ValidBundle, Takes;
  }

  lemma DesiredHasPath(b: Bundle, target: Target, f: DesiredFile)
    requires Desired(b, target, f)
    ensures f.path != []
  {
  }

  lemma PlanKnowsItsFiles(b: Bundle, tree: Tree, target: Target, d: Disk)
    requires ValidBundle(b) && SeenOn(d, tree)
    ensures KnowsItsFiles(Requests(PlanFor(b, tree, target)), d)
  {
    var plan := PlanFor(b, tree, target);
    hide PlanFor, ValidBundle;
    forall r | r in Requests(plan) && r.expected.ExpectRegular? ensures r.expected.identity in d.nodes {
      var a := WriteOfRequest(plan, r);
      SamePermutation(Writes(plan), InstallOrder(plan));
      assert a in Writes(plan) && a in plan.actions;
      ActionExpects(b, tree, target, a);
    }
  }

  // ---------- Safe plans can be published ----------

  /** The compiled-in assets have paths that can stand beside each other. */
  ghost predicate InstallableBundle(b: Bundle) {
    && ValidBundle(b)
    && (forall a :: a in b.assets ==> ValidRelative(a.path))
    && (forall x, y :: x in b.assets && y in b.assets ==> !(x.path < y.path))
  }

  ghost predicate IsTarget(b: Bundle, p: Path) {
    p == MANIFEST_PATH || exists f :: Desired(b, All, f) && f.path == p
  }

  lemma FixedPathsAreValid()
    ensures ValidRelative(MANIFEST_PATH) && ValidRelative(CLAUDE_BRIDGE)
    ensures forall client :: ValidRelative(ProjectionRoot(client))
  {
    assert IsNormal(".minco") && IsNormal("agent-manifest.json") && IsNormal("CLAUDE.md");
    assert IsNormal(".claude") && IsNormal(".agents") && IsNormal("skills");
  }

  lemma TargetsAreValid(b: Bundle, p: Path)
    requires InstallableBundle(b) && IsTarget(b, p)
    ensures ValidRelative(p)
  {
    FixedPathsAreValid();
    if p != MANIFEST_PATH {
      var f :| Desired(b, All, f) && f.path == p;
      if f != Bridge(b) {
        var a :| a in b.assets && f == Projection(f.client, a);
        forall c | c in p ensures IsNormal(c) {
          assert c in ProjectionRoot(f.client) || c in a.path;
        }
      }
    }
  }

  lemma FirstComponentsDiffer()
    ensures MANIFEST_PATH[0] != CLAUDE_BRIDGE[0]
    ensures forall client ::
      ProjectionRoot(client)[0] != MANIFEST_PATH[0] && ProjectionRoot(client)[0] != CLAUDE_BRIDGE[0]
    ensures ProjectionRoot(Claude)[0] != ProjectionRoot(Codex)[0]
  {
    assert ".minco"[0] != "CLAUDE.md"[0] && ".claude"[0] != "CLAUDE.md"[0] && ".agents"[0] != "CLAUDE.md"[0];
    assert ".minco"[1] != ".claude"[1] && ".minco"[1] != ".agents"[1] && ".claude"[1] != ".agents"[1];
  }

  lemma LongerAsset(x: Asset, y: Asset, c: Client, d: Client)
    requires ProjectionRoot(c) + x.path < ProjectionRoot(d) + y.path
    ensures x.path < y.path
  {
    var p, q := ProjectionRoot(c) + x.path, ProjectionRoot(d) + y.path;
    assert x.path == p[2..] && y.path == q[2..] && p == q[..|p|];
    assert q[..|p|][2..] == q[2..][..|p| - 2];
  }

  /** No target lies on the way to another. */
  lemma TargetsApart(b: Bundle, p: Path, q: Path)
    requires InstallableBundle(b) && IsTarget(b, p) && IsTarget(b, q)
    ensures !(p < q)
  {
    FirstComponentsDiffer();
    ShortTargets(b, p);
    ShortTargets(b, q);
    assert p < q ==> p[0] == q[0];
    if |p| > 2 && |q| > 2 {
      var x, c :| x in b.assets && p == ProjectionRoot(c) + x.path;
      var y, d :| y in b.assets && q == ProjectionRoot(d) + y.path;
      if p < q {
        LongerAsset(x, y, c, d);
      }
    }
  }

  lemma ShortTargets(b: Bundle, p: Path)
    requires InstallableBundle(b) && IsTarget(b, p)
    ensures p == MANIFEST_PATH || p == CLAUDE_BRIDGE ||
      (|p| > 2 && exists a, c :: a in b.assets && p == ProjectionRoot(c) + a.path)
  {
    if p != MANIFEST_PATH {
      var f :| Desired(b, All, f) && f.path == p;
      if f != Bridge(b) {
        var a :| a in b.assets && f == Projection(f.client, a);
        assert p == ProjectionRoot(f.client) + a.path;
      }
    }
  }

  lemma WriteOfFile(b: Bundle, tree: Tree, f: DesiredFile)
    ensures ActionAt(b, tree, f).path == f.path
    ensures IsWrite(ActionAt(b, tree, f)) ==> !ActionAt(b, tree, f).expected.ExpectUnsafe?
  {
  }

  lemma WriteOfManifest(b: Bundle, state: Inspection, next: Manifest)
    ensures ManifestAction(b, state, next).path == MANIFEST_PATH
    ensures IsWrite(ManifestAction(b, state, next)) ==> !ManifestAction(b, state, next).expected.ExpectUnsafe?
  {
  }

  lemma WritesAreTargets(b: Bundle, tree: Tree, target: Target, a: PlanAction)
    requires ValidBundle(b) && a in PlanFor(b, tree, target).actions && IsWrite(a)
    ensures IsTarget(b, a.path) && !a.expected.ExpectUnsafe?
  {
    hide PlanFor, ValidBundle, Takes, Desired, LoadManifest, ActionAt, ManifestAction, IsWrite, DistinctBy;
    PlanActions(b, tree, target);
    WriteOfManifest(b, Inspect(tree, MANIFEST_PATH), PlanFor(b, tree, target).manifest);
    if f :| Takes(b, tree, target, f) && a == ActionAt(b, tree, f) {
      TakenIsDesired(b, tree, target, f);
      WriteOfFile(b, tree, f);
    }
  }

  lemma PlannedRequest(b: Bundle, tree: Tree, target: Target, d: Disk, r: WriteRequest)
    requires InstallableBundle(b) && r in Requests(PlanFor(b, tree, target)) && SeenOn(d, tree)
    requires forall p :: IsTarget(b, p) ==> MissingOn(d, tree, p)
    ensures Possible(d, r) && IsTarget(b, r.path)
  {
    hide PlanFor, InstallOrder, ValidBundle, SeenOn, MissingOn, Possible, IsTarget, Requests;
    var a := WriteOfRequest(PlanFor(b, tree, target), r);
    InstallOrderMembers(b, tree, target);
    ActionExpects(b, tree, target, a);
    WritesAreTargets(b, tree, target, a);
    RequestIsPossible(b, tree, d, r);
  }

  /** A safe plan can be published on the disk that it was made on. */
  lemma SafePlanIsPublishable(b: Bundle, tree: Tree, target: Target, d: Disk)
    requires InstallableBundle(b) && PlanFor(b, tree, target).safe
    requires SeenOn(d, tree) && TreeShaped(d) && Rooted(d) && forall p :: IsTarget(b, p) ==> MissingOn(d, tree, p)
    ensures Publishable(d, Requests(PlanFor(b, tree, target)))
  {
    hide PlanFor, InstallOrder, ValidBundle, TreeShaped, Rooted, SeenOn, MissingOn, Possible, Requests, Writes,
      IsTarget, DistinctBy;
    var plan := PlanFor(b, tree, target);
    var requests := Requests(plan);
    WritesDistinct(b, tree, target);
    PlannedRequestsDistinct(plan);
    forall r | r in requests ensures Possible(d, r) && IsTarget(b, r.path) {
      PlannedRequest(b, tree, target, d, r);
    }
    forall r, s | r in requests && s in requests ensures !(r.path < s.path) {
      TargetsApart(b, r.path, s.path);
    }
  }

  lemma PlannedRequestsDistinct(plan: Plan)
    requires DistinctBy(Writes(plan), ActionPath)
    ensures DistinctBy(Requests(plan), RequestPath)
  {
    var requests, writes := Requests(plan), Writes(plan);
    forall i, j | 0 <= i < j < |requests| ensures RequestPath(requests[i]) != RequestPath(requests[j]) {
      assert ActionPath(writes[i]) != ActionPath(writes[j]);
    }
    hide Requests, Writes;
  }

  lemma WritesDistinct(b: Bundle, tree: Tree, target: Target)
    requires ValidBundle(b)
    ensures DistinctBy(Writes(PlanFor(b, tree, target)), ActionPath)
  {
    PlanActions(b, tree, target);
    FilterKeepsDistinct(PlanFor(b, tree, target).actions, IsWrite, ActionPath);
  }

  lemma RequestIsPossible(b: Bundle, tree: Tree, d: Disk, r: WriteRequest)
    requires InstallableBundle(b) && SeenOn(d, tree) && IsTarget(b, r.path) && MissingOn(d, tree, r.path)
    requires r.expected == ExpectedFor(Inspect(tree, r.path)) && !r.expected.ExpectUnsafe?
    ensures Possible(d, r)
  {
    TargetsAreValid(b, r.path);
    assert r.path != [];
    if r.expected.ExpectRegular? {
      OpenPaths.EntryIsUnblocked(d, r.path);
    }
  }

  // ---------- The whole of sync ----------

  lemma NothingSwept(d: Disk)
    ensures Swept(d, []) == d
  {
    assert d.names - StagingSlots([]) == d.names;
  }

  lemma NothingWritten(b: Bundle, tree: Tree, target: Target, d: Disk)
    requires Writes(PlanFor(b, tree, target)) == [] && Mirrors(d, tree)
    ensures forall ids :: Mirrors(d, Synced(b, tree, target, ids))
  {
    var plan := PlanFor(b, tree, target);
    SamePermutation(Writes(plan), InstallOrder(plan));
    hide PlanFor, Mirrors;
  }

  lemma SyncedForAll(b: Bundle, tree: Tree, target: Target, d0: Disk, base: Disk, d: Disk, staged: seq<StagedWrite>)
    requires ValidBundle(b) && PlanFor(b, tree, target).safe && Mirrors(d0, tree) && TreeShaped(d0) && Rooted(d0)
    requires PublishedOk(d0, base, d, Requests(PlanFor(b, tree, target)), staged)
    ensures forall ids :: Mirrors(d, Synced(b, tree, target, ids))
  {
    hide PlanFor, ValidBundle, TreeShaped, Rooted, Mirrors, Synced, PublishedOk, Requests;
    forall ids ensures Mirrors(d, Synced(b, tree, target, ids)) {
      SyncOnDisk(b, tree, target, ids, d0, base, d, staged);
    }
  }

  datatype SyncError =
    | InspectionFailed | StaleDigest | Refused(conflicts: nat) | PublicationFailed(error: Error)

  datatype SyncResult = Synchronized(writes: nat) | SyncFailed(error: SyncError)

  /** The end of `sync`, with a safe plan for a disk whose files are those of `tree`: it changes the files as the
      planner's model says or not at all, and succeeds unless a call fails. */
  method PublishPlan(p: Publisher, b: Bundle, plan: Plan, ghost tree: Tree, ghost target: Target)
    returns (result: SyncResult, ghost leaked: bool, ghost undone: bool)
    requires p.fs.Valid() && p.staged == [] && InstallableBundle(b)
    requires plan == PlanFor(b, tree, target) && plan.safe
    requires forall r, c :: r in Requests(plan) && c in r.path ==> c in p.planned
    requires !p.fs.shared ==> SeenOn(p.fs.disk, tree) && TreeShaped(p.fs.disk) && Rooted(p.fs.disk)
    modifies p, p.fs
    ensures p.fs.Valid() && old(p.fs.faults) <= p.fs.faults
    ensures if result.Synchronized? then result.writes == |Writes(plan)| else result.error.PublicationFailed?
    ensures !p.fs.shared && result.Synchronized? ==>
      && (forall ids :: Mirrors(Swept(p.fs.disk, p.staged), Synced(b, tree, target, ids)))
      && (undone ==> Swept(p.fs.disk, p.staged) == p.fs.disk)
    ensures !p.fs.shared && result.SyncFailed? && undone && !leaked ==> Mirrors(p.fs.disk, tree)
    ensures !p.fs.shared && Writes(plan) == [] ==> p.fs.disk == old(p.fs.disk)
    ensures (!p.fs.shared && p.fs.faults == old(p.fs.faults) &&
             forall q :: IsTarget(b, q) ==> MissingOn(old(p.fs.disk), tree, q)) ==>
      result.Synchronized? && undone
    // a failed publication is made good unless two calls fail, or the `fstat` of a new file
    ensures !p.fs.shared && p.fs.faults == old(p.fs.faults) ==> undone
    ensures (!p.fs.shared && result.SyncFailed? && p.fs.faults <= old(p.fs.faults) + 1 &&
             forall q :: IsTarget(b, q) ==> MissingOn(old(p.fs.disk), tree, q)) ==>
      undone
    ensures !p.fs.shared && leaked ==> p.fs.statFaults > old(p.fs.statFaults)
  {
    hide FileSystem.Valid, NamesApart, PlanFor, SeenOn, TreeShaped, Rooted, Mirrors, PublishedOk, Swept, AllAccounted,
      DistinctBy, KnowsItsFiles, Publishable, MissingOn, IsTarget, Synced, DigestOf, WellFormed, Widened,
      DirectoriesKept;
    leaked, undone := false, true;
    ghost var d0 := p.fs.disk;
    ValidIsWellFormed(p.fs);
    if !p.fs.shared {
      SeenMirrors(d0, tree);
      PlanKnowsItsFiles(b, tree, target, d0);
    }
    var writes := Writes(plan);
    if writes == [] {
      if !p.fs.shared {
        NothingWritten(b, tree, target, d0);
        NothingSwept(d0);
      }
      return Synchronized(0), leaked, undone;
    }
    if !p.fs.shared && forall q :: IsTarget(b, q) ==> MissingOn(d0, tree, q) {
      SafePlanIsPublishable(b, tree, target, d0);
    }
    var published;
    ghost var base;
    published, base, leaked, undone := p.Publish(Requests(plan));
    ValidIsWellFormed(p.fs);
    if published.Err? {
      if !p.fs.shared && undone && !leaked {
        SyncUndoneOnDisk(tree, d0, p.fs.disk);
      }
      return SyncFailed(PublicationFailed(published.error)), leaked, undone;
    }
    if !p.fs.shared {
      SyncedForAll(b, tree, target, d0, base, Swept(p.fs.disk, p.staged), p.staged);
    }
    return Synchronized(|writes|), leaked, undone;
  }
}
