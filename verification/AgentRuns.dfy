/** Runs of projection syncs: what a crash leaves behind, which files a sync may touch while users
    edit the tree, and what approving a plan digest pins down
    (crates/minco-cli/src/agent_cmd.rs). */
module AgentRuns {
  import opened Disks
  import opened Options
  import opened Paths
  import opened Sorting
  import opened AgentStaging
  import opened AgentPlan
  import opened AgentPlanFacts
  import opened AgentSync

  // ---------- The manifest is written, and last ----------

  lemma WriteLeqIsTotal()
    ensures TotalOrder(WriteLeq)
  {
    PathLeqIsTotalOrder();
  }

  function ManifestWrite(b: Bundle, tree: Tree, target: Target): PlanAction {
    ManifestAction(b, Inspect(tree, MANIFEST_PATH), PlanFor(b, tree, target).manifest)
  }

  /** A manifest that needs no write already records every taken file. */
  lemma UnwrittenManifestRecords(b: Bundle, tree: Tree, target: Target, f: DesiredFile)
    requires ValidBundle(b) && Takes(b, tree, target, f) && ManifestWrite(b, tree, target).kind == Unchanged
    ensures Find(Records(b, tree), f.path) == Some(RecordFor(f))
  {
    hide ValidBundle, PlanFor, Considered, BridgeAvailable, Desired, Increasing, DistinctBy, Records;
    var m := PlanFor(b, tree, target).manifest;
    var state := Inspect(tree, MANIFEST_PATH);
    NextManifestLoads(b, tree, target, state.identity);
    RecordsOf(b, tree, m);
    NextRecords(b, tree, target);
    assert Carries(b, tree, target, RecordFor(f));
    FindUnique(m.files, RecordFor(f));
  }

  lemma RecordsOf(b: Bundle, tree: Tree, m: Manifest)
    requires LoadManifest(b, Inspect(tree, MANIFEST_PATH)) == Some(m)
    ensures Records(b, tree) == m.files
  {
  }

  /** Every safe plan that writes a file also writes the manifest. */
  lemma FileWritesIncludeManifest(b: Bundle, tree: Tree, target: Target, a: PlanAction)
    requires ValidBundle(b) && PlanFor(b, tree, target).safe && a in InstallOrder(PlanFor(b, tree, target))
    ensures ManifestWrite(b, tree, target) in InstallOrder(PlanFor(b, tree, target))
  {
    hide ValidBundle, PlanFor, Takes, Records, Sort, LoadManifest;
    var own := ManifestWrite(b, tree, target);
    InstallOrderMembers(b, tree, target);
    PlanActions(b, tree, target);
    if own.kind == ConflictAction {
      ConflictsAreUnsafe(b, tree, target, own);
    } else if own.kind == Unchanged {
      var f :| Takes(b, tree, target, f) && a == ActionAt(b, tree, f);
      UnwrittenManifestRecords(b, tree, target, f);
    }
  }

  lemma OnlyManifestsAfterManifest(order: seq<PlanAction>, k: nat)
    requires SortedBy(order, WriteLeq) && k < |order| && order[k].path == MANIFEST_PATH
    ensures forall j :: k <= j < |order| ==> order[j].path == MANIFEST_PATH
  {
    forall j | k <= j < |order| ensures order[j].path == MANIFEST_PATH {
      if k < j {
        SortedPair(order, WriteLeq, k, j);
      }
    }
  }

  lemma ManifestSortsLast(order: seq<PlanAction>, own: PlanAction)
    requires SortedBy(order, WriteLeq) && DistinctBy(order, ActionPath) && own in order && own.path == MANIFEST_PATH
    ensures order[|order| - 1] == own
    ensures forall k :: 0 <= k < |order| - 1 ==> order[k].path != MANIFEST_PATH
  {
    var k :| 0 <= k < |order| && order[k] == own;
    OnlyManifestsAfterManifest(order, k);
    var last := |order| - 1;
    assert ActionPath(order[last]) == ActionPath(order[k]);
    assert k == last;
    forall j | 0 <= j < last ensures order[j].path != MANIFEST_PATH {
      assert ActionPath(order[j]) != ActionPath(order[last]);
    }
  }

  /** The manifest is the last file to be installed. */
  lemma ManifestInstallsLast(b: Bundle, tree: Tree, target: Target)
    requires ValidBundle(b) && PlanFor(b, tree, target).safe && InstallOrder(PlanFor(b, tree, target)) != []
    ensures var order := InstallOrder(PlanFor(b, tree, target));
      && order[|order| - 1] == ManifestWrite(b, tree, target)
      && forall k :: 0 <= k < |order| - 1 ==> order[k].path != MANIFEST_PATH
  {
    hide ValidBundle, PlanFor, Takes, Records, DistinctBy, SortedBy, WriteLeq;
    var order := InstallOrder(PlanFor(b, tree, target));
    InstallOrderMembers(b, tree, target);
    var a := SomeElement(order);
    FileWritesIncludeManifest(b, tree, target, a);
    WriteLeqIsTotal();
    SortSorts(Writes(PlanFor(b, tree, target)), WriteLeq);
    ManifestSortsLast(order, ManifestWrite(b, tree, target));
  }

  // ---------- Crashes ----------

  /** Creating the bridge where the user has no `CLAUDE.md`. */
  predicate IsBridgeCreate(a: PlanAction) {
    a.path == CLAUDE_BRIDGE && a.kind == Create
  }

  /** `crashed` is `tree` after the first `k` installs of a sync. */
  ghost predicate CrashedAfter(b: Bundle, tree: Tree, target: Target, ids: Path -> Inode, k: nat, crashed: Tree) {
    && PlanFor(b, tree, target).safe
    && k < |InstallOrder(PlanFor(b, tree, target))|
    && crashed == Installed(tree, InstallOrder(PlanFor(b, tree, target))[..k], ids)
  }

  ghost predicate InstalledBefore(b: Bundle, tree: Tree, target: Target, k: nat, a: PlanAction) {
    k <= |InstallOrder(PlanFor(b, tree, target))| && a in InstallOrder(PlanFor(b, tree, target))[..k]
  }

  lemma CrashLookup(b: Bundle, tree: Tree, target: Target, ids: Path -> Inode, k: nat, crashed: Tree)
    requires ValidBundle(b) && CrashedAfter(b, tree, target, ids, k, crashed)
    ensures forall a :: InstalledBefore(b, tree, target, k, a) ==>
      Inspect(crashed, a.path) == Regular(a.contents, ids(a.path))
    ensures forall p :: (forall a :: InstalledBefore(b, tree, target, k, a) ==> a.path != p) ==>
      Inspect(crashed, p) == Inspect(tree, p)
    ensures forall a :: InstalledBefore(b, tree, target, k, a) ==>
      IsWrite(a) && a.path != MANIFEST_PATH && exists f :: Takes(b, tree, target, f) && a == ActionAt(b, tree, f)
  {
    hide ValidBundle, PlanFor, Takes, Records, Sort;
    var order := InstallOrder(PlanFor(b, tree, target));
    var done := order[..k];
    InstallOrderMembers(b, tree, target);
    PlanActions(b, tree, target);
    ManifestInstallsLast(b, tree, target);
    assert DistinctBy(done, ActionPath) by {
      forall i, j | 0 <= i < j < k ensures ActionPath(done[i]) != ActionPath(done[j]) {
        assert ActionPath(order[i]) != ActionPath(order[j]);
      }
    }
    forall p ensures (forall a :: a in done && a.path == p ==> Inspect(crashed, p) == Regular(a.contents, ids(p)))
      && ((forall a :: a in done ==> a.path != p) ==> Inspect(crashed, p) == Inspect(tree, p))
    {
      InstalledLookup(tree, done, ids, p);
    }
    forall a | a in done ensures a in order && a.path != MANIFEST_PATH {
      var i :| 0 <= i < k && done[i] == a;
      assert order[i] == a;
    }
  }

  /** A crash leaves the manifest and `AGENTS.md` alone. */
  lemma CrashKeeps(b: Bundle, tree: Tree, target: Target, ids: Path -> Inode, k: nat, crashed: Tree)
    requires ValidBundle(b) && CrashedAfter(b, tree, target, ids, k, crashed)
    ensures Inspect(crashed, MANIFEST_PATH) == Inspect(tree, MANIFEST_PATH) && Records(b, crashed) == Records(b, tree)
    ensures Inspect(crashed, AGENTS_FILE) == Inspect(tree, AGENTS_FILE)
  {
    hide ValidBundle, PlanFor, Considered, BridgeAvailable, Desired, CrashedAfter, InstalledBefore;
    CrashLookup(b, tree, target, ids, k, crashed);
    forall a | InstalledBefore(b, tree, target, k, a) ensures a.path != AGENTS_FILE {
      var f :| Takes(b, tree, target, f) && a == ActionAt(b, tree, f);
      DesiredPathsOrdinary(b, target, f);
    }
  }

  /** A file that was not installed is seen as before. */
  lemma CrashMissed(
      b: Bundle, tree: Tree, target: Target, ids: Path -> Inode, k: nat, crashed: Tree, target': Target, f: DesiredFile)
    requires ValidBundle(b) && CrashedAfter(b, tree, target, ids, k, crashed)
    requires forall a :: InstalledBefore(b, tree, target, k, a) ==> a.path != f.path
    ensures Takes(b, crashed, target', f) <==> Takes(b, tree, target', f)
    ensures ConflictAt(b, crashed, f) == ConflictAt(b, tree, f)
  {
    hide ValidBundle, PlanFor, CrashedAfter, InstalledBefore, Records, Desired;
    CrashLookup(b, tree, target, ids, k, crashed);
    CrashKeeps(b, tree, target, ids, k, crashed);
  }

  /** An installed file that the manifest does not record yet is a conflict, unless it is a bridge that
      now looks like the user's own. */
  lemma CrashHit(
      b: Bundle, tree: Tree, target: Target, ids: Path -> Inode, k: nat, crashed: Tree, target': Target, f: DesiredFile)
    requires ValidBundle(b) && CrashedAfter(b, tree, target, ids, k, crashed)
    requires Takes(b, tree, target, f) && InstalledBefore(b, tree, target, k, ActionAt(b, tree, f))
    requires Selects(target', f.client)
    ensures IsBridgeCreate(ActionAt(b, tree, f)) ==> !Takes(b, crashed, target', f)
    ensures !IsBridgeCreate(ActionAt(b, tree, f)) ==> Takes(b, crashed, target', f) && ConflictAt(b, crashed, f) != []
  {
    hide ValidBundle, PlanFor, CrashedAfter, InstalledBefore, Records;
    CrashLookup(b, tree, target, ids, k, crashed);
    CrashKeeps(b, tree, target, ids, k, crashed);
    DesiredPathsOrdinary(b, target, f);
    if f.path == CLAUDE_BRIDGE {
      BridgeIsClaudes(b, f);
    }
  }

  /** Crash fail-closed: after any part of a sync short of the manifest, the next plan, for any target that
      was safe before, is safe exactly if every file installed for its clients is a created bridge. */
  lemma CrashedPlans(
      b: Bundle, tree: Tree, target: Target, ids: Path -> Inode, k: nat, crashed: Tree, target': Target)
    requires ValidBundle(b) && CrashedAfter(b, tree, target, ids, k, crashed) && PlanFor(b, tree, target').safe
    ensures PlanFor(b, crashed, target').safe <==>
      forall f :: (Takes(b, tree, target, f) && InstalledBefore(b, tree, target, k, ActionAt(b, tree, f))
                   && Selects(target', f.client)) ==> IsBridgeCreate(ActionAt(b, tree, f))
  {
    hide ValidBundle, PlanFor, CrashedAfter, InstalledBefore, Records, Takes, ConflictAt, Find;
    SafePlans(b, tree, target');
    SafePlans(b, crashed, target');
    CrashKeeps(b, tree, target, ids, k, crashed);
    CrashLookup(b, tree, target, ids, k, crashed);
    forall f | Takes(b, tree, target, f) && InstalledBefore(b, tree, target, k, ActionAt(b, tree, f))
        && Selects(target', f.client)
      ensures IsBridgeCreate(ActionAt(b, tree, f)) ==> !Takes(b, crashed, target', f)
      ensures !IsBridgeCreate(ActionAt(b, tree, f)) ==> Takes(b, crashed, target', f) && ConflictAt(b, crashed, f) != []
    {
      CrashHit(b, tree, target, ids, k, crashed, target', f);
    }
    forall f | Takes(b, crashed, target', f)
      ensures ConflictAt(b, crashed, f) == [] ||
        (Takes(b, tree, target, f) && InstalledBefore(b, tree, target, k, ActionAt(b, tree, f)) &&
          Selects(target', f.client))
    {
      CrashCase(b, tree, target, ids, k, crashed, target', f);
    }
  }

  lemma CrashCase(
      b: Bundle, tree: Tree, target: Target, ids: Path -> Inode, k: nat, crashed: Tree, target': Target, f: DesiredFile)
    requires ValidBundle(b) && CrashedAfter(b, tree, target, ids, k, crashed) && PlanFor(b, tree, target').safe
    requires Takes(b, crashed, target', f)
    ensures ConflictAt(b, crashed, f) == [] ||
      (Takes(b, tree, target, f) && InstalledBefore(b, tree, target, k, ActionAt(b, tree, f)) &&
        Selects(target', f.client))
  {
    hide ValidBundle, PlanFor, CrashedAfter, InstalledBefore, Records, Takes, ConflictAt;
    TakenIsDesired(b, crashed, target', f);
    CrashLookup(b, tree, target, ids, k, crashed);
    if a :| InstalledBefore(b, tree, target, k, a) && a.path == f.path {
      var g :| Takes(b, tree, target, g) && a == ActionAt(b, tree, g);
      TakenIsDesired(b, tree, target, g);
      DesiredByPath(b, All, All, f, g);
    } else {
      CrashMissed(b, tree, target, ids, k, crashed, target', f);
      SafePlans(b, tree, target');
    }
  }

  /** A bridge is created after every other file, so it is installed first only if it is alone. */
  lemma BridgeFirstIsAlone(b: Bundle, tree: Tree, target: Target)
    requires ValidBundle(b) && PlanFor(b, tree, target).safe
    requires var order := InstallOrder(PlanFor(b, tree, target)); order != [] && IsBridgeCreate(order[0])
    ensures var order := InstallOrder(PlanFor(b, tree, target));
      order == [order[0], ManifestWrite(b, tree, target)]
  {
    hide ValidBundle, PlanFor, Records;
    var plan := PlanFor(b, tree, target);
    var order := InstallOrder(plan);
    InstallOrderMembers(b, tree, target);
    PlanActions(b, tree, target);
    ManifestInstallsLast(b, tree, target);
    WriteLeqIsTotal();
    SortSorts(Writes(plan), WriteLeq);
    if |order| > 2 {
      CreateExpectsMissing(b, tree, target, order[0]);
      SortedPair(order, WriteLeq, 0, 1);
      assert order[1] in order && ActionPath(order[0]) != ActionPath(order[1]);
      NothingAfterBridge(b, tree, target, order[0], order[1]);
    }
  }

  lemma CreateExpectsMissing(b: Bundle, tree: Tree, target: Target, a: PlanAction)
    requires ValidBundle(b) && a in PlanFor(b, tree, target).actions && a.kind == Create
    ensures a.expected == ExpectMissing
  {
    hide ValidBundle, PlanFor, Records, Takes;
    PlanActions(b, tree, target);
  }

  lemma NothingAfterBridge(b: Bundle, tree: Tree, target: Target, bridge: PlanAction, a: PlanAction)
    requires ValidBundle(b) && a in PlanFor(b, tree, target).actions
    requires bridge.path == CLAUDE_BRIDGE && bridge.expected == ExpectMissing && WriteLeq(bridge, a)
    ensures a.path == MANIFEST_PATH || a.path == CLAUDE_BRIDGE
  {
    hide ValidBundle, PlanFor, Records, Takes;
    PlanActions(b, tree, target);
    if a.path != MANIFEST_PATH && a.path != CLAUDE_BRIDGE {
      var f :| Takes(b, tree, target, f) && a == ActionAt(b, tree, f);
      TakenIsDesired(b, tree, target, f);
      BridgeAfterProjections(b, target, f);
    }
  }

  lemma BridgeAfterProjections(b: Bundle, target: Target, f: DesiredFile)
    requires ValidBundle(b) && Desired(b, target, f) && f.path != CLAUDE_BRIDGE
    ensures !PathLeq(CLAUDE_BRIDGE, f.path)
  {
    if f != Bridge(b) {
      var a :| a in b.assets && f == Projection(f.client, a);
      assert f.path[0] == ProjectionRoot(f.client)[0];
      assert "CLAUDE.md"[0] > ".claude"[0] && "CLAUDE.md"[0] > ".agents"[0];
    }
  }

  /** For the target that was being synced: a crash after some, but not all, of the installs leaves a
      safe plan only if the one file installed is a created bridge and only the manifest was to follow. */
  lemma CrashFailsClosed(b: Bundle, tree: Tree, target: Target, ids: Path -> Inode, k: nat, crashed: Tree)
    requires ValidBundle(b) && CrashedAfter(b, tree, target, ids, k, crashed) && 0 < k
    ensures var order := InstallOrder(PlanFor(b, tree, target));
      && (PlanFor(b, crashed, target).safe <==> k == 1 && IsBridgeCreate(order[0]))
      && (PlanFor(b, crashed, target).safe ==> order == [order[0], ManifestWrite(b, tree, target)])
  {
    hide ValidBundle, PlanFor, Records, Takes, Sort, DistinctBy;
    var order := InstallOrder(PlanFor(b, tree, target));
    CrashedPlans(b, tree, target, ids, k, crashed, target);
    CrashLookup(b, tree, target, ids, k, crashed);
    InstallOrderMembers(b, tree, target);
    assert order[0] in order[..k] && InstalledBefore(b, tree, target, k, order[0]);
    forall f | Takes(b, tree, target, f) ensures Selects(target, f.client) {
      TakenIsDesired(b, tree, target, f);
    }
    if IsBridgeCreate(order[0]) {
      BridgeFirstIsAlone(b, tree, target);
    }
  }

  // ---------- Ownership over runs ----------

  /** `verify_expected`, on the tree as it is when the file is installed. */
  predicate MeetsExpectation(now: Tree, a: PlanAction) {
    match a.expected
    case ExpectMissing => Inspect(now, a.path).Missing?
    case ExpectRegular(id, digest) =>
      var state := Inspect(now, a.path);
      state.Regular? && state.identity == id && Sha256(state.contents) == digest
    case ExpectUnsafe => false
  }

  /** Users edit the tree; a sync plans on one tree and publishes on the tree that it finds by then. */
  datatype Step = Edit(after: Tree) | Sync(target: Target, planned: Tree, ids: Path -> Inode)

  ghost predicate StepTo(b: Bundle, now: Tree, step: Step, next: Tree) {
    match step
    case Edit(after) => next == after
    case Sync(target, planned, ids) =>
      var plan := PlanFor(b, planned, target);
      if plan.safe && forall w :: w in InstallOrder(plan) ==> MeetsExpectation(now, w)
      then next == Installed(now, InstallOrder(plan), ids)
      else next == now
  }

  /** The publication of `planned`'s plan goes through on `now`. */
  ghost predicate Publishes(b: Bundle, planned: Tree, target: Target, now: Tree) {
    && PlanFor(b, planned, target).safe
    && InstallOrder(PlanFor(b, planned, target)) != []
    && forall w :: w in InstallOrder(PlanFor(b, planned, target)) ==> MeetsExpectation(now, w)
  }

  /** A publication that goes through finds the records that it was planned on. */
  lemma SameRecordsWhenPublished(b: Bundle, planned: Tree, target: Target, now: Tree)
    requires ValidBundle(b) && Publishes(b, planned, target, now)
    ensures Records(b, now) == Records(b, planned)
  {
    hide ValidBundle, PlanFor, Sort;
    ManifestInstallsLast(b, planned, target);
    var order := InstallOrder(PlanFor(b, planned, target));
    assert order[|order| - 1] in order;
    assert MeetsExpectation(now, ManifestWrite(b, planned, target));
  }

  /** The user's file at `p`: it exists, and the manifest does not record it with its digest. */
  ghost predicate UserOwned(b: Bundle, now: Tree, p: Path) {
    && !Inspect(now, p).Missing?
    && forall contents, id, r :: Inspect(now, p) == Regular(contents, id) && Find(Records(b, now), p) == Some(r) ==>
         r.sha256 != Hex(Sha256(contents))
  }

  /** A publication that goes through writes to no file of the user. */
  lemma WritesNoUserFile(b: Bundle, planned: Tree, target: Target, now: Tree, a: PlanAction)
    requires ValidBundle(b) && Publishes(b, planned, target, now)
    requires a in InstallOrder(PlanFor(b, planned, target)) && a.path != MANIFEST_PATH
    ensures !UserOwned(b, now, a.path)
  {
    hide ValidBundle, PlanFor, Sort, Takes, Records;
    SameRecordsWhenPublished(b, planned, target, now);
    InstallOrderMembers(b, planned, target);
    PlanActions(b, planned, target);
    assert MeetsExpectation(now, a);
    var f :| Takes(b, planned, target, f) && a == ActionAt(b, planned, f);
  }

  /** No sync, not even one that races with edits, changes an existing projection destination that the
      manifest does not record or records with another digest. */
  lemma SyncRespectsUsers(b: Bundle, now: Tree, target: Target, planned: Tree, ids: Path -> Inode, next: Tree, p: Path)
    requires ValidBundle(b) && StepTo(b, now, Sync(target, planned, ids), next)
    requires p != MANIFEST_PATH && UserOwned(b, now, p)
    ensures Inspect(next, p) == Inspect(now, p)
  {
    hide ValidBundle, PlanFor, UserOwned, Sort, DistinctBy;
    var order := InstallOrder(PlanFor(b, planned, target));
    if next != now {
      InstallOrderMembers(b, planned, target);
      InstalledLookup(now, order, ids, p);
      if a :| a in order && a.path == p {
        WritesNoUserFile(b, planned, target, now, a);
      }
    }
  }

  /** A file that exists and is not recorded stays unrecorded through a sync. */
  lemma SyncClaimsNoUserFile(b: Bundle, now: Tree, target: Target, planned: Tree, ids: Path -> Inode, next: Tree,
                             p: Path)
    requires ValidBundle(b) && StepTo(b, now, Sync(target, planned, ids), next)
    requires p != MANIFEST_PATH && !Inspect(now, p).Missing? && Find(Records(b, now), p).None?
    ensures Find(Records(b, next), p).None?
  {
    hide ValidBundle, PlanFor, Sort, DistinctBy, Records, Takes, Increasing;
    var order := InstallOrder(PlanFor(b, planned, target));
    if next != now && order != [] {
      SameRecordsWhenPublished(b, planned, target, now);
      PublishedManifest(b, planned, target, now, ids);
      NextRecords(b, planned, target);
      if Find(Records(b, next), p).Some? {
        var r := Find(Records(b, next), p).value;
        assert Carries(b, planned, target, r);
        var f :| Takes(b, planned, target, f) && r == RecordFor(f);
        TakenUnrecordedIsCreated(b, planned, target, f);
        assert UserOwned(b, now, p);
        WritesNoUserFile(b, planned, target, now, ActionAt(b, planned, f));
      }
    }
  }

  lemma TakenUnrecordedIsCreated(b: Bundle, tree: Tree, target: Target, f: DesiredFile)
    requires ValidBundle(b) && PlanFor(b, tree, target).safe && Takes(b, tree, target, f)
    requires Find(Records(b, tree), f.path).None?
    ensures ActionAt(b, tree, f) in InstallOrder(PlanFor(b, tree, target)) && f.path != MANIFEST_PATH
  {
    hide ValidBundle, PlanFor, Sort, DistinctBy, Records, Takes;
    ActionOf(b, tree, target, f);
    InstallOrderMembers(b, tree, target);
    TakenIsDesired(b, tree, target, f);
    DesiredPathsOrdinary(b, target, f);
  }

  lemma PublishedManifest(b: Bundle, planned: Tree, target: Target, now: Tree, ids: Path -> Inode)
    requires ValidBundle(b) && Publishes(b, planned, target, now)
    ensures Records(b, Installed(now, InstallOrder(PlanFor(b, planned, target)), ids)) ==
      PlanFor(b, planned, target).manifest.files
  {
    hide ValidBundle, PlanFor, Sort, DistinctBy, LoadManifest;
    var order := InstallOrder(PlanFor(b, planned, target));
    InstallOrderMembers(b, planned, target);
    ManifestInstallsLast(b, planned, target);
    assert order[|order| - 1] in order;
    InstalledLookup(now, order, ids, MANIFEST_PATH);
    NextManifestLoads(b, planned, target, ids(MANIFEST_PATH));
  }

  ghost predicate IsHistory(b: Bundle, trees: seq<Tree>, steps: seq<Step>) {
    && |trees| == |steps| + 1
    && forall k :: 0 <= k < |steps| ==> StepTo(b, trees[k], steps[k], trees[k + 1])
  }

  /** The user's own edits after `from` leave the file at `p` as it is and do not record it. */
  ghost predicate UsersKeep(b: Bundle, trees: seq<Tree>, steps: seq<Step>, from: nat, p: Path) {
    forall k :: from <= k < |steps| && k + 1 < |trees| && steps[k].Edit? ==>
      Inspect(trees[k + 1], p) == Inspect(trees[k], p)
      && (Find(Records(b, trees[k]), p).None? ==> Find(Records(b, trees[k + 1]), p).None?)
  }

  /** Over any run of edits and syncs, planned and published at any times, a file that the user put there
      and that the manifest does not record is the same file at the end. */
  lemma {:induction false} UserFileSurvives(b: Bundle, trees: seq<Tree>, steps: seq<Step>, from: nat, p: Path)
    requires ValidBundle(b) && IsHistory(b, trees, steps) && from < |trees| && p != MANIFEST_PATH
    requires !Inspect(trees[from], p).Missing? && Find(Records(b, trees[from]), p).None?
    requires UsersKeep(b, trees, steps, from, p)
    ensures Inspect(trees[|trees| - 1], p) == Inspect(trees[from], p)
    ensures Find(Records(b, trees[|trees| - 1]), p).None?
    decreases |trees| - from
  {
    hide ValidBundle, StepTo, Records, Find;
    if from < |steps| {
      assert StepTo(b, trees[from], steps[from], trees[from + 1]);
      match steps[from]
      case Edit(_) =>
      case Sync(target, planned, ids) =>
        assert UserOwned(b, trees[from], p);
        SyncRespectsUsers(b, trees[from], target, planned, ids, trees[from + 1], p);
        SyncClaimsNoUserFile(b, trees[from], target, planned, ids, trees[from + 1], p);
    }
    if from < |steps| {
      UserFileSurvives(b, trees, steps, from + 1, p);
    }
  }

  // ---------- Plan digests ----------

  /** The part of an action that the plan's JSON holds. */
  datatype ActionView = ActionView(
    path: Path, client: Option<Client>, kind: ActionKind, desiredDigest: Digest, currentDigest: Option<Digest>,
    currentIdentity: Option<Inode>)

  function ViewOf(a: PlanAction): ActionView {
    ActionView(a.path, a.client, a.kind, a.desiredDigest, a.currentDigest,
               if a.expected.ExpectRegular? then Some(a.expected.identity) else None)
  }

  function Views(actions: seq<PlanAction>): (r: seq<ActionView>)
    ensures |r| == |actions| && forall k :: 0 <= k < |r| ==> r[k] == ViewOf(actions[k])
  {
    seq(|actions|, k requires 0 <= k < |actions| => ViewOf(actions[k]))
  }

  /** `plan_digest`: SHA-256 is injective, so the digest is as good as the JSON that it is taken of. */
  datatype PlanDigest = PlanDigest(
    bundleDigest: string, target: Target, safe: bool, actions: seq<ActionView>, conflicts: seq<Conflict>,
    manual: seq<ManualAction>)

  function DigestOf(plan: Plan): PlanDigest {
    PlanDigest(plan.bundleDigest, plan.target, plan.safe, Views(plan.actions), plan.conflicts, plan.manual)
  }

  lemma SafeActionsFromView(b: Bundle, tree: Tree, target: Target, a: PlanAction)
    requires ValidBundle(b) && PlanFor(b, tree, target).safe && a in PlanFor(b, tree, target).actions
    ensures a.desiredDigest == Sha256(a.contents)
    ensures a.expected == match a.currentDigest
      case Some(d) => ExpectRegular(ViewOf(a).currentIdentity.GetOr(0), d)
      case None => ExpectMissing
  {
    hide ValidBundle, PlanFor, Takes, Records;
    PlanActions(b, tree, target);
    if a.kind == ConflictAction {
      ConflictsAreUnsafe(b, tree, target, a);
    }
  }

  /** Approving a digest approves the exact plan: two trees whose safe plans have the same digest get the
      same files with the same contents, replacing the same inodes with the same bytes. */
  lemma ApprovedPlanIsExact(b: Bundle, tree: Tree, tree': Tree, target: Target)
    requires ValidBundle(b) && PlanFor(b, tree, target).safe
    requires DigestOf(PlanFor(b, tree, target)) == DigestOf(PlanFor(b, tree', target))
    ensures PlanFor(b, tree, target).actions == PlanFor(b, tree', target).actions
    ensures InstallOrder(PlanFor(b, tree, target)) == InstallOrder(PlanFor(b, tree', target))
  {
    hide ValidBundle, PlanFor;
    var x, y := PlanFor(b, tree, target).actions, PlanFor(b, tree', target).actions;
    assert |Views(x)| == |Views(y)|;
    forall k | 0 <= k < |x| ensures x[k] == y[k] {
      assert Views(x)[k] == Views(y)[k];
      SafeActionsFromView(b, tree, target, x[k]);
      SafeActionsFromView(b, tree', target, y[k]);
    }
  }
}
