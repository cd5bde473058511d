/** Applying projection plans: what a sync leaves behind, whole runs of syncs and user edits, and
    what a crash in the middle of a sync leaves for the next plan
    (crates/minco-cli/src/agent_cmd.rs, `sync` and `doctor`). */
module AgentSync {
  import opened Disks
  import opened Options
  import opened Paths
  import opened Sorting
  import opened AgentStaging
  import opened AgentPlan
  import opened AgentPlanFacts

  predicate IsWrite(a: PlanAction) {
    a.kind == Create || a.kind == Update
  }

  function Writes(plan: Plan): seq<PlanAction> {
    Filter(plan.actions, IsWrite)
  }

  predicate WriteLeq(x: PlanAction, y: PlanAction) {
    InstallsBefore(x.path, x.expected.ExpectRegular?, y.path, y.expected.ExpectRegular?)
  }

  /** The writes in the order in which the publisher installs them. */
  function InstallOrder(plan: Plan): seq<PlanAction> {
    Sort(Writes(plan), WriteLeq)
  }

  /** The tree after installing `writes`; `ids` are the inodes of the new files. */
  function Installed(tree: Tree, writes: seq<PlanAction>, ids: Path -> Inode): Tree {
    if writes == [] then tree
    else
      var w := writes[|writes| - 1];
      Installed(tree, writes[..|writes| - 1], ids)[w.path := Regular(w.contents, ids(w.path))]
  }

  /** A sync whose publication meets no failure. */
  function Synced(b: Bundle, tree: Tree, target: Target, ids: Path -> Inode): Tree {
    var plan := PlanFor(b, tree, target);
    if plan.safe then Installed(tree, InstallOrder(plan), ids) else tree
  }

  function ContentAt(tree: Tree, path: Path): Option<Bytes> {
    if Inspect(tree, path).Regular? then Some(Inspect(tree, path).contents) else None
  }

  // ---------- Lookups ----------

  lemma {:induction false} InstalledLookup(tree: Tree, writes: seq<PlanAction>, ids: Path -> Inode, path: Path)
    requires DistinctBy(writes, ActionPath)
    ensures forall w :: w in writes && w.path == path ==>
      Inspect(Installed(tree, writes, ids), path) == Regular(w.contents, ids(path))
    ensures (forall w :: w in writes ==> w.path != path) ==>
      Inspect(Installed(tree, writes, ids), path) == Inspect(tree, path)
  {
    if writes != [] {
      var k := |writes| - 1;
      assert writes == writes[..k] + [writes[k]];
      InstalledLookup(tree, writes[..k], ids, path);
      forall w | w in writes[..k] ensures w.path != writes[k].path {
        var j :| 0 <= j < k && writes[j] == w;
        assert ActionPath(writes[j]) != ActionPath(writes[k]);
      }
    }
  }

  lemma InstallOrderMembers(b: Bundle, tree: Tree, target: Target)
    requires ValidBundle(b)
    ensures var plan := PlanFor(b, tree, target);
      && (forall a :: a in InstallOrder(plan) <==> a in plan.actions && IsWrite(a))
      && DistinctBy(InstallOrder(plan), ActionPath)
  {
    hide ValidBundle, PlanFor, DistinctBy;
    var plan := PlanFor(b, tree, target);
    PlanActions(b, tree, target);
    FilterKeepsDistinct(plan.actions, IsWrite, ActionPath);
    SortKeepsDistinct(Writes(plan), WriteLeq, ActionPath);
    SamePermutation(Writes(plan), InstallOrder(plan));
  }

  lemma {:induction false} FindUnique(files: seq<ManagedFile>, r: ManagedFile)
    requires DistinctBy(files, ManagedPath) && r in files
    ensures Find(files, r.path) == Some(r)
  {
    var found := Find(files, r.path);
    assert found.Some?;
    var i :| 0 <= i < |files| && files[i] == r;
    var j :| 0 <= j < |files| && files[j] == found.value;
    assert i != j ==> ManagedPath(files[i]) != ManagedPath(files[j]);
  }

  lemma ActionOf(b: Bundle, tree: Tree, target: Target, f: DesiredFile)
    requires ValidBundle(b) && Takes(b, tree, target, f)
    ensures ActionAt(b, tree, f) in PlanFor(b, tree, target).actions
    ensures PlanFor(b, tree, target).safe ==> ActionAt(b, tree, f).kind != ConflictAction
  {
    PlanActions(b, tree, target);
    if PlanFor(b, tree, target).safe && ActionAt(b, tree, f).kind == ConflictAction {
      ConflictsAreUnsafe(b, tree, target, ActionAt(b, tree, f));
    }
  }

  // ---------- After a sync ----------

  /** `tree'` is `tree` with the taken files and the manifest in place. */
  ghost predicate Holds(b: Bundle, tree: Tree, target: Target, tree': Tree) {
    && ContentAt(tree', MANIFEST_PATH) == Some(b.render(PlanFor(b, tree, target).manifest))
    && (forall f :: Takes(b, tree, target, f) ==> ContentAt(tree', f.path) == Some(f.contents))
    && (forall p :: p != MANIFEST_PATH && (forall f :: Takes(b, tree, target, f) ==> f.path != p) ==>
          Inspect(tree', p) == Inspect(tree, p))
  }

  lemma SyncedFile(b: Bundle, tree: Tree, target: Target, ids: Path -> Inode, f: DesiredFile)
    requires ValidBundle(b) && PlanFor(b, tree, target).safe && Takes(b, tree, target, f)
    ensures ContentAt(Synced(b, tree, target, ids), f.path) == Some(f.contents)
  {
    hide ValidBundle, PlanFor, DistinctBy, Takes, Sort;
    var plan := PlanFor(b, tree, target);
    var order := InstallOrder(plan);
    InstallOrderMembers(b, tree, target);
    ActionOf(b, tree, target, f);
    InstalledLookup(tree, order, ids, f.path);
    var a := ActionAt(b, tree, f);
    if !IsWrite(a) {
      assert a.kind == Unchanged;
      PlanActions(b, tree, target);
      forall w | w in order ensures w.path != f.path {
        if w.path == f.path {
          SamePathSameAction(plan.actions, w, a);
        }
      }
    }
  }

  lemma SamePathSameAction(actions: seq<PlanAction>, x: PlanAction, y: PlanAction)
    requires DistinctBy(actions, ActionPath) && x in actions && y in actions && x.path == y.path
    ensures x == y
  {
    var i :| 0 <= i < |actions| && actions[i] == x;
    var j :| 0 <= j < |actions| && actions[j] == y;
    assert i < j ==> ActionPath(actions[i]) != ActionPath(actions[j]);
    assert j < i ==> ActionPath(actions[j]) != ActionPath(actions[i]);
  }

  lemma SyncedManifest(b: Bundle, tree: Tree, target: Target, ids: Path -> Inode)
    requires ValidBundle(b) && PlanFor(b, tree, target).safe
    ensures ContentAt(Synced(b, tree, target, ids), MANIFEST_PATH) == Some(b.render(PlanFor(b, tree, target).manifest))
  {
    hide ValidBundle, PlanFor, DistinctBy, Takes, Sort, LoadManifest;
    var plan := PlanFor(b, tree, target);
    var order := InstallOrder(plan);
    InstallOrderMembers(b, tree, target);
    PlanActions(b, tree, target);
    InstalledLookup(tree, order, ids, MANIFEST_PATH);
    var a := ManifestAction(b, Inspect(tree, MANIFEST_PATH), plan.manifest);
    if a.kind == ConflictAction {
      ConflictsAreUnsafe(b, tree, target, a);
    } else if a.kind == Unchanged {
      forall w | w in order ensures w.path != MANIFEST_PATH {
        if w.path == MANIFEST_PATH {
          SamePathSameAction(plan.actions, w, a);
        }
      }
    }
  }

  lemma SyncedOther(b: Bundle, tree: Tree, target: Target, ids: Path -> Inode, p: Path)
    requires ValidBundle(b) && p != MANIFEST_PATH && forall f :: Takes(b, tree, target, f) ==> f.path != p
    ensures Inspect(Synced(b, tree, target, ids), p) == Inspect(tree, p)
  {
    hide ValidBundle, PlanFor, DistinctBy, Takes, Sort, LoadManifest;
    InstallOrderMembers(b, tree, target);
    PlanActions(b, tree, target);
    InstalledLookup(tree, InstallOrder(PlanFor(b, tree, target)), ids, p);
  }

  lemma SyncHolds(b: Bundle, tree: Tree, target: Target, ids: Path -> Inode)
    requires ValidBundle(b) && PlanFor(b, tree, target).safe
    ensures Holds(b, tree, target, Synced(b, tree, target, ids))
  {
    hide ValidBundle, PlanFor, Takes, Synced;
    SyncedManifest(b, tree, target, ids);
    forall f | Takes(b, tree, target, f)
      ensures ContentAt(Synced(b, tree, target, ids), f.path) == Some(f.contents)
    {
      SyncedFile(b, tree, target, ids, f);
    }
    forall p | p != MANIFEST_PATH && (forall f :: Takes(b, tree, target, f) ==> f.path != p)
      ensures Inspect(Synced(b, tree, target, ids), p) == Inspect(tree, p)
    {
      SyncedOther(b, tree, target, ids, p);
    }
  }

  // ---------- Planning again ----------

  lemma RecordsAfter(b: Bundle, tree: Tree, target: Target, tree': Tree)
    requires ValidBundle(b) && Holds(b, tree, target, tree')
    ensures LoadManifest(b, Inspect(tree', MANIFEST_PATH)) == Some(PlanFor(b, tree, target).manifest)
    ensures Records(b, tree') == PlanFor(b, tree, target).manifest.files
  {
    NextManifestLoads(b, tree, target, Inspect(tree', MANIFEST_PATH).identity);
  }

  /** `AGENTS.md` is not managed. */
  lemma AgentsFileUntouched(b: Bundle, tree: Tree, target: Target, tree': Tree)
    requires ValidBundle(b) && Holds(b, tree, target, tree')
    ensures Inspect(tree', AGENTS_FILE) == Inspect(tree, AGENTS_FILE)
  {
    hide ValidBundle, PlanFor, Considered, BridgeAvailable;
    forall f | Takes(b, tree, target, f) ensures f.path != AGENTS_FILE {
      DesiredPathsOrdinary(b, target, f);
    }
    assert "agent-manifest.json" != "AGENTS.md" && |MANIFEST_PATH| != |AGENTS_FILE|;
  }

  /** After a sync, a file of a selected client is recorded exactly if it was taken. */
  lemma FindSelected(b: Bundle, tree: Tree, target: Target, tree': Tree, f: DesiredFile)
    requires ValidBundle(b) && Holds(b, tree, target, tree') && Desired(b, target, f)
    ensures Find(Records(b, tree'), f.path) == if Takes(b, tree, target, f) then Some(RecordFor(f)) else None
  {
    hide ValidBundle, PlanFor, Considered, BridgeAvailable, Holds, Desired, DistinctBy, Records, Increasing;
    RecordsAfter(b, tree, target, tree');
    NextRecords(b, tree, target);
    var files := Records(b, tree');
    if Takes(b, tree, target, f) {
      assert Carries(b, tree, target, RecordFor(f));
      FindUnique(files, RecordFor(f));
    } else if Find(files, f.path).Some? {
      var r := Find(files, f.path).value;
      assert Carries(b, tree, target, r);
      NotCarried(b, tree, target, f, r);
    }
  }

  lemma SelectsDesired(b: Bundle, target: Target, f: DesiredFile)
    requires Desired(b, target, f)
    ensures Selects(target, f.client)
  {
  }

  lemma NotCarried(b: Bundle, tree: Tree, target: Target, f: DesiredFile, r: ManagedFile)
    requires ValidBundle(b) && Desired(b, target, f) && r.path == f.path && !Takes(b, tree, target, f)
    ensures !Carries(b, tree, target, r)
  {
    SelectsDesired(b, target, f);
    hide ValidBundle, Desired, Records, Takes, PlanFor;
    if r in Records(b, tree) {
      LoadedRecords(b, tree);
      var g :| Desired(b, All, g) && g.path == r.path && g.client == r.client;
      DesiredByPath(b, target, All, f, g);
    }
    if g :| Takes(b, tree, target, g) && r == RecordFor(g) {
      TakenIsDesired(b, tree, target, g);
      DesiredByPath(b, target, target, f, g);
    }
  }

  /** After a sync, what is recorded for the other clients is what was recorded before. */
  lemma FindUnselected(b: Bundle, tree: Tree, target: Target, tree': Tree, f: DesiredFile)
    requires ValidBundle(b) && Holds(b, tree, target, tree') && Desired(b, All, f) && !Selects(target, f.client)
    ensures Find(Records(b, tree'), f.path) == Find(Records(b, tree), f.path)
  {
    hide ValidBundle, PlanFor, Considered, BridgeAvailable, Holds, Desired, DistinctBy, Records, Increasing;
    RecordsAfter(b, tree, target, tree');
    NextRecords(b, tree, target);
    LoadedRecords(b, tree);
    var before, after := Records(b, tree), Records(b, tree');
    if Find(before, f.path).Some? {
      var r := Find(before, f.path).value;
      RecordClient(b, tree, f, r);
      assert Carries(b, tree, target, r);
      FindUnique(after, r);
    } else if Find(after, f.path).Some? {
      var r := Find(after, f.path).value;
      assert Carries(b, tree, target, r);
      var g :| Takes(b, tree, target, g) && r == RecordFor(g);
      TakenIsDesired(b, tree, target, g);
      DesiredByPath(b, All, All, f, g);
    }
  }

  lemma RecordClient(b: Bundle, tree: Tree, f: DesiredFile, r: ManagedFile)
    requires ValidBundle(b) && Desired(b, All, f) && r in Records(b, tree) && r.path == f.path
    ensures r.client == f.client
  {
    hide ValidBundle, Desired, DistinctBy, Records;
    LoadedRecords(b, tree);
    var g :| Desired(b, All, g) && g.path == r.path && g.client == r.client;
    DesiredByPath(b, All, All, f, g);
  }

  /** A path that no taken file has keeps its entry. */
  lemma UntakenUntouched(b: Bundle, tree: Tree, target: Target, tree': Tree, f: DesiredFile)
    requires ValidBundle(b) && Holds(b, tree, target, tree') && Desired(b, All, f) && !Takes(b, tree, target, f)
    ensures Inspect(tree', f.path) == Inspect(tree, f.path)
  {
    hide ValidBundle, PlanFor, Considered, BridgeAvailable, Desired;
    DesiredPathsOrdinary(b, All, f);
    forall g | Takes(b, tree, target, g) ensures g.path != f.path {
      TakenIsDesired(b, tree, target, g);
      if g.path == f.path { DesiredByPath(b, All, All, f, g); }
    }
  }

  /** The next plan takes, of the synced clients, exactly the files taken by the sync. */
  lemma TakesSelected(b: Bundle, tree: Tree, target: Target, tree': Tree, target': Target, f: DesiredFile)
    requires ValidBundle(b) && Holds(b, tree, target, tree')
    requires Desired(b, target, f) && Desired(b, target', f)
    ensures Takes(b, tree', target', f) <==> Takes(b, tree, target, f)
  {
    hide ValidBundle, PlanFor, Holds, Records;
    FindSelected(b, tree, target, tree', f);
    AgentsFileUntouched(b, tree, target, tree');
    DesiredPathsOrdinary(b, target, f);
    if !Takes(b, tree, target, f) {
      UntakenUntouched(b, tree, target, tree', f);
    }
    if f.path == CLAUDE_BRIDGE {
      BridgeIsClaudes(b, f);
    }
  }

  lemma BridgeIsClaudes(b: Bundle, f: DesiredFile)
    requires ValidBundle(b) && Desired(b, All, f) && f.path == CLAUDE_BRIDGE
    ensures f == Bridge(b)
  {
    hide ValidBundle;
    DesiredByPath(b, All, All, f, Bridge(b));
  }

  /** The next plan takes, of the other clients, the files it would have taken before the sync. */
  lemma TakesUnselected(b: Bundle, tree: Tree, target: Target, tree': Tree, target': Target, f: DesiredFile)
    requires ValidBundle(b) && Holds(b, tree, target, tree') && Desired(b, All, f) && !Selects(target, f.client)
    ensures Takes(b, tree', target', f) <==> Takes(b, tree, target', f)
    ensures ConflictAt(b, tree', f) == ConflictAt(b, tree, f)
  {
    hide ValidBundle, PlanFor, Holds, Records;
    FindUnselected(b, tree, target, tree', f);
    AgentsFileUntouched(b, tree, target, tree');
    UntakenUntouched(b, tree, target, tree', f);
  }

  /** A file that the sync took is in order for the next plan. */
  lemma TakenIsUnchanged(b: Bundle, tree: Tree, target: Target, tree': Tree, f: DesiredFile)
    requires ValidBundle(b) && Holds(b, tree, target, tree') && Takes(b, tree, target, f)
    ensures ConflictAt(b, tree', f) == [] && ActionAt(b, tree', f).kind == Unchanged
  {
    hide ValidBundle, PlanFor, Records, Considered, BridgeAvailable;
    FindSelected(b, tree, target, tree', f);
    assert ContentAt(tree', f.path) == Some(f.contents);
  }

  lemma SameRecordsSameManifest(b: Bundle, tree: Tree, target: Target, tree': Tree, target': Target)
    requires ValidBundle(b)
    requires forall r :: Carries(b, tree, target, r) <==> Carries(b, tree', target', r)
    ensures PlanFor(b, tree, target).manifest == PlanFor(b, tree', target').manifest
  {
    hide ValidBundle, Carries;
    NextRecords(b, tree, target);
    NextRecords(b, tree', target');
    IncreasingUnique(PlanFor(b, tree, target).manifest.files, PlanFor(b, tree', target').manifest.files, RecordLeq);
  }

  /** Replanning the synced target carries the same records. */
  lemma CarriesAgain(b: Bundle, tree: Tree, target: Target, tree': Tree, r: ManagedFile)
    requires ValidBundle(b) && Holds(b, tree, target, tree')
    ensures Carries(b, tree', target, r) <==> Carries(b, tree, target, r)
  {
    hide ValidBundle, PlanFor, Holds, Records, Considered, BridgeAvailable, Desired, Increasing, DistinctBy;
    RecordsAfter(b, tree, target, tree');
    NextRecords(b, tree, target);
    forall f ensures Takes(b, tree', target, f) <==> Takes(b, tree, target, f) {
      if Desired(b, target, f) {
        TakesSelected(b, tree, target, tree', target, f);
      }
    }
    if f :| Takes(b, tree, target, f) && r == RecordFor(f) {
      TakenIsDesired(b, tree, target, f);
    }
  }

  /** The bridge has what it needs after a sync if it had it before. */
  lemma BridgeStaysFine(b: Bundle, tree: Tree, target: Target, tree': Tree, target': Target)
    requires ValidBundle(b) && Holds(b, tree, target, tree')
    requires BridgeConflicts(tree, Records(b, tree), target') == []
    requires Selects(target, Claude) && Selects(target', Claude) ==>
      BridgeConflicts(tree, Records(b, tree), target) == []
    ensures BridgeConflicts(tree', Records(b, tree'), target') == []
  {
    hide ValidBundle, PlanFor, Holds, Records, Find;
    if Selects(target', Claude) {
      AgentsFileUntouched(b, tree, target, tree');
      if Selects(target, Claude) {
        FindSelected(b, tree, target, tree', Bridge(b));
      } else {
        FindUnselected(b, tree, target, tree', Bridge(b));
      }
    }
  }

  /** After a successful sync the plan for the same target is safe, every action is `Unchanged`,
      the manifest included, and it would write the manifest that is there. */
  lemma SyncFixpoint(b: Bundle, tree: Tree, target: Target, ids: Path -> Inode)
    requires ValidBundle(b) && PlanFor(b, tree, target).safe
    ensures var tree' := Synced(b, tree, target, ids);
      && PlanFor(b, tree', target).safe
      && (forall a :: a in PlanFor(b, tree', target).actions ==> a.kind == Unchanged)
      && Synced(b, tree', target, ids) == tree'
      && PlanFor(b, tree', target).manifest == PlanFor(b, tree, target).manifest
  {
    hide ValidBundle, PlanFor, Records, Considered, BridgeAvailable, Desired, LoadManifest, BridgeConflicts, Sort,
      Carries;
    var tree' := Synced(b, tree, target, ids);
    SyncHolds(b, tree, target, ids);
    hide Synced, Holds;
    RecordsAfter(b, tree, target, tree');
    SafePlans(b, tree, target);
    SafePlans(b, tree', target);
    BridgeStaysFine(b, tree, target, tree', target);
    forall f | Takes(b, tree', target, f)
      ensures ConflictAt(b, tree', f) == [] && ActionAt(b, tree', f).kind == Unchanged
    {
      TakenIsDesired(b, tree', target, f);
      TakesSelected(b, tree, target, tree', target, f);
      TakenIsUnchanged(b, tree, target, tree', f);
    }
    forall r ensures Carries(b, tree, target, r) <==> Carries(b, tree', target, r) {
      CarriesAgain(b, tree, target, tree', r);
    }
    SameRecordsSameManifest(b, tree, target, tree', target);
    assert ManifestConflicts(b, Inspect(tree', MANIFEST_PATH)) == [];
    PlanActions(b, tree', target);
    ManifestUnchanged(b, tree, target, tree');
    NothingToDo(b, tree', target, ids);
  }

  lemma ManifestUnchanged(b: Bundle, tree: Tree, target: Target, tree': Tree)
    requires ValidBundle(b) && Holds(b, tree, target, tree')
    ensures ManifestAction(b, Inspect(tree', MANIFEST_PATH), PlanFor(b, tree, target).manifest).kind == Unchanged
  {
    RecordsAfter(b, tree, target, tree');
  }

  lemma NothingToDo(b: Bundle, tree: Tree, target: Target, ids: Path -> Inode)
    requires ValidBundle(b) && forall a :: a in PlanFor(b, tree, target).actions ==> a.kind == Unchanged
    ensures Synced(b, tree, target, ids) == tree
    ensures InstallOrder(PlanFor(b, tree, target)) == []
  {
    hide ValidBundle, PlanFor;
    InstallOrderMembers(b, tree, target);
    var order := InstallOrder(PlanFor(b, tree, target));
    if order != [] {
      var a := SomeElement(order);
    }
  }

  // ---------- `doctor` ----------

  datatype Health = Blocked | NotInstalled | Drifted | Healthy

  function OfKind(actions: seq<PlanAction>, kind: ActionKind): seq<PlanAction> {
    Filter(actions, (a: PlanAction) => a.kind == kind)
  }

  /** `action_count`. */
  function Count(actions: seq<PlanAction>, kind: ActionKind): nat {
    |OfKind(actions, kind)|
  }

  /** The status that `doctor` reports. */
  function Doctor(b: Bundle, tree: Tree, target: Target): Health {
    var plan := PlanFor(b, tree, target);
    if !plan.safe then Blocked
    else if Count(plan.actions, Create) > 0 then NotInstalled
    else if Count(plan.actions, Update) > 0 then Drifted
    else Healthy
  }

  lemma CountPositive(actions: seq<PlanAction>, kind: ActionKind)
    ensures Count(actions, kind) > 0 <==> exists a :: a in actions && a.kind == kind
  {
    var r := OfKind(actions, kind);
    if |r| > 0 { assert r[0] in r; }
    if a :| a in actions && a.kind == kind { assert a in r; }
  }

  /** `doctor` says healthy exactly if the plan is safe and a sync would write nothing. */
  lemma HealthyMeansNothingToDo(b: Bundle, tree: Tree, target: Target)
    requires ValidBundle(b)
    ensures Doctor(b, tree, target) == Healthy <==>
      PlanFor(b, tree, target).safe && InstallOrder(PlanFor(b, tree, target)) == []
  {
    hide ValidBundle, PlanFor, Count;
    var plan := PlanFor(b, tree, target);
    CountPositive(plan.actions, Create);
    CountPositive(plan.actions, Update);
    InstallOrderMembers(b, tree, target);
    var order := InstallOrder(plan);
    assert order != [] ==> order[0] in order;
  }

  // ---------- Confluence ----------

  /** The plan for `All` decides about a file as the plan for the file's own client does. */
  lemma TakesByClient(b: Bundle, tree: Tree, target: Target, f: DesiredFile)
    requires ValidBundle(b)
    ensures Takes(b, tree, target, f) <==> Takes(b, tree, All, f) && Selects(target, f.client)
  {
    hide ValidBundle;
    if Desired(b, All, f) && f.path == CLAUDE_BRIDGE {
      BridgeIsClaudes(b, f);
    }
  }

  lemma SafeForOne(b: Bundle, tree: Tree, target: Target)
    requires ValidBundle(b) && PlanFor(b, tree, All).safe
    ensures PlanFor(b, tree, target).safe
  {
    hide ValidBundle, PlanFor, Takes, Records, ConflictAt, Find;
    SafePlans(b, tree, target);
    SafePlans(b, tree, All);
    forall f | Takes(b, tree, target, f) ensures ConflictAt(b, tree, f) == [] {
      TakesByClient(b, tree, target, f);
    }
  }

  /** A second sync, for the other client, is as safe as `All` was at the start. */
  lemma SafeForTheOther(b: Bundle, tree: Tree, first: Target, tree': Tree, second: Target)
    requires ValidBundle(b) && PlanFor(b, tree, All).safe && Holds(b, tree, first, tree')
    requires first != All && second != All && first != second
    ensures PlanFor(b, tree', second).safe
  {
    hide ValidBundle, PlanFor, Takes, Records, ConflictAt, Find, Holds, BridgeConflicts;
    SafeForOne(b, tree, second);
    SafePlans(b, tree, second);
    SafePlans(b, tree', second);
    RecordsAfter(b, tree, first, tree');
    BridgeStaysFine(b, tree, first, tree', second);
    forall f | Takes(b, tree', second, f) ensures ConflictAt(b, tree', f) == [] {
      TakenIsDesired(b, tree', second, f);
      TakesUnselected(b, tree, first, tree', second, f);
    }
    assert ManifestConflicts(b, Inspect(tree', MANIFEST_PATH)) == [];
  }

  /** Syncing the two clients one after the other records what one sync of `All` records. */
  lemma CarriesBoth(b: Bundle, tree: Tree, first: Target, tree': Tree, second: Target, r: ManagedFile)
    requires ValidBundle(b) && Holds(b, tree, first, tree')
    requires first != All && second != All && first != second
    ensures Carries(b, tree', second, r) <==> Carries(b, tree, All, r)
  {
    hide ValidBundle, PlanFor, Holds, Records, Considered, BridgeAvailable, Desired, Increasing, DistinctBy;
    RecordsAfter(b, tree, first, tree');
    NextRecords(b, tree, first);
    forall f ensures Takes(b, tree, All, f) <==> Takes(b, tree, first, f) || Takes(b, tree', second, f) {
      BothTake(b, tree, first, tree', second, f);
    }
    if r in Records(b, tree') && Retains(second, r) {
      assert Carries(b, tree, first, r) && !Retains(first, r);
    }
    if f :| Takes(b, tree, first, f) && r == RecordFor(f) {
      TakenIsDesired(b, tree, first, f);
      assert Carries(b, tree, first, r) && Retains(second, r);
    }
  }

  lemma BothTake(b: Bundle, tree: Tree, first: Target, tree': Tree, second: Target, f: DesiredFile)
    requires ValidBundle(b) && Holds(b, tree, first, tree')
    requires first != All && second != All && first != second
    ensures Takes(b, tree, All, f) <==> Takes(b, tree, first, f) || Takes(b, tree', second, f)
  {
    hide ValidBundle, PlanFor, Holds, Records, Considered, BridgeAvailable;
    TakesByClient(b, tree, first, f);
    TakesByClient(b, tree, second, f);
    if Desired(b, All, f) && !Selects(first, f.client) {
      TakesUnselected(b, tree, first, tree', second, f);
    }
  }

  /** Two syncs, one per client, end with the contents that one sync of both leaves. */
  lemma OneAfterTheOther(
      b: Bundle, tree: Tree, first: Target, second: Target, ids: Path -> Inode, ids': Path -> Inode,
      ids'': Path -> Inode)
    requires ValidBundle(b) && PlanFor(b, tree, All).safe
    requires first != All && second != All && first != second
    ensures PlanFor(b, tree, first).safe
    ensures var tree' := Synced(b, tree, first, ids);
      && PlanFor(b, tree', second).safe
      && forall p :: ContentAt(Synced(b, tree', second, ids'), p) == ContentAt(Synced(b, tree, All, ids''), p)
  {
    hide ValidBundle, PlanFor, Records, Considered, BridgeAvailable, Desired, Synced, Holds;
    SafeForOne(b, tree, first);
    var tree' := Synced(b, tree, first, ids);
    SyncHolds(b, tree, first, ids);
    SafeForTheOther(b, tree, first, tree', second);
    var two, one := Synced(b, tree', second, ids'), Synced(b, tree, All, ids'');
    SyncHolds(b, tree', second, ids');
    SyncHolds(b, tree, All, ids'');
    forall r ensures Carries(b, tree', second, r) <==> Carries(b, tree, All, r) {
      CarriesBoth(b, tree, first, tree', second, r);
    }
    SameRecordsSameManifest(b, tree', second, tree, All);
    forall p ensures ContentAt(two, p) == ContentAt(one, p) {
      SameContent(b, tree, first, tree', second, two, one, p);
    }
  }

  lemma SameContent(
      b: Bundle, tree: Tree, first: Target, tree': Tree, second: Target, two: Tree, one: Tree, p: Path)
    requires ValidBundle(b) && Holds(b, tree, first, tree') && Holds(b, tree', second, two) && Holds(b, tree, All, one)
    requires first != All && second != All && first != second
    requires PlanFor(b, tree', second).manifest == PlanFor(b, tree, All).manifest
    ensures ContentAt(two, p) == ContentAt(one, p)
  {
    hide ValidBundle, PlanFor, Takes;
    forall f ensures Takes(b, tree, All, f) <==> Takes(b, tree, first, f) || Takes(b, tree', second, f) {
      BothTake(b, tree, first, tree', second, f);
    }
    if p != MANIFEST_PATH {
      if f :| Takes(b, tree, All, f) && f.path == p {
        TakenIsDesired(b, tree, All, f);
        if Takes(b, tree', second, f) {
          assert ContentAt(two, p) == Some(f.contents);
        } else {
          assert Takes(b, tree, first, f) && ContentAt(tree', p) == Some(f.contents);
          forall g | Takes(b, tree', second, g) ensures g.path != p {
            TakenIsDesired(b, tree', second, g);
            if g.path == p { DesiredByPath(b, All, All, f, g); }
          }
        }
      }
    }
  }

  /** Target confluence: from a tree where the plan for `All` is safe, syncing Codex then Claude,
      Claude then Codex, and both at once all succeed and end with the same contents everywhere. */
  lemma TargetConfluence(
      b: Bundle, tree: Tree, ids: Path -> Inode, ids': Path -> Inode, other: Path -> Inode, other': Path -> Inode,
      both: Path -> Inode)
    requires ValidBundle(b) && PlanFor(b, tree, All).safe
    ensures PlanFor(b, tree, OnlyCodex).safe && PlanFor(b, tree, OnlyClaude).safe
    ensures var codex, claude := Synced(b, tree, OnlyCodex, ids), Synced(b, tree, OnlyClaude, other);
      && PlanFor(b, codex, OnlyClaude).safe && PlanFor(b, claude, OnlyCodex).safe
      && forall p ::
           ContentAt(Synced(b, codex, OnlyClaude, ids'), p) == ContentAt(Synced(b, tree, All, both), p)
           == ContentAt(Synced(b, claude, OnlyCodex, other'), p)
  {
    hide ValidBundle, PlanFor, Synced, ContentAt;
    OneAfterTheOther(b, tree, OnlyCodex, OnlyClaude, ids, ids', both);
    OneAfterTheOther(b, tree, OnlyClaude, OnlyCodex, other, other', both);
  }
}
