/** What a projection plan consists of: its actions, its conflicts and the manifest it would write,
    each described by the desired files and not by the loop that collects them. */
module AgentPlanFacts {
  import opened Disks
  import opened Options
  import opened Paths
  import opened Sorting
  import opened AgentStaging
  import opened AgentPlan

  /** The files that the tree's manifest records, if it loads. */
  function Records(b: Bundle, tree: Tree): seq<ManagedFile> {
    Recorded(LoadManifest(b, Inspect(tree, MANIFEST_PATH)))
  }

  /** The plan for `target` decides about `f`. */
  ghost predicate Takes(b: Bundle, tree: Tree, target: Target, f: DesiredFile) {
    Desired(b, target, f) && Considered(tree, Records(b, tree), BridgeAvailable(tree, target), f)
  }

  function ActionAt(b: Bundle, tree: Tree, f: DesiredFile): PlanAction {
    ActionFor(tree, Records(b, tree), f)
  }

  function ConflictAt(b: Bundle, tree: Tree, f: DesiredFile): seq<Conflict> {
    ConflictFor(Inspect(tree, f.path), Find(Records(b, tree), f.path), f)
  }

  // ---------- The loop ----------

  lemma {:induction false} PlanFilesMembers(
      tree: Tree, recorded: seq<ManagedFile>, available: bool, files: seq<DesiredFile>)
    ensures var done := PlanFiles(tree, recorded, available, files);
      && (forall a :: a in done.actions <==>
            exists f :: f in files && Considered(tree, recorded, available, f) && a == ActionFor(tree, recorded, f))
      && (forall r :: r in done.next <==>
            exists f :: f in files && Considered(tree, recorded, available, f) && r == RecordFor(f))
      && (done.conflicts == [] <==>
            forall f :: f in files && Considered(tree, recorded, available, f) ==>
              ConflictFor(Inspect(tree, f.path), Find(recorded, f.path), f) == [])
  {
    if files != [] {
      var k := |files| - 1;
      PlanFilesMembers(tree, recorded, available, files[..k]);
      TakeOneMore(files, k);
      TakeAll(files);
      assert forall f :: f in files <==> f in files[..k] || f == files[k];
    }
  }

  function DesiredPath(f: DesiredFile): Path { f.path }

  function ActionPath(a: PlanAction): Path { a.path }

  lemma {:induction false} PlanFilesDistinct(
      tree: Tree, recorded: seq<ManagedFile>, available: bool, files: seq<DesiredFile>)
    requires DistinctBy(files, DesiredPath)
    ensures DistinctBy(PlanFiles(tree, recorded, available, files).actions, ActionPath)
    ensures DistinctBy(PlanFiles(tree, recorded, available, files).next, ManagedPath)
  {
    if files != [] {
      var k := |files| - 1;
      var before := files[..k];
      PlanFilesDistinct(tree, recorded, available, before);
      PlanFilesMembers(tree, recorded, available, before);
      forall f | f in before ensures f.path != files[k].path {
        var j :| 0 <= j < k && before[j] == f;
        assert DesiredPath(files[j]) != DesiredPath(files[k]);
      }
      var done := PlanFiles(tree, recorded, available, before);
      DistinctConcat(done.actions, [ActionFor(tree, recorded, files[k])], ActionPath);
      DistinctConcat(done.next, [RecordFor(files[k])], ManagedPath);
    }
  }

  lemma ProjectedDistinct(client: Client, assets: seq<Asset>)
    requires DistinctBy(assets, AssetPath)
    ensures DistinctBy(Projected(client, assets), DesiredPath)
  {
    var r := Projected(client, assets);
    forall i, j | 0 <= i < j < |r| ensures DesiredPath(r[i]) != DesiredPath(r[j]) {
      assert AssetPath(assets[i]) != AssetPath(assets[j]);
      assert r[i].path[2..] == assets[i].path && r[j].path[2..] == assets[j].path;
    }
  }

  lemma DesiredDistinct(b: Bundle, target: Target)
    requires ValidBundle(b)
    ensures DistinctBy(DesiredFiles(b, target), DesiredPath)
  {
    var claude := if Selects(target, Claude) then Projected(Claude, b.assets) + [Bridge(b)] else [];
    var codex := if Selects(target, Codex) then Projected(Codex, b.assets) else [];
    forall f ensures f in claude ==> Desired(b, target, f) && f.client == Claude {
      ProjectedMembers(Claude, b.assets, f);
    }
    forall f ensures f in codex ==> Desired(b, target, f) && f.client == Codex {
      ProjectedMembers(Codex, b.assets, f);
    }
    ProjectedDistinct(Claude, b.assets);
    ProjectedDistinct(Codex, b.assets);
    if Selects(target, Claude) {
      forall f | f in Projected(Claude, b.assets) ensures f.path != CLAUDE_BRIDGE {
        ProjectedMembers(Claude, b.assets, f);
        BridgeIsNoProjection(b, Claude);
      }
      DistinctConcat(Projected(Claude, b.assets), [Bridge(b)], DesiredPath);
    }
    forall f, g | f in claude && g in codex ensures f.path != g.path {
      if f.path == g.path {
        DesiredByPath(b, target, target, f, g);
      }
    }
    DistinctConcat(claude, codex, DesiredPath);
    SortKeepsDistinct(claude + codex, DesiredLeq, DesiredPath);
  }

  // ---------- The manifest ----------

  ghost function PathSet(files: seq<ManagedFile>): set<Path> {
    set f | f in files :: f.path
  }

  lemma DistinctFurther(files: seq<ManagedFile>, f: ManagedFile)
    ensures PathSet(files + [f]) == PathSet(files) + {f.path}
    ensures DistinctBy(files + [f], ManagedPath) <==> DistinctBy(files, ManagedPath) && f.path !in PathSet(files)
  {
    var all := files + [f];
    if DistinctBy(all, ManagedPath) {
      forall i, j | 0 <= i < j < |files| ensures ManagedPath(files[i]) != ManagedPath(files[j]) {
        assert ManagedPath(all[i]) != ManagedPath(all[j]);
      }
      forall g | g in files ensures g.path != f.path {
        var j :| 0 <= j < |files| && files[j] == g;
        assert ManagedPath(all[j]) != ManagedPath(all[|files|]);
      }
    }
  }

  lemma {:induction false} DistinctByCount(files: seq<ManagedFile>)
    ensures |PathSet(files)| <= |files|
    ensures |PathSet(files)| == |files| <==> DistinctBy(files, ManagedPath)
  {
    if files != [] {
      var k := |files| - 1;
      assert files == files[..k] + [files[k]];
      DistinctByCount(files[..k]);
      DistinctFurther(files[..k], files[k]);
    }
  }

  lemma RecordLeqIsTotal()
    ensures TotalOrder(RecordLeq)
  {
    StringLeqIsTotalOrder();
  }

  /** Records of fixed projection paths have one order. */
  lemma SortedRecordsIncrease(files: seq<ManagedFile>)
    requires DistinctBy(files, ManagedPath) && forall f :: f in files ==> NoSlash(f.path)
    ensures var sorted := Sort(files, RecordLeq);
      Increasing(sorted, RecordLeq) && Dedup(sorted) == sorted
      && DistinctBy(sorted, ManagedPath) && forall f :: f in sorted <==> f in files
  {
    var sorted := Sort(files, RecordLeq);
    RecordLeqIsTotal();
    SortSorts(files, RecordLeq);
    SortKeepsDistinct(files, RecordLeq, ManagedPath);
    forall i, j | 0 <= i < j < |sorted|
      ensures RecordLeq(sorted[i], sorted[j]) && !RecordLeq(sorted[j], sorted[i])
    {
      assert ManagedPath(sorted[i]) != ManagedPath(sorted[j]);
      assert sorted[i] in sorted && sorted[j] in sorted;
      if RecordLeq(sorted[j], sorted[i]) {
        StringOrder(Render(sorted[i].path), Render(sorted[j].path));
        RenderInjective(sorted[i].path, sorted[j].path);
      }
    }
    DedupOfDistinct(sorted);
  }

  lemma {:induction false} DedupOfDistinct(files: seq<ManagedFile>)
    requires DistinctBy(files, ManagedPath)
    ensures Dedup(files) == files
  {
    if |files| >= 2 {
      var k := |files| - 1;
      DedupOfDistinct(files[..k]);
      assert ManagedPath(files[k - 1]) != ManagedPath(files[k]);
      assert files == files[..k] + [files[k]];
    }
  }

  /** Loaded records are distinct fixed paths. */
  lemma LoadedRecords(b: Bundle, tree: Tree)
    requires ValidBundle(b)
    ensures DistinctBy(Records(b, tree), ManagedPath)
    ensures forall r :: r in Records(b, tree) ==>
      NoSlash(r.path) && ValidChecksum(r.sha256) && exists f ::
        Desired(b, All, f) && f.path == r.path && f.client == r.client
  {
    DistinctByCount(Records(b, tree));
    assert |PathSet([])| == 0;
    forall r | r in Records(b, tree)
      ensures NoSlash(r.path) && ValidChecksum(r.sha256)
        && exists f :: Desired(b, All, f) && f.path == r.path && f.client == r.client
    {
      var f :| f in DesiredFiles(b, OnlyClaude) + DesiredFiles(b, OnlyCodex) && f.path == r.path &&
        f.client == r.client;
      DesiredMembers(b, OnlyClaude, f);
      DesiredMembers(b, OnlyCodex, f);
      assert Desired(b, All, f);
      DesiredPathsOrdinary(b, All, f);
    }
  }

  /** What the next manifest records: the other clients' old records and the files taken now. */
  ghost predicate Carries(b: Bundle, tree: Tree, target: Target, r: ManagedFile) {
    (r in Records(b, tree) && Retains(target, r)) || exists f :: Takes(b, tree, target, f) && r == RecordFor(f)
  }

  lemma NextRecords(b: Bundle, tree: Tree, target: Target)
    requires ValidBundle(b)
    ensures var files := PlanFor(b, tree, target).manifest.files;
      && Increasing(files, RecordLeq) && DistinctBy(files, ManagedPath)
      && forall r :: r in files <==> Carries(b, tree, target, r)
  {
    hide ValidBundle, Sort, PlanFiles, Desired, KindFor, ConflictFor, LoadManifest, ManifestConflicts,
      BridgeConflicts, BridgeManual, McpActions, BridgeAvailable, Considered, Filter, Dedup, ClientsOf, DistinctBy,
      Increasing, DesiredFiles, Find;
    var recorded, available, desired := Records(b, tree), BridgeAvailable(tree, target), DesiredFiles(b, target);
    var next := PlanFiles(tree, recorded, available, desired).next;
    var kept := Retained(target, recorded);
    LoadedRecords(b, tree);
    DesiredDistinct(b, target);
    PlanFilesDistinct(tree, recorded, available, desired);
    PlanFilesMembers(tree, recorded, available, desired);
    FilterKeepsDistinct(recorded, f => Retains(target, f), ManagedPath);
    forall r ensures r in next <==> exists f :: Takes(b, tree, target, f) && r == RecordFor(f) {
      forall f ensures f in desired <==> Desired(b, target, f) { DesiredMembers(b, target, f); }
    }
    forall x, y | x in kept && y in next ensures ManagedPath(x) != ManagedPath(y) {
      var f :| Takes(b, tree, target, f) && y == RecordFor(f);
      var g :| Desired(b, All, g) && g.path == x.path && g.client == x.client;
      TakenIsDesired(b, tree, target, f);
      if x.path == y.path { DesiredByPath(b, target, All, f, g); }
    }
    DistinctConcat(kept, next, ManagedPath);
    forall r: ManagedFile | r in kept + next ensures NoSlash(r.path) {
      if r in next {
        var f :| Takes(b, tree, target, f) && r == RecordFor(f);
        DesiredPathsOrdinary(b, target, f);
      }
    }
    SortedRecordsIncrease(kept + next);
  }

  lemma RecordsAreValid(b: Bundle, files: seq<ManagedFile>)
    requires DistinctBy(files, ManagedPath)
    requires forall r :: r in files ==> ClaimsFixedPath(b, r) && ValidChecksum(r.sha256)
    ensures forall version, digest, clients :: ValidManifest(b, Manifest(1, version, digest, clients, files))
  {
    DistinctByCount(files);
  }

  lemma DesiredIsClaimed(b: Bundle, f: DesiredFile, r: ManagedFile)
    requires Desired(b, All, f) && f.path == r.path && f.client == r.client
    ensures ClaimsFixedPath(b, r)
  {
    DesiredMembers(b, OnlyClaude, f);
    DesiredMembers(b, OnlyCodex, f);
    assert f in DesiredFiles(b, OnlyClaude) + DesiredFiles(b, OnlyCodex);
  }

  lemma NextManifestParses(b: Bundle, tree: Tree, target: Target)
    requires ValidBundle(b)
    ensures var m := PlanFor(b, tree, target).manifest;
      b.parse(b.render(m)) == Some(m) && m == Manifest(1, b.version, b.digest, m.clients, m.files)
  {
  }

  lemma NextRecordsAreClaimed(b: Bundle, tree: Tree, target: Target, r: ManagedFile)
    requires ValidBundle(b) && Carries(b, tree, target, r)
    ensures ClaimsFixedPath(b, r) && ValidChecksum(r.sha256)
  {
    hide ValidBundle, Desired, DistinctBy, Considered, BridgeAvailable, Records, ClaimsFixedPath;
    LoadedRecords(b, tree);
    if r in Records(b, tree) {
      var f :| Desired(b, All, f) && f.path == r.path && f.client == r.client;
      DesiredIsClaimed(b, f, r);
    } else {
      var f :| Takes(b, tree, target, f) && r == RecordFor(f);
      TakenIsDesired(b, tree, target, f);
      DesiredIsClaimed(b, f, r);
    }
  }

  /** The manifest that a plan writes loads again. */
  lemma NextManifestLoads(b: Bundle, tree: Tree, target: Target, id: Inode)
    requires ValidBundle(b)
    ensures var m := PlanFor(b, tree, target).manifest;
      LoadManifest(b, Regular(b.render(m), id)) == Some(m)
  {
    hide ValidBundle, PlanFor, ClaimsFixedPath, DistinctBy, Increasing, ValidManifest, Carries;
    var m := PlanFor(b, tree, target).manifest;
    NextManifestParses(b, tree, target);
    NextRecords(b, tree, target);
    forall r | r in m.files ensures ClaimsFixedPath(b, r) && ValidChecksum(r.sha256) {
      NextRecordsAreClaimed(b, tree, target, r);
    }
    RecordsAreValid(b, m.files);
  }

  lemma TakenIsDesired(b: Bundle, tree: Tree, target: Target, f: DesiredFile)
    requires Takes(b, tree, target, f)
    ensures Desired(b, target, f) && Desired(b, All, f) && Selects(target, f.client)
  {
  }

  // ---------- Actions and safety ----------

  lemma ConflictKinds(state: Inspection, managed: Option<ManagedFile>, f: DesiredFile)
    ensures KindFor(state, managed, f) == ConflictAction <==> ConflictFor(state, managed, f) != []
  {
  }

  lemma PlanActions(b: Bundle, tree: Tree, target: Target)
    requires ValidBundle(b)
    ensures var plan := PlanFor(b, tree, target);
      && (forall a :: a in plan.actions <==>
            || a == ManifestAction(b, Inspect(tree, MANIFEST_PATH), plan.manifest)
            || exists f :: Takes(b, tree, target, f) && a == ActionAt(b, tree, f))
      && DistinctBy(plan.actions, ActionPath)
  {
    hide ValidBundle, Sort, PlanFiles, Desired, KindFor, ConflictFor, LoadManifest, ManifestConflicts,
      BridgeConflicts, BridgeManual, McpActions, BridgeAvailable, Considered, Filter, Dedup, ClientsOf, DistinctBy,
      Increasing, DesiredFiles, Find;
    var plan := PlanFor(b, tree, target);
    var recorded, available, desired := Records(b, tree), BridgeAvailable(tree, target), DesiredFiles(b, target);
    var done := PlanFiles(tree, recorded, available, desired);
    var own := ManifestAction(b, Inspect(tree, MANIFEST_PATH), plan.manifest);
    PlanFilesMembers(tree, recorded, available, desired);
    DesiredDistinct(b, target);
    PlanFilesDistinct(tree, recorded, available, desired);
    forall f ensures f in desired <==> Desired(b, target, f) { DesiredMembers(b, target, f); }
    forall a | a in done.actions ensures a.path != MANIFEST_PATH {
      var f :| f in desired && Considered(tree, recorded, available, f) && a == ActionFor(tree, recorded, f);
      DesiredPathsOrdinary(b, target, f);
    }
    DistinctConcat(done.actions, [own], ActionPath);
    SortKeepsDistinct(done.actions + [own], ActionLeq, ActionPath);
    SamePermutation(done.actions + [own], plan.actions);
    assert forall f :: Takes(b, tree, target, f) <==> f in desired && Considered(tree, recorded, available, f);
  }

  /** A plan is safe exactly if the manifest loads or is absent, the Claude bridge has what it needs
      and no file that the plan decides about conflicts. */
  lemma SafePlans(b: Bundle, tree: Tree, target: Target)
    requires ValidBundle(b)
    ensures PlanFor(b, tree, target).safe <==>
      && ManifestConflicts(b, Inspect(tree, MANIFEST_PATH)) == []
      && BridgeConflicts(tree, Records(b, tree), target) == []
      && forall f :: Takes(b, tree, target, f) ==> ConflictAt(b, tree, f) == []
  {
    hide ValidBundle, Sort, PlanFiles, Desired, KindFor, ConflictFor, LoadManifest, ManifestConflicts,
      BridgeConflicts, BridgeManual, McpActions, BridgeAvailable, Considered, Filter, Dedup, ClientsOf, DistinctBy,
      Increasing, DesiredFiles, Find;
    var desired := DesiredFiles(b, target);
    var done := PlanFiles(tree, Records(b, tree), BridgeAvailable(tree, target), desired);
    PlanFilesMembers(tree, Records(b, tree), BridgeAvailable(tree, target), desired);
    forall f ensures f in desired <==> Desired(b, target, f) { DesiredMembers(b, target, f); }
    assert PlanFor(b, tree, target).safe <==>
      ManifestConflicts(b, Inspect(tree, MANIFEST_PATH)) + BridgeConflicts(tree, Records(b, tree), target) +
        done.conflicts == [];
    assert done.conflicts == [] <==> forall f :: Takes(b, tree, target, f) ==> ConflictAt(b, tree, f) == [] by {
      assert forall f :: Takes(b, tree, target, f) <==>
        f in desired && Considered(tree, Records(b, tree), BridgeAvailable(tree, target), f);
    }
  }

  /** An action of kind `Conflict` is never part of a safe plan. */
  lemma ConflictsAreUnsafe(b: Bundle, tree: Tree, target: Target, a: PlanAction)
    requires ValidBundle(b) && a in PlanFor(b, tree, target).actions && a.kind == ConflictAction
    ensures !PlanFor(b, tree, target).safe
  {
    hide ValidBundle, Sort, PlanFiles, Desired, KindFor, ConflictFor, LoadManifest, BridgeConflicts, BridgeManual,
      McpActions, BridgeAvailable, Considered, Filter, Dedup, ClientsOf, DistinctBy, Increasing, DesiredFiles, Find;
    SafePlans(b, tree, target);
    PlanActions(b, tree, target);
    if f :| Takes(b, tree, target, f) && a == ActionAt(b, tree, f) {
      ConflictKinds(Inspect(tree, f.path), Find(Records(b, tree), f.path), f);
    }
  }
}
