/** What a crash in the middle of a publication leaves on the disk is what the planner's model of a crash says: the
    files of the first installs, apart from staging names (crates/minco-cli/src/agent_cmd.rs, `publish_inner`). */
module AgentCrashes {
  import opened Disks
  import opened DiskPaths
  import opened TreeShapes
  import opened Options
  import opened Paths
  import opened Sorting
  import opened AgentStaging
  import opened AgentReadiness
  import opened AgentPlan
  import opened AgentPlanFacts
  import opened AgentSync
  import opened AgentRuns
  import opened AgentOnDisk

  /** A staged file and the write of the plan that it is for. */
  predicate IsFor(w: StagedWrite, a: PlanAction) {
    w.path == a.path && w.contents == a.contents && w.expected == a.expected
  }

  lemma StagedAlike(plan: Plan, layered: seq<StagedWrite>)
    requires StagedFor(layered, Requests(plan)) && |layered| == |Requests(plan)|
    ensures Alike(layered, Writes(plan), IsFor)
  {
    hide Writes;
    forall i | 0 <= i < |layered| ensures IsFor(layered[i], Writes(plan)[i]) {
      assert Stages(layered[i], Requests(plan)[i]);
    }
  }

  lemma LikeOrders()
    ensures OrdersAlike(InstallLeq, WriteLeq, IsFor)
  {
    hide InstallsBefore;
  }

  /** The publisher installs in the planner's order. */
  lemma InstallsInOrder(plan: Plan, layered: seq<StagedWrite>, staged: seq<StagedWrite>)
    requires StagedFor(layered, Requests(plan)) && |layered| == |Requests(plan)|
    requires SameButStates(Sort(layered, InstallLeq), staged)
    ensures Alike(staged, InstallOrder(plan), IsFor)
  {
    hide Sort, Writes, WriteLeq, InstallLeq;
    StagedAlike(plan, layered);
    LikeOrders();
    SortAlike(layered, Writes(plan), InstallLeq, WriteLeq, IsFor);
    hide OrdersAlike, StagedFor;
    assert forall j :: 0 <= j < |staged| ==> staged[j] == Sort(layered, InstallLeq)[j].(state := staged[j].state);
  }

  function RequestOf(w: StagedWrite): WriteRequest {
    WriteRequest(w.path, w.contents, w.expected)
  }

  function RequestsOf(staged: seq<StagedWrite>): (r: seq<WriteRequest>)
    ensures |r| == |staged| && forall k :: 0 <= k < |r| ==> r[k] == RequestOf(staged[k])
  {
    seq(|staged|, k requires 0 <= k < |staged| => RequestOf(staged[k]))
  }

  lemma TargetSoFar(
      base: Disk, start: Disk, d: Disk, staged: seq<StagedWrite>, planned: set<string>, layered: seq<StagedWrite>,
      k: nat, j: nat)
    requires Layered(base, start, layered) && SameButStates(layered, staged)
    requires InstalledSoFar(start, d, staged, k) && NamesApart(staged, planned) && j < k
    ensures IdentityAt(Swept(d, staged), staged[j].Target()) == Some(staged[j].stagedIdentity)
    ensures staged[j].stagedIdentity !in base.nodes
    ensures NodeAt(Swept(d, staged), staged[j].Target()) == Some(File(staged[j].contents))
  {
    assert staged[j] in staged && layered[j] in layered;
    assert forall v :: v in staged ==> v.stagingName !in planned;
    assert staged[j].Target() !in StagingSlots(staged);
  }

  lemma OtherSoFar(
      base: Disk, start: Disk, d: Disk, staged: seq<StagedWrite>, layered: seq<StagedWrite>, k: nat, s: Slot)
    requires Layered(base, start, layered) && SameButStates(layered, staged) && InstalledSoFar(start, d, staged, k)
    requires forall j :: 0 <= j < k ==> staged[j].Target() != s
    ensures IdentityAt(Swept(d, staged), s) == IdentityAt(base, s)
  {
    SameStagingSlots(layered, staged);
    if s in StagingSlots(staged) {
      var v :| v in layered && v.Staging() == s;
    } else {
      forall j | 0 <= j < |staged| ensures s != staged[j].Staging() {
        assert staged[j] in staged;
      }
      assert IdentityAt(d, s) == IdentityAt(start, s);
    }
  }

  /** The disk after `k` installs, without staging names: the first `k` targets hold their new files. */
  lemma PublishedSoFar(
      base: Disk, start: Disk, d: Disk, staged: seq<StagedWrite>, planned: set<string>, layered: seq<StagedWrite>,
      k: nat)
    requires Layered(base, start, layered) && SameButStates(layered, staged)
    requires InstalledSoFar(start, d, staged, k) && NamesApart(staged, planned)
    ensures Published(base, Swept(d, staged), staged[..k])
  {
    var d' := Swept(d, staged);
    forall w | w in staged[..k]
      ensures IdentityAt(d', w.Target()) == Some(w.stagedIdentity) && w.stagedIdentity !in base.nodes
      ensures NodeAt(d', w.Target()) == Some(File(w.contents))
    {
      var j :| 0 <= j < k && staged[..k][j] == w;
      TargetSoFar(base, start, d, staged, planned, layered, k, j);
    }
    forall s | forall w :: w in staged[..k] ==> w.Target() != s
      ensures IdentityAt(d', s) == IdentityAt(base, s)
    {
      forall j | 0 <= j < k ensures staged[j].Target() != s {
        assert staged[..k][j] in staged[..k];
      }
      OtherSoFar(base, start, d, staged, layered, k, s);
    }
    SameNodes(base, start, d, staged, layered, k);
    hide Layered, SameButStates, InstalledSoFar, NamesApart, Swept, StagingSlots;
  }

  lemma SameNodes(
      base: Disk, start: Disk, d: Disk, staged: seq<StagedWrite>, layered: seq<StagedWrite>, k: nat)
    requires Layered(base, start, layered) && InstalledSoFar(start, d, staged, k)
    ensures Swept(d, staged).root == base.root
    ensures forall i :: i in base.nodes ==>
      i in Swept(d, staged).nodes && Swept(d, staged).nodes[i] == base.nodes[i]
  {
  }

  /** Without staging names every directory is still there. */
  lemma DirectoriesSoFar(
      base: Disk, history: seq<Disk>, staged: seq<StagedWrite>, layered: seq<StagedWrite>, done: nat, k: nat)
    requires InstallHistory(history, staged, done) && k <= done
    requires Layered(base, history[0], layered) && SameButStates(layered, staged)
    requires forall w :: w in staged ==> !w.expected.ExpectUnsafe?
    ensures DirectoriesKept(base, Swept(history[k], staged)) && history[k].root == base.root
  {
    LayeredFiles(base, history[0], layered, staged);
    DirectoriesAfterInstalls(history, staged, done, k);
    SameStagingSlots(layered, staged);
    LayeredDirectories(base, history[0], history[k], layered);
    assert forall v :: v in layered ==> v.Staging() !in base.names;
  }

  /** A staged file stands where the path of its request leads. */
  lemma PlaceSoFar(
      base: Disk, start: Disk, d: Disk, root: Inode, requests: seq<WriteRequest>, layered: seq<StagedWrite>,
      staged: seq<StagedWrite>, j: nat)
    requires Layered(base, start, layered) && ParentsOpen(start, root, layered) && root == base.root == d.root
    requires StagedFor(layered, requests) && SameButStates(Sort(layered, InstallLeq), staged) && j < |staged|
    requires DirectoriesKept(base, d)
    ensures PublishedAt(d, staged[j], RequestOf(staged[j]))
  {
    var w := Sort(layered, InstallLeq)[j];
    SamePermutation(layered, Sort(layered, InstallLeq));
    assert w in layered;
    var i :| 0 <= i < |layered| && layered[i] == w;
    assert Stages(w, requests[i]) && staged[j] == w.(state := staged[j].state);
    SameWayBelow(base, start, layered, root, w.parentPath);
    DescendKept(base, d, root, w.parentPath);
    hide Descend, Layered, StagedFor, SameButStates, Sort, ParentsOpen;
  }

  /** What is staged for the requests of a plan, and how far its installation has come. */
  ghost predicate InstallingOn(
      d0: Disk, base: Disk, history: seq<Disk>, root: Inode, requests: seq<WriteRequest>, layered: seq<StagedWrite>,
      staged: seq<StagedWrite>, planned: set<string>, done: nat)
  {
    && InstallHistory(history, staged, done)
    && StagedOn(d0, base, history[0], root, layered, requests)
    && StagedFor(layered, requests) && |layered| == |requests|
    && SameButStates(Sort(layered, InstallLeq), staged) && NamesApart(staged, planned) && ExpectsNoStaged(staged)
    && forall w :: w in staged ==> !w.expected.ExpectUnsafe?
  }

  lemma OkSoFar(
      d0: Disk, base: Disk, history: seq<Disk>, root: Inode, requests: seq<WriteRequest>, layered: seq<StagedWrite>,
      staged: seq<StagedWrite>, planned: set<string>, done: nat, k: nat)
    requires InstallingOn(d0, base, history, root, requests, layered, staged, planned, done) && k <= done
    ensures k <= |staged| && k < |history|
    ensures PublishedOk(d0, base, Swept(history[k], staged), RequestsOf(staged[..k]), staged[..k])
  {
    var sorted, d := Sort(layered, InstallLeq), Swept(history[k], staged);
    StagedMeans(d0, base, history[0], root, layered, requests);
    SortedLayers(base, history[0], layered);
    AfterInstalls(history, staged, planned, done, k);
    PublishedSoFar(base, history[0], history[k], staged, planned, sorted, k);
    DirectoriesSoFar(base, history, staged, sorted, done, k);
    var some := staged[..k];
    forall j | 0 <= j < k ensures PublishedAt(d, some[j], RequestOf(some[j])) {
      PlaceSoFar(base, history[0], d, root, requests, layered, staged, j);
    }
    hide InstallingOn, Layered, StagedFor, SameButStates, Sort, ParentsOpen, Published, PublishedAt, Swept, NamesApart,
      ExpectsNoStaged, InstallHistory, InstalledSoFar, Widened, DirectoriesKept, StagedOn;
    AllPlaced(d, some);
  }

  lemma AllPlaced(d: Disk, some: seq<StagedWrite>)
    requires forall j :: 0 <= j < |some| ==> PublishedAt(d, some[j], RequestOf(some[j]))
    ensures forall r :: r in RequestsOf(some) ==> exists w :: w in some && PublishedAt(d, w, r)
    ensures forall w :: w in some ==> exists r :: r in RequestsOf(some) && PublishedAt(d, w, r)
  {
    hide PublishedAt;
    forall r | r in RequestsOf(some) ensures exists w :: w in some && PublishedAt(d, w, r) {
      var j :| 0 <= j < |some| && RequestsOf(some)[j] == r;
      assert some[j] in some;
    }
    forall w | w in some ensures exists r :: r in RequestsOf(some) && PublishedAt(d, w, r) {
      var j :| 0 <= j < |some| && some[j] == w;
      assert RequestsOf(some)[j] in RequestsOf(some);
    }
  }

  lemma SortedLayers(base: Disk, d: Disk, layered: seq<StagedWrite>)
    requires Layered(base, d, layered)
    ensures Layered(base, d, Sort(layered, InstallLeq))
  {
    var sorted := Sort(layered, InstallLeq);
    SamePermutation(layered, sorted);
    assert StagingSlots(sorted) == StagingSlots(layered);
  }

  /** One file of a disk on which a sync has crashed. */
  lemma FileBehindCrash(
      tree: Tree, order: seq<PlanAction>, ids: Path -> Inode, d0: Disk, base: Disk, d: Disk, some: seq<StagedWrite>,
      p: Path)
    requires Alike(some, order, IsFor) && DistinctBy(order, ActionPath)
    requires p != [] && FileAt(d0, p) == ContentAt(tree, p)
    requires TreeShaped(d0) && Rooted(d0) && PublishedOk(d0, base, d, RequestsOf(some), some)
    ensures FileAt(d, p) == ContentAt(Installed(tree, order, ids), p)
  {
    InstalledContent(tree, order, ids, p);
    hide Installed, ContentAt, FileAt, PublishedOk, DistinctBy, TreeShaped, Rooted;
    if a :| a in order && a.path == p {
      var j :| 0 <= j < |order| && order[j] == a;
      assert IsFor(some[j], order[j]) && RequestsOf(some)[j] in RequestsOf(some);
      RequestedFile(d0, base, d, RequestsOf(some), some, RequestOf(some[j]));
    } else {
      forall r | r in RequestsOf(some) ensures r.path != p {
        var j :| 0 <= j < |some| && RequestsOf(some)[j] == r;
        assert IsFor(some[j], order[j]) && order[j] in order;
      }
      OtherFile(d0, base, d, RequestsOf(some), some, p);
    }
  }

  lemma FirstOnes(staged: seq<StagedWrite>, order: seq<PlanAction>, k: nat)
    requires Alike(staged, order, IsFor) && DistinctBy(order, ActionPath) && k <= |staged|
    ensures k <= |order| && Alike(staged[..k], order[..k], IsFor) && DistinctBy(order[..k], ActionPath)
  {
    forall i, j | 0 <= i < j < k ensures ActionPath(order[..k][i]) != ActionPath(order[..k][j]) {
      assert ActionPath(order[i]) != ActionPath(order[j]);
    }
  }

  /** A crash after `k` installs leaves, apart from staging names, the files of the planner's crashed tree. */
  lemma CrashOnDisk(
      b: Bundle, tree: Tree, target: Target, ids: Path -> Inode, d0: Disk, base: Disk, history: seq<Disk>, root: Inode,
      layered: seq<StagedWrite>, staged: seq<StagedWrite>, planned: set<string>, done: nat, k: nat)
    requires ValidBundle(b) && Mirrors(d0, tree) && TreeShaped(d0) && Rooted(d0) && k <= done
    requires InstallingOn(d0, base, history, root, Requests(PlanFor(b, tree, target)), layered, staged, planned, done)
    ensures k <= |InstallOrder(PlanFor(b, tree, target))|
    ensures Mirrors(Swept(history[k], staged), Installed(tree, InstallOrder(PlanFor(b, tree, target))[..k], ids))
  {
    hide PlanFor, TreeShaped, Rooted, Swept, Installed, InstallOrder, Requests, FileAt, ContentAt, InstallHistory,
      StagedOn, NamesApart, ExpectsNoStaged, PublishedOk, RequestsOf, StagedFor, SameButStates, Sort;
    var plan := PlanFor(b, tree, target);
    var order := InstallOrder(plan);
    InstallsInOrder(plan, layered, staged);
    OkSoFar(d0, base, history, root, Requests(plan), layered, staged, planned, done, k);
    InstallOrderMembers(b, tree, target);
    hide InstallingOn, ValidBundle, PublishedOk;
    FirstOnes(staged, order, k);
    hide Alike, DistinctBy;
    forall p | p != []
      ensures FileAt(Swept(history[k], staged), p) == ContentAt(Installed(tree, order[..k], ids), p)
    {
      FileBehindCrash(tree, order[..k], ids, d0, base, Swept(history[k], staged), staged[..k], p);
    }
  }
}
