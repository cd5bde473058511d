/** When a publication has nothing in its way: every expectation holds, every parent is there or can be made, and
    no target lies on the way to another. */
module AgentReadiness {
  import opened Disks
  import opened DiskPaths
  import opened OpenPaths
  import opened TreeShapes
  import opened Options
  import opened Paths
  import opened Sorting
  import opened AgentStaging

  /** What the request expects of its path. */
  ghost predicate Met(d: Disk, r: WriteRequest) {
    match r.expected
    case ExpectMissing => EntryAt(d, r.path).None?
    case ExpectRegular(id, digest) =>
      EntryAt(d, r.path) == Some(id) && id in d.nodes && d.nodes[id].File? && Sha256(d.nodes[id].data) == digest
    case ExpectUnsafe => false
  }

  ghost predicate Possible(d: Disk, r: WriteRequest) {
    ValidRelative(r.path) && Met(d, r) && !Blocked(d, d.root, Parent(r.path))
  }

  ghost predicate Publishable(d: Disk, requests: seq<WriteRequest>) {
    && TreeShaped(d) && Rooted(d) && DistinctBy(requests, RequestPath)
    && (forall r :: r in requests ==> Possible(d, r))
    && (forall r, s :: r in requests && s in requests ==> !(r.path < s.path))
  }

  ghost function TargetPaths(requests: seq<WriteRequest>): set<Path> {
    set r | r in requests :: r.path
  }

  /** The expectation of a request holds below its staging files. */
  lemma MetBelow(d0: Disk, base: Disk, requests: seq<WriteRequest>, r: WriteRequest, target: Slot)
    requires Publishable(d0, requests) && Widened(d0, base) && WellFormed(base)
    requires MadeFor(d0, base, TargetPaths(requests))
    requires r in requests && r.path != [] && SlotOf(base, r.path) == Some(target)
    ensures Expects(base, target, r.expected)
  {
    OnlyDirectoriesKeep(d0, base);
    TreeShapeKept(d0, base);
    assert Possible(d0, r);
    match r.expected
    case ExpectRegular(id, digest) =>
      EntryKept(d0, base, r.path);
    case ExpectMissing =>
      if target in d0.names {
        OldSlot(d0, base, Parent(r.path));
      } else if target in base.names {
        NotOnTheWay(base, TargetPaths(requests), r.path, target);
      }
  }

  lemma ExpectsAbove(base: Disk, d: Disk, staged: seq<StagedWrite>, planned: set<string>, target: Slot,
                     expected: Expected)
    requires Layered(base, d, staged) && NamesApart(staged, planned) && target.name in planned
    requires Expects(base, target, expected)
    ensures Expects(d, target, expected)
  {
    assert target !in StagingSlots(staged);
  }

  // ---------- Ways ----------

  /** Staging files block no planned way. */
  lemma {:induction false} UnblockedAbove(
      base: Disk, d: Disk, staged: seq<StagedWrite>, planned: set<string>, dir: Inode, dirs: Path)
    requires Layered(base, d, staged) && NamesApart(staged, planned) && forall c :: c in dirs ==> c in planned
    requires !Blocked(base, dir, dirs)
    ensures !Blocked(d, dir, dirs)
    decreases dirs
  {
    if dirs != [] {
      var s := Slot(dir, dirs[0]);
      assert s !in StagingSlots(staged);
      if s in d.names {
        assert forall c :: c in dirs[1..] ==> c in dirs;
        UnblockedAbove(base, d, staged, planned, d.names[s], dirs[1..]);
      }
    }
  }

  /** The layers agree on directories. */
  lemma {:induction false} SameWayBelow(base: Disk, d: Disk, staged: seq<StagedWrite>, dir: Inode, path: Path)
    requires Layered(base, d, staged) && Descend(d, dir, path).Some?
    ensures Descend(base, dir, path) == Descend(d, dir, path)
    decreases path
  {
    if path != [] {
      var s := Slot(dir, path[0]);
      assert s !in StagingSlots(staged);
      SameWayBelow(base, d, staged, d.names[s], path[1..]);
    }
  }

  lemma OnTheWayBelow(base: Disk, base': Disk, d: Disk, d': Disk, staged: seq<StagedWrite>, path: Path)
    requires OnTheWay(d, d', path) && Layered(base', d', staged)
    requires forall s :: s in base'.names && s !in base.names ==> s in d'.names && s !in d.names
    ensures OnTheWay(base, base', path)
  {
    forall s | s in base'.names && s !in base.names ensures LeadsTowards(base', s, path) {
      var q :| q != [] && q <= path && SlotOf(d', q) == Some(s);
      SameWayBelow(base', d', staged, d'.root, Parent(q));
      assert q <= path && SlotOf(base', q) == Some(s);
    }
  }

  lemma RootedAbove(base: Disk, d: Disk, root: Inode, staged: seq<StagedWrite>)
    requires Rooted(base) && Layered(base, d, staged) && ParentsOpen(d, root, staged) && WellFormed(d)
    requires root in d.nodes
    ensures Rooted(d)
  {
    forall s | s in d.names ensures s.dir in d.nodes {
      if s in StagingSlots(staged) {
        var w :| w in staged && w.Staging() == s;
        DirectoriesExist(d, root, w.parentPath);
      }
    }
  }

  /** The way to the next request is open. */
  lemma NextIsOpen(d0: Disk, base: Disk, d: Disk, root: Inode, staged: seq<StagedWrite>, planned: set<string>,
                   requests: seq<WriteRequest>, r: WriteRequest)
    requires Publishable(d0, requests) && Widened(d0, base) && WellFormed(base)
    requires MadeFor(d0, base, TargetPaths(requests))
    requires Layered(base, d, staged) && NamesApart(staged, planned) && WellFormed(d)
    requires ParentsOpen(d, root, staged) && root == d0.root
    requires r in requests && forall c :: c in r.path ==> c in planned
    ensures ValidRelative(r.path) && !r.expected.ExpectUnsafe? && Rooted(d) && !Blocked(d, root, Parent(r.path))
  {
    assert Possible(d0, r);
    OnlyDirectoriesKeep(d0, base);
    UnblockedStays(d0, base, root, Parent(r.path));
    UnblockedAbove(base, d, staged, planned, root, Parent(r.path));
    RootedBelow(d0, base, TargetPaths(requests));
    RootedAbove(base, d, root, staged);
  }

  /** In the end everything is ready to be installed. */
  lemma AllReadyToInstall(d0: Disk, base: Disk, d: Disk, root: Inode, staged: seq<StagedWrite>, planned: set<string>,
                          requests: seq<WriteRequest>)
    requires Publishable(d0, requests) && Widened(d0, base) && WellFormed(base)
    requires MadeFor(d0, base, TargetPaths(requests))
    requires Layered(base, d, staged) && NamesApart(staged, planned) && root == d0.root
    requires ParentsOpen(d, root, staged) && StagedFor(staged, requests) && |staged| == |requests|
    ensures AllReady(d, Sort(staged, InstallLeq), root)
  {
    OnlyDirectoriesKeep(d0, base);
    TreeShapeKept(d0, base);
    forall k | 0 <= k < |staged|
      ensures ReadyToInstall(d, staged[k], root) && NodeAt(d, staged[k].Staging()) == Some(File(staged[k].contents))
      ensures staged[k].path != [] && SlotOf(base, staged[k].path) == Some(staged[k].Target())
    {
      OneIsReady(d0, base, d, root, staged, planned, requests, k);
    }
    forall i, j | 0 <= i < j < |staged| ensures TargetSlot(staged[i]) != TargetSlot(staged[j]) {
      assert RequestPath(requests[i]) != RequestPath(requests[j]);
      if staged[i].Target() == staged[j].Target() {
        OneSlot(base, staged[i].path, staged[j].path);
      }
    }
    SortKeepsDistinct(staged, InstallLeq, TargetSlot);
    SamePermutation(staged, Sort(staged, InstallLeq));
    ReadyInAnyOrder(d, root, staged, Sort(staged, InstallLeq));
  }

  lemma OneIsReady(d0: Disk, base: Disk, d: Disk, root: Inode, staged: seq<StagedWrite>, planned: set<string>,
                   requests: seq<WriteRequest>, k: nat)
    requires Publishable(d0, requests) && Widened(d0, base) && WellFormed(base)
    requires MadeFor(d0, base, TargetPaths(requests))
    requires Layered(base, d, staged) && NamesApart(staged, planned) && root == d0.root
    requires ParentsOpen(d, root, staged) && StagedFor(staged, requests) && k < |staged|
    ensures ReadyToInstall(d, staged[k], root) && NodeAt(d, staged[k].Staging()) == Some(File(staged[k].contents))
    ensures staged[k].path != [] && SlotOf(base, staged[k].path) == Some(staged[k].Target())
  {
    var w := staged[k];
    assert w in staged && requests[k] in requests && Stages(w, requests[k]);
    OnlyDirectoriesKeep(d0, base);
    SameWayBelow(base, d, staged, root, w.parentPath);
    MetBelow(d0, base, requests, requests[k], w.Target());
    ExpectsAbove(base, d, staged, planned, w.Target(), w.expected);
    hide Publishable, MadeFor, Descend, Expects;
  }

  lemma ReadyInAnyOrder(d: Disk, root: Inode, staged: seq<StagedWrite>, sorted: seq<StagedWrite>)
    requires (forall w :: w in sorted <==> w in staged) && DistinctBy(sorted, TargetSlot)
    requires forall k :: 0 <= k < |staged| ==>
      ReadyToInstall(d, staged[k], root) && NodeAt(d, staged[k].Staging()) == Some(File(staged[k].contents))
    ensures AllReady(d, sorted, root)
  {
    forall w | w in sorted ensures ReadyToInstall(d, w, root) && NodeAt(d, w.Staging()) == Some(File(w.contents)) {
      var k :| 0 <= k < |staged| && staged[k] == w;
    }
    forall j, k | 0 <= j < k < |sorted| ensures sorted[j].Target() != sorted[k].Target() {
      assert TargetSlot(sorted[j]) != TargetSlot(sorted[k]);
    }
  }

  // ---------- One request ----------

  /** Why the staging of a request is refused when no call fails. */
  ghost predicate Refused(before: Disk, root: Inode, request: WriteRequest, base: Disk, base': Disk, d: Disk,
                          staged: seq<StagedWrite>)
  {
    || !ValidRelative(request.path) || request.expected.ExpectUnsafe?
    || request.path == [] || !Rooted(before) || Blocked(before, root, Parent(request.path))
    || (&& Layered(base', d, staged) && Widened(base, base') && OnTheWay(base, base', Parent(request.path))
        && SlotOf(base', request.path).Some?
        && !Expects(d, SlotOf(base', request.path).value, request.expected))
  }

  /** A publishable request is not refused. */
  lemma NotRefused(d0: Disk, base: Disk, base': Disk, before: Disk, d: Disk, root: Inode, staged: seq<StagedWrite>,
                   planned: set<string>, requests: seq<WriteRequest>, r: WriteRequest)
    requires Publishable(d0, requests) && Widened(d0, base) && WellFormed(base)
    requires MadeFor(d0, base, TargetPaths(requests))
    requires Layered(base, before, staged) && NamesApart(staged, planned) && WellFormed(before)
    requires ParentsOpen(before, root, staged) && root == d0.root
    requires r in requests && forall c :: c in r.path ==> c in planned
    ensures !Refused(before, root, r, base, base', d, staged)
  {
    NextIsOpen(d0, base, before, root, staged, planned, requests, r);
    if r.path != [] && Layered(base', d, staged) && Widened(base, base') && OnTheWay(base, base', Parent(r.path))
      && SlotOf(base', r.path).Some?
    {
      var target := SlotOf(base', r.path).value;
      MadeForFurther(d0, base, base', TargetPaths(requests), r.path);
      DirectoriesTwice(d0, base, base');
      MetBelow(d0, base', requests, r, target);
      assert target.name == FileName(r.path) && FileName(r.path) in r.path;
      ExpectsAbove(base', d, staged, planned, target, r.expected);
    }
  }

  /** What opening the parent of a request does to the lower layer. */
  lemma ParentOpened(base: Disk, before: Disk, d: Disk, root: Inode, staged: seq<StagedWrite>, path: Path)
    requires Layered(base, before, staged) && Widened(before, d) && WellFormed(d) && path != [] && root == d.root
    requires Descend(d, root, Parent(path)).Some? && OnTheWay(before, d, Parent(path))
    ensures var base' := Grown(base, before, d);
      && OnTheWay(base, base', Parent(path))
      && SlotOf(base', path) == Some(Slot(Descend(d, root, Parent(path)).value, FileName(path)))
  {
    LayeredGrows(base, before, d, staged);
    OnTheWayBelow(base, Grown(base, before, d), before, d, staged, Parent(path));
    SameWayBelow(Grown(base, before, d), d, staged, root, Parent(path));
  }

  // ---------- All requests ----------

  /** What staging has established on a disk that was `d0`. */
  ghost predicate StagedOn(d0: Disk, base: Disk, d: Disk, root: Inode, staged: seq<StagedWrite>,
                           requests: seq<WriteRequest>)
  {
    && Layered(base, d, staged) && Widened(d0, base) && WellFormed(base)
    && ParentsOpen(d, root, staged) && MadeFor(d0, base, TargetPaths(requests))
    && root == d0.root == d.root
  }

  lemma NothingStaged(d: Disk, root: Inode, requests: seq<WriteRequest>)
    requires WellFormed(d)
    ensures root == d.root ==> StagedOn(d, d, d, root, [], requests)
  {
    assert Layered(d, d, []);
  }

  lemma StagedMeans(d0: Disk, base: Disk, d: Disk, root: Inode, staged: seq<StagedWrite>, requests: seq<WriteRequest>)
    requires StagedOn(d0, base, d, root, staged, requests)
    ensures Layered(base, d, staged) && Widened(d0, base) && ParentsOpen(d, root, staged) && root == d.root == d0.root
    ensures WellFormed(base)
  {
  }

  lemma OneMoreStaged(d0: Disk, base: Disk, base': Disk, d: Disk, d': Disk, root: Inode, staged: seq<StagedWrite>,
                      requests: seq<WriteRequest>, w: StagedWrite)
    requires StagedOn(d0, base, d, root, staged, requests)
    requires Layered(base', d', staged + [w]) && Widened(base, base') && DirectoriesKept(d, d')
    requires Descend(d', root, w.parentPath) == Some(w.parent) && w.path != []
    requires OnTheWay(base, base', Parent(w.path)) && WriteRequest(w.path, w.contents, w.expected) in requests
    ensures StagedOn(d0, base', d', root, staged + [w], requests)
  {
    DirectoriesTwice(d0, base, base');
    ParentsStayOpen(d, d', root, staged);
    OneMoreOpen(d', root, staged, w);
    MadeForFurther(d0, base, base', TargetPaths(requests), w.path);
    LayeredIsWellFormed(base', d', staged + [w]);
    SameRoots(base, d, staged, base', d', staged + [w]);
    hide Layered, MadeFor, OnTheWay, ParentsOpen, DirectoriesKept, Descend;
  }

  lemma SameRoots(base: Disk, d: Disk, staged: seq<StagedWrite>, base': Disk, d': Disk, staged': seq<StagedWrite>)
    requires Layered(base, d, staged) && Layered(base', d', staged') && Widened(base, base')
    ensures d'.root == d.root
  {
  }

  lemma StagingFailed(d0: Disk, base: Disk, base': Disk, d: Disk, root: Inode, staged: seq<StagedWrite>,
                      requests: seq<WriteRequest>, leaked: bool)
    requires StagedOn(d0, base, d, root, staged, requests)
    requires if leaked then HasNewFile(base, base') else Widened(base, base')
    ensures if leaked then HasNewFile(d0, base') else Widened(d0, base')
  {
    if leaked {
      StillNewFile(d0, base, base');
    } else {
      DirectoriesTwice(d0, base, base');
    }
  }

  lemma NextIsNotRefused(d0: Disk, base: Disk, base': Disk, before: Disk, d: Disk, root: Inode,
                         staged: seq<StagedWrite>,
                         planned: set<string>, requests: seq<WriteRequest>, k: nat)
    requires Publishable(d0, requests) && StagedOn(d0, base, before, root, staged, requests) && WellFormed(before)
    requires NamesApart(staged, planned) && k < |requests|
    requires forall r, c :: r in requests && c in r.path ==> c in planned
    ensures !Refused(before, root, requests[k], base, base', d, staged)
  {
    assert requests[k] in requests;
    NotRefused(d0, base, base', before, d, root, staged, planned, requests, requests[k]);
  }

  lemma StagedIsReady(d0: Disk, base: Disk, d: Disk, root: Inode, staged: seq<StagedWrite>, planned: set<string>,
                      requests: seq<WriteRequest>)
    requires Publishable(d0, requests) && StagedOn(d0, base, d, root, staged, requests)
    requires NamesApart(staged, planned) && StagedFor(staged, requests) && |staged| == |requests|
    ensures AllReady(d, Sort(staged, InstallLeq), root)
  {
    AllReadyToInstall(d0, base, d, root, staged, planned, requests);
  }
}
