/** Which directories can be made along a path, and where new directories stand. */
module OpenPaths {
  import opened Disks
  import opened DiskPaths
  import opened Options
  import opened Paths
  import opened TreeShapes

  /** Does something stand between `dir` and the last directory of `dirs` that is no directory? */
  predicate Blocked(d: Disk, dir: Inode, dirs: Path)
    decreases dirs
  {
    dirs != [] && Slot(dir, dirs[0]) in d.names &&
    (NodeAt(d, Slot(dir, dirs[0])) != Some(Directory) || Blocked(d, d.names[Slot(dir, dirs[0])], dirs[1..]))
  }

  lemma {:induction false} OpenIsUnblocked(d: Disk, dir: Inode, dirs: Path)
    requires Descend(d, dir, dirs).Some?
    ensures !Blocked(d, dir, dirs)
    decreases dirs
  {
    if dirs != [] {
      OpenIsUnblocked(d, d.names[Slot(dir, dirs[0])], dirs[1..]);
    }
  }

  /** Nothing blocks the way to a file. */
  lemma EntryIsUnblocked(d: Disk, path: Path)
    requires EntryAt(d, path).Some?
    ensures !Blocked(d, d.root, Parent(path))
  {
    OpenIsUnblocked(d, d.root, Parent(path));
  }

  /** New directories block no way. */
  lemma {:induction false} UnblockedStays(d: Disk, d': Disk, dir: Inode, dirs: Path)
    requires Widened(d, d') && Rooted(d) && WellFormed(d)
    requires dir in d.nodes ==> !Blocked(d, dir, dirs)
    ensures !Blocked(d', dir, dirs)
    decreases dirs
  {
    if dirs != [] {
      var s := Slot(dir, dirs[0]);
      if s in d'.names {
        if s in d.names {
          assert dir in d.nodes && NodeAt(d, s) == Some(Directory);
        }
        UnblockedStays(d, d', d'.names[s], dirs[1..]);
      }
    }
  }

  /** What blocks a way still blocks it behind new directories. */
  lemma {:induction false} BlockedStays(d: Disk, d': Disk, dir: Inode, dirs: Path)
    requires Widened(d, d') && Blocked(d, dir, dirs) && WellFormed(d)
    ensures Blocked(d', dir, dirs)
    decreases dirs
  {
    var s := Slot(dir, dirs[0]);
    OnlyDirectoriesKeep(d, d');
    assert s in d.names && d'.names[s] == d.names[s] && NodeAt(d', s) == NodeAt(d, s);
    if NodeAt(d, s) == Some(Directory) {
      BlockedStays(d, d', d.names[s], dirs[1..]);
    }
  }

  /** The rest of an unblocked way is unblocked. */
  lemma {:induction false} UnblockedFurther(d: Disk, dir: Inode, dirs: Path, k: nat)
    requires k <= |dirs| && Descend(d, dir, dirs[..k]).Some?
    ensures Blocked(d, dir, dirs) <==> Blocked(d, Descend(d, dir, dirs[..k]).value, dirs[k..])
    decreases dirs
  {
    if k > 0 {
      assert dirs[..k][1..] == dirs[1..][..k - 1] && dirs[1..][k - 1..] == dirs[k..];
      UnblockedFurther(d, d.names[Slot(dir, dirs[0])], dirs[1..], k - 1);
    } else {
      assert dirs[0..] == dirs;
    }
  }

  /** Every new name is a directory on the way to `path`. */
  ghost predicate OnTheWay(d: Disk, d': Disk, path: Path) {
    forall s :: s in d'.names && s !in d.names ==> LeadsTowards(d', s, path)
  }

  ghost predicate LeadsTowards(d: Disk, s: Slot, path: Path) {
    exists q :: q != [] && q <= path && SlotOf(d, q) == Some(s)
  }

  lemma OnALongerWay(d: Disk, d': Disk, path: Path, k: nat)
    requires k <= |path| && OnTheWay(d, d', path[..k])
    ensures OnTheWay(d, d', path)
  {
    forall s | s in d'.names && s !in d.names ensures LeadsTowards(d', s, path) {
      var q :| q != [] && q <= path[..k] && SlotOf(d', q) == Some(s);
      assert q <= path;
    }
  }

  lemma StillLeads(d: Disk, d': Disk, s: Slot, path: Path, path': Path)
    requires DirectoriesKept(d, d') && d'.root == d.root && LeadsTowards(d, s, path) && path <= path'
    ensures LeadsTowards(d', s, path')
  {
    var q :| q != [] && q <= path && SlotOf(d, q) == Some(s);
    DescendKept(d, d', d.root, Parent(q));
    assert q <= path' && SlotOf(d', q) == Some(s);
  }

  /** One more directory on the way. */
  lemma OneMoreOnTheWay(d: Disk, d': Disk, d'': Disk, dirs: Path, k: nat, current: Inode)
    requires k < |dirs| && OnTheWay(d, d', dirs[..k]) && Widened(d', d'')
    requires Descend(d'', d''.root, dirs[..k]) == Some(current)
    requires forall s :: s in d''.names && s !in d'.names ==> s == Slot(current, dirs[k])
    ensures OnTheWay(d, d'', dirs[..k + 1])
  {
    OnlyDirectoriesKeep(d', d'');
    KeepsDirectories(d', d'');
    forall s | s in d''.names && s !in d.names ensures LeadsTowards(d'', s, dirs[..k + 1]) {
      if s in d'.names {
        assert dirs[..k] <= dirs[..k + 1];
        StillLeads(d', d'', s, dirs[..k], dirs[..k + 1]);
      } else {
        var q := dirs[..k + 1];
        assert Parent(q) == dirs[..k] && FileName(q) == dirs[k];
        assert SlotOf(d'', q) == Some(s);
      }
    }
  }

  // ---------- New directories for several paths ----------

  /** The directories that were made are on the way to `paths`. */
  ghost predicate MadeFor(d0: Disk, base: Disk, paths: set<Path>) {
    forall s :: s in base.names && s !in d0.names ==> LeadsToOne(base, s, paths)
  }

  ghost predicate LeadsToOne(base: Disk, s: Slot, paths: set<Path>) {
    exists p :: p in paths && p != [] && LeadsTowards(base, s, Parent(p))
  }

  lemma MadeForFurther(d0: Disk, base: Disk, base': Disk, paths: set<Path>, path: Path)
    requires MadeFor(d0, base, paths) && Widened(base, base') && path in paths && path != []
    requires OnTheWay(base, base', Parent(path))
    ensures MadeFor(d0, base', paths)
  {
    OnlyDirectoriesKeep(base, base');
    KeepsDirectories(base, base');
    forall s | s in base'.names && s !in d0.names ensures LeadsToOne(base', s, paths) {
      if s in base.names {
        var p :| p in paths && p != [] && LeadsTowards(base, s, Parent(p));
        StillLeads(base, base', s, Parent(p), Parent(p));
      }
    }
  }

  /** On a tree, what stands at one of the paths is on the way to none of them unless one continues it. */
  lemma NotOnTheWay(base: Disk, paths: set<Path>, path: Path, target: Slot)
    requires TreeShaped(base) && path != [] && SlotOf(base, path) == Some(target)
    requires forall p :: p in paths ==> !(path < p)
    ensures !LeadsToOne(base, target, paths)
  {
    forall p | p in paths && p != [] ensures !LeadsTowards(base, target, Parent(p)) {
      forall q | q != [] && q <= Parent(p) ensures SlotOf(base, q) != Some(target) {
        if SlotOf(base, q) == Some(target) {
          OneSlot(base, q, path);
        }
      }
    }
  }

  lemma {:induction false} DirectoriesExist(d: Disk, dir: Inode, path: Path)
    requires dir in d.nodes && WellFormed(d) && Descend(d, dir, path).Some?
    ensures Descend(d, dir, path).value in d.nodes
    decreases path
  {
    if path != [] {
      DirectoriesExist(d, d.names[Slot(dir, path[0])], path[1..]);
    }
  }

  lemma RootedBelow(d0: Disk, base: Disk, paths: set<Path>)
    requires TreeShaped(d0) && Rooted(d0) && Widened(d0, base) && WellFormed(base) && MadeFor(d0, base, paths)
    ensures Rooted(base)
  {
    OnlyDirectoriesKeep(d0, base);
    forall s | s in base.names ensures s.dir in base.nodes {
      if s !in d0.names {
        var p :| p in paths && p != [] && LeadsTowards(base, s, Parent(p));
        var q :| q != [] && q <= Parent(p) && SlotOf(base, q) == Some(s);
        DirectoriesExist(base, base.root, Parent(q));
      }
    }
  }
}
