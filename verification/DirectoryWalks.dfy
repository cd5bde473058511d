/** Walks along a path, one directory handle after the other. */
module DirectoryWalks {
  import opened Disks
  import opened DiskPaths
  import opened FileSystems
  import opened OpenPaths
  import opened Options
  import opened Paths
  import opened Sorting

  /** `open_parent`, and `open_existing_parent` of the parent path. */
  method OpenParent(fs: FileSystem, root: Inode, path: Path) returns (dir: Option<Inode>)
    requires fs.Valid()
    modifies fs`disk, fs`next, fs`log, fs`faults
    ensures fs.Valid() && old(fs.faults) <= fs.faults && old(fs.log) <= fs.log
    ensures !fs.shared ==> fs.disk == old(fs.disk) && (dir.Some? ==> Descend(fs.disk, root, path) == dir)
    ensures !fs.shared && fs.faults == old(fs.faults) ==> Descend(fs.disk, root, path) == dir
  {
    hide RunsBetween, Disciplined, CreatedIn, KindsKept;
    var current := root;
    var k := 0;
    while k < |path|
      invariant 0 <= k <= |path|
      invariant fs.Valid() && old(fs.faults) <= fs.faults && old(fs.log) <= fs.log
      invariant !fs.shared ==> fs.disk == old(fs.disk)
      invariant !fs.shared ==> Descend(fs.disk, root, path) == Descend(fs.disk, current, path[k..])
    {
      dir := fs.OpenDirectory(Slot(current, path[k]));
      if dir.None? {
        return;
      }
      assert path[k..][1..] == path[k + 1..];
      current := dir.value;
      k := k + 1;
    }
    dir := Some(current);
  }

  /** One component of `open_or_create_parent`: `mkdirat`, then `openat`. */
  method EnterDirectory(fs: FileSystem, current: Inode, name: string, ghost root: Inode, ghost above: Path)
    returns (dir: Option<Inode>)
    requires fs.Valid()
    requires !fs.shared ==> Descend(fs.disk, root, above) == Some(current)
    modifies fs`disk, fs`next, fs`log, fs`faults
    ensures fs.Valid() && old(fs.faults) <= fs.faults
    ensures !fs.shared ==> Widened(old(fs.disk), fs.disk)
    ensures !fs.shared && dir.Some? ==> Descend(fs.disk, root, above + [name]) == dir
    ensures !fs.shared && fs.faults == old(fs.faults) && Descend(old(fs.disk), root, above + [name]).Some? ==>
      dir.Some? && fs.disk == old(fs.disk)
    ensures !fs.shared && fs.faults == old(fs.faults) && !Blocked(old(fs.disk), current, [name]) ==> dir.Some?
    ensures !fs.shared ==>
      forall s :: s in fs.disk.names && s !in old(fs.disk.names) ==> s == Slot(current, name)
  {
    hide FileSystem.Valid, KindsKept, Descend;
    var slot := Slot(current, name);
    ghost var before := fs.disk;
    if !fs.shared {
      DescendFurther(before, root, above, name);
    }
    var made := fs.MakeDirectory(slot);
    if !fs.shared && made.Made? {
      ghost var i :| i !in before.nodes && slot !in before.names
        && fs.disk == Apply(before, Op.MakeDirectory(slot, i));
      assert DirectoriesKept(before, fs.disk);
    }
    if made.MakeFailed? {
      return None;
    }
    dir := fs.OpenDirectory(slot);
    if !fs.shared {
      DescendKept(before, fs.disk, root, above);
      DescendFurther(fs.disk, root, above, name);
    }
  }

  lemma NextIsUnblocked(d: Disk, d': Disk, root: Inode, dirs: Path, k: nat)
    requires Widened(d, d') && Rooted(d) && WellFormed(d) && !Blocked(d, root, dirs)
    requires k < |dirs| && Descend(d', root, dirs[..k]).Some?
    ensures !Blocked(d', Descend(d', root, dirs[..k]).value, [dirs[k]])
  {
    UnblockedStays(d, d', root, dirs);
    UnblockedFurther(d', root, dirs, k);
    assert dirs[k..][0] == dirs[k];
  }

  lemma WidenedRoot(d: Disk, d': Disk)
    requires Widened(d, d')
    ensures d'.root == d.root
  {
  }

  lemma DescendStays(d: Disk, d': Disk, dir: Inode, path: Path)
    requires Widened(d, d') && Descend(d, dir, path).Some?
    ensures Descend(d', dir, path) == Descend(d, dir, path)
  {
    OnlyDirectoriesKeep(d, d');
    KeepsDirectories(d, d');
    DescendKept(d, d', dir, path);
  }

  /** The walk has made the first `k` of `dirs`, and stands in the last of them. */
  ghost predicate Walked(d0: Disk, d: Disk, root: Inode, dirs: Path, k: nat, current: Inode) {
    && k <= |dirs| && Widened(d0, d)
    && Descend(d, root, dirs[..k]) == Some(current)
    && (root == d.root ==> OnTheWay(d0, d, dirs[..k]))
    && (Descend(d0, root, dirs).Some? ==> Descend(d, root, dirs).Some?)
  }

  lemma WalkStarts(d: Disk, root: Inode, dirs: Path)
    ensures Walked(d, d, root, dirs, 0, root)
  {
  }

  lemma WalkStep(d0: Disk, d: Disk, d': Disk, root: Inode, dirs: Path, k: nat, current: Inode, dir: Inode)
    requires Walked(d0, d, root, dirs, k, current) && k < |dirs| && WellFormed(d)
    requires Widened(d, d') && Descend(d', root, dirs[..k] + [dirs[k]]) == Some(dir)
    requires forall s :: s in d'.names && s !in d.names ==> s == Slot(current, dirs[k])
    ensures Walked(d0, d', root, dirs, k + 1, dir)
  {
    TakeOneMore(dirs, k);
    DirectoriesTwice(d0, d, d');
    WidenedRoot(d, d');
    if root == d.root {
      DescendStays(d, d', root, dirs[..k]);
      OneMoreOnTheWay(d0, d, d', dirs, k, current);
    }
    if Descend(d0, root, dirs).Some? {
      DescendStays(d0, d', root, dirs);
    }
    hide OnTheWay, Widened, Descend;
  }

  /** What the next step finds. */
  lemma WalkGoesOn(d0: Disk, d: Disk, root: Inode, dirs: Path, k: nat, current: Inode)
    requires Walked(d0, d, root, dirs, k, current) && k < |dirs| && WellFormed(d0)
    ensures Descend(d0, root, dirs).Some? ==> Descend(d, root, dirs[..k] + [dirs[k]]).Some?
    ensures Rooted(d0) && !Blocked(d0, root, dirs) ==> !Blocked(d, current, [dirs[k]])
  {
    TakeOneMore(dirs, k);
    DescendPrefix(d, root, dirs, k + 1);
    if Rooted(d0) && !Blocked(d0, root, dirs) {
      NextIsUnblocked(d0, d, root, dirs, k);
    }
  }

  /** What a walk that ends early has made lies on the way all the same. */
  lemma WalkFails(d0: Disk, d: Disk, d': Disk, root: Inode, dirs: Path, k: nat, current: Inode)
    requires Walked(d0, d, root, dirs, k, current) && k < |dirs| && WellFormed(d) && Widened(d, d')
    requires forall s :: s in d'.names && s !in d.names ==> s == Slot(current, dirs[k])
    ensures root == d'.root ==> OnTheWay(d0, d', dirs)
  {
    WidenedRoot(d, d');
    if root == d.root {
      DescendStays(d, d', root, dirs[..k]);
      OneMoreOnTheWay(d0, d, d', dirs, k, current);
      OnALongerWay(d0, d', dirs, k + 1);
    }
    hide OnTheWay, Widened, Descend;
  }

  /** A walk that arrives was not blocked when it began. */
  lemma WalkArrives(d0: Disk, d: Disk, root: Inode, dirs: Path, current: Inode)
    requires Walked(d0, d, root, dirs, |dirs|, current) && WellFormed(d0)
    ensures !Blocked(d0, root, dirs)
  {
    TakeAll(dirs);
    OpenIsUnblocked(d, root, dirs);
    if Blocked(d0, root, dirs) {
      BlockedStays(d0, d, root, dirs);
    }
    hide Blocked, Widened, Descend;
  }

  /** `open_or_create_parent`: creates missing directories on the way. */
  method OpenOrCreateParent(fs: FileSystem, root: Inode, path: Path) returns (parent: Option<Inode>)
    requires fs.Valid() && path != []
    modifies fs`disk, fs`next, fs`log, fs`faults
    ensures fs.Valid() && old(fs.faults) <= fs.faults
    ensures !fs.shared ==> Widened(old(fs.disk), fs.disk)
    ensures !fs.shared && parent.Some? ==> Descend(fs.disk, root, Parent(path)) == parent
    ensures !fs.shared && fs.faults == old(fs.faults) && Descend(old(fs.disk), root, Parent(path)).Some? ==>
      parent.Some? && fs.disk == old(fs.disk)
    ensures !fs.shared && fs.faults == old(fs.faults) && Rooted(old(fs.disk)) ==>
      (parent.Some? <==> !Blocked(old(fs.disk), root, Parent(path)))
    ensures !fs.shared && parent.Some? ==> !Blocked(old(fs.disk), root, Parent(path))
    ensures !fs.shared && root == fs.disk.root ==> OnTheWay(old(fs.disk), fs.disk, Parent(path))
  {
    hide FileSystem.Valid, KindsKept, Descend, Widened, WellFormed, OnTheWay, Blocked, Rooted;
    ghost var d0 := fs.disk;
    var dirs := Parent(path);
    WalkStarts(d0, root, dirs);
    ValidIsWellFormed(fs);
    NotWidened(d0);
    var current := root;
    var k := 0;
    while k < |dirs|
      invariant 0 <= k <= |dirs|
      invariant fs.Valid() && old(fs.faults) <= fs.faults
      invariant !fs.shared ==> Walked(d0, fs.disk, root, dirs, k, current)
      invariant !fs.shared && fs.faults == old(fs.faults) && Descend(d0, root, dirs).Some? ==> fs.disk == d0
    {
      ghost var before := fs.disk;
      ValidIsWellFormed(fs);
      if !fs.shared {
        WalkGoesOn(d0, before, root, dirs, k, current);
        assert Widened(d0, before) && Descend(before, root, dirs[..k]) == Some(current);
      }
      var dir := EnterDirectory(fs, current, dirs[k], root, dirs[..k]);
      if dir.None? {
        if !fs.shared {
          DirectoriesTwice(d0, before, fs.disk);
          WalkFails(d0, before, fs.disk, root, dirs, k, current);
        }
        return None;
      }
      if !fs.shared {
        WalkStep(d0, before, fs.disk, root, dirs, k, current, dir.value);
      }
      current := dir.value;
      k := k + 1;
    }
    TakeAll(dirs);
    if !fs.shared {
      WalkArrives(d0, fs.disk, root, dirs, current);
    }
    return Some(current);
  }
}
