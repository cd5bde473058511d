/** Disks whose directories form a tree, as POSIX keeps them: there a path is determined by where it leads. */
module TreeShapes {
  import opened Disks
  import opened DiskPaths
  import opened Options
  import opened Paths

  /** No directory has two names, and nothing leads back to the root. */
  ghost predicate TreeShaped(d: Disk) {
    && WellFormed(d) && d.root in d.nodes
    && (forall s, t :: s in d.names && t in d.names && d.names[s] == d.names[t] && NodeAt(d, s) == Some(Directory) ==>
          s == t)
    && (forall s :: s in d.names ==> d.names[s] != d.root)
  }

  lemma TreeShapeKept(d: Disk, d': Disk)
    requires TreeShaped(d) && Keeps(d, d') && NewNamesFresh(d, d') && WellFormed(d')
    ensures TreeShaped(d')
  {
    forall s, t | s in d'.names && t in d'.names && d'.names[s] == d'.names[t] && NodeAt(d', s) == Some(Directory)
      ensures s == t
    {
      assert s in d.names ==> d.names[s] in d.nodes;
      assert t in d.names ==> d.names[t] in d.nodes;
      assert s in d.names && t in d.names ==> NodeAt(d, s) == Some(Directory);
    }
  }

  lemma {:induction false} DescendLast(d: Disk, path: Path)
    requires path != []
    ensures Descend(d, d.root, path) ==
      match Descend(d, d.root, Parent(path))
      case None => None
      case Some(mid) =>
        if NodeAt(d, Slot(mid, FileName(path))) == Some(Directory) then Some(d.names[Slot(mid, FileName(path))])
        else None
  {
    DescendFrom(d, d.root, path);
  }

  lemma {:induction false} DescendFrom(d: Disk, dir: Inode, path: Path)
    requires path != []
    ensures Descend(d, dir, path) ==
      match Descend(d, dir, Parent(path))
      case None => None
      case Some(mid) =>
        if NodeAt(d, Slot(mid, FileName(path))) == Some(Directory) then Some(d.names[Slot(mid, FileName(path))])
        else None
    decreases path
  {
    if |path| == 1 {
      assert path[1..] == [];
    } else {
      assert Parent(path)[0] == path[0] && Parent(path)[1..] == Parent(path[1..]);
      if NodeAt(d, Slot(dir, path[0])) == Some(Directory) {
        DescendFrom(d, d.names[Slot(dir, path[0])], path[1..]);
      }
    }
  }

  /** In a tree a directory is reached by one path only. */
  lemma {:induction false} OnePath(d: Disk, p: Path, q: Path)
    requires TreeShaped(d) && Descend(d, d.root, p).Some? && Descend(d, d.root, p) == Descend(d, d.root, q)
    ensures p == q
    decreases |p|
  {
    if p != [] { DescendLast(d, p); }
    if q != [] { DescendLast(d, q); }
    if p != [] && q != [] {
      OnePath(d, Parent(p), Parent(q));
      assert p == Parent(p) + [FileName(p)] && q == Parent(q) + [FileName(q)];
    }
  }

  lemma OneSlot(d: Disk, p: Path, q: Path)
    requires TreeShaped(d) && p != [] && q != [] && SlotOf(d, p).Some? && SlotOf(d, p) == SlotOf(d, q)
    ensures p == q
  {
    OnePath(d, Parent(p), Parent(q));
    assert p == Parent(p) + [FileName(p)] && q == Parent(q) + [FileName(q)];
  }

  /** A directory that existed is reached as before. */
  lemma {:induction false} OldSlot(d: Disk, d': Disk, path: Path)
    requires TreeShaped(d) && Rooted(d) && WellFormed(d') && Keeps(d, d') && NewNamesFresh(d, d')
    requires Descend(d', d'.root, path).Some? && Descend(d', d'.root, path).value in d.nodes
    ensures Descend(d, d.root, path) == Descend(d', d'.root, path)
    decreases |path|
  {
    if path != [] {
      DescendLast(d', path);
      DescendLast(d, path);
      var mid := Descend(d', d'.root, Parent(path)).value;
      var slot := Slot(mid, FileName(path));
      assert slot in d.names;
      OldSlot(d, d', Parent(path));
    }
  }
}
