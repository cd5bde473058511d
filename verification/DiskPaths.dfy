/** Paths on a disk: where they lead, and how that changes when directories are added. */
module DiskPaths {
  import opened Disks
  import opened Options
  import opened Paths

  /** The directory that `path` leads to, following no symbolic link. */
  function Descend(d: Disk, dir: Inode, path: Path): Option<Inode>
    decreases path
  {
    if path == [] then Some(dir)
    else if NodeAt(d, Slot(dir, path[0])) == Some(Directory) then Descend(d, d.names[Slot(dir, path[0])], path[1..])
    else None
  }

  function SlotOf(d: Disk, path: Path): Option<Slot>
    requires path != []
  {
    match Descend(d, d.root, Parent(path))
    case Some(dir) => Some(Slot(dir, FileName(path)))
    case None => None
  }

  ghost predicate DirectoriesKept(d: Disk, d': Disk) {
    forall s :: NodeAt(d, s) == Some(Directory) ==> NodeAt(d', s) == Some(Directory) && d'.names[s] == d.names[s]
  }

  lemma DirectoriesKeptTwice(a: Disk, b: Disk, c: Disk)
    requires DirectoriesKept(a, b) && DirectoriesKept(b, c)
    ensures DirectoriesKept(a, c)
  {
  }

  lemma {:induction false} DescendKept(d: Disk, d': Disk, dir: Inode, path: Path)
    requires DirectoriesKept(d, d') && Descend(d, dir, path).Some?
    ensures Descend(d', dir, path) == Descend(d, dir, path)
    decreases path
  {
    if path != [] {
      DescendKept(d, d', d.names[Slot(dir, path[0])], path[1..]);
    }
  }

  lemma {:induction false} DescendFurther(d: Disk, dir: Inode, path: Path, name: string)
    requires Descend(d, dir, path).Some?
    ensures var mid := Descend(d, dir, path).value;
      Descend(d, dir, path + [name]) ==
        if NodeAt(d, Slot(mid, name)) == Some(Directory) then Some(d.names[Slot(mid, name)]) else None
    decreases path
  {
    if path == [] {
      assert (path + [name])[1..] == [];
    } else {
      assert (path + [name])[1..] == path[1..] + [name];
      DescendFurther(d, d.names[Slot(dir, path[0])], path[1..], name);
    }
  }

  // ---------- Files ----------

  function EntryAt(d: Disk, path: Path): Option<Inode> {
    if path == [] || SlotOf(d, path).None? then None else IdentityAt(d, SlotOf(d, path).value)
  }

  /** The bytes of the file at `path`. */
  function FileAt(d: Disk, path: Path): Option<Bytes> {
    var entry := EntryAt(d, path);
    if entry.Some? && entry.value in d.nodes && d.nodes[entry.value].File? then Some(d.nodes[entry.value].data)
    else None
  }

  // ---------- New directories ----------

  /** `d'` is `d` with some new directories and nothing else. */
  ghost predicate OnlyDirectoriesAdded(d: Disk, d': Disk) {
    && d'.root == d.root
    && (forall i :: i in d.nodes ==> i in d'.nodes && d'.nodes[i] == d.nodes[i])
    && (forall s :: s in d.names ==> s in d'.names && d'.names[s] == d.names[s])
    && (forall s :: s in d'.names && s !in d.names ==> NodeAt(d', s) == Some(Directory))
  }

  lemma OnlyDirectoriesAddedTwice(a: Disk, b: Disk, c: Disk)
    requires OnlyDirectoriesAdded(a, b) && OnlyDirectoriesAdded(b, c)
    ensures OnlyDirectoriesAdded(a, c)
  {
    forall s | s in c.names && s !in a.names ensures NodeAt(c, s) == Some(Directory) {
      if s in b.names {
        assert NodeAt(b, s) == Some(Directory);
        assert c.names[s] == b.names[s];
      }
    }
  }

  /** `d'` binds a file to a name that `d` does not have. */
  ghost predicate HasNewFile(d: Disk, d': Disk) {
    exists s :: s in d'.names && s !in d.names && NodeAt(d', s).Some? && NodeAt(d', s).value.File?
  }

  lemma StillNewFile(a: Disk, b: Disk, c: Disk)
    requires OnlyDirectoriesAdded(a, b) && HasNewFile(b, c)
    ensures HasNewFile(a, c)
  {
    var s :| s in c.names && s !in b.names && NodeAt(c, s).Some? && NodeAt(c, s).value.File?;
    assert s !in a.names;
  }

  /** `d` still has everything that `base` has. */
  ghost predicate Keeps(base: Disk, d: Disk) {
    && d.root == base.root
    && (forall i :: i in base.nodes ==> i in d.nodes && d.nodes[i] == base.nodes[i])
    && (forall s :: s in base.names ==> s in d.names && d.names[s] == base.names[s])
  }

  lemma KeepsDirectories(base: Disk, d: Disk)
    requires Keeps(base, d)
    ensures DirectoriesKept(base, d)
  {
  }

  lemma KeepsItself(d: Disk)
    ensures Keeps(d, d)
  {
  }

  lemma KeepsTwice(a: Disk, b: Disk, c: Disk)
    requires Keeps(a, b) && Keeps(b, c)
    ensures Keeps(a, c)
  {
  }

  lemma OnlyDirectoriesKeep(a: Disk, b: Disk)
    requires OnlyDirectoriesAdded(a, b)
    ensures Keeps(a, b)
  {
  }

  lemma EntryKept(d: Disk, d': Disk, path: Path)
    requires Keeps(d, d')
    ensures EntryAt(d, path).Some? ==> EntryAt(d', path) == EntryAt(d, path)
    ensures FileAt(d, path).Some? ==> FileAt(d', path) == FileAt(d, path)
  {
    if path != [] && SlotOf(d, path).Some? {
      KeepsDirectories(d, d');
      DescendKept(d, d', d.root, Parent(path));
    }
  }

  /** Every name belongs to a directory that exists. */
  ghost predicate Rooted(d: Disk) {
    forall s :: s in d.names ==> s.dir in d.nodes
  }

  /** New names stand for new inodes, each for its own. */
  ghost predicate NewNamesFresh(d: Disk, d': Disk) {
    && (forall s :: s in d'.names && s !in d.names ==> d'.names[s] !in d.nodes)
    && (forall s, t ::
          s in d'.names && s !in d.names && t in d'.names && t !in d.names && d'.names[s] == d'.names[t] ==> s == t)
  }

  /** New directories with inodes of their own, and nothing else. */
  ghost predicate Widened(d: Disk, d': Disk) {
    OnlyDirectoriesAdded(d, d') && NewNamesFresh(d, d')
  }

  lemma NotWidened(d: Disk)
    ensures Widened(d, d)
  {
  }

  lemma FreshTwice(a: Disk, b: Disk, c: Disk)
    requires Keeps(a, b) && NewNamesFresh(a, b) && Keeps(b, c) && NewNamesFresh(b, c) && WellFormed(b)
    ensures NewNamesFresh(a, c)
  {
  }

  lemma DirectoriesTwice(a: Disk, b: Disk, c: Disk)
    requires Widened(a, b) && WellFormed(b) && Widened(b, c)
    ensures Widened(a, c)
  {
    OnlyDirectoriesAddedTwice(a, b, c);
    OnlyDirectoriesKeep(a, b);
    OnlyDirectoriesKeep(b, c);
    FreshTwice(a, b, c);
  }

  /** The directories above one that can be reached can be reached. */
  lemma {:induction false} DescendPrefix(d: Disk, dir: Inode, path: Path, k: nat)
    requires k <= |path|
    ensures Descend(d, dir, path).Some? ==> Descend(d, dir, path[..k]).Some?
    decreases path
  {
    if k > 0 && Descend(d, dir, path).Some? {
      assert path[..k][1..] == path[1..][..k - 1];
      DescendPrefix(d, d.names[Slot(dir, path[0])], path[1..], k - 1);
    }
  }

  lemma {:induction false} NewDirectoriesEmpty(d: Disk, d': Disk, dir: Inode, path: Path)
    requires Rooted(d) && OnlyDirectoriesAdded(d, d') && NewNamesFresh(d, d') && WellFormed(d)
    requires Descend(d', dir, path).Some?
    requires dir !in d.nodes || Descend(d, dir, path).None?
    ensures Descend(d', dir, path).value !in d.nodes
    decreases path
  {
    if path != [] {
      var s := Slot(dir, path[0]);
      if s in d.names {
        assert d'.names[s] == d.names[s] && d'.nodes[d.names[s]] == d.nodes[d.names[s]];
        assert dir in d.nodes && NodeAt(d, s) == Some(Directory);
      }
      NewDirectoriesEmpty(d, d', d'.names[s], path[1..]);
    }
  }

  /** A path with nothing behind it before new directories has none after. */
  lemma EntriesBeforeDirectories(d: Disk, d': Disk, path: Path)
    requires WellFormed(d) && OnlyDirectoriesAdded(d, d') && path != [] && SlotOf(d', path).Some?
    requires DirectoriesKept(d, d')
    ensures EntryAt(d, path).Some? ==> EntryAt(d', path) == EntryAt(d, path)
    ensures FileAt(d, path).Some? ==> FileAt(d', path) == FileAt(d, path)
    ensures (Rooted(d) && NewNamesFresh(d, d') && EntryAt(d', path).Some? &&
             NodeAt(d', SlotOf(d', path).value) != Some(Directory)) ==>
      EntryAt(d, path) == EntryAt(d', path)
  {
    var slot := SlotOf(d', path).value;
    if SlotOf(d, path).Some? {
      DescendKept(d, d', d.root, Parent(path));
      assert SlotOf(d, path) == Some(slot);
    } else if Rooted(d) && NewNamesFresh(d, d') {
      NewDirectoriesEmpty(d, d', d.root, Parent(path));
      assert slot !in d.names;
    }
  }

  // ---------- Layers ----------

  /** `base` with the directories that lead from `d` to `d'`. */
  ghost function Grown(base: Disk, d: Disk, d': Disk): Disk {
    base.(names := base.names + (d'.names - d.names.Keys), nodes := base.nodes + (d'.nodes - d.nodes.Keys))
  }

  lemma GrownDisk(base: Disk, d: Disk, d': Disk)
    requires WellFormed(base) && Keeps(base, d)
    requires OnlyDirectoriesAdded(d, d') && NewNamesFresh(d, d') && WellFormed(d')
    ensures var base' := Grown(base, d, d');
      && WellFormed(base') && Keeps(base', d')
      && base'.names.Keys == base.names.Keys + (d'.names.Keys - d.names.Keys)
      && base'.nodes.Keys == base.nodes.Keys + (d'.nodes.Keys - d.nodes.Keys)
  {
  }

  lemma GrownByDirectories(base: Disk, d: Disk, d': Disk)
    requires WellFormed(base) && Keeps(base, d)
    requires OnlyDirectoriesAdded(d, d') && NewNamesFresh(d, d') && WellFormed(d')
    ensures var base' := Grown(base, d, d');
      OnlyDirectoriesAdded(base, base') && NewNamesFresh(base, base')
  {
    var base' := Grown(base, d, d');
    forall s | s in base'.names && s !in base.names ensures NodeAt(base', s) == Some(Directory) {
      assert NodeAt(d', s) == Some(Directory);
    }
  }

  lemma OnlyDirectoriesKeepNames(d: Disk, d': Disk)
    requires OnlyDirectoriesAdded(d, d')
    ensures d'.names.Keys == d.names.Keys + (d'.names.Keys - d.names.Keys)
  {
  }

  // ---------- New files ----------

  ghost function WithFile(d: Disk, slot: Slot, id: Inode, data: Bytes): Disk {
    d.(names := d.names[slot := id], nodes := d.nodes[id := File(data)])
  }

  /** Creating a file, writing it, and removing its name again. */
  lemma CreatedWrittenRemoved(d: Disk, slot: Slot, i: Inode, data: Bytes)
    requires slot !in d.names && i !in d.nodes
    ensures Apply(d, Op.CreateFile(slot, i)) == WithFile(d, slot, i, [])
    ensures Enabled(WithFile(d, slot, i, []), Op.WriteFile(i, data))
    ensures Apply(WithFile(d, slot, i, []), Op.WriteFile(i, data)) == WithFile(d, slot, i, data)
    ensures Enabled(WithFile(d, slot, i, data), Op.Unlink(slot, i))
    ensures Apply(WithFile(d, slot, i, data), Op.Unlink(slot, i)) == d.(nodes := d.nodes[i := File(data)])
  {
    assert d.names[slot := i] - {slot} == d.names;
  }

  lemma SlotOfNewFile(d: Disk, slot: Slot, i: Inode, data: Bytes)
    ensures IdentityAt(WithFile(d, slot, i, data), slot) == Some(i)
  {
  }
}
