/** The source of a project on a disk, and how little of it a publication of evidence changes. */
module SourceOnDisk {
  import opened Options
  import opened Sorting
  import opened Paths
  import opened Disks
  import opened DiskPaths
  import opened TreeShapes
  import SourceManifests
  import SourceRules
  import SourceWalk
  import DeliveryOutputs

  type Authority = SourceWalk.Authority

  /** The walk includes everything on the way to `path`. */
  ghost predicate Reached(authority: Authority, path: Path) {
    SourceWalk.Reached(authority, [], path)
  }

  ghost predicate SourceFile(authority: Authority, d: Disk, path: Path, data: Bytes) {
    FileAt(d, path) == Some(data) && Reached(authority, path)
  }

  /** Something at `path` that makes the walk give up. */
  ghost predicate Obstacle(authority: Authority, d: Disk, path: Path) {
    EntryAt(d, path).Some? && EntryAt(d, path).value in d.nodes && d.nodes[EntryAt(d, path).value].Special? &&
    Reached(authority, path)
  }

  /** The walk finds the same on both disks. */
  ghost predicate SameSource(authority: Authority, d: Disk, d': Disk) {
    && (forall path, data :: SourceFile(authority, d, path, data) <==> SourceFile(authority, d', path, data))
    && (forall path :: Obstacle(authority, d, path) <==> Obstacle(authority, d', path))
  }

  // ---------- Trees ----------

  /** The object `i` and all that is below it, as a tree. */
  ghost predicate Represents(d: Disk, i: Inode, tree: SourceWalk.Tree)
    decreases tree
  {
    i in d.nodes &&
    match tree
    case File(bytes) => d.nodes[i] == Node.File(bytes)
    case SymbolicLink => d.nodes[i] == Node.Special
    case Special => d.nodes[i] == Node.Special
    case Directory(children) =>
      && d.nodes[i] == Node.Directory
      && (forall name :: Slot(i, name) in d.names <==> name in children)
      && (forall name :: name in children && Slot(i, name) in d.names ==>
            Represents(d, d.names[Slot(i, name)], children[name]))
  }

  /** The node that a path leads to from the directory `dir`. */
  ghost function NodeBelow(d: Disk, dir: Inode, path: Path): Option<Node>
    requires path != []
  {
    match Descend(d, dir, Parent(path))
    case None => None
    case Some(last) => NodeAt(d, Slot(last, FileName(path)))
  }

  lemma {:induction false} TreeLookup(d: Disk, dir: Inode, tree: SourceWalk.Tree, path: Path)
    requires tree.Directory? && Represents(d, dir, tree) && path != []
    ensures var node := NodeBelow(d, dir, path);
      match SourceWalk.Look(tree, path)
      case None => node.None?
      case Some(File(bytes)) => node == Some(Node.File(bytes))
      case Some(Directory(_)) => node == Some(Node.Directory)
      case Some(_) => node == Some(Node.Special)
    decreases path
  {
    var slot := Slot(dir, path[0]);
    if path[0] in tree.children {
      var child := tree.children[path[0]];
      assert Represents(d, d.names[slot], child);
      if |path| == 1 {
        assert path[1..] == [] && Parent(path) == [];
        assert SourceWalk.Look(child, path[1..]) == Some(child);
        assert Descend(d, dir, Parent(path)) == Some(dir) && NodeAt(d, slot) == Some(d.nodes[d.names[slot]]);
      } else {
        assert Parent(path)[0] == path[0] && Parent(path)[1..] == Parent(path[1..]);
        assert NodeBelow(d, dir, path) ==
          if child.Directory? then NodeBelow(d, d.names[slot], path[1..]) else None;
        if child.Directory? {
          TreeLookup(d, d.names[slot], child, path[1..]);
        }
      }
    } else {
      assert slot !in d.names && NodeAt(d, slot).None?;
      if |path| > 1 {
        assert Parent(path)[0] == path[0];
      } else {
        assert Parent(path) == [];
      }
    }
  }

  lemma FileAtIsBelow(d: Disk, path: Path, data: Bytes)
    requires path != []
    ensures FileAt(d, path) == Some(data) <==> NodeBelow(d, d.root, path) == Some(Node.File(data))
  {
  }

  /** On a disk that is a tree, the walk of the tree gathers the source files of the disk. */
  lemma WalkOnDisk(authority: Authority, d: Disk, tree: SourceWalk.Tree, found: seq<SourceWalk.Found>)
    requires tree.Directory? && Represents(d, d.root, tree)
    requires SourceWalk.WalkResult(authority, tree, [], found)
    ensures forall f :: f in found <==> SourceFile(authority, d, f.path, f.bytes)
  {
    forall f ensures f in found <==> SourceFile(authority, d, f.path, f.bytes) {
      assert f in found <==> SourceWalk.Gathered(authority, tree, [], f);
      if f.path != [] {
        assert f.path[0..] == f.path;
        TreeLookup(d, d.root, tree, f.path);
        FileAtIsBelow(d, f.path, f.bytes);
      }
      hide SourceWalk.Look, SourceWalk.Reached, NodeBelow, FileAt;
    }
  }

  /** What the walk refuses is what stands in its way on the disk. */
  lemma RefusedOnDisk(authority: Authority, d: Disk, tree: SourceWalk.Tree, path: Path)
    requires tree.Directory? && Represents(d, d.root, tree)
    ensures SourceWalk.Refused(authority, tree, [], path) <==> Obstacle(authority, d, path)
  {
    hide SourceWalk.Look, SourceWalk.Reached, NodeBelow, SlotOf, Represents, SourceWalk.Authority.Includes;
    if path != [] {
      assert path[0..] == path;
      TreeLookup(d, d.root, tree, path);
      ObstacleIsBelow(authority, d, path);
    }
  }

  lemma ObstacleIsBelow(authority: Authority, d: Disk, path: Path)
    requires path != []
    ensures Obstacle(authority, d, path) <==>
      NodeBelow(d, d.root, path) == Some(Node.Special) && Reached(authority, path)
  {
  }

  // ---------- The tree of a disk ----------

  function NamesIn(d: Disk, dir: Inode): set<string> {
    set s | s in d.names && s.dir == dir :: s.name
  }

  /** What stands at `i`, read down to its leaves; `left` are the objects not on the way to it. */
  function TreeAt(d: Disk, i: Inode, left: set<Inode>): SourceWalk.Tree
    decreases left
  {
    if i !in left || i !in d.nodes then SourceWalk.Special
    else
      match d.nodes[i]
      case File(data) => SourceWalk.File(data)
      case Special => SourceWalk.Special
      case Directory =>
        SourceWalk.Directory(map name | name in NamesIn(d, i) :: TreeAt(d, d.names[Slot(i, name)], left - {i}))
  }

  function ProjectTree(d: Disk): SourceWalk.Tree {
    TreeAt(d, d.root, d.nodes.Keys)
  }

  /** The directories `trail` lead from the root to `i`. */
  ghost predicate Trail(d: Disk, trail: set<Inode>, i: Inode) {
    && i !in trail && i in d.nodes
    && (forall t :: t in trail ==> t in d.nodes && d.nodes[t].Directory?)
    && (forall t :: (t in trail || t == i) && t != d.root ==> EnteredFrom(d, trail, t))
  }

  ghost predicate EnteredFrom(d: Disk, trail: set<Inode>, t: Inode) {
    exists s :: s in d.names && d.names[s] == t && s.dir in trail
  }

  lemma TrailGoesOn(d: Disk, trail: set<Inode>, i: Inode, name: string)
    requires TreeShaped(d) && Trail(d, trail, i) && d.nodes[i].Directory? && Slot(i, name) in d.names
    ensures Trail(d, trail + {i}, d.names[Slot(i, name)])
  {
    var slot := Slot(i, name);
    var child := d.names[slot];
    assert d.nodes[child].Directory? ==> NodeAt(d, slot) == Some(Directory);
    assert EnteredFrom(d, trail, child) && d.nodes[child].Directory? ==> i in trail;
    assert child !in trail + {i};
    forall t | (t in trail + {i} || t == child) && t != d.root ensures EnteredFrom(d, trail + {i}, t) {
      if t == child {
        assert slot.dir in trail + {i};
      } else {
        var s :| s in d.names && d.names[s] == t && s.dir in trail;
      }
    }
  }

  /** On a disk that is a tree, reading down never comes round. */
  lemma {:induction false} TreeRepresents(d: Disk, trail: set<Inode>, i: Inode)
    requires TreeShaped(d) && Trail(d, trail, i)
    ensures Represents(d, i, TreeAt(d, i, d.nodes.Keys - trail))
    ensures TreeAt(d, i, d.nodes.Keys - trail).Directory? <==> d.nodes[i].Directory?
    decreases d.nodes.Keys - trail
  {
    var left := d.nodes.Keys - trail;
    if d.nodes[i].Directory? {
      var children := TreeAt(d, i, left).children;
      assert left - {i} == d.nodes.Keys - (trail + {i});
      forall name | Slot(i, name) in d.names
        ensures Represents(d, d.names[Slot(i, name)], children[name])
      {
        TrailGoesOn(d, trail, i, name);
        TreeRepresents(d, trail + {i}, d.names[Slot(i, name)]);
      }
    }
  }

  lemma ProjectTreeRepresents(d: Disk)
    requires TreeShaped(d)
    ensures Represents(d, d.root, ProjectTree(d))
    ensures ProjectTree(d).Directory? <==> d.nodes[d.root].Directory?
  {
    assert d.nodes.Keys - {} == d.nodes.Keys;
    TreeRepresents(d, {}, d.root);
  }

  // ---------- The source of a project ----------

  /** `current_source_entries` on a disk. */
  function SourceEntries(rules: SourceRules.Rules, d: Disk,
                         extra: set<Path>): Option<seq<SourceManifests.SourceEntry>>
  {
    SourceManifests.CurrentEntries(rules, ProjectTree(d), extra)
  }

  /** The walk gives up exactly at an obstacle. */
  lemma SourceIsThere(rules: SourceRules.Rules, d: Disk, extra: set<Path>)
    requires TreeShaped(d) && d.nodes[d.root].Directory? && forall p :: p in extra ==> ValidRelative(p)
    ensures SourceEntries(rules, d, extra).None? <==>
      exists path :: Obstacle(SourceWalk.Authority(rules, extra), d, path)
  {
    var authority, tree := SourceWalk.Authority(rules, extra), ProjectTree(d);
    hide ProjectTree, Obstacle, SourceWalk.Walk, SourceWalk.Refused, SourceWalk.Gathered;
    ProjectTreeRepresents(d);
    SourceWalk.Walked(authority, tree, []);
    forall path ensures SourceWalk.Refused(authority, tree, [], path) <==> Obstacle(authority, d, path) {
      RefusedOnDisk(authority, d, tree, path);
    }
  }

  /** The same files and obstacles give the same entries, and so the same digest. */
  lemma SameSourceSameEntries(rules: SourceRules.Rules, d: Disk, d': Disk, extra: set<Path>)
    requires TreeShaped(d) && TreeShaped(d') && d.nodes[d.root].Directory? && d'.nodes[d'.root].Directory?
    requires SameSource(SourceWalk.Authority(rules, extra), d, d')
    ensures SourceEntries(rules, d, extra) == SourceEntries(rules, d', extra)
  {
    var authority := SourceWalk.Authority(rules, extra);
    hide ProjectTree, Obstacle, SourceFile, SourceWalk.Walk, SourceWalk.WalkResult;
    if forall p :: p in extra ==> ValidRelative(p) {
      SourceIsThere(rules, d, extra);
      SourceIsThere(rules, d', extra);
      assert (exists path :: Obstacle(authority, d, path)) <==> (exists path :: Obstacle(authority, d', path));
      ProjectTreeRepresents(d);
      ProjectTreeRepresents(d');
      var walk, walk' := SourceWalk.Walk(authority, ProjectTree(d), []),
        SourceWalk.Walk(authority, ProjectTree(d'), []);
      if walk.Some? && walk'.Some? {
        SourceWalk.Walked(authority, ProjectTree(d), []);
        SourceWalk.Walked(authority, ProjectTree(d'), []);
        WalkOnDisk(authority, d, ProjectTree(d), walk.value);
        WalkOnDisk(authority, d', ProjectTree(d'), walk'.value);
        forall f ensures f in walk.value <==> f in walk'.value {
          assert SourceFile(authority, d, f.path, f.bytes) <==> SourceFile(authority, d', f.path, f.bytes);
        }
        assert SourceWalk.WalkResult(authority, ProjectTree(d), [], walk.value);
        IncreasingResult(authority, ProjectTree(d), walk.value);
        IncreasingResult(authority, ProjectTree(d'), walk'.value);
        IncreasingUnique(walk.value, walk'.value, SourceWalk.FoundLeq);
      }
    }
  }

  lemma IncreasingResult(authority: Authority, tree: SourceWalk.Tree, found: seq<SourceWalk.Found>)
    requires SourceWalk.WalkResult(authority, tree, [], found)
    ensures Increasing(found, SourceWalk.FoundLeq)
  {
  }

  // ---------- Publications of evidence ----------

  /** A path that leads to something on the later disk and is no output's led there before. */
  lemma EntryBefore(d: Disk, d': Disk, outputs: seq<DeliveryOutputs.OutputSpec>, created: seq<bool>, path: Path)
    requires TreeShaped(d) && Rooted(d)
    requires DeliveryOutputs.Delivered(d, d', outputs, created)
    requires path != [] && forall o :: o in outputs ==> o.path != path
    requires EntryAt(d', path).Some? && NodeAt(d', SlotOf(d', path).value) != Some(Node.Directory)
    ensures EntryAt(d, path) == EntryAt(d', path)
  {
    var slot := SlotOf(d', path).value;
    TreeShapeKept(d, d');
    forall i | 0 <= i < |outputs| && outputs[i].path != [] ensures SlotOf(d', outputs[i].path) != Some(slot) {
      assert outputs[i] in outputs;
      if SlotOf(d', outputs[i].path) == Some(slot) {
        OneSlot(d', path, outputs[i].path);
      }
    }
    assert slot in d.names;
    OldSlot(d, d', Parent(path));
  }

  /** Publishing leaves everything but its outputs as it was, apart from new directories. */
  lemma Besides(d: Disk, d': Disk, outputs: seq<DeliveryOutputs.OutputSpec>, created: seq<bool>, path: Path)
    requires TreeShaped(d) && Rooted(d)
    requires DeliveryOutputs.Delivered(d, d', outputs, created)
    requires path != [] && forall o :: o in outputs ==> o.path != path
    ensures FileAt(d, path) == FileAt(d', path)
    ensures EntryAt(d, path).Some? ==> EntryAt(d', path) == EntryAt(d, path)
    ensures EntryAt(d', path).Some? && NodeAt(d', SlotOf(d', path).value) != Some(Node.Directory) ==>
      EntryAt(d, path) == EntryAt(d', path)
  {
    EntryKept(d, d', path);
    if EntryAt(d', path).Some? && NodeAt(d', SlotOf(d', path).value) != Some(Node.Directory) {
      EntryBefore(d, d', outputs, created, path);
    }
  }

  /** Publishing files that the walk leaves out does not change the source. */
  lemma SourceUnchanged(authority: Authority, d: Disk, d': Disk,
                        outputs: seq<DeliveryOutputs.OutputSpec>, created: seq<bool>)
    requires TreeShaped(d) && Rooted(d)
    requires DeliveryOutputs.Delivered(d, d', outputs, created)
    requires forall o :: o in outputs ==> !Reached(authority, o.path)
    ensures SameSource(authority, d, d')
  {
    forall path | Reached(authority, path) && path != []
      ensures FileAt(d, path) == FileAt(d', path)
      ensures EntryAt(d, path).Some? ==> EntryAt(d', path) == EntryAt(d, path)
      ensures EntryAt(d', path).Some? && NodeAt(d', SlotOf(d', path).value) != Some(Node.Directory) ==>
        EntryAt(d, path) == EntryAt(d', path)
    {
      Besides(d, d', outputs, created, path);
    }
    hide Reached;
  }
}
