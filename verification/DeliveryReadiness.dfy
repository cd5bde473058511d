/** When a create-only publication has nothing in its way: every output is absent or there already, every parent is
    there or can be made, and no output lies on the way to another. */
module DeliveryReadiness {
  import opened Disks
  import opened DiskPaths
  import opened DeliveryOutputs
  import opened DeliveryOverlays
  import opened OpenPaths
  import opened Options
  import opened Paths
  import opened Sorting
  import opened TreeShapes

  ghost predicate Fits(d: Disk, o: OutputSpec) {
    && ValidRelative(o.path) && !Blocked(d, d.root, Parent(o.path))
    && (EntryAt(d, o.path).None? || FileAt(d, o.path) == Some(o.contents))
  }

  ghost predicate Deliverable(d: Disk, outputs: seq<OutputSpec>) {
    && TreeShaped(d) && Rooted(d) && DistinctBy(outputs, OutputPath)
    && (forall o :: o in outputs ==> Fits(d, o))
    && (forall o, p :: o in outputs && p in outputs ==> !(o.path < p.path))
  }

  ghost function PathsOf(outputs: seq<OutputSpec>): set<Path> {
    set o | o in outputs :: o.path
  }

  /** No component of a path is ever the name of a staging file. */
  ghost predicate NamesPlanned(outputs: seq<OutputSpec>, planned: set<string>) {
    forall o, c :: o in outputs && c in o.path ==> c in planned
  }

  // ---------- What was delivered was deliverable ----------

  /** No path goes on from `path`. */
  ghost predicate Unprolonged(path: Path, paths: set<Path>) {
    forall p :: p in paths ==> !(path < p)
  }

  lemma {:induction false} StillBlocked(d0: Disk, d: Disk, dir: Inode, dirs: Path)
    requires Keeps(d0, d) && WellFormed(d0) && Blocked(d0, dir, dirs)
    ensures Blocked(d, dir, dirs)
    decreases dirs
  {
    var s := Slot(dir, dirs[0]);
    assert NodeAt(d, s) == NodeAt(d0, s);
    if NodeAt(d0, s) == Some(Directory) {
      StillBlocked(d0, d, d0.names[s], dirs[1..]);
    }
  }

  /** A file lies on the way to nothing. */
  lemma {:induction false} NothingBehindFile(d: Disk, path: Path, longer: Path)
    requires FileAt(d, path).Some? && path < longer
    ensures EntryAt(d, longer).None?
  {
    if EntryAt(d, longer).Some? {
      assert path == Parent(longer)[..|path|];
      DescendPrefix(d, d.root, Parent(longer), |path|);
      DescendLast(d, path);
    }
  }

  /** Only what could be delivered is ever delivered. */
  lemma DeliveredWasDeliverable(d0: Disk, d: Disk, outputs: seq<OutputSpec>, created: seq<bool>)
    requires TreeShaped(d0) && Rooted(d0) && Delivered(d0, d, outputs, created)
    ensures Deliverable(d0, outputs)
  {
    hide FileAt, EntryAt, Blocked, ValidRelative, TreeShaped, NewNamesFresh, Descend, DistinctBy;
    forall o | o in outputs ensures Fits(d0, o) {
      var k :| 0 <= k < |outputs| && outputs[k] == o;
      DeliveredFits(d0, d, outputs, created, k);
    }
    forall o, p | o in outputs && p in outputs ensures !(o.path < p.path) {
      var j :| 0 <= j < |outputs| && outputs[j] == o;
      var k :| 0 <= k < |outputs| && outputs[k] == p;
      if o.path < p.path {
        NothingBehindFile(d, o.path, p.path);
        FileIsEntry(d, p.path);
      }
    }
  }

  lemma FileIsEntry(d: Disk, path: Path)
    requires FileAt(d, path).Some?
    ensures EntryAt(d, path).Some?
  {
  }

  lemma DeliveredFits(d0: Disk, d: Disk, outputs: seq<OutputSpec>, created: seq<bool>, k: nat)
    requires TreeShaped(d0) && Rooted(d0) && Delivered(d0, d, outputs, created) && k < |outputs|
    ensures Fits(d0, outputs[k])
  {
    var path := outputs[k].path;
    FileIsEntry(d, path);
    EntryIsUnblocked(d, path);
    if Blocked(d0, d0.root, Parent(path)) {
      StillBlocked(d0, d, d0.root, Parent(path));
    }
    hide FileAt, EntryAt, Blocked, ValidRelative, TreeShaped, NewNamesFresh, Descend;
  }

  // ---------- Preparing ----------

  lemma MadeForMore(d0: Disk, base: Disk, paths: set<Path>, more: set<Path>)
    requires MadeFor(d0, base, paths) && paths <= more
    ensures MadeFor(d0, base, more)
  {
    forall s | s in base.names && s !in d0.names ensures LeadsToOne(base, s, more) {
      var p :| p in paths && p != [] && LeadsTowards(base, s, Parent(p));
      assert p in more;
    }
  }

  /** Staging files block no planned way. */
  lemma {:induction false} UnblockedAbove(
      base: Disk, d: Disk, entries: seq<Prepared>, planned: set<string>, dir: Inode, dirs: Path)
    requires Overlay(base, d, entries) && forall e :: e in entries ==> e.WellMade(planned) && !e.state.Created?
    requires !Blocked(base, dir, dirs) && forall c :: c in dirs ==> c in planned
    ensures !Blocked(d, dir, dirs)
    decreases dirs
  {
    if dirs != [] {
      var s := Slot(dir, dirs[0]);
      if s in d.names {
        PlannedNameIsBelow(base, d, entries, planned, s);
        assert forall c :: c in dirs[1..] ==> c in dirs;
        UnblockedAbove(base, d, entries, planned, d.names[s], dirs[1..]);
      }
    }
  }

  lemma RootedAbove(base: Disk, d: Disk, entries: seq<Prepared>, outputs: seq<OutputSpec>)
    requires Rooted(base) && Overlay(base, d, entries) && HeldAll(base, entries, outputs) && base.root in base.nodes
    ensures Rooted(d)
  {
    forall s | s in d.names ensures s.dir in d.nodes {
      if s !in base.names {
        assert s in Extra(d, entries);
        var e :| e in entries && Bound(d, e) && e.Place() == s;
        var k :| 0 <= k < |entries| && entries[k] == e;
        assert EntryHeld(base, e, outputs[k]);
        DirectoriesExist(base, base.root, Parent(e.path));
      }
    }
  }

  /** The way to the next output is open. */
  lemma NextIsOpen(d0: Disk, base: Disk, d: Disk, entries: seq<Prepared>, outputs: seq<OutputSpec>,
                   planned: set<string>,
                   paths: set<Path>, o: OutputSpec)
    requires PreparedOn(d0, base, d, entries, outputs) && MadeFor(d0, base, paths)
    requires forall e :: e in entries ==> e.WellMade(planned) && !e.state.Created?
    requires TreeShaped(d0) && Rooted(d0) && Fits(d0, o) && forall c :: c in o.path ==> c in planned
    ensures Rooted(d) && d.root == d0.root && !Blocked(d, d.root, Parent(o.path))
  {
    OnlyDirectoriesKeep(d0, base);
    RootedBelow(d0, base, paths);
    RootedAbove(base, d, entries, outputs);
    UnblockedStays(d0, base, d0.root, Parent(o.path));
    UnblockedAbove(base, d, entries, planned, d0.root, Parent(o.path));
  }

  /** What stands at the target of an output, if anything, is what is to be delivered. */
  ghost predicate Accepts(base: Disk, o: OutputSpec)
    requires o.path != []
  {
    match SlotOf(base, o.path)
    case None => true
    case Some(target) => target in base.names ==> NodeAt(base, target) == Some(File(o.contents))
  }

  lemma AcceptedAbove(base: Disk, d: Disk, entries: seq<Prepared>, planned: set<string>, root: Inode, o: OutputSpec,
                      parent: Inode)
    requires Overlay(base, d, entries) && forall e :: e in entries ==> e.WellMade(planned) && !e.state.Created?
    requires o.path != [] && FileName(o.path) in planned && root == base.root && Accepts(base, o)
    requires Descend(d, root, Parent(o.path)) == Some(parent)
    ensures var target := Slot(parent, FileName(o.path)); target in d.names ==>
      NodeAt(d, target) == Some(File(o.contents))
  {
    var target := Slot(parent, FileName(o.path));
    DescendBelow(base, d, entries, root, Parent(o.path));
    if target in d.names {
      PlannedNameIsBelow(base, d, entries, planned, target);
    }
  }

  lemma FitsBelow(d0: Disk, base: Disk, paths: set<Path>, o: OutputSpec)
    requires TreeShaped(d0) && Rooted(d0) && Fits(d0, o) && o.path != []
    requires Widened(d0, base) && WellFormed(base) && MadeFor(d0, base, paths)
    requires forall p :: p in paths ==> !(o.path < p)
    ensures Accepts(base, o)
  {
    if SlotOf(base, o.path).Some? {
      var target := SlotOf(base, o.path).value;
      OnlyDirectoriesKeep(d0, base);
      TreeShapeKept(d0, base);
      if target in d0.names {
        OldSlot(d0, base, Parent(o.path));
        EntryKept(d0, base, o.path);
      } else {
        NotOnTheWay(base, paths, o.path, target);
      }
    }
  }

  lemma OnTheWayBelow(base: Disk, base': Disk, d: Disk, d': Disk, entries: seq<Prepared>, path: Path)
    requires OnTheWay(d, d', path) && Overlay(base', d', entries)
    requires base'.names.Keys == base.names.Keys + (d'.names.Keys - d.names.Keys)
    ensures OnTheWay(base, base', path)
  {
    forall s | s in base'.names && s !in base.names ensures LeadsTowards(base', s, path) {
      var q :| q != [] && q <= path && SlotOf(d', q) == Some(s);
      DescendUnder(base', d', entries, d'.root, Parent(q));
      assert q <= path && SlotOf(base', q) == Some(s);
    }
  }

  // ---------- Installing ----------

  /** Every staged output has a target of its own that is free. */
  ghost predicate Clear(base: Disk, entries: seq<Prepared>) {
    && (forall e :: e in entries ==> e.path != [])
    && (forall e :: e in entries && e.state.Staged? ==> e.Target() !in base.names)
    && (forall i, j :: 0 <= i < j < |entries| ==> entries[i].Target() != entries[j].Target())
  }

  lemma PreparedIsClear(d0: Disk, base: Disk, d: Disk, entries: seq<Prepared>, outputs: seq<OutputSpec>)
    requires Deliverable(d0, outputs) && PreparedOn(d0, base, d, entries, outputs) && |entries| == |outputs|
    requires MadeFor(d0, base, PathsOf(outputs))
    ensures Clear(base, entries)
  {
    OnlyDirectoriesKeep(d0, base);
    TreeShapeKept(d0, base);
    forall k | 0 <= k < |entries|
      ensures entries[k].path != [] && SlotOf(base, entries[k].path) == Some(entries[k].Target())
      ensures entries[k].state.Staged? ==> entries[k].Target() !in base.names
    {
      assert EntryHeld(base, entries[k], outputs[k]) && outputs[k] in outputs;
      if entries[k].state.Staged? && entries[k].Target() in base.names {
        FreeTarget(d0, base, outputs, k, entries[k].Target());
      }
    }
    forall i, j | 0 <= i < j < |entries| ensures entries[i].Target() != entries[j].Target() {
      assert OutputPath(outputs[i]) != OutputPath(outputs[j]);
      if entries[i].Target() == entries[j].Target() {
        OneSlot(base, entries[i].path, entries[j].path);
      }
    }
  }

  lemma FreeTarget(d0: Disk, base: Disk, outputs: seq<OutputSpec>, k: nat, target: Slot)
    requires Deliverable(d0, outputs) && Widened(d0, base) && WellFormed(base) && TreeShaped(base)
    requires MadeFor(d0, base, PathsOf(outputs)) && k < |outputs| && outputs[k].path != []
    requires SlotOf(base, outputs[k].path) == Some(target) && EntryAt(d0, outputs[k].path).None?
    ensures target !in base.names
  {
    assert outputs[k] in outputs;
    OnlyDirectoriesKeep(d0, base);
    if target in d0.names {
      OldSlot(d0, base, Parent(outputs[k].path));
    } else {
      NotOnTheWay(base, PathsOf(outputs), outputs[k].path, target);
    }
  }

  /** The target of a staged output is free above the lower disk, too. */
  lemma TargetIsFree(base: Disk, d: Disk, entries: seq<Prepared>, planned: set<string>, k: nat)
    requires Clear(base, entries) && Overlay(base, d, entries) && k < |entries| && entries[k].state.Staged?
    requires forall e :: e in entries ==> e.WellMade(planned)
    ensures entries[k].path != [] && entries[k].Target() !in d.names
  {
    var target := entries[k].Target();
    forall e | e in entries && Bound(d, e) ensures e.Place() != target {
      var j :| 0 <= j < |entries| && entries[j] == e;
    }
    assert target !in Extra(d, entries);
  }

  /** A staged output can be moved to its target. */
  lemma ReadyToMove(base: Disk, d: Disk, entries: seq<Prepared>, planned: set<string>, k: nat)
    requires Overlay(base, d, entries) && Standing(d, entries) && k < |entries| && entries[k].state.Staged?
    requires forall e :: e in entries ==> e.WellMade(planned)
    ensures IdentityAt(d, entries[k].Staging()) == entries[k].stagedIdentity && entries[k].path != []
    ensures Clear(base, entries) ==> entries[k].Target() !in d.names && entries[k].Target() != entries[k].Staging()
  {
    assert entries[k] in entries && Bound(d, entries[k]);
    if Clear(base, entries) {
      TargetIsFree(base, d, entries, planned, k);
    }
  }

  /** What preparing leaves to be installed. */
  lemma ReadyToInstall(d0: Disk, base: Disk, d: Disk, entries: seq<Prepared>, outputs: seq<OutputSpec>,
                       inputs: seq<ExactInput>)
    requires PreparedOn(d0, base, d, entries, outputs) && |entries| == |outputs|
    requires MadeFor(d0, base, PathsOf(outputs[..|outputs|]))
    ensures Deliverable(d0, outputs) ==> Clear(base, entries)
    ensures InputsHold(d0, inputs) ==> InputsHold(base, inputs)
  {
    TakeAll(outputs);
    if Deliverable(d0, outputs) {
      PreparedIsClear(d0, base, d, entries, outputs);
    }
    if InputsHold(d0, inputs) {
      OnlyDirectoriesKeep(d0, base);
      InputsStillHold(d0, base, inputs);
    }
    hide Deliverable, InputsHold, MadeFor;
  }

  lemma InputsAbove(base: Disk, d: Disk, entries: seq<Prepared>, inputs: seq<ExactInput>)
    requires Overlay(base, d, entries)
    ensures InputsHold(base, inputs) ==> InputsHold(d, inputs)
  {
    hide InputsHold, Keeps;
    if InputsHold(base, inputs) {
      InputsStillHold(base, d, inputs);
    }
  }

  lemma StillClear(base: Disk, entries: seq<Prepared>, entries': seq<Prepared>, k: nat)
    requires Clear(base, entries) && k < |entries|
    requires entries' == entries || entries' == entries[k := entries[k].(state := Created)]
    ensures Clear(base, entries')
  {
  }

  lemma InputsStillHold(base: Disk, d: Disk, inputs: seq<ExactInput>)
    requires Keeps(base, d) && InputsHold(base, inputs)
    ensures InputsHold(d, inputs)
  {
    forall input | input in inputs ensures FileAt(d, input.path) == Some(input.bytes) {
      EntryKept(base, d, input.path);
    }
    hide FileAt, ValidRelative, Keeps;
  }

  // ---------- Lists with an invalid path ----------

  lemma DeliverableUpTo(d: Disk, outputs: seq<OutputSpec>, n: nat, m: nat)
    requires m <= n <= |outputs| && Deliverable(d, outputs[..n])
    ensures Deliverable(d, outputs[..m])
  {
    assert forall o :: o in outputs[..m] ==> o in outputs[..n];
    forall i, j | 0 <= i < j < m ensures OutputPath(outputs[..m][i]) != OutputPath(outputs[..m][j]) {
      assert OutputPath(outputs[..n][i]) != OutputPath(outputs[..n][j]);
    }
    hide Fits;
  }

  /** A preparation that ends behind the first `k` outputs ends at an invalid path, or could not be delivered so far. */
  lemma EndOfPreparation(d0: Disk, outputs: seq<OutputSpec>, k: nat, error: Error)
    requires k < |outputs| && forall i :: 0 <= i < k ==> ValidRelative(outputs[i].path)
    requires !ValidRelative(outputs[k].path) ==> error.InvalidPath?
    ensures Deliverable(d0, outputs[..|outputs|]) ==> Deliverable(d0, outputs[..k + 1])
    ensures forall j: nat :: FirstInvalid(outputs, j) && Deliverable(d0, outputs[..j]) ==>
      error.InvalidPath? || Deliverable(d0, outputs[..k + 1])
  {
    hide Deliverable, ValidRelative;
    if Deliverable(d0, outputs[..|outputs|]) {
      DeliverableUpTo(d0, outputs, |outputs|, k + 1);
    }
    forall j: nat | FirstInvalid(outputs, j) && Deliverable(d0, outputs[..j])
      ensures error.InvalidPath? || Deliverable(d0, outputs[..k + 1])
    {
      if k < j {
        DeliverableUpTo(d0, outputs, j, k + 1);
      }
    }
  }

  /** On any disk with a free name in its root, an output of that name before one without a path leaves its
      staging file behind. */
  lemma InvalidPathLeavesStaging(d: Disk, name: string, contents: Bytes)
    requires TreeShaped(d) && Rooted(d) && IsNormal(name) && Slot(d.root, name) !in d.names
    ensures var outputs := [OutputSpec([name], contents), OutputSpec([], [])];
      && FirstInvalid(outputs, 1) && Deliverable(d, outputs[..1]) && LeavesStaging(d, outputs)
  {
    var outputs := [OutputSpec([name], contents), OutputSpec([], [])];
    assert outputs[..1] == [outputs[0]] && Parent([name]) == [];
    assert EntryAt(d, outputs[0].path).None?;
    assert FirstInvalid(outputs, 1);
  }

  /** The last of several deliverable outputs fits, and its path is no other's. */
  lemma LastOfDeliverable(d: Disk, outputs: seq<OutputSpec>, k: nat)
    requires k < |outputs| && Deliverable(d, outputs[..k + 1])
    ensures TreeShaped(d) && Rooted(d) && Fits(d, outputs[k]) && ValidRelative(outputs[k].path) && outputs[k].path != []
    ensures forall j :: 0 <= j < k ==> outputs[j].path != outputs[k].path
    ensures Unprolonged(outputs[k].path, PathsOf(outputs[..k + 1]))
  {
    var some := outputs[..k + 1];
    assert some[k] in some;
    forall j | 0 <= j < k ensures outputs[j].path != outputs[k].path {
      assert OutputPath(some[j]) != OutputPath(some[k]);
    }
  }

  lemma NextFits(d0: Disk, base: Disk, d: Disk, entries: seq<Prepared>, outputs: seq<OutputSpec>, planned: set<string>,
                 k: nat)
    requires k < |outputs| && outputs[k].path != []
    requires PreparedOn(d0, base, d, entries, outputs) && MadeFor(d0, base, PathsOf(outputs[..k]))
    requires forall e :: e in entries ==> e.WellMade(planned) && !e.state.Created?
    ensures Deliverable(d0, outputs[..k + 1]) && NamesPlanned(outputs, planned) ==>
      Rooted(d) && !Blocked(d, d0.root, Parent(outputs[k].path))
  {
    if Deliverable(d0, outputs[..k + 1]) && NamesPlanned(outputs, planned) {
      LastOfDeliverable(d0, outputs, k);
      assert outputs[k] in outputs;
      NextIsOpen(d0, base, d, entries, outputs, planned, PathsOf(outputs[..k]), outputs[k]);
    }
  }

  lemma NextMadeFor(d0: Disk, base: Disk, base': Disk, d: Disk, entries: seq<Prepared>, outputs: seq<OutputSpec>,
                    k: nat)
    requires k < |outputs| && PreparedOn(d0, base, d, entries, outputs) && MadeFor(d0, base, PathsOf(outputs[..k]))
    requires Widened(base, base') && outputs[k].path != [] && OnTheWay(base, base', Parent(outputs[k].path))
    requires WellFormed(base')
    ensures MadeFor(d0, base', PathsOf(outputs[..k + 1]))
    ensures Deliverable(d0, outputs[..k + 1]) ==> Accepts(base', outputs[k])
  {
    var more := PathsOf(outputs[..k + 1]);
    assert outputs[..k + 1][k] in outputs[..k + 1];
    assert forall o :: o in outputs[..k] ==> o in outputs[..k + 1];
    MadeForMore(d0, base, PathsOf(outputs[..k]), more);
    MadeForFurther(d0, base, base', more, outputs[k].path);
    if Deliverable(d0, outputs[..k + 1]) {
      NextAccepts(d0, base, base', d, entries, outputs, k);
    }
  }

  lemma NextAccepts(d0: Disk, base: Disk, base': Disk, d: Disk, entries: seq<Prepared>, outputs: seq<OutputSpec>,
                    k: nat)
    requires k < |outputs| && Deliverable(d0, outputs[..k + 1]) && PreparedOn(d0, base, d, entries, outputs)
    requires Widened(base, base') && WellFormed(base') && MadeFor(d0, base', PathsOf(outputs[..k + 1]))
    ensures outputs[k].path != [] && Accepts(base', outputs[k])
  {
    LastOfDeliverable(d0, outputs, k);
    DirectoriesTwice(d0, base, base');
    FitsBelow(d0, base', PathsOf(outputs[..k + 1]), outputs[k]);
  }
}
