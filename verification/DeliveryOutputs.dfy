/** What create-only publication is about: outputs, inputs, and what a publication, a preparation and a failure leave
    on the disk (crates/minco-cli/src/delivery_evidence.rs, module `secure`). */
module DeliveryOutputs {
  import opened Disks
  import opened DiskPaths
  import opened Options
  import opened Paths
  import opened Sorting
  import opened DeliveryOverlays

  datatype OutputSpec = OutputSpec(path: Path, contents: Bytes)

  datatype ExactInput = ExactInput(path: Path, bytes: Bytes)

  datatype Reading = Absent | Present(contents: Bytes, identity: Inode) | Unreadable

  datatype Error =
    | SystemCallFailed | CheckFailed | InvalidPath | DuplicatePath | ParentUnavailable | Conflict
    | InputChanged | ChangedIdentity | ChangedAfterPlanning | AppearedAfterPlanning

  /** `unrestored` are the outputs that the rollback could not take back. */
  datatype Result<+T> = Ok(value: T) | Err(error: Error, unrestored: seq<Path>)

  ghost predicate InputsHold(d: Disk, inputs: seq<ExactInput>) {
    forall input :: input in inputs ==> ValidRelative(input.path) && FileAt(d, input.path) == Some(input.bytes)
  }

  // ---------- What the entries know ----------

  /** Where `e` leads on the lower disk, and for an existing output what stands there. */
  ghost predicate EntryHeld(base: Disk, e: Prepared, output: OutputSpec) {
    && e.path == output.path && e.contents == output.contents && e.path != []
    && Descend(base, base.root, Parent(e.path)) == Some(e.parent)
    && (e.state.Existing? ==>
          && e.expectedIdentity.Some?
          && IdentityAt(base, e.Target()) == e.expectedIdentity
          && NodeAt(base, e.Target()) == Some(File(e.contents)))
  }

  ghost predicate HeldAll(base: Disk, entries: seq<Prepared>, outputs: seq<OutputSpec>) {
    && |entries| <= |outputs|
    && forall k :: 0 <= k < |entries| ==> entries[k].index == k && EntryHeld(base, entries[k], outputs[k])
  }

  lemma HeldKept(base: Disk, base': Disk, e: Prepared, output: OutputSpec)
    requires EntryHeld(base, e, output) && Keeps(base, base')
    ensures EntryHeld(base', e, output)
  {
    KeepsDirectories(base, base');
    DescendKept(base, base', base.root, Parent(e.path));
  }

  lemma HeldAllKept(base: Disk, base': Disk, entries: seq<Prepared>, outputs: seq<OutputSpec>)
    requires HeldAll(base, entries, outputs) && Keeps(base, base')
    ensures HeldAll(base', entries, outputs)
  {
    forall k | 0 <= k < |entries| ensures EntryHeld(base', entries[k], outputs[k]) {
      HeldKept(base, base', entries[k], outputs[k]);
    }
  }

  lemma OneMoreHeld(base: Disk, entries: seq<Prepared>, outputs: seq<OutputSpec>, e: Prepared)
    requires HeldAll(base, entries, outputs) && |entries| < |outputs|
    requires e.index == |entries| && EntryHeld(base, e, outputs[|entries|])
    ensures HeldAll(base, entries + [e], outputs)
  {
  }

  /** While nothing is installed, a planned name stands on the lower disk or not at all. */
  lemma PlannedNameIsBelow(base: Disk, d: Disk, entries: seq<Prepared>, planned: set<string>, slot: Slot)
    requires Overlay(base, d, entries) && slot.name in planned && slot in d.names
    requires forall e :: e in entries ==> e.WellMade(planned) && !e.state.Created?
    ensures slot in base.names && base.names[slot] == d.names[slot]
    ensures d.names[slot] in base.nodes && base.nodes[d.names[slot]] == d.nodes[d.names[slot]]
  {
    forall e | e in entries && Bound(d, e) ensures e.Place() != slot {
    }
    assert slot !in Extra(d, entries);
  }

  // ---------- What a finished publication means ----------

  function OutputPath(o: OutputSpec): Path { o.path }

  /** `s` is the name of an output that was created. */
  ghost predicate IsNewOutput(d: Disk, outputs: seq<OutputSpec>, created: seq<bool>, s: Slot)
    requires |created| == |outputs|
  {
    exists i :: 0 <= i < |outputs| && created[i] && outputs[i].path != [] && SlotOf(d, outputs[i].path) == Some(s)
  }

  /** `d` is `d0` with new directories and with those outputs that `d0` did not have. */
  ghost predicate Delivered(d0: Disk, d: Disk, outputs: seq<OutputSpec>, created: seq<bool>) {
    && |created| == |outputs| && WellFormed(d) && Keeps(d0, d) && NewNamesFresh(d0, d)
    && DistinctBy(outputs, OutputPath)
    && (forall i :: 0 <= i < |outputs| ==>
          ValidRelative(outputs[i].path) && FileAt(d, outputs[i].path) == Some(outputs[i].contents))
    && (forall i :: 0 <= i < |outputs| && created[i] ==> EntryAt(d0, outputs[i].path).None?)
    && (Rooted(d0) ==> forall i :: 0 <= i < |outputs| && !created[i] ==>
          FileAt(d0, outputs[i].path) == Some(outputs[i].contents))
    && (forall s :: s in d.names && s !in d0.names ==>
          NodeAt(d, s) == Some(Directory) || IsNewOutput(d, outputs, created, s))
  }

  /** Every output is there already. */
  ghost predicate AlreadyThere(d: Disk, outputs: seq<OutputSpec>) {
    && DistinctBy(outputs, OutputPath)
    && forall i :: 0 <= i < |outputs| ==>
         ValidRelative(outputs[i].path) && FileAt(d, outputs[i].path) == Some(outputs[i].contents)
  }

  /** A publication that finds everything as it wants it. */
  ghost predicate Repeats(d: Disk, inputs: seq<ExactInput>, outputs: seq<OutputSpec>, check: Disk -> bool) {
    AlreadyThere(d, outputs) && InputsHold(d, inputs) && check(d)
  }

  function CreatedFlags(entries: seq<Prepared>): (r: seq<bool>)
    ensures |r| == |entries| && forall i :: 0 <= i < |r| ==> r[i] == entries[i].state.Created?
  {
    seq(|entries|, i requires 0 <= i < |entries| => entries[i].state.Created?)
  }

  ghost predicate AllInstalled(entries: seq<Prepared>) {
    forall e :: e in entries ==> !e.state.Staged?
  }

  /** Where one output of a finished publication stands. */
  lemma OutputDelivered(d0: Disk, base: Disk, d: Disk, e: Prepared, output: OutputSpec)
    requires WellFormed(d0) && OnlyDirectoriesAdded(d0, base) && NewNamesFresh(d0, base) && Keeps(base, d)
    requires EntryHeld(base, e, output) && !e.state.Staged?
    requires e.state.Created? ==>
      && Bound(d, e) && e.stagedIdentity.value !in base.nodes
      && e.stagedIdentity.value in d.nodes && d.nodes[e.stagedIdentity.value] == File(e.contents)
    ensures FileAt(d, output.path) == Some(output.contents) && SlotOf(d, output.path) == Some(e.Target())
    ensures e.state.Created? ==> EntryAt(d0, output.path).None?
    ensures Rooted(d0) && !e.state.Created? ==> FileAt(d0, output.path) == Some(output.contents)
  {
    OnlyDirectoriesKeep(d0, base);
    KeepsDirectories(d0, base);
    KeepsDirectories(base, d);
    DescendKept(base, d, base.root, Parent(e.path));
    EntriesBeforeDirectories(d0, base, e.path);
  }

  /** Nothing else is new. */
  lemma NothingElseNew(d0: Disk, base: Disk, d: Disk, entries: seq<Prepared>, outputs: seq<OutputSpec>, s: Slot)
    requires OnlyDirectoriesAdded(d0, base) && Overlay(base, d, entries) && AllInstalled(entries)
    requires |entries| == |outputs| && s in d.names && s !in d0.names
    requires forall k :: 0 <= k < |entries| ==>
      && outputs[k].path != [] && entries[k].path == outputs[k].path
      && SlotOf(d, outputs[k].path) == Some(entries[k].Target())
    ensures NodeAt(d, s) == Some(Directory) || IsNewOutput(d, outputs, CreatedFlags(entries), s)
  {
    if s in base.names {
      assert NodeAt(base, s) == Some(Directory);
    } else {
      assert s in Extra(d, entries);
      var e :| e in entries && Bound(d, e) && e.Place() == s;
      var k :| 0 <= k < |entries| && entries[k] == e;
      assert CreatedFlags(entries)[k] && SlotOf(d, outputs[k].path) == Some(s);
    }
  }

  /** The names of outputs are as fresh as those of new directories. */
  lemma OutputsFresh(d0: Disk, base: Disk, d: Disk, entries: seq<Prepared>)
    requires WellFormed(d0) && OnlyDirectoriesAdded(d0, base) && NewNamesFresh(d0, base)
    requires Overlay(base, d, entries)
    ensures NewNamesFresh(d0, d)
  {
    OnlyDirectoriesKeep(d0, base);
    forall s | s in d.names && s !in base.names ensures d.names[s] !in base.nodes {
      assert s in Extra(d, entries);
    }
    forall s, t | s in d.names && s !in base.names && t in d.names && t !in base.names && d.names[s] == d.names[t]
      ensures s == t
    {
      OneName(base, d, entries, s, t);
    }
    assert NewNamesFresh(base, d);
    FreshTwice(d0, base, d);
  }

  lemma OneName(base: Disk, d: Disk, entries: seq<Prepared>, s: Slot, t: Slot)
    requires Overlay(base, d, entries) && s in Extra(d, entries) && t in Extra(d, entries) && d.names[s] == d.names[t]
    ensures s == t
  {
    var e :| e in entries && Bound(d, e) && e.Place() == s;
    var f :| f in entries && Bound(d, f) && f.Place() == t;
    var i :| 0 <= i < |entries| && entries[i] == e;
    var j :| 0 <= j < |entries| && entries[j] == f;
    assert !(i < j) && !(j < i);
  }

  lemma DeliveredWhenInstalled(d0: Disk, base: Disk, d: Disk, entries: seq<Prepared>, outputs: seq<OutputSpec>)
    requires WellFormed(d0) && OnlyDirectoriesAdded(d0, base) && NewNamesFresh(d0, base)
    requires Overlay(base, d, entries) && Standing(d, entries) && AllInstalled(entries)
    requires HeldAll(base, entries, outputs) && |entries| == |outputs| && DistinctBy(outputs, OutputPath)
    requires forall i :: 0 <= i < |outputs| ==> ValidRelative(outputs[i].path)
    ensures Delivered(d0, d, outputs, CreatedFlags(entries))
  {
    OnlyDirectoriesKeep(d0, base);
    KeepsTwice(d0, base, d);
    OutputsFresh(d0, base, d, entries);
    forall k | 0 <= k < |outputs|
      ensures FileAt(d, outputs[k].path) == Some(outputs[k].contents)
      ensures SlotOf(d, outputs[k].path) == Some(entries[k].Target())
      ensures entries[k].state.Created? ==> EntryAt(d0, outputs[k].path).None?
      ensures Rooted(d0) && !entries[k].state.Created? ==> FileAt(d0, outputs[k].path) == Some(outputs[k].contents)
    {
      assert entries[k] in entries;
      OutputDelivered(d0, base, d, entries[k], outputs[k]);
    }
    forall s | s in d.names && s !in d0.names
      ensures NodeAt(d, s) == Some(Directory) || IsNewOutput(d, outputs, CreatedFlags(entries), s)
    {
      NothingElseNew(d0, base, d, entries, outputs, s);
    }
    hide Overlay, Standing, HeldAll, FileAt, EntryAt, SlotOf, Keeps, Rooted, NewNamesFresh, OnlyDirectoriesAdded;
  }

  /** What a publication delivered, another one finds already there. */
  lemma DeliveredIsThere(d0: Disk, d: Disk, inputs: seq<ExactInput>, outputs: seq<OutputSpec>, check: Disk -> bool,
                         created: seq<bool>)
    requires Delivered(d0, d, outputs, created) && InputsHold(d, inputs) && check(d)
    ensures Repeats(d, inputs, outputs, check)
  {
  }

  lemma GrowsUnder(base: Disk, d: Disk, d': Disk)
    requires OnlyDirectoriesAdded(d, d') && NewNamesFresh(d, d')
    ensures Grown(base, d, d').root == base.root
    ensures forall b :: OnlyDirectoriesAdded(base, b) ==> Keeps(base, b)
  {
  }

  lemma GrownNames(base: Disk, d: Disk, d': Disk, entries: seq<Prepared>)
    requires Overlay(base, d, entries) && OnlyDirectoriesAdded(d, d') && NewNamesFresh(d, d') && WellFormed(d')
    ensures Grown(base, d, d').names.Keys == base.names.Keys + (d'.names.Keys - d.names.Keys)
  {
    GrownDisk(base, d, d');
  }

  /** The files of outputs hide no directory of the lower disk. */
  lemma {:induction false} DescendUnder(base: Disk, d: Disk, entries: seq<Prepared>, dir: Inode, path: Path)
    requires Overlay(base, d, entries) && Descend(d, dir, path).Some?
    ensures Descend(base, dir, path) == Descend(d, dir, path)
    decreases path
  {
    if path != [] {
      var s := Slot(dir, path[0]);
      assert s !in Extra(d, entries);
      DescendUnder(base, d, entries, d.names[s], path[1..]);
    }
  }

  lemma DescendBelow(base: Disk, d: Disk, entries: seq<Prepared>, root: Inode, path: Path)
    requires Overlay(base, d, entries) && root == base.root && Descend(d, root, path).Some?
    ensures Descend(base, base.root, path) == Descend(d, root, path)
  {
    DescendUnder(base, d, entries, root, path);
  }

  lemma NoEntryBefore(d: Disk, d': Disk, root: Inode, path: Path)
    requires OnlyDirectoriesAdded(d, d') && d.root == root && path != []
    requires Descend(d', root, Parent(path)).Some?
    requires Slot(Descend(d', root, Parent(path)).value, FileName(path)) !in d'.names
    ensures EntryAt(d, path).None?
  {
    OnlyDirectoriesKeep(d, d');
    EntryKept(d, d', path);
  }

  lemma WhereFileStands(base: Disk, d: Disk, entries: seq<Prepared>, path: Path)
    requires Overlay(base, d, entries) && path != []
    ensures d.root == base.root
    ensures FileAt(d, path).Some? ==>
      && Descend(d, d.root, Parent(path)).Some?
      && NodeAt(d, Slot(Descend(d, d.root, Parent(path)).value, FileName(path))) == Some(File(FileAt(d, path).value))
  {
  }

  lemma ExistingHeld(base: Disk, d: Disk, root: Inode, entries: seq<Prepared>, planned: set<string>,
                     e: Prepared, output: OutputSpec)
    requires Overlay(base, d, entries) && Standing(d, entries) && root == base.root && e.WellMade(planned)
    requires forall f :: f in entries ==> f.WellMade(planned) && !f.state.Created?
    requires e.state.Existing? && e.path == output.path && e.contents == output.contents
    requires Descend(d, root, Parent(e.path)) == Some(e.parent)
    requires IdentityAt(d, e.Target()) == e.expectedIdentity && NodeAt(d, e.Target()) == Some(File(e.contents))
    ensures EntryHeld(base, e, output)
    ensures Overlay(base, d, entries + [e]) && Standing(d, entries + [e])
  {
    DescendBelow(base, d, entries, root, Parent(e.path));
    PlannedNameIsBelow(base, d, entries, planned, e.Target());
    assert Extra(d, entries + [e]) == Extra(d, entries);
  }

  /** What taking one entry back leaves standing. */
  lemma StillStanding(d: Disk, d': Disk, entries: seq<Prepared>, entries': seq<Prepared>, k: nat)
    requires k < |entries| && |entries'| == |entries| && entries' == entries[k := entries'[k]]
    requires Standing(d, entries[..k + 1])
    requires forall j :: 0 <= j < |entries'| && j != k && Bound(d, entries'[j]) ==> Bound(d', entries'[j])
    ensures Standing(d', entries'[..k])
  {
    forall e | e in entries'[..k] && !e.state.Existing? ensures Bound(d', e) {
      var j :| 0 <= j < k && entries'[j] == e;
      assert entries[j] in entries[..k + 1] && Bound(d, entries'[j]);
    }
  }

  /** The entries behind one round of `rollback`. */
  function RolledBack(entries: seq<Prepared>, k: nat, restored: bool): seq<Prepared>
    requires k < |entries|
  {
    if restored && entries[k].state.Created? then entries[k := entries[k].(state := Staged)] else entries
  }

  predicate MayBeTakenBack(before: Prepared, after: Prepared) {
    after == before || (before.state.Created? && after == before.(state := Staged))
  }

  /** The outputs from `k` on that are still in place, the last one first. */
  function StillCreated(entries: seq<Prepared>, k: nat): seq<Path>
    requires k <= |entries|
    decreases |entries| - k
  {
    if k == |entries| then []
    else StillCreated(entries, k + 1) + if entries[k].state.Created? then [entries[k].path] else []
  }

  lemma {:induction false} StillCreatedAbove(entries: seq<Prepared>, entries': seq<Prepared>, k: nat)
    requires k <= |entries| == |entries'| && forall j :: k <= j < |entries| ==> entries'[j] == entries[j]
    ensures StillCreated(entries', k) == StillCreated(entries, k)
    decreases |entries| - k
  {
    if k < |entries| {
      StillCreatedAbove(entries, entries', k + 1);
    }
  }

  /** From `k` on, an output that was created is either still in place or its name is free. */
  ghost predicate TakenBack(d: Disk, created: seq<Prepared>, entries: seq<Prepared>, k: nat) {
    |created| == |entries| && forall j :: k <= j < |entries| && created[j].state.Created? ==>
      if entries[j].state.Created? then Bound(d, entries[j])
      else entries[j].path != [] && entries[j].Target() !in d.names
  }

  lemma TakenBackFurther(d: Disk, created: seq<Prepared>, entries: seq<Prepared>, k: nat, d': Disk,
                         entries': seq<Prepared>,
                         restored: bool)
    requires k < |entries| == |created| && TakenBack(d, created, entries, k + 1) && Standing(d, entries[..k + 1])
    requires entries' == RolledBack(entries, k, restored) && entries[k] == created[k] && entries[k].path != []
    requires !restored ==> entries[k].state.Created?
    requires d' == if restored && entries[k].state.Created? then d.(names := d.names - {entries'[k].Target()}) else d
    requires forall j :: 0 <= j < |entries'| && j != k && Bound(d, entries'[j]) ==> Bound(d', entries'[j])
    ensures TakenBack(d', created, entries', k)
  {
    assert entries[k] in entries[..k + 1];
    forall j | k <= j < |entries'| && created[j].state.Created?
      ensures if entries'[j].state.Created? then Bound(d', entries'[j])
        else entries'[j].path != [] && entries'[j].Target() !in d'.names
    {
      if j > k {
        assert entries'[j] == entries[j];
      }
    }
  }

  lemma NothingTakenBack(d: Disk, entries: seq<Prepared>)
    ensures TakenBack(d, entries, entries, |entries|) && StillCreated(entries, |entries|) == []
  {
  }

  lemma OneMoreStillCreated(entries: seq<Prepared>, k: nat)
    requires k < |entries|
    ensures StillCreated(entries, k) == StillCreated(entries, k + 1) +
      if entries[k].state.Created? then [entries[k].path] else []
  {
  }

  lemma LastStands(d: Disk, entries: seq<Prepared>, k: nat)
    requires k < |entries| && Standing(d, entries[..k + 1])
    ensures entries[k].state.Created? ==> Bound(d, entries[k])
  {
    assert entries[k] in entries[..k + 1];
  }

  /** What an entry knows of the lower disk holds above it. */
  lemma StillHeld(base: Disk, d: Disk, entries: seq<Prepared>, outputs: seq<OutputSpec>, k: nat)
    requires Overlay(base, d, entries) && HeldAll(base, entries, outputs) && k < |entries|
    ensures EntryHeld(d, entries[k], outputs[k]) && d.root == base.root
  {
    HeldKept(base, d, entries[k], outputs[k]);
  }

  // ---------- Phases ----------

  /** What preparing has established: only directories and staging files are new. */
  ghost predicate PreparedOn(d0: Disk, base: Disk, d: Disk, entries: seq<Prepared>, outputs: seq<OutputSpec>) {
    && WellFormed(d0) && OnlyDirectoriesAdded(d0, base) && NewNamesFresh(d0, base)
    && Overlay(base, d, entries) && Standing(d, entries)
    && HeldAll(base, entries, outputs)
    && (forall k :: 0 <= k < |entries| && entries[k].state.Staged? ==> EntryAt(d0, outputs[k].path).None?)
  }

  lemma NothingPrepared(d: Disk, outputs: seq<OutputSpec>)
    requires WellFormed(d)
    ensures PreparedOn(d, d, d, [], outputs)
  {
    NothingOver(d);
  }

  lemma OneMorePrepared(
      d0: Disk, base: Disk, d: Disk, entries: seq<Prepared>, outputs: seq<OutputSpec>, base': Disk, d': Disk,
      e: Prepared)
    requires PreparedOn(d0, base, d, entries, outputs) && |entries| < |outputs|
    requires OnlyDirectoriesAdded(base, base') && NewNamesFresh(base, base')
    requires Overlay(base', d', entries + [e]) && Standing(d', entries + [e])
    requires e.index == |entries| && EntryHeld(base', e, outputs[|entries|])
    requires e.state.Staged? ==> EntryAt(d, outputs[|entries|].path).None?
    ensures PreparedOn(d0, base', d', entries + [e], outputs)
  {
    OnlyDirectoriesKeep(d0, base);
    OnlyDirectoriesKeep(base, base');
    DirectoriesTwice(d0, base, base');
    HeldAllKept(base, base', entries, outputs);
    OneMoreHeld(base', entries, outputs, e);
    assert Keeps(base, d);
    KeepsTwice(d0, base, d);
    EntryKept(d0, d, outputs[|entries|].path);
    hide *;
  }

  ghost predicate FirstInvalid(outputs: seq<OutputSpec>, k: nat) {
    && k < |outputs| && !ValidRelative(outputs[k].path)
    && forall i :: 0 <= i < k ==> ValidRelative(outputs[i].path)
  }

  /** Some output that is to be staged comes before the first one with an invalid path. */
  ghost predicate LeavesStaging(d: Disk, outputs: seq<OutputSpec>) {
    exists j, k :: 0 <= j < k && FirstInvalid(outputs, k) && EntryAt(d, outputs[j].path).None?
  }

  /** What a failure leaves, provided that nothing failed that was to undo it: new directories only, except behind
      an invalid path, and where the `fstat` of a new file failed. */
  ghost predicate FailureLeaves(
      d0: Disk, d: Disk, outputs: seq<OutputSpec>, error: Error, leaked: bool, undone: bool)
  {
    && Keeps(d0, d)
    && (if error.InvalidPath? then
          Rooted(d0) ==> if LeavesStaging(d0, outputs) then HasNewFile(d0, d) else OnlyDirectoriesAdded(d0, d)
        else
          undone ==> if leaked then HasNewFile(d0, d) else OnlyDirectoriesAdded(d0, d))
  }

  /** What is on the disk when an invalid path ends the preparation, which cleans nothing up. */
  lemma Abandoned(d0: Disk, base: Disk, d: Disk, entries: seq<Prepared>, outputs: seq<OutputSpec>, planned: set<string>)
    requires PreparedOn(d0, base, d, entries, outputs) && FirstInvalid(outputs, |entries|)
    requires forall e :: e in entries ==> e.WellMade(planned) && !e.state.Created?
    ensures FailureLeaves(d0, d, outputs, InvalidPath, false, true)
  {
    PreparedMeans(d0, base, d, entries, outputs);
    if !Rooted(d0) {
    } else if exists k :: 0 <= k < |entries| && entries[k].state.Staged? {
      var k :| 0 <= k < |entries| && entries[k].state.Staged?;
      StagedIsNew(base, d, entries, k);
      assert EntryAt(d0, outputs[k].path).None?;
      StillNewFile(d0, base, d);
    } else {
      OverlayEmpty(base, d, entries);
      OnlyDirectoriesAddedTwice(d0, base, d);
      forall j | 0 <= j < |entries| ensures EntryAt(d0, outputs[j].path).Some? {
        ExistingBefore(d0, base, entries[j], outputs[j]);
      }
    }
  }

  lemma StagedIsNew(base: Disk, d: Disk, entries: seq<Prepared>, k: nat)
    requires Overlay(base, d, entries) && Standing(d, entries) && k < |entries| && entries[k].state.Staged?
    ensures HasNewFile(base, d)
  {
    var e := entries[k];
    assert e in entries && Bound(d, e);
    assert e.Place() !in base.names && NodeAt(d, e.Place()) == Some(File(e.contents));
  }

  lemma ExistingBefore(d0: Disk, base: Disk, e: Prepared, output: OutputSpec)
    requires WellFormed(d0) && OnlyDirectoriesAdded(d0, base) && NewNamesFresh(d0, base) && Rooted(d0)
    requires EntryHeld(base, e, output) && e.state.Existing?
    ensures EntryAt(d0, output.path).Some?
  {
    OnlyDirectoriesKeep(d0, base);
    KeepsDirectories(d0, base);
    EntriesBeforeDirectories(d0, base, e.path);
  }

  /** The disk once cleanup has removed every staging file. */
  lemma CleanedUp(base0: Disk, base: Disk, d: Disk, entries: seq<Prepared>, leaked: bool)
    requires Overlay(base, d, entries) && forall e :: e in entries ==> !Bound(d, e)
    requires if leaked then HasNewFile(base0, base) else OnlyDirectoriesAdded(base0, base)
    ensures if leaked then HasNewFile(base0, d) else OnlyDirectoriesAdded(base0, d)
  {
    OverlayEmpty(base, d, entries);
    if leaked {
      var s :| s in base.names && s !in base0.names && NodeAt(base, s).Some? && NodeAt(base, s).value.File?;
      assert NodeAt(d, s) == NodeAt(base, s);
    } else {
      OnlyDirectoriesAddedTwice(base0, base, d);
    }
  }

  /** A longer list of outputs in which one path is repeated. */
  lemma NotDistinct(outputs: seq<OutputSpec>, j: nat, k: nat)
    requires j < k < |outputs| && outputs[j].path == outputs[k].path
    ensures !DistinctBy(outputs, OutputPath)
  {
    assert OutputPath(outputs[j]) == OutputPath(outputs[k]);
  }

  lemma OverlayKeeps(base: Disk, d: Disk, entries: seq<Prepared>)
    requires Overlay(base, d, entries)
    ensures Keeps(base, d)
  {
  }

  lemma PreparedMeans(d0: Disk, base: Disk, d: Disk, entries: seq<Prepared>, outputs: seq<OutputSpec>)
    requires PreparedOn(d0, base, d, entries, outputs)
    ensures Overlay(base, d, entries) && Standing(d, entries) && base.root == d0.root
    ensures OnlyDirectoriesAdded(d0, base) && Keeps(d0, base) && Keeps(d0, d)
  {
    OnlyDirectoriesKeep(d0, base);
    KeepsTwice(d0, base, d);
  }

  /** The lower disk when one more output could not be prepared. */
  lemma PreparedLower(d0: Disk, base: Disk, d: Disk, entries: seq<Prepared>, outputs: seq<OutputSpec>,
                      base': Disk, leaked: bool, undone: bool)
    requires PreparedOn(d0, base, d, entries, outputs) && Keeps(base, base')
    requires leaked ==> HasNewFile(base, base')
    requires !leaked && undone ==> OnlyDirectoriesAdded(base, base')
    ensures Keeps(d0, base')
    ensures undone ==> if leaked then HasNewFile(d0, base') else OnlyDirectoriesAdded(d0, base')
  {
    OnlyDirectoriesKeep(d0, base);
    KeepsTwice(d0, base, base');
    if leaked {
      StillNewFile(d0, base, base');
    } else if undone {
      OnlyDirectoriesAddedTwice(d0, base, base');
    }
  }

  lemma PathsDistinct(outputs: seq<OutputSpec>)
    requires forall i, j :: 0 <= i < j < |outputs| ==> outputs[i].path != outputs[j].path
    ensures DistinctBy(outputs, OutputPath)
  {
  }

  lemma HeldAfterInstall(base: Disk, entries: seq<Prepared>, entries': seq<Prepared>, outputs: seq<OutputSpec>, k: nat)
    requires HeldAll(base, entries, outputs) && k < |entries| && entries[k].state.Staged?
    requires entries' == entries[k := entries[k].(state := Created)]
    ensures HeldAll(base, entries', outputs)
  {
    assert EntryHeld(base, entries'[k], outputs[k]);
  }

  lemma RootBelow(base: Disk, d: Disk, entries: seq<Prepared>)
    requires Overlay(base, d, entries)
    ensures d.root == base.root && WellFormed(base)
  {
  }

  lemma NothingNew(d: Disk, outputs: seq<OutputSpec>)
    ensures forall error: Error :: !error.InvalidPath? ==> FailureLeaves(d, d, outputs, error, false, true)
  {
    KeepsItself(d);
    assert OnlyDirectoriesAdded(d, d);
  }

  lemma PreparedHeld(d0: Disk, base: Disk, d: Disk, entries: seq<Prepared>, outputs: seq<OutputSpec>)
    requires PreparedOn(d0, base, d, entries, outputs)
    ensures HeldAll(base, entries, outputs)
    ensures WellFormed(d0) && OnlyDirectoriesAdded(d0, base) && NewNamesFresh(d0, base)
  {
  }
}
