/** Create-only publication of delivery evidence: no file that exists is ever changed, every output either is
    there already with the same bytes or is staged and installed, and a failure takes everything back
    (crates/minco-cli/src/delivery_evidence.rs, module `secure`). */
module DeliveryPublication {
  import opened Disks
  import opened DiskPaths
  import opened Options
  import opened FileSystems
  import opened DirectoryWalks
  import opened StagingFiles
  import opened TreeShapes
  import opened Paths
  import opened Sorting
  import opened DeliveryOverlays
  import opened DeliveryOutputs
  import opened DeliveryReadiness
  import opened OpenPaths

  class Publisher {
    const fs: FileSystem
    const planned: set<string>     // the file names of the outputs
    var prepared: seq<Prepared>

    constructor (fs: FileSystem, planned: set<string>)
      ensures this.fs == fs && this.planned == planned && prepared == []
    {
      this.fs, this.planned, prepared := fs, planned, [];
    }

    ghost predicate Valid()
      reads this, fs
    {
      && fs.Valid()
      && !fs.licence.replacing && fs.licence.doomed == {}
      && forall e :: e in prepared ==> Licensed(e)
    }

    ghost predicate Licensed(e: Prepared)
      reads this, fs
    {
      && e.WellMade(planned)
      && (!e.state.Existing? ==>
            && e.stagedIdentity.value in fs.licence.own
            && (e.Staging(), e.Target()) in fs.licence.pairs)
    }

    /** Without other processes the disk is `base` with the files of the prepared entries. */
    ghost predicate Over(base: Disk)
      reads this, fs
    {
      !fs.shared ==> Overlay(base, fs.disk, prepared)
    }

    ghost predicate Stands()
      reads this, fs
    {
      !fs.shared ==> Standing(fs.disk, prepared)
    }

    // ---------- Reading ----------

    /** `read_regular`. */
    method ReadRegular(slot: Slot) returns (result: Reading)
      requires fs.Valid()
      modifies fs`disk, fs`next, fs`log, fs`faults
      ensures fs.Valid() && fs.Advances()
      ensures !fs.shared ==> fs.disk == old(fs.disk)
      ensures !fs.shared ==> match result
        case Absent => slot !in fs.disk.names
        case Present(contents, id) =>
          IdentityAt(fs.disk, slot) == Some(id) && NodeAt(fs.disk, slot) == Some(File(contents))
        case Unreadable =>
          fs.faults == old(fs.faults) ==> NodeAt(fs.disk, slot).Some? && !NodeAt(fs.disk, slot).value.File?
    {
      var stat := fs.Stat(slot);
      match stat
      case StatFailed => return Unreadable;
      case Missing => return Absent;
      case Found(id, node) =>
        if !node.File? {
          return Unreadable;
        }
        var handle := fs.OpenFile(slot);
        if handle.None? || handle.value != id {
          return Unreadable;
        }
        var data := fs.Read(handle.value);
        if data.None? {
          return Unreadable;
        }
        return Present(data.value, handle.value);
    }

    /** `verify_identity`. */
    method VerifyIdentity(slot: Slot, expected: Option<Inode>) returns (ok: bool)
      requires fs.Valid()
      modifies fs`disk, fs`next, fs`log, fs`faults
      ensures fs.Valid() && fs.Advances()
      ensures !fs.shared ==> fs.disk == old(fs.disk)
      ensures !fs.shared && fs.faults == old(fs.faults) ==> (ok <==> IdentityAt(fs.disk, slot) == expected)
    {
      var current := fs.Identity(slot);
      ok := current == expected;
    }

    /** One input of `verify_inputs`. */
    method VerifyInput(root: Inode, input: ExactInput) returns (ok: bool)
      requires fs.Valid() && (!fs.shared ==> fs.disk.root == root)
      modifies fs`disk, fs`next, fs`log, fs`faults
      ensures fs.Valid() && old(fs.faults) <= fs.faults
      ensures !fs.shared ==> fs.disk == old(fs.disk)
      ensures !fs.shared && ok ==> ValidRelative(input.path) && FileAt(fs.disk, input.path) == Some(input.bytes)
      ensures !fs.shared && !ok && fs.faults == old(fs.faults) ==>
        !ValidRelative(input.path) || FileAt(fs.disk, input.path) != Some(input.bytes)
    {
      hide RunsBetween, Disciplined, CreatedIn, KindsKept, FileSystem.Valid;
      if !ValidRelative(input.path) {
        return false;
      }
      var parent := OpenParent(fs, root, Parent(input.path));
      if parent.None? {
        return false;
      }
      var slot := Slot(parent.value, FileName(input.path));
      var reading := ReadRegular(slot);
      if !reading.Present? {
        return false;
      }
      var same := VerifyIdentity(slot, Some(reading.identity));
      return same && reading.contents == input.bytes;
    }

    /** `verify_inputs`. */
    method VerifyInputs(root: Inode, inputs: seq<ExactInput>) returns (ok: bool)
      requires fs.Valid() && (!fs.shared ==> fs.disk.root == root)
      modifies fs`disk, fs`next, fs`log, fs`faults
      ensures fs.Valid() && old(fs.faults) <= fs.faults
      ensures !fs.shared ==> fs.disk == old(fs.disk) && (ok ==> InputsHold(fs.disk, inputs))
      ensures !fs.shared && !ok && fs.faults == old(fs.faults) ==> !InputsHold(fs.disk, inputs)
    {
      hide FileSystem.Valid, FileAt, ValidRelative;
      var k := 0;
      while k < |inputs|
        invariant 0 <= k <= |inputs|
        invariant fs.Valid() && old(fs.faults) <= fs.faults
        invariant !fs.shared ==> fs.disk == old(fs.disk) && InputsHold(fs.disk, inputs[..k])
      {
        TakeOneMore(inputs, k);
        ok := VerifyInput(root, inputs[k]);
        if !ok {
          assert inputs[k] in inputs;
          return;
        }
        k := k + 1;
      }
      TakeAll(inputs);
      ok := true;
    }

    // ---------- Preparing ----------

    /** A staging name from a v4 UUID: never the name of an output. That some file has it already counts as a fault. */
    method NewStagingName() returns (name: string)
      requires fs.Valid()
      modifies fs`faults
      ensures fs.Valid() && old(fs.faults) <= fs.faults && name !in planned
      ensures fs.faults == old(fs.faults) ==> forall s :: s in fs.disk.names ==> s.name != name
    {
      var uuid: string := *;
      name := ".minco-delivery-" + uuid + ".staging";
      if name in planned {
        uuid := NameLongerThanAll(planned);
        name := ".minco-delivery-" + uuid + ".staging";
      }
      if exists s :: s in fs.disk.names && s.name == name {
        fs.CountFault();
      }
    }

    /** In a quiet run, a staging file is left behind only if its `fstat` failed, and an undoing call fails only for
        reasons of its own. */
    ghost predicate OnlyIfFailed(faults: nat, statFaults: nat, leaked: bool, undone: bool)
      reads fs
    {
      && statFaults <= fs.statFaults
      && (!fs.shared ==> (leaked ==> fs.statFaults > statFaults) && (leaked || !undone ==> fs.faults > faults))
    }

    lemma EntriesAreWellMade()
      requires Valid()
      ensures forall e :: e in prepared ==> e.WellMade(planned)
    {
      assert forall e :: e in prepared ==> Licensed(e);
    }

    /** `prepare`: opens the parent, and either finds the output there already or stages it. */
    method Prepare(root: Inode, index: nat, output: OutputSpec, ghost base: Disk)
      returns (result: Result<Prepared>, ghost base': Disk, ghost leaked: bool, ghost undone: bool)
      requires Valid() && ValidRelative(output.path) && FileName(output.path) in planned
      requires Over(base) && Stands() && (!fs.shared ==> root == base.root)
      requires forall e :: e in prepared ==> !e.state.Created?
      modifies fs`disk, fs`next, fs`log, fs`faults, fs`statFaults, fs`licence
      ensures Valid() && old(fs.faults) <= fs.faults
      ensures OnlyIfFailed(old(fs.faults), old(fs.statFaults), leaked, undone)
      ensures result.Ok? ==> Licensed(result.value) && !result.value.state.Created? && result.value.index == index
      ensures result.Err? ==> result.unrestored == []
      ensures result.Err? ==> result.error in {SystemCallFailed, ParentUnavailable, Conflict}
      ensures !fs.shared ==> Keeps(base, base')
      ensures !fs.shared && !leaked && undone ==> OnlyDirectoriesAdded(base, base') && NewNamesFresh(base, base')
      ensures result.Ok? ==> !leaked && undone
      ensures !fs.shared && leaked ==> HasNewFile(base, base')
      ensures !fs.shared ==>
        var entries := if result.Ok? then prepared + [result.value] else prepared;
        Overlay(base', fs.disk, entries) && Standing(fs.disk, entries)
      ensures !fs.shared && result.Ok? ==> EntryHeld(base', result.value, output)
      ensures !fs.shared && result.Ok? && result.value.state.Staged? ==> EntryAt(old(fs.disk), output.path).None?
      ensures (!fs.shared && fs.faults == old(fs.faults) &&
               FileAt(old(fs.disk), output.path) == Some(output.contents)) ==>
        result.Ok? && result.value.state.Existing? && fs.disk == old(fs.disk)
      ensures !fs.shared && !leaked && undone ==> OnTheWay(base, base', Parent(output.path))
      ensures !fs.shared && !undone ==> fs.faults >= old(fs.faults) + 2
      // nothing but an obstacle or a failing call stands in the way
      ensures (!fs.shared && fs.faults == old(fs.faults) && Rooted(old(fs.disk)) && Accepts(base', output) &&
               !Blocked(old(fs.disk), root, Parent(output.path))) ==>
        result.Ok?
    {
      hide FileSystem.Valid, Overlay, Standing, HasNewFile, Keeps, OnlyDirectoriesAdded, NewNamesFresh, HasEffect,
        KindsKept, FileAt, Descend, EntryAt, OnTheWay, Accepts, Rooted, Blocked;
      KeepsItself(base);
      base', leaked, undone := base, false, true;
      ghost var before := fs.disk;
      if !fs.shared {
        WhereFileStands(base, before, prepared, output.path);
      }
      var parent := OpenOrCreateParent(fs, root, output.path);
      ghost var widened := fs.disk;
      if !fs.shared {
        ValidIsWellFormed(fs);
        base' := Grown(base, before, widened);
        WidenedRoot(before, widened);
        GrowsUnder(base, before, widened);
        OverlayGrows(base, before, widened, prepared);
        GrownNames(base, before, widened, prepared);
        OnTheWayBelow(base, base', before, widened, prepared, Parent(output.path));
      }
      if parent.None? {
        return Err(ParentUnavailable, []), base', leaked, undone;
      }
      var target := Slot(parent.value, FileName(output.path));
      var reading := ReadRegular(target);
      if !fs.shared && Accepts(base', output) {
        EntriesAreWellMade();
        AcceptedAbove(base', fs.disk, prepared, planned, root, output, parent.value);
      }
      match reading {
        case Unreadable =>
          return Err(SystemCallFailed, []), base', leaked, undone;
        case Present(contents, id) =>
          if contents != output.contents {
            return Err(Conflict, []), base', leaked, undone;
          }
          var e := Prepared(index, output.path, parent.value, output.contents, Some(id), None, None, Existing);
          if !fs.shared {
            ExistingHeld(base', fs.disk, root, prepared, planned, e, output);
          }
          return Ok(e), base', leaked, undone;
        case Absent =>
          var staging := NewStagingName();
          ghost var under := base';
          if !fs.shared {
            NoEntryBefore(before, widened, root, output.path);
          }
          result, base', leaked, undone := StageNew(root, index, parent.value, staging, output, under);
          if !fs.shared {
            KeepsTwice(base, under, base');
            if leaked {
              StillNewFile(base, under, base');
            }
          }
      }
    }

    /** The case of `prepare` where the output does not exist yet. */
    method StageNew(root: Inode, index: nat, parent: Inode, staging: string, output: OutputSpec, ghost base: Disk)
      returns (result: Result<Prepared>, ghost base': Disk, ghost leaked: bool, ghost undone: bool)
      requires Valid() && output.path != [] && FileName(output.path) in planned && staging !in planned
      requires Over(base) && Stands()
      requires !fs.shared ==> root == base.root && Descend(fs.disk, root, Parent(output.path)) == Some(parent)
      modifies fs`disk, fs`next, fs`log, fs`faults, fs`statFaults, fs`licence
      ensures Valid() && old(fs.faults) <= fs.faults
      ensures OnlyIfFailed(old(fs.faults), old(fs.statFaults), leaked, undone)
      ensures result.Ok? ==> Licensed(result.value) && result.value.state.Staged? && result.value.index == index
      ensures result.Ok? ==> !leaked && undone
      ensures result.Err? ==> result == Err(SystemCallFailed, [])
      ensures !fs.shared ==> Keeps(base, base')
      ensures !fs.shared && !leaked && undone ==> base' == base
      ensures !fs.shared && leaked ==> HasNewFile(base, base')
      ensures !fs.shared ==>
        var entries := if result.Ok? then prepared + [result.value] else prepared;
        Overlay(base', fs.disk, entries) && Standing(fs.disk, entries)
      ensures !fs.shared && result.Ok? ==> EntryHeld(base', result.value, output)
      ensures !fs.shared && fs.faults == old(fs.faults) && Slot(parent, staging) !in old(fs.disk.names) ==> result.Ok?
      ensures !fs.shared && !undone ==> fs.faults >= old(fs.faults) + 2
    {
      hide FileSystem.Valid, Overlay, Standing, HasNewFile, Keeps, HasEffect, KindsKept;
      ghost var before := fs.disk;
      var slot := Slot(parent, staging);
      var id;
      ghost var effect;
      id, effect, undone := WriteNewFile(fs, slot, output.contents);
      leaked := effect.Left? && undone;
      var e := Prepared(index, output.path, parent, output.contents, None, Some(staging), Some(id.GetOr(0)), Staged);
      base' := LowerDisk(base, slot, effect);
      if !fs.shared {
        OverlayEffect(base, before, fs.disk, prepared, e, effect);
      }
      if id.None? {
        return Err(SystemCallFailed, []), base', leaked, undone;
      }
      fs.LicensePair(e.Staging(), e.Target());
      if !fs.shared {
        DescendBelow(base, before, prepared, root, Parent(output.path));
      }
      return Ok(e), base', leaked, undone;
    }

    // ---------- Taking back ----------

    /** One entry of `cleanup`. */
    method CleanUpEntry(k: nat, ghost base: Disk)
      requires Valid() && Over(base) && k < |prepared|
      modifies fs`disk, fs`next, fs`log, fs`faults
      ensures Valid() && old(fs.faults) <= fs.faults && Over(base)
      ensures !fs.shared && fs.faults == old(fs.faults) && prepared[k].state.Staged? ==> !Bound(fs.disk, prepared[k])
      ensures !fs.shared ==> forall e :: e in prepared && Bound(fs.disk, e) ==> Bound(old(fs.disk), e)
      ensures !fs.shared && prepared[k].state.Created? ==> fs.disk == old(fs.disk)
      ensures !fs.shared && prepared[k].state.Existing? ==> fs.disk == old(fs.disk)
    {
      hide RunsBetween, Disciplined, CreatedIn, KindsKept, Overlay;
      var e := prepared[k];
      assert Licensed(e);
      if e.stagingName.None? || e.stagedIdentity.None? {
        return;
      }
      ghost var before := fs.disk;
      if !fs.shared {
        if e.state.Created? {
          StagingIsFree(base, before, prepared, k, planned);
        } else if Bound(before, e) {
          OverlayRemoved(base, before, prepared, k, planned);
          assert prepared[k := e.(state := Staged)] == prepared;
        }
      }
      var removal := fs.UnlinkIfSame(e.Staging(), e.stagedIdentity.value);
      if !removal.NotSame? {
        var synced := fs.SyncDirectory();
      }
    }

    /** `cleanup`: removes the staging files that are still the run's own. */
    method CleanUp(ghost base: Disk)
      requires Valid() && Over(base)
      modifies fs`disk, fs`next, fs`log, fs`faults
      ensures Valid() && old(fs.faults) <= fs.faults && Over(base)
      ensures !fs.shared && fs.faults == old(fs.faults) ==>
        forall e :: e in prepared && e.state.Staged? ==> !Bound(fs.disk, e)
      ensures !fs.shared && AllInstalled(prepared) ==> fs.disk == old(fs.disk)
    {
      hide FileSystem.Valid, Overlay, Bound, KindsKept;
      var k := 0;
      while k < |prepared|
        invariant 0 <= k <= |prepared|
        invariant Valid() && old(fs.faults) <= fs.faults && Over(base)
        invariant !fs.shared && fs.faults == old(fs.faults) ==>
          forall e :: e in prepared[..k] && e.state.Staged? ==> !Bound(fs.disk, e)
        invariant !fs.shared && AllInstalled(prepared) ==> fs.disk == old(fs.disk)
      {
        TakeOneMore(prepared, k);
        assert prepared[k] in prepared;
        CleanUpEntry(k, base);
        k := k + 1;
      }
      TakeAll(prepared);
    }

    /** One entry of `rollback`. */
    method RollBackEntry(k: nat, ghost base: Disk) returns (restored: bool)
      requires Valid() && Over(base) && k < |prepared|
      modifies `prepared, fs`disk, fs`next, fs`log, fs`faults
      ensures Valid() && old(fs.faults) <= fs.faults && Over(base)
      ensures prepared == RolledBack(old(prepared), k, restored)
      ensures !old(prepared)[k].state.Created? ==> restored
      ensures prepared[k].path != []
      ensures !fs.shared ==> fs.disk == if restored && old(prepared)[k].state.Created?
        then old(fs.disk).(names := old(fs.disk).names - {prepared[k].Target()}) else old(fs.disk)
      ensures !fs.shared && fs.faults == old(fs.faults) && Bound(old(fs.disk), old(prepared)[k]) ==> restored
      ensures !fs.shared ==> forall j :: 0 <= j < |prepared| && j != k && Bound(old(fs.disk), prepared[j]) ==>
        Bound(fs.disk, prepared[j])
    {
      hide RunsBetween, Disciplined, CreatedIn, KindsKept, Overlay;
      var e := prepared[k];
      assert Licensed(e);
      assert prepared == prepared[k := e];
      if !e.state.Created? {
        return !e.state.Created?;
      }
      ghost var before, entries := fs.disk, prepared;
      if !fs.shared && Bound(before, e) {
        OverlayRemoved(base, before, prepared, k, planned);
      }
      var removal := fs.UnlinkIfSame(e.Target(), e.stagedIdentity.value);
      if !removal.Removed? {
        return false;
      }
      prepared := prepared[k := e.(state := Staged)];
      assert Licensed(prepared[k]) && forall f :: f in prepared ==> f == prepared[k] || f in entries;
      assert forall j :: 0 <= j < |entries| && j != k ==> prepared[j] == entries[j];
      var synced := fs.SyncDirectory();
      return true;
    }

    /** `rollback`: takes the installed outputs back, the last one first, and names exactly those it could not. */
    method RollBack(ghost base: Disk) returns (unrestored: seq<Path>)
      requires Valid() && Over(base) && Stands()
      modifies `prepared, fs`disk, fs`next, fs`log, fs`faults
      ensures Valid() && old(fs.faults) <= fs.faults && Over(base)
      ensures |prepared| == |old(prepared)| && forall j :: 0 <= j < |prepared| ==>
        MayBeTakenBack(old(prepared)[j], prepared[j])
      ensures unrestored == StillCreated(prepared, 0)
      ensures !fs.shared ==> TakenBack(fs.disk, old(prepared), prepared, 0)
      ensures !fs.shared && fs.faults == old(fs.faults) ==>
        unrestored == [] && forall e :: e in prepared ==> !e.state.Created?
    {
      hide FileSystem.Valid, Overlay, KindsKept, Bound, Standing, TakenBack, Publisher.Licensed, StillCreated;
      NothingTakenBack(fs.disk, prepared);
      unrestored := [];
      var k: nat := |prepared|;
      assert prepared[..k] == prepared;
      while 0 < k
        invariant k <= |prepared| == |old(prepared)|
        invariant Valid() && old(fs.faults) <= fs.faults && Over(base)
        invariant unrestored == StillCreated(prepared, k)
        invariant forall j :: 0 <= j < k ==> prepared[j] == old(prepared)[j]
        invariant forall j :: k <= j < |prepared| ==> MayBeTakenBack(old(prepared)[j], prepared[j])
        invariant !fs.shared ==> Standing(fs.disk, prepared[..k]) && TakenBack(fs.disk, old(prepared), prepared, k)
        invariant !fs.shared && fs.faults == old(fs.faults) ==>
          unrestored == [] && forall j :: k <= j < |prepared| ==> !prepared[j].state.Created?
      {
        k := k - 1;
        ghost var entries, before := prepared, fs.disk;
        if !fs.shared {
          LastStands(before, entries, k);
        }
        var restored := RollBackEntry(k, base);
        if !restored {
          unrestored := unrestored + [prepared[k].path];
        }
        StillCreatedAbove(entries, prepared, k + 1);
        OneMoreStillCreated(prepared, k);
        if !fs.shared {
          StillStanding(before, fs.disk, entries, prepared, k);
          TakenBackFurther(before, old(prepared), entries, k, fs.disk, prepared, restored);
        }
      }
    }

    /** `cleanup` behind a failed phase of `publish_inner`. */
    method Abort(error: Error, ghost base: Disk) returns (result: Result<seq<bool>>, ghost undone: bool)
      requires Valid() && Over(base) && Stands()
      modifies `prepared, fs`disk, fs`next, fs`log, fs`faults
      ensures Valid() && old(fs.faults) <= fs.faults && Over(base)
      ensures result.Err? && result.error == error
      ensures undone <==> fs.faults == old(fs.faults)
      ensures !fs.shared && undone ==>
        result.unrestored == [] && OnlyDirectoriesAdded(base, fs.disk) && fs.disk.names == base.names
    {
      hide FileSystem.Valid, KindsKept;
      ghost var faults := fs.faults;
      var unrestored := RollBack(base);
      CleanUp(base);
      undone := fs.faults == faults;
      if !fs.shared && undone {
        OverlayEmpty(base, fs.disk, prepared);
      }
      result := Err(error, unrestored);
    }

    /** The failing ends of `publish_inner` behind the preparation. */
    method AbortInstall(error: Error, ghost d0: Disk, ghost base: Disk, ghost outputs: seq<OutputSpec>)
      returns (result: Result<seq<bool>>, ghost undone: bool)
      requires Valid() && Over(base) && Stands() && !error.InvalidPath?
      requires !fs.shared ==> OnlyDirectoriesAdded(d0, base)
      modifies `prepared, fs`disk, fs`next, fs`log, fs`faults
      ensures Valid() && old(fs.faults) <= fs.faults
      ensures result.Err? && result.error == error
      ensures fs.faults == old(fs.faults) ==> undone
      ensures !fs.shared ==>
        FailureLeaves(d0, fs.disk, outputs, error, false, undone) && (undone ==> result.unrestored == [])
    {
      hide FileSystem.Valid, KindsKept, OnlyDirectoriesAdded, Keeps;
      result, undone := Abort(error, base);
      if !fs.shared {
        OnlyDirectoriesKeep(d0, base);
        OverlayKeeps(base, fs.disk, prepared);
        KeepsTwice(d0, base, fs.disk);
        if undone {
          OnlyDirectoriesAddedTwice(d0, base, fs.disk);
        }
      }
    }

    // ---------- Installing ----------

    /** An output that was there already is still the same file, with the bytes to be delivered. */
    ghost predicate StandsAsPrepared(d: Disk, root: Inode, e: Prepared) {
      && e.path != [] && Descend(d, root, Parent(e.path)) == Some(e.parent)
      && IdentityAt(d, e.Target()) == e.expectedIdentity && NodeAt(d, e.Target()) == Some(File(e.contents))
    }

    /** `install_one`. */
    method InstallOne(k: nat, root: Inode, ghost base: Disk, ghost outputs: seq<OutputSpec>)
      returns (error: Option<Error>)
      requires Valid() && Over(base) && Stands() && k < |prepared| && !prepared[k].state.Created?
      requires !fs.shared ==> root == base.root && HeldAll(base, prepared, outputs)
      modifies `prepared, fs`disk, fs`next, fs`log, fs`faults, fs`moves
      ensures Valid() && old(fs.faults) <= fs.faults && Over(base) && Stands()
      ensures prepared == old(prepared) || prepared == old(prepared)[k := old(prepared)[k].(state := Created)]
      ensures old(prepared)[k].state.Existing? ==> prepared == old(prepared)
      ensures error.None? ==> !prepared[k].state.Staged?
      ensures !fs.shared && old(prepared)[k].state.Existing? ==> fs.disk == old(fs.disk)
      ensures !fs.shared && old(prepared)[k].state.Existing? && error.None? ==>
        StandsAsPrepared(fs.disk, root, prepared[k])
      ensures error.Some? ==>
        error.value in {ChangedIdentity, ChangedAfterPlanning, AppearedAfterPlanning, SystemCallFailed}
      ensures !fs.shared && fs.faults == old(fs.faults) && old(prepared)[k].state.Existing? ==> error.None?
      ensures !fs.shared && fs.faults == old(fs.faults) && Clear(base, old(prepared)) ==> error.None?
    {
      hide RunsBetween, Disciplined, CreatedIn, KindsKept, Overlay, Standing, Descend, Clear;
      var e := prepared[k];
      assert Licensed(e);
      ghost var before := fs.disk;
      if !fs.shared {
        StillHeld(base, before, prepared, outputs, k);
      }
      var reopened := fs.OpenRoot();
      if reopened.None? || reopened.value != root {
        return Some(ChangedIdentity);
      }
      var parent := OpenParent(fs, root, Parent(e.path));
      if parent.None? || parent.value != e.parent {
        return Some(ChangedIdentity);
      }
      match e.state
      case Existing =>
        var reading := ReadRegular(e.Target());
        if !reading.Present? || Some(reading.identity) != e.expectedIdentity || reading.contents != e.contents {
          return Some(ChangedAfterPlanning);
        }
        return None;
      case Staged =>
        error := InstallStaged(k, base);
        return;
      case Created =>
        assert false;
    }

    /** The case of `install_one` that renames a staging file. */
    method InstallStaged(k: nat, ghost base: Disk) returns (error: Option<Error>)
      requires Valid() && Over(base) && Stands() && k < |prepared| && prepared[k].state.Staged?
      modifies `prepared, fs`disk, fs`next, fs`log, fs`faults, fs`moves
      ensures Valid() && old(fs.faults) <= fs.faults && Over(base) && Stands()
      ensures prepared == old(prepared) || prepared == old(prepared)[k := old(prepared)[k].(state := Created)]
      ensures error.None? ==> prepared[k].state.Created?
      ensures error.Some? ==> error.value in {ChangedIdentity, AppearedAfterPlanning, SystemCallFailed}
      ensures !fs.shared && fs.faults == old(fs.faults) && Clear(base, old(prepared)) ==> error.None?
    {
      hide RunsBetween, Disciplined, CreatedIn, KindsKept, Overlay, Standing, Clear;
      var e := prepared[k];
      assert Licensed(e);
      if !fs.shared {
        EntriesAreWellMade();
        ReadyToMove(base, fs.disk, prepared, planned, k);
      }
      var stat := fs.Stat(e.Target());
      if stat.Found? {
        return Some(AppearedAfterPlanning);
      }
      var same := VerifyIdentity(e.Staging(), e.stagedIdentity);
      if !same {
        return Some(ChangedIdentity);
      }
      ghost var before, entries := fs.disk, prepared;
      var renamed := fs.Move(Op.RenameNoReplace(e.Staging(), e.Target()));
      if !renamed {
        return Some(SystemCallFailed);
      }
      if !fs.shared {
        OverlayInstalled(base, before, prepared, k);
      }
      prepared := prepared[k := e.(state := Created)];
      assert Licensed(prepared[k]) && forall f :: f in prepared ==> f == prepared[k] || f in entries;
      same := VerifyIdentity(e.Target(), e.stagedIdentity);
      if !same {
        return Some(ChangedIdentity);
      }
      var synced := fs.SyncDirectory();
      return if synced then None else Some(SystemCallFailed);
    }

    // ---------- Publishing ----------

    method Add(e: Prepared)
      requires Valid() && Licensed(e)
      modifies `prepared
      ensures Valid() && prepared == old(prepared) + [e]
    {
      prepared := prepared + [e];
    }

    /** The first `k` outputs are prepared. */
    ghost predicate Preparing(d0: Disk, base: Disk, outputs: seq<OutputSpec>, k: nat)
      reads this, fs
    {
      && k == |prepared| <= |outputs|
      && (forall j :: 0 <= j < k ==> prepared[j].index == j)
      && (forall e :: e in prepared ==> !e.state.Created?)
      && (forall i :: 0 <= i < k ==> ValidRelative(outputs[i].path))
      && (forall i, j :: 0 <= i < j < k ==> outputs[i].path != outputs[j].path)
      && (!fs.shared ==> PreparedOn(d0, base, fs.disk, prepared, outputs) && MadeFor(d0, base, PathsOf(outputs[..k])))
    }

    /** The first `n` outputs can be delivered, and no call has failed so far. */
    ghost predicate Unhindered(d0: Disk, outputs: seq<OutputSpec>, n: nat, faults: nat)
      requires n <= |outputs|
      reads this, fs
    {
      !fs.shared && fs.faults == faults && NamesPlanned(outputs, planned) && Deliverable(d0, outputs[..n])
    }

    /** Every output was there already, and nothing has changed. */
    ghost predicate NothingToDo(d0: Disk)
      reads this, fs
    {
      fs.disk == d0 && forall e :: e in prepared ==> e.state.Existing?
    }

    /** One round of the first loop of `publish_inner`.  An invalid path ends it at once, without a cleanup. */
    method PrepareNext(root: Inode, outputs: seq<OutputSpec>, k: nat, ghost d0: Disk, ghost base: Disk)
      returns (error: Option<Error>, ghost base': Disk, ghost leaked: bool, ghost undone: bool)
      requires Valid() && Preparing(d0, base, outputs, k) && k < |outputs| && (!fs.shared ==> root == d0.root)
      requires outputs[k].path != [] ==> FileName(outputs[k].path) in planned
      modifies `prepared, fs`disk, fs`next, fs`log, fs`faults, fs`statFaults, fs`licence
      ensures Valid() && old(fs.faults) <= fs.faults
      ensures OnlyIfFailed(old(fs.faults), old(fs.statFaults), leaked, undone)
      ensures error.None? ==> Preparing(d0, base', outputs, k + 1) && !leaked && undone
      ensures error == Some(DuplicatePath) ==> !DistinctBy(outputs, OutputPath)
      ensures error == Some(InvalidPath) ==> exists k :: FirstInvalid(outputs, k)
      ensures !fs.shared && error.Some? ==> FailureLeaves(d0, fs.disk, outputs, error.value, leaked, undone)
      ensures error.Some? ==> error.value in {InvalidPath, DuplicatePath, SystemCallFailed, ParentUnavailable, Conflict}
      ensures !fs.shared && fs.faults == old(fs.faults) && old(NothingToDo(d0)) && AlreadyThere(d0, outputs) ==>
        error.None? && NothingToDo(d0)
      ensures !ValidRelative(outputs[k].path) ==> error == Some(InvalidPath)
      ensures Unhindered(d0, outputs, k + 1, old(fs.faults)) ==> error.None?
      ensures Unhindered(d0, outputs, k + 1, fs.faults) && !undone ==> fs.faults >= old(fs.faults) + 2
    {
      if Deliverable(d0, outputs[..k + 1]) {
        LastOfDeliverable(d0, outputs, k);
      }
      base', leaked, undone := base, false, true;
      assert ValidRelative(outputs[k].path) ==> outputs[k].path != [];
      hide FileSystem.Valid, PreparedOn, Overlay, Standing, KindsKept, FileAt, EntryAt, Keeps, OnlyDirectoriesAdded,
        NewNamesFresh, HasNewFile, EntryHeld, Bound, DistinctBy, Publisher.Valid, Publisher.Licensed, ValidRelative,
        FailureLeaves, HeldAll, LeavesStaging, Deliverable, NamesPlanned, MadeFor;
      var output := outputs[k];
      if !fs.shared {
        PreparedMeans(d0, base, fs.disk, prepared, outputs);
      }
      if !ValidRelative(output.path) {
        assert FirstInvalid(outputs, k);
        if !fs.shared {
          EntriesAreWellMade();
          Abandoned(d0, base, fs.disk, prepared, outputs, planned);
        }
        return Some(InvalidPath), base', leaked, undone;
      }
      if exists j :: 0 <= j < k && outputs[j].path == output.path {
        ghost var j :| 0 <= j < k && outputs[j].path == output.path;
        NotDistinct(outputs, j, k);
        error, undone := GiveUp(DuplicatePath, d0, base, outputs, leaked, true);
        return;
      }
      error, base', leaked, undone := PrepareDistinct(root, outputs, k, d0, base);
    }

    /** The end of that round, with a valid path that is not yet used. */
    method PrepareDistinct(root: Inode, outputs: seq<OutputSpec>, k: nat, ghost d0: Disk, ghost base: Disk)
      returns (error: Option<Error>, ghost base': Disk, ghost leaked: bool, ghost undone: bool)
      requires Valid() && Preparing(d0, base, outputs, k) && k < |outputs| && (!fs.shared ==> root == d0.root)
      requires ValidRelative(outputs[k].path) && FileName(outputs[k].path) in planned
      requires forall j :: 0 <= j < k ==> outputs[j].path != outputs[k].path
      modifies `prepared, fs`disk, fs`next, fs`log, fs`faults, fs`statFaults, fs`licence
      ensures Valid() && old(fs.faults) <= fs.faults
      ensures OnlyIfFailed(old(fs.faults), old(fs.statFaults), leaked, undone)
      ensures error.None? ==> Preparing(d0, base', outputs, k + 1) && !leaked && undone
      ensures !fs.shared && error.Some? ==> FailureLeaves(d0, fs.disk, outputs, error.value, leaked, undone)
      ensures error.Some? ==> error.value in {SystemCallFailed, ParentUnavailable, Conflict}
      ensures !fs.shared && fs.faults == old(fs.faults) && old(NothingToDo(d0)) && AlreadyThere(d0, outputs) ==>
        error.None? && NothingToDo(d0)
      ensures Unhindered(d0, outputs, k + 1, old(fs.faults)) ==> error.None?
      ensures Unhindered(d0, outputs, k + 1, fs.faults) && !undone ==> fs.faults >= old(fs.faults) + 2
    {
      assert ValidRelative(outputs[k].path) ==> outputs[k].path != [];
      hide FileSystem.Valid, PreparedOn, Overlay, Standing, KindsKept, FileAt, EntryAt, Keeps, OnlyDirectoriesAdded,
        NewNamesFresh, HasNewFile, EntryHeld, Bound, DistinctBy, Publisher.Valid, Publisher.Licensed, ValidRelative,
        FailureLeaves, HeldAll, WellFormed, Deliverable, NamesPlanned, MadeFor, OnTheWay, Accepts, Rooted, Blocked;
      if !fs.shared {
        PreparedMeans(d0, base, fs.disk, prepared, outputs);
        EntriesAreWellMade();
        NextFits(d0, base, fs.disk, prepared, outputs, planned, k);
      }
      ghost var before := fs.disk;
      var entry;
      entry, base', leaked, undone := Prepare(root, k, outputs[k], base);
      if !fs.shared && !leaked && undone {
        RootBelow(base', fs.disk, if entry.Ok? then prepared + [entry.value] else prepared);
        NextMadeFor(d0, base, base', before, prepared, outputs, k);
      }
      if entry.Err? {
        if !fs.shared {
          PreparedLower(d0, base, before, prepared, outputs, base', leaked, undone);
        }
        error, undone := GiveUp(entry.error, d0, base', outputs, leaked, undone);
        return;
      }
      if !fs.shared {
        OneMorePrepared(d0, base, before, prepared, outputs, base', fs.disk, entry.value);
      }
      Add(entry.value);
      error := None;
    }

    /** The first loop of `publish_inner`. */
    method PrepareAll(root: Inode, outputs: seq<OutputSpec>)
      returns (error: Option<Error>, ghost base: Disk, ghost leaked: bool, ghost undone: bool)
      requires Valid() && prepared == [] && (!fs.shared ==> root == fs.disk.root)
      requires forall o :: o in outputs && o.path != [] ==> FileName(o.path) in planned
      modifies `prepared, fs`disk, fs`next, fs`log, fs`faults, fs`statFaults, fs`licence
      ensures Valid() && old(fs.faults) <= fs.faults
      ensures OnlyIfFailed(old(fs.faults), old(fs.statFaults), leaked, undone)
      ensures error.None? ==> Preparing(old(fs.disk), base, outputs, |outputs|)
      ensures error == Some(DuplicatePath) ==> !DistinctBy(outputs, OutputPath)
      ensures error == Some(InvalidPath) ==> exists k :: FirstInvalid(outputs, k)
      ensures !fs.shared && error.Some? ==>
        FailureLeaves(old(fs.disk), fs.disk, outputs, error.value, leaked, undone)
      ensures error.Some? ==> error.value in {InvalidPath, DuplicatePath, SystemCallFailed, ParentUnavailable, Conflict}
      ensures !fs.shared && fs.faults == old(fs.faults) && AlreadyThere(old(fs.disk), outputs) ==>
        error.None? && NothingToDo(old(fs.disk))
      ensures Unhindered(old(fs.disk), outputs, |outputs|, old(fs.faults)) ==> error.None?
      ensures Unhindered(old(fs.disk), outputs, |outputs|, fs.faults) && !undone ==> fs.faults >= old(fs.faults) + 2
      ensures forall j: nat :: FirstInvalid(outputs, j) && Unhindered(old(fs.disk), outputs, j, old(fs.faults)) ==>
        error == Some(InvalidPath)
    {
      base, leaked, undone, error := fs.disk, false, true, None;
      ValidIsWellFormed(fs);
      NothingPrepared(fs.disk, outputs);
      hide FileSystem.Valid, PreparedOn, KindsKept, DistinctBy, Publisher.Valid, ValidRelative, FailureLeaves,
        AlreadyThere, Deliverable, NamesPlanned, MadeFor;
      var k := 0;
      while k < |outputs|
        invariant 0 <= k <= |outputs|
        invariant Valid() && old(fs.faults) <= fs.faults && error.None?
        invariant Preparing(old(fs.disk), base, outputs, k)
        invariant old(fs.statFaults) <= fs.statFaults && !leaked && undone
        invariant !fs.shared && fs.faults == old(fs.faults) && AlreadyThere(old(fs.disk), outputs) ==>
          NothingToDo(old(fs.disk))
      {
        assert outputs[k] in outputs;
        error, base, leaked, undone := PrepareNext(root, outputs, k, old(fs.disk), base);
        if error.Some? {
          EndOfPreparation(old(fs.disk), outputs, k, error.value);
          return;
        }
        k := k + 1;
      }
    }

    /** `cleanup` behind a failed preparation; `before` says that nothing has failed so far that was to undo it. */
    method GiveUp(why: Error, ghost d0: Disk, ghost base: Disk, ghost outputs: seq<OutputSpec>, ghost leaked: bool,
                  ghost before: bool)
      returns (error: Option<Error>, ghost undone: bool)
      requires Valid() && Over(base) && !why.InvalidPath? && forall e :: e in prepared ==> !e.state.Created?
      requires !fs.shared ==> Keeps(d0, base)
      requires !fs.shared && before ==> if leaked then HasNewFile(d0, base) else OnlyDirectoriesAdded(d0, base)
      modifies fs`disk, fs`next, fs`log, fs`faults
      ensures Valid() && old(fs.faults) <= fs.faults && error == Some(why)
      ensures before && fs.faults == old(fs.faults) ==> undone
      ensures undone ==> before
      ensures !fs.shared ==> FailureLeaves(d0, fs.disk, outputs, why, leaked, undone)
    {
      hide FileSystem.Valid, KindsKept, HasNewFile, OnlyDirectoriesAdded, Keeps;
      ghost var faults := fs.faults;
      CleanUp(base);
      undone := before && fs.faults == faults;
      error := Some(why);
      if !fs.shared {
        OverlayKeeps(base, fs.disk, prepared);
        KeepsTwice(d0, base, fs.disk);
        if undone {
          CleanedUp(d0, base, fs.disk, prepared, leaked);
        }
      }
    }

    /** The first `k` outputs are installed. */
    ghost predicate Installing(base: Disk, outputs: seq<OutputSpec>, k: nat)
      reads this, fs
    {
      && k <= |prepared| == |outputs|
      && (forall j :: 0 <= j < |prepared| ==> prepared[j].index == j)
      && (forall j :: 0 <= j < k ==> !prepared[j].state.Staged?)
      && (forall j :: k <= j < |prepared| ==> !prepared[j].state.Created?)
      && Over(base) && Stands()
      && (!fs.shared ==> HeldAll(base, prepared, outputs))
    }

    /** The second loop of `publish_inner`, up to the first failure. */
    method InstallAll(root: Inode, inputs: seq<ExactInput>, ghost base: Disk, ghost outputs: seq<OutputSpec>)
      returns (error: Option<Error>)
      requires Valid() && Installing(base, outputs, 0) && (!fs.shared ==> root == base.root)
      modifies `prepared, fs`disk, fs`next, fs`log, fs`faults, fs`moves
      ensures Valid() && old(fs.faults) <= fs.faults && Over(base) && Stands()
      ensures error.None? ==> Installing(base, outputs, |outputs|)
      ensures error.Some? ==> error.value !in {InvalidPath, DuplicatePath, CheckFailed}
      ensures (!fs.shared && fs.faults == old(fs.faults) && old(NothingToDo(fs.disk)) &&
               InputsHold(old(fs.disk), inputs)) ==>
        error.None? && NothingToDo(old(fs.disk))
      ensures !fs.shared && fs.faults == old(fs.faults) && Clear(base, old(prepared)) && InputsHold(base, inputs) ==>
        error.None?
    {
      hide FileSystem.Valid, Prepared.WellMade, KindsKept, Overlay, Standing, HeldAll, InputsHold, Clear;
      error := None;
      var k := 0;
      while k < |prepared|
        invariant 0 <= k <= |prepared| && error.None?
        invariant Valid() && old(fs.faults) <= fs.faults && Installing(base, outputs, k)
        invariant (!fs.shared && fs.faults == old(fs.faults) && old(NothingToDo(fs.disk)) &&
                   InputsHold(old(fs.disk), inputs)) ==>
          NothingToDo(old(fs.disk))
        invariant Clear(base, old(prepared)) ==> Clear(base, prepared)
      {
        ghost var entries := prepared;
        if !fs.shared {
          RootBelow(base, fs.disk, prepared);
          InputsAbove(base, fs.disk, prepared, inputs);
        }
        var held := VerifyInputs(root, inputs);
        if !held {
          return Some(InputChanged);
        }
        error := InstallOne(k, root, base, outputs);
        if error.Some? {
          return;
        }
        if !fs.shared && prepared != entries {
          HeldAfterInstall(base, entries, prepared, outputs, k);
        }
        if Clear(base, entries) {
          StillClear(base, entries, prepared, k);
        }
        k := k + 1;
      }
    }

    /** The flags of the result. */
    method CreatedOf() returns (created: seq<bool>)
      requires forall k :: 0 <= k < |prepared| ==> prepared[k].index == k
      ensures created == CreatedFlags(prepared)
    {
      created := seq(|prepared|, _ => false);
      var k := 0;
      while k < |prepared|
        invariant 0 <= k <= |prepared| == |created|
        invariant forall j :: 0 <= j < k ==> created[j] == prepared[j].state.Created?
      {
        created := created[prepared[k].index := prepared[k].state.Created?];
        k := k + 1;
      }
    }

    /** The rest of `publish_inner`: install, check again, and take everything back if anything is wrong. */
    method Finish(root: Inode, inputs: seq<ExactInput>, outputs: seq<OutputSpec>, check: Disk -> bool,
                  ghost d0: Disk, ghost base: Disk)
      returns (result: Result<seq<bool>>, ghost undone: bool, ghost checked: Disk)
      requires Valid() && Preparing(d0, base, outputs, |outputs|) && (!fs.shared ==> root == d0.root)
      modifies `prepared, fs`disk, fs`next, fs`log, fs`faults, fs`moves
      ensures Valid() && old(fs.faults) <= fs.faults
      ensures fs.faults == old(fs.faults) ==> undone
      ensures result.Ok? ==> |result.value| == |outputs|
      ensures !fs.shared && result.Ok? ==>
        Delivered(d0, fs.disk, outputs, result.value) && InputsHold(fs.disk, inputs) && check(fs.disk)
      ensures result.Err? ==> result.error !in {InvalidPath, DuplicatePath}
      ensures !fs.shared && result.Err? ==>
        FailureLeaves(d0, fs.disk, outputs, result.error, false, undone) && (undone ==> result.unrestored == [])
      ensures !fs.shared && result.Err? && result.error.CheckFailed? ==>
        !check(checked) && exists created :: Delivered(d0, checked, outputs, created)
      ensures (!fs.shared && fs.faults == old(fs.faults) && old(NothingToDo(d0)) && InputsHold(d0, inputs) &&
               check(d0)) ==>
        result.Ok? && fs.disk == d0 && forall i :: 0 <= i < |result.value| ==> !result.value[i]
      ensures !fs.shared && fs.faults == old(fs.faults) && Deliverable(d0, outputs) && InputsHold(d0, inputs) ==>
        result.Ok? || result.error.CheckFailed?
      ensures (!fs.shared && result.Err? && !result.error.CheckFailed? && !undone && Deliverable(d0, outputs) &&
               InputsHold(d0, inputs)) ==>
        fs.faults >= old(fs.faults) + 2
    {
      hide FileSystem.Valid, KindsKept, Overlay, Standing, HeldAll, InputsHold, PreparedOn, Delivered, FailureLeaves,
        DistinctBy, ValidRelative, Deliverable, MadeFor, Clear;
      undone, checked := true, fs.disk;
      if !fs.shared {
        PreparedMeans(d0, base, fs.disk, prepared, outputs);
        PreparedHeld(d0, base, fs.disk, prepared, outputs);
        ReadyToInstall(d0, base, fs.disk, prepared, outputs, inputs);
      }
      PathsDistinct(outputs);
      var error := InstallAll(root, inputs, base, outputs);
      if error.Some? {
        result, undone := AbortInstall(error.value, d0, base, outputs);
        return;
      }
      checked := fs.disk;
      if !fs.shared {
        DeliveredWhenInstalled(d0, base, fs.disk, prepared, outputs);
        RootBelow(base, fs.disk, prepared);
        InputsAbove(base, fs.disk, prepared, inputs);
      }
      if !check(fs.disk) {
        result, undone := AbortInstall(CheckFailed, d0, base, outputs);
        return;
      }
      var held := VerifyInputs(root, inputs);
      if !held {
        result, undone := AbortInstall(InputChanged, d0, base, outputs);
        return;
      }
      var created := CreatedOf();
      CleanUp(base);
      result := Ok(created);
    }

    /** `publish_inner`.  `undone` says that no call failed that was to undo something, `leaked` that the `fstat` of
        a new staging file failed, and `checked` is the disk that a failing check saw. */
    method Publish(inputs: seq<ExactInput>, outputs: seq<OutputSpec>, check: Disk -> bool)
      returns (result: Result<seq<bool>>, ghost leaked: bool, ghost undone: bool, ghost checked: Disk)
      requires fs.Valid() && prepared == []
      requires forall o :: o in outputs && o.path != [] ==> FileName(o.path) in planned
      modifies this, fs
      ensures Valid() && fs.Valid() && old(fs.faults) <= fs.faults && fs.origin == old(fs.disk)
      ensures !fs.shared ==> (leaked ==> fs.statFaults > old(fs.statFaults)) && (fs.faults == old(fs.faults) ==> undone)
      ensures result.Ok? ==> |result.value| == |outputs|
      ensures !fs.shared && result.Ok? ==>
        Delivered(old(fs.disk), fs.disk, outputs, result.value) && InputsHold(fs.disk, inputs) && check(fs.disk)
      // publishing the same once more finds everything as it wants it
      ensures !fs.shared && result.Ok? ==> Repeats(fs.disk, inputs, outputs, check)
      ensures !fs.shared && result.Err? ==>
        FailureLeaves(old(fs.disk), fs.disk, outputs, result.error, leaked, undone)
      ensures !fs.shared && result.Err? && undone ==> result.unrestored == []
      ensures result.Err? && result.error.DuplicatePath? ==> !DistinctBy(outputs, OutputPath)
      ensures result.Err? && result.error.InvalidPath? ==> exists k :: FirstInvalid(outputs, k)
      ensures !fs.shared && result.Err? && result.error.CheckFailed? ==> !check(checked)
      ensures !fs.shared && result.Err? && result.error.CheckFailed? ==>
        checked == old(fs.disk) || exists created :: Delivered(old(fs.disk), checked, outputs, created)
      ensures !fs.shared && fs.faults == old(fs.faults) && Repeats(old(fs.disk), inputs, outputs, check) ==>
        result.Ok? && fs.disk == old(fs.disk) && forall i :: 0 <= i < |result.value| ==> !result.value[i]
      // what can be delivered is delivered, if no call fails and the checks pass, and nothing else ever is
      ensures (!fs.shared && fs.faults == old(fs.faults) && NamesPlanned(outputs, planned) &&
               Deliverable(old(fs.disk), outputs) && InputsHold(old(fs.disk), inputs)) ==>
        result.Ok? || result.error.CheckFailed?
      ensures !fs.shared && result.Ok? && TreeShaped(old(fs.disk)) && Rooted(old(fs.disk)) ==>
        Deliverable(old(fs.disk), outputs)
      // there a failure with one failing call is undone, unless the checks fail on what was delivered
      ensures (!fs.shared && result.Err? && !result.error.CheckFailed? && fs.faults <= old(fs.faults) + 1 &&
               NamesPlanned(outputs, planned) && Deliverable(old(fs.disk), outputs) &&
               InputsHold(old(fs.disk), inputs)) ==>
        undone
      // an invalid path behind outputs that can be delivered
      ensures forall k: nat :: (!fs.shared && fs.faults == old(fs.faults) && NamesPlanned(outputs, planned) &&
               FirstInvalid(outputs, k) && Deliverable(old(fs.disk), outputs[..k]) && check(old(fs.disk))) ==>
        result.Err? && result.error.InvalidPath?
    {
      fs.Begin(false);
      leaked, undone, checked := false, true, fs.disk;
      NothingNew(fs.disk, outputs);
      hide FileSystem.Valid, Publisher.Licensed, KindsKept, InputsHold, PreparedOn, Delivered, FailureLeaves,
        AlreadyThere, DistinctBy, Publisher.Preparing, Deliverable, NamesPlanned, TreeShaped, Rooted;
      TakeAll(outputs);
      var handle := fs.OpenRoot();
      if handle.None? {
        return Err(SystemCallFailed, []), leaked, undone, checked;
      }
      var root := handle.value;
      checked := fs.disk;
      if !check(fs.disk) {
        return Err(CheckFailed, []), leaked, undone, checked;
      }
      ghost var base;
      var error;
      error, base, leaked, undone := PrepareAll(root, outputs);
      if error.Some? {
        return Err(error.value, []), leaked, undone, checked;
      }
      result, undone, checked := Finish(root, inputs, outputs, check, old(fs.disk), base);
      if !fs.shared && result.Ok? {
        DeliveredIsThere(old(fs.disk), fs.disk, inputs, outputs, check, result.value);
        if TreeShaped(old(fs.disk)) && Rooted(old(fs.disk)) {
          DeliveredWasDeliverable(old(fs.disk), fs.disk, outputs, result.value);
        }
      }
      leaked := false;
    }
  }
}
