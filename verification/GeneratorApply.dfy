/** Application of a generator's reviewed edits: new contents go to temporary files, creates are installed by hard
    link and updates by rename, and a failure is undone by content (crates/minco-cli/src/generator_cmd.rs, `apply`). */
module GeneratorApply {
  import opened Disks
  import opened DiskPaths
  import opened DirectoryWalks
  import opened OpenPaths
  import opened FileSystems
  import opened Options
  import opened Paths
  import opened Sorting
  import opened TreeShapes
  import opened GeneratorEdits
  import opened GeneratorReadiness

  class Generator {
    const fs: FileSystem
    const process: string          // the process number, in decimal
    var temporaries: seq<Path>
    var installed: seq<nat>
    ghost var base: Disk           // the disk once the directories are made
    ghost var placed: map<Inode, Slot>
    ghost var jobs: seq<Job>

    constructor (fs: FileSystem, process: string)
      ensures this.fs == fs && temporaries == [] && installed == [] && jobs == [] && placed == map[]
    {
      this.fs, this.process, temporaries, installed := fs, process, [], [];
      base, placed, jobs := fs.disk, map[], [];
    }

    ghost predicate Valid()
      reads this, fs
    {
      && fs.Valid() && fs.licence.replacing
      && |jobs| == |temporaries|
    }

    ghost predicate Runs(edits: seq<PlannedEdit>)
      reads this, fs
    {
      Running(base, fs.disk, placed, jobs) && JobsFor(base, jobs, edits, temporaries)
    }

    // ---------- Reading ----------

    /** The name that a path leads to. */
    method Resolve(path: Path) returns (slot: Option<Slot>)
      requires fs.Valid() && path != []
      modifies fs`disk, fs`next, fs`log, fs`faults
      ensures fs.Valid() && old(fs.faults) <= fs.faults
      ensures !fs.shared ==> fs.disk == old(fs.disk) && (slot.Some? ==> slot == SlotOf(fs.disk, path))
      ensures !fs.shared && fs.faults == old(fs.faults) ==> slot == SlotOf(fs.disk, path)
    {
      hide FileSystem.Valid, KindsKept, Descend;
      var root := fs.OpenRoot();
      if root.None? {
        return None;
      }
      var dir := OpenParent(fs, root.value, Parent(path));
      slot := if dir.None? then None else Some(Slot(dir.value, FileName(path)));
    }

    /** The walk of `reject_symlink_ancestors` and `symlink_metadata` of its end: a missing component reads as a
        missing target, and anything but a directory on the way is an error. */
    method Inspect(path: Path) returns (result: StatResult, slot: Slot)
      requires fs.Valid() && path != []
      modifies fs`disk, fs`next, fs`log, fs`faults
      ensures fs.Valid() && old(fs.faults) <= fs.faults
      ensures !fs.shared ==> fs.disk == old(fs.disk)
      ensures !fs.shared ==> match result
        case Missing => EntryAt(fs.disk, path).None?
        case Found(id, node) =>
          SlotOf(fs.disk, path) == Some(slot) && IdentityAt(fs.disk, slot) == Some(id) &&
          NodeAt(fs.disk, slot) == Some(node)
        case StatFailed =>
          fs.faults == old(fs.faults) ==> Blocked(fs.disk, fs.disk.root, Parent(path))
    {
      hide RunsBetween, Disciplined, CreatedIn, KindsKept;
      slot := Slot(0, "");
      var root := fs.OpenRoot();
      if root.None? {
        return StatFailed, slot;
      }
      var current, dirs := root.value, Parent(path);
      var k := 0;
      while k < |dirs|
        invariant 0 <= k <= |dirs|
        invariant fs.Valid() && old(fs.faults) <= fs.faults
        invariant !fs.shared ==> fs.disk == old(fs.disk)
        invariant !fs.shared ==> Descend(fs.disk, fs.disk.root, dirs) == Descend(fs.disk, current, dirs[k..])
        invariant !fs.shared ==> Blocked(fs.disk, fs.disk.root, dirs) == Blocked(fs.disk, current, dirs[k..])
      {
        var stat := fs.Stat(Slot(current, dirs[k]));
        match stat {
          case Missing => return Missing, slot;
          case StatFailed => return StatFailed, slot;
          case Found(id, node) =>
            if !node.Directory? {
              return StatFailed, slot;
            }
            assert dirs[k..][1..] == dirs[k + 1..];
            current := id;
        }
        k := k + 1;
      }
      slot := Slot(current, FileName(path));
      result := fs.Stat(slot);
    }

    /** `preflight` of one edit. */
    method PreflightEdit(edit: PlannedEdit) returns (ok: bool)
      requires fs.Valid()
      modifies fs`disk, fs`next, fs`log, fs`faults
      ensures fs.Valid() && old(fs.faults) <= fs.faults
      ensures ok ==> ValidRelative(edit.path)
      ensures !fs.shared ==> fs.disk == old(fs.disk) && (ok ==> Preflighted(fs.disk, [edit]))
      ensures !fs.shared && fs.faults == old(fs.faults) && Meets(fs.disk, edit) ==> ok
    {
      hide FileSystem.Valid, KindsKept, Descend, ValidRelative, Blocked;
      if !ValidRelative(edit.path) {
        return false;
      }
      NotEmpty(edit.path);
      var stat, slot := Inspect(edit.path);
      match edit.before
      case None =>
        return stat.Missing?;
      case Some(before) =>
        if !stat.Found? || !stat.node.File? {
          return false;
        }
        var handle := fs.OpenFile(slot);
        if handle.None? {
          return false;
        }
        var data := fs.Read(handle.value);
        return data == Some(before);
    }

    /** `preflight`. */
    method Preflight(edits: seq<PlannedEdit>) returns (ok: bool)
      requires fs.Valid()
      modifies fs`disk, fs`next, fs`log, fs`faults
      ensures fs.Valid() && old(fs.faults) <= fs.faults
      ensures ok ==> forall e :: e in edits ==> ValidRelative(e.path)
      ensures !fs.shared ==> fs.disk == old(fs.disk) && (ok ==> Preflighted(fs.disk, edits))
      ensures !fs.shared && fs.faults == old(fs.faults) && (forall e :: e in edits ==> Meets(fs.disk, e)) ==> ok
    {
      hide FileSystem.Valid, ValidRelative, Meets;
      var k := 0;
      while k < |edits|
        invariant 0 <= k <= |edits|
        invariant fs.Valid() && old(fs.faults) <= fs.faults
        invariant forall e :: e in edits[..k] ==> ValidRelative(e.path)
        invariant !fs.shared ==> fs.disk == old(fs.disk) && Preflighted(fs.disk, edits[..k])
      {
        TakeOneMore(edits, k);
        ok := PreflightEdit(edits[k]);
        if !ok {
          return;
        }
        PreflightedFurther(fs.disk, edits, k);
        k := k + 1;
      }
      TakeAll(edits);
      ok := true;
    }

    // ---------- Preparing ----------

    /** `create_dir_all` for every parent. */
    method MakeParents(edits: seq<PlannedEdit>) returns (ok: bool)
      requires fs.Valid() && forall e :: e in edits ==> e.path != []
      modifies fs`disk, fs`next, fs`log, fs`faults
      ensures fs.Valid() && old(fs.faults) <= fs.faults
      ensures !fs.shared ==> Widened(old(fs.disk), fs.disk)
      ensures !fs.shared && ok ==> forall e :: e in edits ==> SlotOf(fs.disk, e.path).Some?
      ensures !fs.shared ==> MadeFor(old(fs.disk), fs.disk, PathsOf(edits))
      ensures !fs.shared && fs.faults == old(fs.faults) && Applicable(old(fs.disk), edits, process) ==> ok
    {
      NotWidened(fs.disk);
      assert MadeFor(fs.disk, fs.disk, PathsOf(edits));
      hide FileSystem.Valid, KindsKept, Widened, SlotOf, WellFormed, MadeFor, Applicable, OnTheWay, Blocked, Rooted;
      var k := 0;
      while k < |edits|
        invariant 0 <= k <= |edits|
        invariant fs.Valid() && old(fs.faults) <= fs.faults
        invariant !fs.shared ==> Widened(old(fs.disk), fs.disk)
        invariant !fs.shared ==> forall e :: e in edits[..k] ==> SlotOf(fs.disk, e.path).Some?
        invariant !fs.shared ==> MadeFor(old(fs.disk), fs.disk, PathsOf(edits))
      {
        assert edits[k] in edits && forall e :: e in edits[..k] ==> e in edits;
        ValidIsWellFormed(fs);
        ghost var before := fs.disk;
        if !fs.shared && Applicable(old(fs.disk), edits, process) {
          NextIsOpen(old(fs.disk), before, edits, process, k);
        }
        var root := fs.OpenRoot();
        if root.None? {
          return false;
        }
        var parent := OpenOrCreateParent(fs, root.value, edits[k].path);
        if !fs.shared {
          DirectoriesTwice(old(fs.disk), before, fs.disk);
          WidenedRoot(before, fs.disk);
          assert edits[k].path in PathsOf(edits);
          MadeForFurther(old(fs.disk), before, fs.disk, PathsOf(edits), edits[k].path);
        }
        if parent.None? {
          return false;
        }
        if !fs.shared {
          StillReached(before, fs.disk, edits, k);
        }
        k := k + 1;
      }
      ok := true;
    }

    /** Reserves and writes one temporary file.  `reserved` says that the file could be created. */
    method WriteTemporary(path: Path, contents: Bytes)
      returns (ok: bool, reserved: bool, ghost id: Inode, ghost data: Bytes)
      requires fs.Valid() && fs.licence.replacing && path != []
      modifies fs`disk, fs`next, fs`log, fs`faults, fs`licence
      ensures fs.Valid() && fs.licence.replacing && old(fs.faults) <= fs.faults
      ensures ok ==> reserved && data == contents
      ensures reserved && !ok ==> fs.faults > old(fs.faults)
      ensures (!fs.shared && fs.faults == old(fs.faults) && SlotOf(old(fs.disk), path).Some? &&
               EntryAt(old(fs.disk), path).None?) ==>
        ok
      ensures !fs.shared && !reserved ==> fs.disk == old(fs.disk)
      ensures !fs.shared && reserved ==> SlotOf(old(fs.disk), path).Some?
      ensures !fs.shared && reserved ==> var slot := SlotOf(old(fs.disk), path).value;
        && slot !in old(fs.disk).names && id !in old(fs.disk).nodes
        && fs.disk == WithFile(old(fs.disk), slot, id, data)
    {
      hide RunsBetween, Disciplined, CreatedIn, Apply, WithFile, SlotOf;
      id, data := 0, [];
      var slot := Resolve(path);
      if slot.None? {
        return false, false, id, data;
      }
      ghost var before := fs.disk;
      var created := fs.CreateFile(slot.value);
      if created.None? {
        return false, false, id, data;
      }
      id := created.value;
      ok := fs.WriteAndSync(created.value, contents);
      reserved, data := true, contents;
      if !fs.shared {
        CreatedWrittenRemoved(before, slot.value, id, contents);
        ghost var n :| 0 <= n <= |contents| &&
          fs.disk == Apply(WithFile(before, slot.value, id, []), Op.WriteFile(id, contents[..n]));
        data := if ok then contents else contents[..n];
        CreatedWrittenRemoved(before, slot.value, id, data);
      }
    }

    // ---------- Taking back ----------

    /** `remove_file`. */
    method Remove(path: Path) returns (ok: bool)
      requires fs.Valid() && fs.licence.replacing && path != []
      modifies fs`disk, fs`next, fs`log, fs`faults
      ensures fs.Valid() && old(fs.faults) <= fs.faults
      ensures !fs.shared && ok ==> SlotOf(old(fs.disk), path).Some?
      ensures !fs.shared && ok ==> var slot := SlotOf(old(fs.disk), path).value;
        slot in old(fs.disk).names && fs.disk == old(fs.disk).(names := old(fs.disk).names - {slot})
      ensures !fs.shared && !ok ==> fs.disk == old(fs.disk)
      ensures !fs.shared && !ok && fs.faults == old(fs.faults) && SlotOf(fs.disk, path).Some? ==>
        var slot := SlotOf(fs.disk, path).value; slot !in fs.disk.names || NodeAt(fs.disk, slot) == Some(Directory)
    {
      hide RunsBetween, Disciplined, CreatedIn, SlotOf, KindsKept;
      var slot := Resolve(path);
      if slot.None? {
        return false;
      }
      ok := fs.RemoveFile(slot.value);
    }

    /** One round of `cleanup_temporary_files`; `quiet` says that the run is still known. */
    method CleanUpTemporary(k: nat, ghost edits: seq<PlannedEdit>, ghost quiet: bool)
      requires Valid() && k < |jobs| && temporaries[k] != []
      requires quiet ==> !fs.shared && Runs(edits) && (jobs[k].place.AtTemporary? || Apart(jobs))
      modifies `placed, `jobs, fs`disk, fs`next, fs`log, fs`faults
      ensures Valid() && old(fs.faults) <= fs.faults
      ensures jobs == old(jobs) || jobs == old(jobs)[k := old(jobs)[k].(place := Gone)]
      ensures quiet && fs.faults == old(fs.faults) ==>
        && Runs(edits)
        && (old(jobs)[k].place.AtTemporary? ==> jobs[k].place.Gone?)
        && (!old(jobs)[k].place.AtTemporary? ==> jobs == old(jobs))
    {
      hide FileSystem.Valid, KindsKept, SlotOf;
      ghost var before := fs.disk;
      if quiet {
        TemporarySlot(base, before, placed, jobs, edits, temporaries, k);
        if jobs[k].place.AtTemporary? {
          TemporaryRemoved(base, before, placed, jobs, k);
        } else {
          TemporaryIsFree(base, before, placed, jobs, k);
        }
      }
      hide Running, Apart, JobsFor;
      var removed := Remove(temporaries[k]);
      if quiet && removed && jobs[k].place.AtTemporary? {
        JobsForPlaces(base, jobs, edits, temporaries, k, Gone);
        placed := placed - {jobs[k].id};
        jobs := jobs[k := jobs[k].(place := Gone)];
      }
    }

    /** `cleanup_temporary_files`: failures are ignored. */
    method CleanUp(ghost edits: seq<PlannedEdit>, ghost quiet: bool)
      requires Valid() && forall p :: p in temporaries ==> p != []
      requires quiet ==> !fs.shared && Runs(edits) && (AllAt(jobs, AtTemporary) || Apart(jobs))
      modifies `placed, `jobs, fs`disk, fs`next, fs`log, fs`faults
      ensures Valid() && old(fs.faults) <= fs.faults && |jobs| == |old(jobs)|
      ensures forall i :: 0 <= i < |jobs| ==> jobs[i] == old(jobs)[i].(place := jobs[i].place)
      ensures quiet && fs.faults == old(fs.faults) ==>
        && Runs(edits)
        && forall i :: 0 <= i < |jobs| ==>
             jobs[i].place == if old(jobs)[i].place.AtTemporary? then Gone else old(jobs)[i].place
    {
      hide FileSystem.Valid, KindsKept, Running, JobsFor;
      var k := 0;
      while k < |temporaries|
        invariant 0 <= k <= |temporaries| && |jobs| == |old(jobs)|
        invariant Valid() && old(fs.faults) <= fs.faults
        invariant forall i :: 0 <= i < |jobs| ==> jobs[i] == old(jobs)[i].(place := jobs[i].place)
        invariant quiet && fs.faults == old(fs.faults) ==>
          && Runs(edits)
          && (forall i :: 0 <= i < k ==>
                jobs[i].place == if old(jobs)[i].place.AtTemporary? then Gone else old(jobs)[i].place)
          && (forall i :: k <= i < |jobs| ==> jobs[i] == old(jobs)[i])
      {
        assert temporaries[k] in temporaries;
        assert Apart(old(jobs)) ==> Apart(jobs);
        CleanUpTemporary(k, edits, quiet && fs.faults == old(fs.faults));
        k := k + 1;
      }
    }

    // ---------- Reserving ----------

    ghost predicate Reserving(edits: seq<PlannedEdit>, k: nat)
      reads this, fs
    {
      && k == |temporaries| <= |edits|
      && (forall p :: p in temporaries ==> p != [])
      && (!fs.shared ==> Runs(edits) && AllAt(jobs, AtTemporary) && Targeted(base, edits))
      && Named(temporaries, edits, process)
    }

    /** One round of the loop that writes the temporary files. */
    method ReserveNext(edits: seq<PlannedEdit>, k: nat) returns (error: Option<Error>, ghost undone: bool)
      requires Valid() && Reserving(edits, k) && k < |edits| && edits[k].path != []
      modifies `temporaries, `placed, `jobs, fs`disk, fs`next, fs`log, fs`faults, fs`licence
      ensures Valid() && old(fs.faults) <= fs.faults
      ensures error.None? ==> undone && Reserving(edits, k + 1)
      ensures error.Some? ==> error.value in {OpenFailed, WriteFailed}
      ensures error == Some(OpenFailed) ==> temporaries == old(temporaries)
      ensures !fs.shared && error == Some(OpenFailed) ==> Runs(edits) && jobs == old(jobs)
      ensures !fs.shared && error == Some(WriteFailed) && undone ==> Runs(edits) && AllAt(jobs, Gone)
      ensures !undone ==> fs.faults >= old(fs.faults) + 2
      ensures !fs.shared && fs.faults == old(fs.faults) && Roomy(base, edits, process) ==> error.None?
      ensures base == old(base)
    {
      hide FileSystem.Valid, KindsKept, Running, Targeted, Roomy, EntryAt, Named, TemporaryPath;
      undone := true;
      var edit := edits[k];
      var temporary := TemporaryPath(edit.path, process, k);
      ghost var before := fs.disk;
      if !fs.shared && Roomy(base, edits, process) {
        NextHasRoom(base, before, placed, jobs, edits, temporaries, process);
      }
      if !fs.shared {
        TemporaryReached(base, before, placed, jobs, edits, k, temporary);
      }
      hide SlotOf;
      var ok, reserved;
      ghost var id, data;
      ok, reserved, id, data := WriteTemporary(temporary, edit.after);
      if !reserved {
        return Some(OpenFailed), undone;
      }
      if !ok {
        ghost var faults := fs.faults;
        if !fs.shared {
          SlotBesideFile(before, SlotOf(before, temporary).value, id, data, temporary);
        }
        var removed := Remove(temporary);
        if !fs.shared && fs.faults == faults {
          DiscardedFile(base, before, placed, jobs, SlotOf(before, temporary).value, id, data, fs.disk, removed);
        }
        undone := fs.faults == faults;
        GiveUp(edits, !fs.shared && undone);
        undone := undone && fs.faults == faults;
        return Some(WriteFailed), undone;
      }
      if !fs.shared {
        var job := Job(edit, SlotOf(base, edit.path).value, SlotOf(base, temporary).value, id, AtTemporary);
        TargetedAt(base, edits, k);
        JobAdded(base, before, placed, jobs, job);
        placed, jobs := placed[id := job.temporary], jobs + [job];
      } else {
        jobs := jobs + [Job(edit, Slot(0, ""), Slot(0, ""), id, AtTemporary)];
      }
      OneMoreNamed(temporaries, edits, process);
      temporaries := temporaries + [temporary];
      error := None;
    }

    /** `cleanup_temporary_files` before anything is installed. */
    method GiveUp(ghost edits: seq<PlannedEdit>, ghost quiet: bool)
      requires Valid() && forall p :: p in temporaries ==> p != []
      requires quiet ==> !fs.shared && Runs(edits) && AllAt(jobs, AtTemporary)
      modifies `placed, `jobs, fs`disk, fs`next, fs`log, fs`faults
      ensures Valid() && old(fs.faults) <= fs.faults && |jobs| == |old(jobs)|
      ensures quiet && fs.faults == old(fs.faults) ==> Runs(edits) && AllAt(jobs, Gone)
    {
      hide FileSystem.Valid, KindsKept, Running, JobsFor;
      CleanUp(edits, quiet);
    }

    // ---------- Installing ----------

    /** `install_create_without_clobber`: the file gets its second name first, and loses the first one after. */
    method InstallCreate(source: Path, target: Path, ghost src: Slot, ghost dst: Slot)
      returns (ok: bool, ghost undone: bool)
      requires fs.Valid() && fs.licence.replacing && source != [] && target != []
      requires !fs.shared ==> SlotOf(fs.disk, source) == Some(src) && SlotOf(fs.disk, target) == Some(dst)
      requires !fs.shared ==> NodeAt(fs.disk, src) != Some(Directory)
      modifies fs`disk, fs`next, fs`log, fs`faults
      ensures fs.Valid() && old(fs.faults) <= fs.faults
      ensures !fs.shared && ok ==> src in old(fs.disk).names && fs.disk == Moved(old(fs.disk), src, dst)
      ensures !fs.shared && !ok && undone ==> fs.disk == old(fs.disk)
      ensures !fs.shared && !ok && src in old(fs.disk).names && dst !in old(fs.disk).names ==>
        fs.faults > old(fs.faults)
      ensures !fs.shared && !undone ==> fs.faults >= old(fs.faults) + 2
    {
      hide RunsBetween, Disciplined, CreatedIn, KindsKept, SlotOf, DiskPaths.Descend;
      undone := true;
      ghost var before := fs.disk;
      var from := Resolve(source);
      var to := Resolve(target);
      if from.None? || to.None? {
        return false, undone;
      }
      ok := fs.Attempt(Op.HardLink(from.value, to.value));
      if !ok {
        return;
      }
      if !fs.shared {
        SlotsAfterLink(before, src, dst, source, target);
        LinkTakenBack(before, src, dst);
      }
      ok := Remove(source);
      if !ok {
        ghost var faults := fs.faults;
        var removed := Remove(target);
        undone := fs.faults == faults;
      }
    }

    /** `rename` over the target. */
    method Rename(source: Path, target: Path, ghost src: Slot, ghost dst: Slot) returns (ok: bool)
      requires fs.Valid() && fs.licence.replacing && source != [] && target != []
      requires !fs.shared ==> SlotOf(fs.disk, source) == Some(src) && SlotOf(fs.disk, target) == Some(dst)
      requires !fs.shared ==> IdentityAt(fs.disk, src).Some? && IdentityAt(fs.disk, src) != IdentityAt(fs.disk, dst)
      modifies fs`disk, fs`next, fs`log, fs`faults
      ensures fs.Valid() && old(fs.faults) <= fs.faults
      ensures !fs.shared && ok ==> fs.disk == Moved(old(fs.disk), src, dst)
      ensures !fs.shared && !ok ==> fs.disk == old(fs.disk) && fs.faults > old(fs.faults)
    {
      hide RunsBetween, Disciplined, CreatedIn, KindsKept, SlotOf;
      var from := Resolve(source);
      var to := Resolve(target);
      if from.None? || to.None? {
        return false;
      }
      ok := fs.Attempt(Op.RenameReplace(from.value, to.value));
    }

    /** One round of the loop that installs. */
    method InstallOne(k: nat, edits: seq<PlannedEdit>) returns (ok: bool, ghost undone: bool)
      requires Valid() && k < |jobs| && k < |edits| && temporaries[k] != [] && edits[k].path != []
      requires !fs.shared ==> Runs(edits) && Apart(jobs) && jobs[k].place.AtTemporary?
      modifies `installed, `placed, `jobs, fs`disk, fs`next, fs`log, fs`faults
      ensures Valid() && old(fs.faults) <= fs.faults && (ok ==> undone)
      ensures !fs.shared && (ok || undone) ==> Runs(edits)
      ensures !fs.shared && !ok ==> fs.faults > old(fs.faults) && (!undone ==> fs.faults >= old(fs.faults) + 2)
      ensures jobs == if ok then old(jobs)[k := old(jobs)[k].(place := AtTarget)] else old(jobs)
      ensures installed == if ok then old(installed) + [k] else old(installed)
    {
      hide FileSystem.Valid, KindsKept, SlotOf, Running, Apart, JobsFor, Moved, NodeAt;
      ghost var j := jobs[k];
      undone := true;
      if !fs.shared {
        ReadyToInstall(base, fs.disk, placed, jobs, edits, temporaries, k);
      }
      if edits[k].before.None? {
        ok, undone := InstallCreate(temporaries[k], edits[k].path, j.temporary, j.target);
      } else {
        ok := Rename(temporaries[k], edits[k].path, j.temporary, j.target);
      }
      if ok {
        installed, undone := installed + [k], true;
        placed, jobs := if fs.shared then placed else placed[j.id := j.target], jobs[k := j.(place := AtTarget)];
      }
    }

    // ---------- Rolling back ----------

    /** `fs::write` of an existing file. */
    method WriteOver(path: Path, contents: Bytes) returns (ok: bool)
      requires fs.Valid() && fs.licence.replacing && path != []
      modifies fs`disk, fs`next, fs`log, fs`faults
      ensures fs.Valid() && old(fs.faults) <= fs.faults
      ensures !fs.shared && fs.faults == old(fs.faults) && SlotOf(old(fs.disk), path).Some? ==>
        var slot := SlotOf(old(fs.disk), path).value;
        NodeAt(old(fs.disk), slot).Some? && NodeAt(old(fs.disk), slot).value.File? ==>
          ok && fs.disk == old(fs.disk).(nodes := old(fs.disk).nodes[old(fs.disk).names[slot] := File(contents)])
    {
      hide RunsBetween, Disciplined, CreatedIn, SlotOf, KindsKept;
      var slot := Resolve(path);
      if slot.None? {
        return false;
      }
      var handle := fs.OpenFile(slot.value);
      if handle.None? || !fs.disk.nodes[handle.value].File? {
        return false;
      }
      ok := fs.WriteAndSync(handle.value, contents);
    }

    /** One round of `rollback_installed`. */
    method RollBackOne(k: nat, edits: seq<PlannedEdit>, ghost quiet: bool) returns (ok: bool)
      requires Valid() && k < |jobs| && k < |edits| && edits[k].path != []
      requires quiet ==> !fs.shared && Runs(edits) && jobs[k].place.AtTarget?
      modifies `placed, `jobs, fs`disk, fs`next, fs`log, fs`faults
      ensures Valid() && old(fs.faults) <= fs.faults && |jobs| == |old(jobs)|
      ensures jobs == old(jobs)[k := jobs[k]]
      ensures quiet && fs.faults == old(fs.faults) ==>
        ok && Runs(edits) && (jobs[k].place.Gone? || jobs[k].place.WrittenBack?)
    {
      hide FileSystem.Valid, KindsKept, SlotOf, Running, JobsFor;
      ghost var place := if edits[k].before.None? then Gone else WrittenBack;
      if quiet {
        ReadyToRollBack(base, fs.disk, placed, jobs, edits, temporaries, k);
      }
      match edits[k].before
      case None =>
        ok := Remove(edits[k].path);
        if quiet && ok {
          placed := placed - {jobs[k].id};
          jobs := jobs[k := jobs[k].(place := place)];
        }
      case Some(before) =>
        ghost var faults := fs.faults;
        ok := WriteOver(edits[k].path, before);
        if quiet && fs.faults == faults {
          jobs := jobs[k := jobs[k].(place := place)];
        }
    }

    /** `rollback_installed`: the last file first, up to the first failure. */
    method RollBack(edits: seq<PlannedEdit>, ghost quiet: bool) returns (ok: bool)
      requires Valid() && |jobs| == |edits| && AreIndices(installed, |edits|)
      requires forall i :: 0 <= i < |edits| ==> edits[i].path != []
      requires quiet ==> !fs.shared && Runs(edits) && Lists(installed, jobs)
      requires quiet ==> forall i :: 0 <= i < |jobs| ==> jobs[i].place.AtTarget? || Settled(jobs[i])
      modifies `placed, `jobs, fs`disk, fs`next, fs`log, fs`faults
      ensures Valid() && old(fs.faults) <= fs.faults && |jobs| == |old(jobs)|
      ensures quiet && fs.faults == old(fs.faults) ==> ok && Runs(edits) && AllSettled(jobs)
    {
      hide FileSystem.Valid, KindsKept, Running, JobsFor;
      var k: nat := |installed|;
      assert installed[..k] == installed;
      while 0 < k
        invariant k <= |installed| && |jobs| == |old(jobs)|
        invariant Valid() && old(fs.faults) <= fs.faults
        invariant quiet && fs.faults == old(fs.faults) ==>
          && Runs(edits)
          && (forall j :: 0 <= j < k ==> jobs[installed[j]].place.AtTarget?)
          && (forall i :: 0 <= i < |jobs| && i !in installed[..k] ==> Settled(jobs[i]))
      {
        k := k - 1;
        assert installed[k] in installed;
        TakeOneMore(installed, k);
        ok := RollBackOne(installed[k], edits, quiet && fs.faults == old(fs.faults));
        if !ok {
          return;
        }
      }
      ok := true;
    }

    ghost predicate Installing(edits: seq<PlannedEdit>)
      reads this, fs
    {
      && NamesUsable(edits, temporaries)
      && (!fs.shared ==> Runs(edits) && Apart(jobs) && InstalledSoFar(jobs, installed))
    }

    /** The install order: creates first, then updates. */
    method OrderOf(edits: seq<PlannedEdit>) returns (order: seq<nat>)
      ensures IsOrder(edits, order)
      ensures forall j, k :: 0 <= j < k < |order| && IsUpdate(edits, order[j]) ==> IsUpdate(edits, order[k])
    {
      order := Sort(Indices(|edits|), (i, j) => CreatesFirst(edits, i, j));
      InstallOrder(edits, order);
    }

    /** One round of the loop that installs. */
    method InstallNext(edits: seq<PlannedEdit>, index: nat) returns (ok: bool, ghost undone: bool)
      requires Valid() && Installing(edits) && index < |edits| && index !in installed
      modifies `installed, `placed, `jobs, fs`disk, fs`next, fs`log, fs`faults
      ensures Valid() && old(fs.faults) <= fs.faults
      ensures ok ==> undone && Installing(edits)
      ensures !ok && undone ==> Installing(edits)
      ensures !fs.shared && !ok ==> fs.faults > old(fs.faults) && (!undone ==> fs.faults >= old(fs.faults) + 2)
      ensures installed == if ok then old(installed) + [index] else old(installed)
      ensures NamesUsable(edits, temporaries)
    {
      assert |temporaries| == |edits| && temporaries[index] in temporaries;
      hide FileSystem.Valid, KindsKept, Running, JobsFor, InstalledSoFar, Apart, NamesUsable;
      if !fs.shared {
        InstalledStays(jobs, installed, index);
        OneMoreInstalled(jobs, installed, index);
      }
      ok, undone := InstallOne(index, edits);
    }

    /** The loop that installs. */
    method InstallAll(edits: seq<PlannedEdit>) returns (error: Option<Error>, ghost undone: bool)
      requires Valid() && installed == [] && |temporaries| == |edits|
      requires forall p :: p in temporaries ==> p != []
      requires forall e :: e in edits ==> ValidRelative(e.path)
      requires !fs.shared ==> Runs(edits) && Apart(jobs) && AllAt(jobs, AtTemporary)
      modifies `installed, `placed, `jobs, fs`disk, fs`next, fs`log, fs`faults
      ensures Valid() && old(fs.faults) <= fs.faults
      ensures !fs.shared && error.None? ==> Runs(edits) && AllAt(jobs, AtTarget)
      ensures error.Some? ==> error.value in {InstallFailed, RollbackFailed}
      ensures !fs.shared && error.Some? && undone ==>
        error == Some(InstallFailed) && Runs(edits) && AllSettled(jobs)
      ensures !fs.shared && !undone ==> fs.faults >= old(fs.faults) + 2
      ensures !fs.shared && error.Some? ==> fs.faults > old(fs.faults)
    {
      if !fs.shared {
        NoneIn(jobs);
      }
      PathsNotEmpty(edits);
      undone := true;
      var order := OrderOf(edits);
      assert order[..0] == [] && |order| == |edits|;
      hide FileSystem.Valid, KindsKept, Running, JobsFor, ValidRelative, InstalledSoFar, Apart, AllAt, AllSettled,
        IsOrder;
      var k := 0;
      while k < |order|
        invariant 0 <= k <= |order| && undone && installed == order[..k]
        invariant Valid() && old(fs.faults) <= fs.faults && Installing(edits)
      {
        OrderAt(edits, order, k);
        var ok;
        ok, undone := InstallNext(edits, order[k]);
        if !ok {
          OrderPrefix(edits, order, k);
          error, undone := Abort(edits, undone);
          return;
        }
        k := k + 1;
      }
      TakeAll(order);
      if !fs.shared {
        AllIn(jobs, edits, order);
      }
      error := None;
    }

    /** A failed install: clean up and roll back. */
    method Abort(edits: seq<PlannedEdit>, ghost before: bool)
      returns (error: Option<Error>, ghost undone: bool)
      requires Valid() && NamesUsable(edits, temporaries) && AreIndices(installed, |edits|)
      requires !fs.shared && before ==> Installing(edits)
      modifies `placed, `jobs, fs`disk, fs`next, fs`log, fs`faults
      ensures Valid() && old(fs.faults) <= fs.faults
      ensures error.Some? && error.value in {InstallFailed, RollbackFailed}
      ensures !fs.shared && undone ==> error == Some(InstallFailed) && Runs(edits) && AllSettled(jobs)
      ensures before && fs.faults == old(fs.faults) ==> undone
    {
      hide FileSystem.Valid, KindsKept, Running, JobsFor, InstalledSoFar, Apart, AllAt, AllSettled, Lists, Settled;
      ghost var faults, entries := fs.faults, jobs;
      CleanUp(edits, !fs.shared && before);
      ghost var known := !fs.shared && before && fs.faults == faults;
      if known {
        InstalledAfterCleanUp(entries, jobs, installed);
      }
      var ok := RollBack(edits, known);
      undone := before && fs.faults == faults;
      error := Some(if ok then InstallFailed else RollbackFailed);
    }

    // ---------- Applying ----------

    /** The loop that writes the temporary files. */
    method ReserveAll(edits: seq<PlannedEdit>) returns (error: Option<Error>, ghost leaked: bool, ghost undone: bool)
      requires Valid() && temporaries == [] && forall e :: e in edits ==> ValidRelative(e.path)
      requires !fs.shared ==> Runs(edits) && Targeted(base, edits)
      modifies `temporaries, `placed, `jobs, fs`disk, fs`next, fs`log, fs`faults, fs`licence
      ensures Valid() && old(fs.faults) <= fs.faults
      ensures error.None? ==> Reserving(edits, |edits|)
      ensures error.Some? ==> error.value in {OpenFailed, WriteFailed}
      ensures leaked ==> error == Some(OpenFailed)
      ensures !fs.shared && error.Some? && undone && !leaked ==> Runs(edits) && AllSettled(jobs)
      ensures !fs.shared && leaked ==> Runs(edits) && AllAt(jobs, AtTemporary) && jobs != []
      ensures !undone ==> fs.faults >= old(fs.faults) + 2
      ensures !fs.shared && fs.faults == old(fs.faults) && Roomy(base, edits, process) ==> error.None?
    {
      error, leaked, undone := None, false, true;
      PathsNotEmpty(edits);
      hide FileSystem.Valid, KindsKept, Running, JobsFor, Targeted, ValidRelative, Roomy;
      var k := 0;
      while k < |edits|
        invariant 0 <= k <= |edits| && error.None? && !leaked && undone
        invariant Valid() && old(fs.faults) <= fs.faults && Reserving(edits, k)
      {
        error, undone := ReserveNext(edits, k);
        if error.Some? {
          leaked := error == Some(OpenFailed) && temporaries != [];
          return;
        }
        k := k + 1;
      }
    }

    /** `apply`.  `undone` says that no call failed that was to undo something, and `leaked` that a later temporary
        file could not be created, which leaves the earlier ones. */
    method ApplyEdits(edits: seq<PlannedEdit>) returns (result: Result, ghost leaked: bool, ghost undone: bool)
      requires fs.Valid() && temporaries == [] && installed == [] && jobs == []
      requires DistinctBy(edits, EditPath) && (!fs.shared ==> TreeShaped(fs.disk))
      modifies this, fs
      ensures fs.Valid() && old(fs.faults) <= fs.faults
      ensures !fs.shared && result.Ok? ==> Generated(old(fs.disk), fs.disk, edits)
      ensures !fs.shared && result.Err? && undone ==>
        if leaked then HasNewFile(old(fs.disk), fs.disk) else SameContents(old(fs.disk), fs.disk)
      ensures leaked ==> result == Err(OpenFailed)
      // only two failing calls leave a failure half undone, or one in the cleanup behind the last preflight
      ensures !fs.shared && !undone ==>
        fs.faults >= old(fs.faults) + if result == Err(PreflightFailed) then 1 else 2
      ensures !fs.shared && !Preflighted(old(fs.disk), edits) ==>
        result == Err(PreflightFailed) && fs.disk == old(fs.disk)
      // edits that have nothing in their way are applied, unless a call fails
      ensures !fs.shared && fs.faults == old(fs.faults) && Applicable(old(fs.disk), edits, process) ==> result.Ok?
    {
      fs.Begin(true);
      ApplicableMeets(fs.disk, edits, process);
      leaked, undone := false, true;
      SameContentsItself(fs.disk);
      ValidIsWellFormed(fs);
      NotWidened(fs.disk);
      hide FileSystem.Valid, KindsKept, SameContents, HasNewFile, Generated, Preflighted, TreeShaped, DistinctBy,
        Running, JobsFor, Targeted, ValidRelative, AllSettled, AllAt, Apart, Widened, WellFormed, Applicable, Meets,
        Roomy, MadeFor;
      var ok := Preflight(edits);
      if !ok {
        return Err(PreflightFailed), leaked, undone;
      }
      PathsNotEmpty(edits);
      ok := MakeParents(edits);
      if !fs.shared {
        WidenedContents(old(fs.disk), fs.disk);
        if ok {
          ValidIsWellFormed(fs);
          ReadyBelow(old(fs.disk), fs.disk, edits, process);
        }
      }
      if !ok {
        return Err(DirectoryFailed), leaked, undone;
      }
      ok := Preflight(edits);
      if !ok {
        return Err(PreflightFailed), leaked, undone;
      }
      ghost var d0 := old(fs.disk);
      if !fs.shared {
        ValidIsWellFormed(fs);
        RunStarts(d0, fs.disk, edits);
      }
      base, placed := fs.disk, map[];
      result, leaked, undone := Run(edits, d0);
    }

    /** The part of `apply` behind the second preflight. */
    method Run(edits: seq<PlannedEdit>, ghost d0: Disk) returns (result: Result, ghost leaked: bool, ghost undone: bool)
      requires Valid() && temporaries == [] && installed == [] && forall e :: e in edits ==> ValidRelative(e.path)
      requires DistinctBy(edits, EditPath)
      requires !fs.shared ==>
        && Runs(edits) && Targeted(base, edits) && TreeShaped(base)
        && Disks.WellFormed(d0) && OnlyDirectoriesAdded(d0, base)
      modifies `temporaries, `installed, `placed, `jobs, fs`disk, fs`next, fs`log, fs`faults, fs`licence
      ensures Valid() && old(fs.faults) <= fs.faults
      ensures !fs.shared && result.Ok? ==> Generated(d0, fs.disk, edits)
      ensures !fs.shared && result.Err? && undone ==>
        if leaked then HasNewFile(d0, fs.disk) else SameContents(d0, fs.disk)
      ensures leaked ==> result == Err(OpenFailed)
      ensures !fs.shared && !undone ==>
        fs.faults >= old(fs.faults) + if result == Err(PreflightFailed) then 1 else 2
      ensures (!fs.shared && fs.faults == old(fs.faults) && Roomy(base, edits, process) &&
               forall e :: e in edits ==> Meets(base, e)) ==>
        result.Ok?
    {
      hide FileSystem.Valid, KindsKept, SameContents, HasNewFile, Generated, Preflighted, TreeShaped, DistinctBy,
        Running, JobsFor, Targeted, ValidRelative, AllSettled, AllAt, Apart, WellFormed, OnlyDirectoriesAdded, Roomy,
        Meets, Named;
      var error;
      error, leaked, undone := ReserveAll(edits);
      if error.Some? {
        if !fs.shared && undone {
          if leaked {
            LeftBehind(d0, base, fs.disk, placed, jobs);
          } else {
            AllRolledBack(d0, base, fs.disk, placed, jobs);
          }
        }
        return Err(error.value), leaked, undone;
      }
      if !fs.shared && Roomy(base, edits, process) && forall e :: e in edits ==> Meets(base, e) {
        AllMeetAmongTemporaries(base, fs.disk, placed, jobs, edits, temporaries, process);
      }
      var ok := Preflight(edits);
      if !ok {
        ghost var faults := fs.faults;
        GiveUp(edits, !fs.shared);
        undone := fs.faults == faults;
        if !fs.shared && undone {
          AllGone(jobs);
          AllRolledBack(d0, base, fs.disk, placed, jobs);
        }
        return Err(PreflightFailed), leaked, undone;
      }
      if !fs.shared {
        JobsApart(base, fs.disk, placed, jobs, edits, temporaries);
      }
      error, undone := InstallAll(edits);
      if error.Some? {
        if !fs.shared && undone {
          AllRolledBack(d0, base, fs.disk, placed, jobs);
        }
        return Err(error.value), leaked, undone;
      }
      if !fs.shared {
        AllGenerated(d0, base, fs.disk, placed, jobs, edits, temporaries);
      }
      result := Ok;
    }
  }
}
