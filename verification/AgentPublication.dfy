/** Publication of a set of managed files: stage every file beside its target, install the staged
    files one by one, and undo by identity when anything goes wrong
    (crates/minco-cli/src/agent_cmd.rs, module `secure`). */
module AgentPublication {
  import opened Disks
  import opened DiskPaths
  import opened Options
  import opened FileSystems
  import opened DirectoryWalks
  import opened StagingFiles
  import opened Paths
  import opened Sorting
  import opened AgentStaging
  import opened AgentReadiness
  import opened AgentTracking
  import opened Histories
  import opened OpenPaths

  class Publisher {
    const fs: FileSystem
    const planned: set<string>     // every name that occurs in a request
    var staged: seq<StagedWrite>

    constructor (fs: FileSystem, planned: set<string>)
      ensures this.fs == fs && this.planned == planned && staged == []
    {
      this.fs, this.planned, staged := fs, planned, [];
    }

    ghost predicate Valid()
      reads this, fs
    {
      && fs.Valid()
      && NamesApart(staged, planned)
      && !fs.licence.replacing
      && forall w :: w in staged ==>
           && w.stagedIdentity in fs.licence.own
           && !w.expected.ExpectUnsafe?
           && (w.Staging(), w.Target()) in fs.licence.pairs
    }

    // ---------- Reading ----------

    /** `inspect_at`. */
    method InspectAt(slot: Slot) returns (result: Result<Inspection>)
      requires fs.Valid()
      modifies fs`disk, fs`next, fs`log, fs`faults
      ensures fs.Valid() && fs.Advances()
      ensures !fs.shared ==> fs.disk == old(fs.disk)
      ensures !fs.shared && result.Ok? ==> match result.value
        case Missing => slot !in fs.disk.names
        case Regular(contents, id) =>
          IdentityAt(fs.disk, slot) == Some(id) && NodeAt(fs.disk, slot) == Some(File(contents))
        case Unsafe => fs.faults == old(fs.faults) ==> NodeAt(fs.disk, slot).Some? && !NodeAt(fs.disk, slot).value.File?
      ensures !fs.shared && result.Err? ==> fs.faults > old(fs.faults)
      ensures result.Err? ==> result.error.SystemCallFailed?
    {
      var stat := fs.Stat(slot);
      match stat
      case StatFailed => return Err(SystemCallFailed);
      case Missing => return Ok(Inspection.Missing);
      case Found(id, node) =>
        if !node.File? {
          return Ok(Unsafe);
        }
        var handle := fs.OpenFile(slot);
        if handle.None? || handle.value != id {
          return Ok(Unsafe);
        }
        var data := fs.Read(handle.value);
        if data.None? {
          return Err(SystemCallFailed);
        }
        return Ok(Regular(data.value, handle.value));
    }

    /** `verify_expected`. */
    method VerifyExpected(slot: Slot, expected: Expected) returns (ok: bool)
      requires fs.Valid()
      modifies fs`disk, fs`next, fs`log, fs`faults
      ensures fs.Valid() && fs.Advances()
      ensures !fs.shared ==> fs.disk == old(fs.disk) && (ok ==> Expects(fs.disk, slot, expected))
      ensures !fs.shared && !ok && fs.faults == old(fs.faults) ==> !Expects(fs.disk, slot, expected)
    {
      match expected
      case ExpectMissing =>
        var stat := fs.Stat(slot);
        return stat.Missing?;
      case ExpectRegular(id, digest) =>
        var current := fs.Identity(slot);
        if current != Some(id) {
          return false;
        }
        var inspection := InspectAt(slot);
        return inspection.Ok? && inspection.value.Regular? && Sha256(inspection.value.contents) == digest;
      case ExpectUnsafe =>
        return false;
    }

    /** `verify_identity`. */
    method VerifyIdentity(slot: Slot, expected: Inode) returns (ok: bool)
      requires fs.Valid()
      modifies fs`disk, fs`next, fs`log, fs`faults
      ensures fs.Valid() && fs.Advances()
      ensures ok ==> IdentityAt(fs.disk, slot) == Some(expected)
      ensures !fs.shared ==> fs.disk == old(fs.disk)
      ensures !fs.shared && !ok && fs.faults == old(fs.faults) ==> IdentityAt(fs.disk, slot) != Some(expected)
    {
      var current := fs.Identity(slot);
      ok := current == Some(expected);
    }

    // ---------- Staging ----------

    /** A staging name from a v4 UUID: never a name already in play. */
    method NewStagingName() returns (name: string)
      ensures name !in planned && forall w :: w in staged ==> w.stagingName != name
      ensures forall s :: s in fs.disk.names ==> s.name != name
    {
      var uuid: string := *;
      name := ".minco-agent-" + uuid + ".staging";
      var taken := planned + (set w | w in staged :: w.stagingName) + set s | s in fs.disk.names :: s.name;
      if name in taken {
        uuid := NameLongerThanAll(taken);
        name := ".minco-agent-" + uuid + ".staging";
      }
    }

    /** In a quiet run, a staging file is left behind only if its `fstat` failed, or if two calls failed: one that
        is part of the staging, and the one that was to remove the file. */
    ghost predicate OnlyIfTwice(faults: nat, statFaults: nat, leaked: bool, undone: bool)
      reads fs
    {
      && statFaults <= fs.statFaults
      && (!fs.shared ==> (leaked ==> fs.statFaults > statFaults) && (!undone ==> fs.faults >= faults + 2))
    }

    /** `stage`: writes the new bytes to a file beside the target.  `leaked` says that the
        `fstat` just after the creation failed, which returns without unlinking. */
    method Stage(root: Inode, request: WriteRequest, ghost base: Disk)
      returns (result: Result<StagedWrite>, ghost base': Disk, ghost leaked: bool, ghost undone: bool)
      requires Valid() && forall c :: c in request.path ==> c in planned
      requires !fs.shared ==> Layered(base, fs.disk, staged) && root == fs.disk.root
      modifies fs`disk, fs`next, fs`log, fs`faults, fs`statFaults, fs`licence
      ensures Valid() && old(fs.faults) <= fs.faults
      ensures fs.licence.doomed == old(fs.licence.doomed)
      ensures fs.licence.pairs == old(fs.licence.pairs) +
        if result.Ok? then {(result.value.Staging(), result.value.Target())} else {}
      ensures result.Ok? ==> var w := result.value;
        && request == WriteRequest(w.path, w.contents, w.expected)
        && w.state.Staged? && !w.expected.ExpectUnsafe? && w.stagedIdentity in fs.licence.own
        && w.path != [] && w.parentPath == Parent(w.path) && w.name == FileName(w.path)
        && NamesApart(staged + [w], planned) && !leaked && undone
      ensures !fs.shared && result.Ok? ==> var w := result.value;
        && Layered(base', fs.disk, staged + [w]) && Widened(base, base')
        && Descend(fs.disk, root, w.parentPath) == Some(w.parent)
        && Expects(base', w.Target(), w.expected)
        && DirectoriesKept(old(fs.disk), fs.disk)
        && OnTheWay(base, base', Parent(w.path))
      ensures !fs.shared && fs.faults == old(fs.faults) && result.Err? ==>
        Refused(old(fs.disk), root, request, base, base', fs.disk, staged)
      ensures !fs.shared && result.Err? && undone ==>
        && Layered(base', fs.disk, staged)
        && (leaked ==> HasNewFile(base, base'))
        && (!leaked ==> Widened(base, base'))
      ensures OnlyIfTwice(old(fs.faults), old(fs.statFaults), leaked, undone)
    {
      NotWidened(base);
      hide FileSystem.Valid, DistinctBy, Layered, Widened, HasNewFile, HasEffect, Expects, Descend, DirectoriesKept,
        KindsKept;
      base', leaked, undone := base, false, true;
      if !ValidRelative(request.path) {
        return Err(InvalidPath), base', leaked, undone;
      }
      if request.expected.ExpectUnsafe? {
        return Err(UnsafeRequest), base', leaked, undone;
      }
      var parent: Option<Inode>;
      ghost var unopened := fs.disk;
      parent := OpenOrCreateParent(fs, root, request.path);
      if !fs.shared {
        ValidIsWellFormed(fs);
        LayeredGrows(base, unopened, fs.disk, staged);
        base' := Grown(base, unopened, fs.disk);
        if parent.Some? {
          WidenedRoot(unopened, fs.disk);
          ParentOpened(base, unopened, fs.disk, root, staged, request.path);
        }
      }
      ghost var widened := base';
      if parent.None? {
        return Err(ParentUnavailable), base', leaked, undone;
      }
      var known := fs.StatHandle();
      if !known {
        return Err(SystemCallFailed), base', leaked, undone;
      }
      var target := Slot(parent.value, FileName(request.path));
      var expected := VerifyExpected(target, request.expected);
      if !expected {
        return Err(ChangedAfterPlanning), base', leaked, undone;
      }
      var stagingName := NewStagingName();
      ghost var before := fs.disk;
      ghost var effect;
      result, effect, undone := WriteStagingFile(parent.value, stagingName, request);
      leaked := effect.Left? && undone;
      if result.Ok? {
        NamesApartFurther(staged, planned, result.value);
      }
      if !fs.shared && undone {
        ghost var w := StagedWrite(request.path, Parent(request.path), parent.value, FileName(request.path),
                                   stagingName, if effect.Written? then effect.id else 0, request.contents,
                                   request.expected, Staged);
        StageLayers(base, base', before, root, staged, planned, w, effect, fs.disk);
        DirectoriesKeptTwice(old(fs.disk), before, fs.disk);
        base' := LowerDisk(base', w.Staging(), effect);
      }
    }

    /** The second half of `stage`: from creating the staging file on. */
    method WriteStagingFile(parent: Inode, stagingName: string, request: WriteRequest)
      returns (result: Result<StagedWrite>, ghost effect: StagingEffect, ghost undone: bool)
      requires fs.Valid() && request.path != []
      modifies fs`disk, fs`next, fs`log, fs`faults, fs`statFaults, fs`licence
      ensures fs.Valid() && old(fs.faults) <= fs.faults
      ensures old(fs.licence.own) <= fs.licence.own && fs.licence.replacing == old(fs.licence.replacing)
      ensures fs.licence.doomed == old(fs.licence.doomed)
      ensures fs.licence.pairs == old(fs.licence.pairs) +
        if result.Ok? then {(result.value.Staging(), result.value.Target())} else {}
      ensures result.Ok? <==> effect.Written?
      ensures !fs.shared && fs.faults == old(fs.faults) && Slot(parent, stagingName) !in old(fs.disk.names) ==>
        result.Ok?
      ensures result.Ok? ==>
        && undone && effect.id in fs.licence.own
        && result.value == StagedWrite(request.path, Parent(request.path), parent, FileName(request.path),
                                       stagingName, effect.id, request.contents, request.expected, Staged)
      ensures !fs.shared ==>
        HasEffect(old(fs.disk), Slot(parent, stagingName), request.contents, effect, fs.disk)
      ensures OnlyIfTwice(old(fs.faults), old(fs.statFaults), effect.Left? && undone, undone)
    {
      hide FileSystem.Valid, HasEffect, KindsKept;
      var id;
      id, effect, undone := WriteNewFile(fs, Slot(parent, stagingName), request.contents);
      if id.None? {
        return Err(SystemCallFailed), effect, undone;
      }
      var w := StagedWrite(request.path, Parent(request.path), parent, FileName(request.path), stagingName,
                           id.value, request.contents, request.expected, Staged);
      fs.LicensePair(w.Staging(), w.Target());
      return Ok(w), effect, undone;
    }

    // ---------- Installing ----------

    /** The checks that `install_all` repeats just before it renames. */
    method Recheck(w: StagedWrite, root: Inode) returns (result: Result<()>)
      requires fs.Valid()
      modifies fs`disk, fs`next, fs`log, fs`faults
      ensures fs.Valid() && old(fs.faults) <= fs.faults && old(fs.log) <= fs.log
      ensures !fs.shared ==> fs.disk == old(fs.disk) && (result.Ok? ==> ReadyToInstall(fs.disk, w, root))
      ensures !fs.shared && fs.faults == old(fs.faults) && ReadyToInstall(fs.disk, w, root) ==> result.Ok?
    {
      hide RunsBetween, Disciplined, CreatedIn, KindsKept;
      var reopened := fs.OpenRoot();
      if reopened != Some(root) {
        return Err(RootChanged);
      }
      var resolved := OpenParent(fs, root, w.parentPath);
      if resolved != Some(w.parent) {
        return Err(ParentChanged);
      }
      var expected := VerifyExpected(w.Target(), w.expected);
      if !expected {
        return Err(ChangedAfterPlanning);
      }
      var same := VerifyIdentity(w.Staging(), w.stagedIdentity);
      if !same {
        return Err(ChangedIdentity);
      }
      return Ok(());
    }

    lemma NotYetMoved(log: seq<Event>, w: StagedWrite)
      requires fs.Valid() && log <= fs.log && MovesIn(log) == fs.moves && LeftAlone(log, 0, w.Staging())
      ensures LeftAlone(fs.log, 0, w.Staging()) && OthersLeft(log, fs.log, w.Staging(), w.Target())
      ensures Pending(fs.log, fs.licence.own, w)
    {
      RunOf(fs);
      StaysPending(log, fs.log, fs.licence.own, w);
      LeftAloneIsAccounted(fs.log, fs.licence.own, w);
      NothingMoved(log, fs.log, w);
    }

    lemma JustMoved(k: nat, log: seq<Event>, before: seq<Event>)
      requires Valid() && k < |staged| && var w := staged[k];
        && log <= before <= fs.log && |before| < |fs.log| && fs.moves == MovesIn(before) + {|fs.log| - 1}
        && MovesIn(before) == MovesIn(log) && LeftAlone(before, 0, w.Staging())
        && fs.log[|fs.log| - 1].op == w.InstallOp()
      ensures var w := staged[k];
        && Pending(fs.log, fs.licence.own, w.(state := w.InstalledState()))
        && OthersLeft(log, fs.log, w.Staging(), w.Target())
    {
      var w := staged[k];
      RunOf(fs);
      assert w in staged && w.Staging() != w.Target();
      InstallPends(before, fs.log, fs.licence.own, w);
      assert log <= fs.log;
      OneMoved(log, fs.log, |fs.log| - 1, w);
    }

    lemma StillPending(k: nat, start: seq<Event>, log: seq<Event>)
      requires Valid() && k < |staged| && start <= log <= fs.log && MovesIn(log) == fs.moves
      requires OthersLeft(start, log, staged[k].Staging(), staged[k].Target())
      ensures Pending(log, fs.licence.own, staged[k]) ==> Pending(fs.log, fs.licence.own, staged[k])
      ensures Accounted(log, fs.licence.own, staged[k]) ==> Accounted(fs.log, fs.licence.own, staged[k])
      ensures OthersLeft(start, fs.log, staged[k].Staging(), staged[k].Target())
    {
      RunOf(fs);
      StaysPending(log, fs.log, fs.licence.own, staged[k]);
      NothingMoved(log, fs.log, staged[k]);
      LeftBefore(start, log, fs.log, staged[k]);
    }

    lemma VerifiedEntry(k: nat)
      requires Valid() && k < |staged| && 0 < |fs.log| && fs.licence.doomed == {}
      requires Pending(fs.log, fs.licence.own, staged[k]) && staged[k].state == staged[k].InstalledState()
      requires staged[k].expected.ExpectRegular? ==>
        IdentityAt(fs.disk, staged[k].Staging()) == Some(staged[k].expected.identity)
      ensures Accounted(fs.log, fs.licence.own, staged[k])
    {
      var w := staged[k];
      RunOf(fs);
      assert w in staged && w.Staging() != w.Target();
      if w.expected.ExpectRegular? {
        VerifiedIsClean(fs.log, fs.licence, w, fs.disk);
      }
    }

    /** Where the rename of a ready entry puts the two files. */
    lemma AfterInstall(d: Disk, w: StagedWrite)
      requires Expects(d, w.Target(), w.expected) && IdentityAt(d, w.Staging()) == Some(w.stagedIdentity)
      requires w.Staging() != w.Target() && !w.expected.ExpectUnsafe?
      ensures Enabled(d, w.InstallOp()) && InPlace(Apply(d, w.InstallOp()), w)
      ensures InPlace(Apply(d, w.InstallOp()), w.(state := w.InstalledState()))
    {
    }

    /** The files are where the rename of `w` puts them. */
    ghost predicate InPlace(d: Disk, w: StagedWrite) {
      && IdentityAt(d, w.Target()) == Some(w.stagedIdentity)
      && (w.expected.ExpectRegular? ==> IdentityAt(d, w.Staging()) == Some(w.expected.identity))
    }

    /** The checks behind the rename of an entry. */
    method VerifyInstalled(k: nat, ghost start: seq<Event>) returns (result: Result<()>)
      requires Valid() && k < |staged| && fs.licence.doomed == {} && staged[k].state == staged[k].InstalledState()
      requires start <= fs.log && OthersLeft(start, fs.log, staged[k].Staging(), staged[k].Target())
      requires 0 < |fs.log| && Pending(fs.log, fs.licence.own, staged[k])
      modifies fs`disk, fs`next, fs`log, fs`faults
      ensures Valid() && old(fs.faults) <= fs.faults && old(fs.log) <= fs.log
      ensures OthersLeft(start, fs.log, staged[k].Staging(), staged[k].Target())
      ensures Pending(fs.log, fs.licence.own, staged[k])
      ensures result.Ok? ==> Accounted(fs.log, fs.licence.own, staged[k])
      ensures !fs.shared ==> fs.disk == old(fs.disk)
      ensures !fs.shared && fs.faults == old(fs.faults) && InPlace(fs.disk, staged[k]) ==> result.Ok?
    {
      hide FileSystem.Valid, RunsBetween, Disciplined, CreatedIn, KindsKept, NamesApart, OthersLeft, Pending,
        Accounted, LeftAlone, IdentityAt;
      var w := staged[k];
      RunOf(fs);
      ghost var moved := fs.log;
      var same := VerifyIdentity(w.Target(), w.stagedIdentity);
      StillPending(k, start, moved);
      if !same {
        return Err(ChangedIdentity);
      }
      if w.expected.ExpectRegular? {
        same := VerifyIdentity(w.Staging(), w.expected.identity);
        StillPending(k, start, moved);
        if !same {
          return Err(ChangedIdentity);
        }
      }
      VerifiedEntry(k);
      RunOf(fs);
      ghost var verified := fs.log;
      var synced := fs.SyncDirectory();
      StillPending(k, start, verified);
      return if synced then Ok(()) else Err(SystemCallFailed);
    }

    /** The rename of an entry, and the checks behind it. */
    method Rename(k: nat) returns (result: Result<()>)
      requires Valid() && k < |staged| && staged[k].state.Staged?
      requires fs.licence.doomed == {} && LeftAlone(fs.log, 0, staged[k].Staging())
      modifies `staged, fs`disk, fs`next, fs`log, fs`faults, fs`moves
      ensures Valid() && old(fs.faults) <= fs.faults && old(fs.log) <= fs.log
      ensures |staged| == |old(staged)| && staged == old(staged)[k := old(staged)[k].(state := staged[k].state)]
      ensures OthersLeft(old(fs.log), fs.log, old(staged)[k].Staging(), old(staged)[k].Target())
      ensures Pending(fs.log, fs.licence.own, staged[k])
      ensures staged[k].state.Staged? || staged[k].state == old(staged)[k].InstalledState()
      ensures result.Ok? ==> !staged[k].state.Staged? && Accounted(fs.log, fs.licence.own, staged[k])
      ensures !fs.shared ==>
        if staged[k].state.Staged? then fs.disk == old(fs.disk)
        else Enabled(old(fs.disk), staged[k].InstallOp()) && fs.disk == Apply(old(fs.disk), staged[k].InstallOp())
      ensures (!fs.shared && fs.faults == old(fs.faults) &&
               Expects(old(fs.disk), old(staged)[k].Target(), old(staged)[k].expected)) ==>
        IdentityAt(old(fs.disk), old(staged)[k].Staging()) == Some(old(staged)[k].stagedIdentity) ==> result.Ok?
    {
      hide FileSystem.Valid, RunsBetween, Disciplined, CreatedIn, KindsKept, NamesApart, OthersLeft, Pending,
        Accounted, LeftAlone, Expects, Apply, Enabled, IdentityAt, InPlace;
      var w := staged[k];
      EntryNames(k);
      RunOf(fs);
      ghost var log, before := fs.log, fs.disk;
      if Expects(before, w.Target(), w.expected) && IdentityAt(before, w.Staging()) == Some(w.stagedIdentity) {
        AfterInstall(before, w);
      }
      var renamed := fs.Move(w.InstallOp());
      if !renamed {
        NotYetMoved(log, w);
        return Err(SystemCallFailed);
      }
      JustMoved(k, log, log);
      SetState(k, w.InstalledState());
      result := VerifyInstalled(k, log);
    }

    lemma EntryNames(k: nat)
      requires Valid() && k < |staged|
      ensures staged[k].Staging() != staged[k].Target() && !staged[k].expected.ExpectUnsafe?
      ensures staged[k].stagedIdentity in fs.licence.own
    {
      assert staged[k] in staged;
    }

    /** One round of `install_all`. */
    method Install(k: nat, root: Inode) returns (result: Result<()>)
      requires Valid() && k < |staged| && staged[k].state.Staged?
      requires fs.licence.doomed == {} && LeftAlone(fs.log, 0, staged[k].Staging())
      modifies `staged, fs`disk, fs`next, fs`log, fs`faults, fs`moves
      ensures Valid() && old(fs.faults) <= fs.faults && old(fs.log) <= fs.log
      ensures |staged| == |old(staged)| && staged == old(staged)[k := old(staged)[k].(state := staged[k].state)]
      ensures OthersLeft(old(fs.log), fs.log, old(staged)[k].Staging(), old(staged)[k].Target())
      ensures Pending(fs.log, fs.licence.own, staged[k])
      ensures result.Ok? ==> Accounted(fs.log, fs.licence.own, staged[k])
      ensures staged[k].state.Staged? || staged[k].state == old(staged)[k].InstalledState()
      ensures result.Ok? ==> !staged[k].state.Staged?
      ensures !fs.shared ==>
        if staged[k].state.Staged? then fs.disk == old(fs.disk) else Installs(old(fs.disk), staged[k], fs.disk)
      ensures !fs.shared && fs.faults == old(fs.faults) && ReadyToInstall(old(fs.disk), old(staged)[k], root) ==>
        result.Ok?
    {
      hide FileSystem.Valid, RunsBetween, Disciplined, CreatedIn, KindsKept, NamesApart, OthersLeft, Pending,
        Accounted, LeftAlone, Expects, Apply, Enabled, IdentityAt;
      var w := staged[k];
      ghost var log := fs.log;
      RunOf(fs);
      var checked := Recheck(w, root);
      NotYetMoved(log, w);
      if checked.Err? {
        return checked;
      }
      ghost var before := fs.log;
      RunOf(fs);
      result := Rename(k);
      LeftBefore(log, before, fs.log, w);
    }

    /** `Install`, with what it means for the files still to come. */
    method InstallNext(k: nat, root: Inode) returns (result: Result<()>)
      requires Valid() && k < |staged| && staged[k].state.Staged? && fs.licence.doomed == {}
      requires TrackedTo(fs.log, fs.licence.own, staged, k)
      modifies `staged, fs`disk, fs`next, fs`log, fs`faults, fs`moves
      ensures Valid() && old(fs.faults) <= fs.faults && old(fs.log) <= fs.log
      ensures AllPending(fs.log, fs.licence.own, staged)
      ensures result.Ok? ==> TrackedTo(fs.log, fs.licence.own, staged, k + 1)
      ensures |staged| == |old(staged)| && staged == old(staged)[k := old(staged)[k].(state := staged[k].state)]
      ensures staged[k].state.Staged? || staged[k].state == old(staged)[k].InstalledState()
      ensures result.Ok? ==> !staged[k].state.Staged?
      ensures !fs.shared ==>
        if staged[k].state.Staged? then fs.disk == old(fs.disk) else Installs(old(fs.disk), staged[k], fs.disk)
      ensures !fs.shared && fs.faults == old(fs.faults) && AllReady(old(fs.disk), old(staged)[k..], root) ==>
        result.Ok? && AllReady(fs.disk, staged[k + 1..], root)
    {
      hide FileSystem.Valid, NamesApart, RunsBetween, Disciplined, CreatedIn, KindsKept, AllReady, ReadyToInstall,
        Installs, OthersLeft, Pending, Accounted, LeftAlone, AllPending;
      ghost var before, entries, log := fs.disk, staged, fs.log;
      NextIsLeftAlone(k);
      hide TrackedTo;
      result := Install(k, root);
      RoundTracks(log, fs.log, fs.licence.own, planned, entries, k, staged);
      if !fs.shared && fs.faults == old(fs.faults) && AllReady(before, entries[k..], root) {
        FirstIsReady(before, entries, k, root);
        RestStillReady(before, entries, k, staged, fs.disk, root, planned);
      }
    }

    lemma NextIsLeftAlone(k: nat)
      requires k < |staged| && TrackedTo(fs.log, fs.licence.own, staged, k)
      ensures LeftAlone(fs.log, 0, staged[k].Staging())
    {
    }

    method SetState(k: nat, state: InstallState)
      requires Valid() && k < |staged|
      modifies `staged
      ensures Valid() && staged == old(staged)[k := old(staged)[k].(state := state)]
    {
      hide RunsBetween, Disciplined, CreatedIn, KindsKept;
      staged := staged[k := staged[k].(state := state)];
    }

    /** Only the two names of `w` may be bound differently. */
    ghost predicate OnlyItsNames(d: Disk, d': Disk, w: StagedWrite) {
      && d'.root == d.root && d'.nodes == d.nodes
      && forall s :: s != w.Staging() && s != w.Target() ==> IdentityAt(d', s) == IdentityAt(d, s)
    }

    lemma ItsNamesOnly(d: Disk, w: StagedWrite)
      ensures OnlyItsNames(d, d, w)
      ensures var op := Op.Unlink(w.Target(), w.stagedIdentity); Enabled(d, op) ==> OnlyItsNames(d, Apply(d, op), w)
      ensures var op := Op.RenameNoReplace(w.Target(), w.Staging()); Enabled(d, op) ==> OnlyItsNames(d, Apply(d, op), w)
      ensures var op := Op.Exchange(w.Staging(), w.Target()); Enabled(d, op) ==> OnlyItsNames(d, Apply(d, op), w)
    {
    }

    /** The states of an entry have no names. */
    lemma NamesOnlyOf(d: Disk, w: StagedWrite)
      ensures forall state, d' :: OnlyItsNames(d, d', w) ==> OnlyItsNames(d, d', w.(state := state))
      ensures w.expected.ExpectRegular? && ReadyToUndo(d, w) ==>
        Enabled(d, w.UndoOp()) && IdentityAt(Apply(d, w.UndoOp()), w.Staging()) == Some(w.stagedIdentity)
    {
    }

    /** `rollback` of an entry that a rename created. */
    method RollBackCreated(k: nat)
      requires Valid() && k < |staged| && staged[k].state.Created?
      requires fs.licence.doomed == {} && Pending(fs.log, fs.licence.own, staged[k])
      modifies `staged, fs`disk, fs`next, fs`log, fs`faults, fs`moves
      ensures Valid() && old(fs.faults) <= fs.faults && old(fs.log) <= fs.log
      ensures |staged| == |old(staged)| && staged == old(staged)[k := old(staged)[k].(state := staged[k].state)]
      ensures OthersLeft(old(fs.log), fs.log, staged[k].Staging(), staged[k].Target())
      ensures Accounted(fs.log, fs.licence.own, staged[k])
      ensures !fs.shared ==> OnlyItsNames(old(fs.disk), fs.disk, staged[k])
      ensures !fs.shared && fs.faults == old(fs.faults) && ReadyToUndo(old(fs.disk), old(staged)[k]) ==>
        && staged[k].state.Staged?
        && Enabled(old(fs.disk), staged[k].UndoOp())
        && fs.disk == Apply(old(fs.disk), staged[k].UndoOp())
    {
      hide FileSystem.Valid, NamesApart, RunsBetween, Disciplined, CreatedIn, KindsKept, OthersLeft, Pending,
        Accounted, OnlyItsNames, Apply;
      var w := staged[k];
      EntryNames(k);
      ItsNamesOnly(fs.disk, w);
      NamesOnlyOf(fs.disk, w);
      RunOf(fs);
      ghost var start := fs.log;
      var removal := fs.UnlinkIfSame(w.Target(), w.stagedIdentity);
      NothingMoved(start, start, w);
      RunOf(fs);
      StillPending(k, start, start);
      match removal {
        case Removed =>
          NotExchanged(fs.log, fs.licence.own, w, Staged);
          SetState(k, Staged);
        case UnlinkFailed =>
          SetState(k, RestoreBlocked);
        case NotSame =>
          var current := fs.Identity(w.Staging());
          StillPending(k, start, start);
          if current.None? {
            RunOf(fs);
            ghost var before := fs.log;
            var moved := fs.Move(Op.RenameNoReplace(w.Target(), w.Staging()));
            RunOf(fs);
            if moved {
              OneMoved(before, fs.log, |fs.log| - 1, w);
            } else {
              NothingMoved(before, fs.log, w);
            }
            LeftBefore(start, before, fs.log, w);
          }
          SetState(k, RestoreBlocked);
      }
      RestoreIsBlocked(fs.log, fs.licence.own, w);
    }

    /** `rollback` of an entry that was exchanged. */
    method RollBackExchanged(k: nat)
      requires Valid() && k < |staged| && staged[k].state.Exchanged?
      requires fs.licence.doomed == {} && Pending(fs.log, fs.licence.own, staged[k])
      modifies `staged, fs`disk, fs`next, fs`log, fs`faults, fs`moves
      ensures Valid() && old(fs.faults) <= fs.faults && old(fs.log) <= fs.log
      ensures |staged| == |old(staged)| && staged == old(staged)[k := old(staged)[k].(state := staged[k].state)]
      ensures OthersLeft(old(fs.log), fs.log, staged[k].Staging(), staged[k].Target())
      ensures Accounted(fs.log, fs.licence.own, staged[k])
      ensures !fs.shared ==> OnlyItsNames(old(fs.disk), fs.disk, staged[k])
      ensures !fs.shared && fs.faults == old(fs.faults) && ReadyToUndo(old(fs.disk), old(staged)[k]) ==>
        && staged[k].state.Staged?
        && Enabled(old(fs.disk), staged[k].UndoOp())
        && fs.disk == Apply(old(fs.disk), staged[k].UndoOp())
    {
      hide FileSystem.Valid, NamesApart, RunsBetween, Disciplined, CreatedIn, KindsKept, OthersLeft, Pending,
        Accounted, OnlyItsNames, Apply;
      var w := staged[k];
      EntryNames(k);
      ItsNamesOnly(fs.disk, w);
      NamesOnlyOf(fs.disk, w);
      RunOf(fs);
      ghost var start := fs.log;
      RestoreIsBlocked(start, fs.licence.own, w);
      NothingMoved(start, start, w);
      var current := fs.Identity(w.Staging());
      StillPending(k, start, start);
      if !w.expected.ExpectRegular? || current != Some(w.expected.identity) {
        SetState(k, RestoreBlocked);
        RestoreIsBlocked(fs.log, fs.licence.own, w);
        return;
      }
      RunOf(fs);
      ghost var seen, before := fs.disk, fs.log;
      var swapped := fs.Move(Op.Exchange(w.Staging(), w.Target()));
      RunOf(fs);
      if !swapped {
        NothingMoved(before, fs.log, w);
        LeftBefore(start, before, fs.log, w);
        SetState(k, RestoreBlocked);
        RestoreIsBlocked(fs.log, fs.licence.own, w);
        return;
      }
      ghost var last, after := |fs.log| - 1, fs.log;
      OneMoved(before, after, last, w);
      LeftBefore(start, before, after, w);
      current := fs.Identity(w.Staging());
      RunOf(fs);
      NothingMoved(after, fs.log, w);
      LeftBefore(start, after, fs.log, w);
      if current == Some(w.stagedIdentity) {
        TakenBack(before, last, fs.log, fs.licence, w, seen, fs.disk);
      }
      RestoreIsBlocked(fs.log, fs.licence.own, w);
      SetState(k, if current == Some(w.stagedIdentity) then Staged else RestoreBlocked);
    }

    /** `rollback`, one entry. */
    method RollBackEntry(k: nat)
      requires Valid() && k < |staged|
      requires fs.licence.doomed == {} && Pending(fs.log, fs.licence.own, staged[k])
      modifies `staged, fs`disk, fs`next, fs`log, fs`faults, fs`moves
      ensures Valid() && old(fs.faults) <= fs.faults && old(fs.log) <= fs.log
      ensures |staged| == |old(staged)| && staged == old(staged)[k := old(staged)[k].(state := staged[k].state)]
      ensures OthersLeft(old(fs.log), fs.log, staged[k].Staging(), staged[k].Target())
      ensures Accounted(fs.log, fs.licence.own, staged[k])
      ensures old(staged)[k].state.Staged? ==> staged[k].state.Staged? && (!fs.shared ==> fs.disk == old(fs.disk))
      ensures !fs.shared ==> OnlyItsNames(old(fs.disk), fs.disk, staged[k])
      ensures !fs.shared && fs.faults == old(fs.faults) && ReadyToUndo(old(fs.disk), old(staged)[k]) ==>
        && staged[k].state.Staged?
        && Enabled(old(fs.disk), staged[k].UndoOp())
        && fs.disk == Apply(old(fs.disk), staged[k].UndoOp())
    {
      hide FileSystem.Valid, NamesApart, RunsBetween, Disciplined, CreatedIn, KindsKept, OthersLeft, Pending,
        Accounted, Apply, Enabled, IdentityAt;
      var w := staged[k];
      ghost var start := fs.log;
      RunOf(fs);
      NothingMoved(start, start, w);
      if w.state.Created? {
        RollBackCreated(k);
      } else if w.state.Exchanged? {
        RollBackExchanged(k);
      } else {
        NotExchangedNow(start, fs.licence.own, w);
      }
      RunOf(fs);
      ghost var log := fs.log;
      var synced := fs.SyncDirectory();
      StillPending(k, start, log);
    }

    /** One round of `install_all`, with what is known of the run so far. */
    method InstallRound(k: nat, root: Inode, ghost first: seq<StagedWrite>, ghost history: seq<Disk>)
      returns (result: Result<()>, ghost history': seq<Disk>, ghost done: nat)
      requires Valid() && k < |staged| && SameButStates(first, staged) && InstalledUpTo(staged, k)
      requires !fs.shared ==> InstallHistory(history, staged, k) && |history| == k + 1 && history[k] == fs.disk
      requires fs.licence.doomed == {} && TrackedTo(fs.log, fs.licence.own, staged, k)
      modifies `staged, fs`disk, fs`next, fs`log, fs`faults, fs`moves
      ensures Valid() && old(fs.faults) <= fs.faults && |staged| == |old(staged)| && SameButStates(first, staged)
      ensures AllPending(fs.log, fs.licence.own, staged)
      ensures result.Ok? ==> TrackedTo(fs.log, fs.licence.own, staged, k + 1)
      ensures k <= done <= k + 1 && (result.Ok? ==> done == k + 1 && InstalledUpTo(staged, k + 1))
      ensures !fs.shared ==>
        && InstallHistory(history', staged, done) && |history'| == done + 1
        && history'[0] == history[0] && history'[done] == fs.disk
      ensures !fs.shared && fs.faults == old(fs.faults) && AllReady(old(fs.disk), old(staged)[k..], root) ==>
        result.Ok? && AllReady(fs.disk, staged[k + 1..], root)
    {
      hide *;
      ghost var entries := staged;
      NextIsStaged(entries, k);
      result := InstallNext(k, root);
      OneStateChanged(first, entries, k, staged, staged[k].state);
      history', done := history, k;
      if !staged[k].state.Staged? {
        OneMoreInstalled(entries, k, staged);
        if !fs.shared {
          HistoryFurther(history, entries, k, staged, fs.disk);
        }
        history', done := history + [fs.disk], k + 1;
      } else {
        assert staged == entries;
      }
    }

    /** `install_all`. */
    method InstallAll(root: Inode) returns (result: Result<()>, ghost history: seq<Disk>, ghost done: nat)
      requires Valid() && forall w :: w in staged ==> w.state.Staged?
      requires fs.licence.doomed == {} && fs.moves == {}
      modifies `staged, fs`disk, fs`next, fs`log, fs`faults, fs`moves
      ensures Valid() && old(fs.faults) <= fs.faults
      ensures if result.Ok? then AllAccounted(fs.log, fs.licence.own, staged)
        else AllPending(fs.log, fs.licence.own, staged)
      ensures SameButStates(old(staged), staged)
      ensures result.Ok? ==> forall w :: w in staged ==> w.state == w.InstalledState()
      ensures !fs.shared ==>
        && InstallHistory(history, staged, done) && |history| == done + 1 && (result.Ok? ==> done == |staged|)
        && history[0] == old(fs.disk) && history[done] == fs.disk
      ensures !fs.shared && fs.faults == old(fs.faults) && AllReady(old(fs.disk), old(staged), root) ==> result.Ok?
    {
      assert staged[0..] == staged && InstalledUpTo(staged, 0) && InstallHistory([fs.disk], staged, 0);
      hide *;
      RunOf(fs);
      TrackStarts(fs.log, fs.licence.own, staged);
      history := [fs.disk];
      var k := 0;
      while k < |staged|
        invariant Valid() && old(fs.faults) <= fs.faults
        invariant SameButStates(old(staged), staged) && k <= |staged|
        invariant InstalledUpTo(staged, k) && TrackedTo(fs.log, fs.licence.own, staged, k)
        invariant !fs.shared ==>
          && InstallHistory(history, staged, k) && |history| == k + 1
          && history[0] == old(fs.disk) && history[k] == fs.disk
        invariant !fs.shared && fs.faults == old(fs.faults) && AllReady(old(fs.disk), old(staged), root) ==>
          AllReady(fs.disk, staged[k..], root)
      {
        result, history, done := InstallRound(k, root, old(staged), history);
        if result.Err? {
          return;
        }
        k := k + 1;
      }
      AllInstalled(staged);
      TrackEnds(fs.log, fs.licence.own, staged);
      result, done := Ok(()), k;
    }

    lemma NextIsPending(k: nat)
      requires k < |staged| && RolledTo(fs.log, fs.licence.own, staged, k + 1)
      ensures Pending(fs.log, fs.licence.own, staged[k])
    {
    }

    /** Only the names of the entries may be bound differently. */
    ghost predicate OnlyTheirNames(d: Disk, d': Disk, staged: seq<StagedWrite>) {
      && d'.root == d.root && d'.nodes == d.nodes
      && forall s ::
           IdentityAt(d', s) == IdentityAt(d, s) || exists w :: w in staged && (s == w.Staging() || s == w.Target())
    }

    lemma NoNames(d: Disk, staged: seq<StagedWrite>)
      ensures OnlyTheirNames(d, d, staged)
    {
    }

    lemma TheirNamesFurther(d: Disk, d': Disk, staged: seq<StagedWrite>, k: nat, staged': seq<StagedWrite>, d'': Disk)
      requires OnlyTheirNames(d, d', staged) && k < |staged| && OnlyItsNames(d', d'', staged[k])
      requires |staged'| == |staged| && staged' == staged[k := staged[k].(state := staged'[k].state)]
      ensures OnlyTheirNames(d, d'', staged')
    {
      forall s
        ensures IdentityAt(d'', s) == IdentityAt(d, s) ||
                exists w :: w in staged' && (s == w.Staging() || s == w.Target())
      {
        if w :| w in staged && (s == w.Staging() || s == w.Target()) {
          var x :| 0 <= x < |staged| && staged[x] == w;
          assert staged'[x] in staged' && (s == staged'[x].Staging() || s == staged'[x].Target());
        } else {
          assert staged[k] in staged;
        }
      }
    }

    /** `rollback`: undoes the installs, the last one first. */
    method RollBack(ghost history: seq<Disk>, ghost done: nat) returns (ghost gone: set<Slot>)
      requires Valid()
      requires !fs.shared ==> InstallHistory(history, staged, done) && |history| == done + 1 && fs.disk == history[done]
      requires fs.licence.doomed == {} && AllPending(fs.log, fs.licence.own, staged)
      modifies `staged, fs`disk, fs`next, fs`log, fs`faults, fs`moves
      ensures Valid() && old(fs.faults) <= fs.faults
      ensures SameButStates(old(staged), staged) && AllAccounted(fs.log, fs.licence.own, staged)
      ensures !fs.shared ==> OnlyTheirNames(old(fs.disk), fs.disk, staged)
      ensures !fs.shared && fs.faults == old(fs.faults) ==> RolledBack(history, staged, done, fs.disk, gone, 0)
    {
      gone := {};
      if !fs.shared {
        RollbackStarts(history, staged, done, fs.disk);
      }
      RollStarts(fs.log, fs.licence.own, staged);
      hide FileSystem.Valid, RolledBack, ReadyToUndo, SameButStates, Apply, Enabled, DistinctBy, AllPending, Pending,
        Accounted, OthersLeft, NamesApart, OnlyItsNames, OnlyTheirNames;
      NoNames(fs.disk, staged);
      var k: nat := |staged|;
      while 0 < k
        invariant Valid() && old(fs.faults) <= fs.faults
        invariant SameButStates(old(staged), staged) && k <= |staged|
        invariant RolledTo(fs.log, fs.licence.own, staged, k)
        invariant !fs.shared ==> OnlyTheirNames(old(fs.disk), fs.disk, staged)
        invariant !fs.shared && fs.faults == old(fs.faults) ==> RolledBack(history, staged, done, fs.disk, gone, k)
      {
        k := k - 1;
        ghost var before, entries, faults, log := fs.disk, staged, fs.faults, fs.log;
        NextIsPending(k);
        hide RolledTo;
        RollBackEntry(k);
        RoundRolls(log, fs.log, fs.licence.own, planned, entries, k, staged);
        if !fs.shared {
          TheirNamesFurther(old(fs.disk), before, entries, k, staged, fs.disk);
        }
        OneStateChanged(old(staged), entries, k, staged, staged[k].state);
        if !fs.shared && fs.faults == old(fs.faults) {
          gone := RollbackRound(history, entries, planned, done, before, gone, k, staged, fs.disk);
        }
      }
    }

    /** `cleanup`, one entry. */
    method CleanUpEntry(k: nat, committed: bool)
      requires Valid() && k < |staged|
      requires staged[k].Discardable(committed).Some? ==>
        staged[k].Discardable(committed).value in fs.licence.own + fs.licence.doomed
      modifies fs`disk, fs`next, fs`log, fs`faults
      ensures Valid() && old(fs.faults) <= fs.faults && old(fs.log) <= fs.log
      ensures !fs.shared ==> var w := staged[k];
        var gone := w.Discardable(committed).Some? && IdentityAt(old(fs.disk), w.Staging()) == w.Discardable(committed);
        var emptied := old(fs.disk).(names := old(fs.disk).names - {w.Staging()});
        && (fs.disk == old(fs.disk) || fs.disk == emptied)
        && (fs.faults == old(fs.faults) ==> fs.disk == if gone then emptied else old(fs.disk))
    {
      hide FileSystem.Valid, NamesApart, RunsBetween, Disciplined, CreatedIn, KindsKept;
      var w := staged[k];
      var id := w.Discardable(committed);
      if id.Some? {
        var removal := fs.UnlinkIfSame(w.Staging(), id.value);
        if !removal.NotSame? {
          var synced := fs.SyncDirectory();
        }
      }
    }

    /** `cleanup`: removes the run's own leftovers, and after a commit the replaced files. */
    method CleanUp(committed: bool)
      requires Valid()
      requires forall w :: w in staged && w.Discardable(committed).Some? ==>
        w.Discardable(committed).value in fs.licence.own + fs.licence.doomed
      modifies fs`disk, fs`next, fs`log, fs`faults
      ensures Valid() && old(fs.faults) <= fs.faults && old(fs.log) <= fs.log
      ensures AllAccounted(old(fs.log), fs.licence.own, staged) ==> AllAccounted(fs.log, fs.licence.own, staged)
      ensures !fs.shared ==> OnlyEmptied(old(fs.disk), fs.disk, staged)
      ensures !fs.shared && fs.faults == old(fs.faults) ==>
        fs.disk == old(fs.disk).(names := old(fs.disk).names - Emptied(old(fs.disk), staged, committed))
    {
      hide FileSystem.Valid, NamesApart, RunsBetween, Disciplined, CreatedIn, KindsKept, MovesIn, AllAccounted,
        OnlyEmptied, Emptied, StagedWrite.Discardable;
      RunOf(fs);
      NothingEmptied(fs.disk, staged, committed);
      ghost var d := fs.disk;
      var k := 0;
      while k < |staged|
        invariant Valid() && old(fs.faults) <= fs.faults && k <= |staged| && old(fs.log) <= fs.log
        invariant !fs.shared ==> OnlyEmptied(d, fs.disk, staged)
        invariant !fs.shared && fs.faults == old(fs.faults) ==>
          fs.disk == d.(names := d.names - Emptied(d, staged[..k], committed))
      {
        ghost var before := fs.disk;
        CleanUpEntry(k, committed);
        if !fs.shared {
          EmptiedFurther(d, before, fs.disk, staged, k);
          if fs.faults == old(fs.faults) {
            OneMoreEmptied(d, before, staged, k, committed);
          }
        }
        k := k + 1;
      }
      TakeAll(staged);
      RunOf(fs);
      AllLater(old(fs.log), fs.log, fs.licence.own, staged);
    }

    // ---------- Publishing ----------

    /** One round of the first loop of `publish_inner`. */
    method StageNext(root: Inode, requests: seq<WriteRequest>, ghost d0: Disk, ghost base: Disk)
      returns (error: Option<Error>, ghost base': Disk, ghost leaked: bool, ghost undone: bool)
      requires Valid() && |staged| < |requests|
      requires forall r, c :: r in requests && c in r.path ==> c in planned
      requires StagedFor(staged, requests) && fs.licence.pairs == PairsOf(staged)
      requires !fs.shared ==> StagedOn(d0, base, fs.disk, root, staged, requests)
      modifies `staged, fs`disk, fs`next, fs`log, fs`faults, fs`statFaults, fs`licence
      ensures Valid() && old(fs.faults) <= fs.faults
      ensures StagedFor(staged, requests) && fs.licence.pairs == PairsOf(staged)
      ensures fs.licence.doomed == old(fs.licence.doomed)
      ensures |staged| == if error.None? then |old(staged)| + 1 else |old(staged)|
      ensures error.None? ==> !leaked && undone
      ensures !fs.shared && error.None? ==> StagedOn(d0, base', fs.disk, root, staged, requests)
      ensures !fs.shared && error.Some? && undone ==>
        Layered(base', fs.disk, staged) && if leaked then HasNewFile(d0, base') else Widened(d0, base')
      ensures !fs.shared && fs.faults == old(fs.faults) && Publishable(d0, requests) ==> error.None?
      ensures OnlyIfTwice(old(fs.faults), old(fs.statFaults), leaked, undone)
    {
      hide FileSystem.Valid, RunsBetween, Disciplined, CreatedIn, KindsKept, DistinctBy, Layered, Widened, HasNewFile,
        Expects, DirectoriesKept, ParentsOpen, OnTheWay, Refused, Publishable, StagedOn, MadeFor, WellFormed;
      ghost var before := fs.disk;
      ValidIsWellFormed(fs);
      if !fs.shared {
        StagedMeans(d0, base, before, root, staged, requests);
      }
      var request := requests[|staged|];
      assert request in requests;
      var entry;
      entry, base', leaked, undone := Stage(root, request, base);
      if entry.Err? {
        if !fs.shared {
          if undone {
            StagingFailed(d0, base, base', before, root, staged, requests, leaked);
          }
          if fs.faults == old(fs.faults) && Publishable(d0, requests) {
            NextIsNotRefused(d0, base, base', before, fs.disk, root, staged, planned, requests, |staged|);
          }
        }
        return Some(entry.error), base', leaked, undone;
      }
      if !fs.shared {
        OneMoreStaged(d0, base, base', before, fs.disk, root, staged, requests, entry.value);
      }
      staged := staged + [entry.value];
      error := None;
    }

    /** The first loop of `publish_inner`. */
    method StageAll(root: Inode, requests: seq<WriteRequest>)
      returns (result: Result<()>, ghost base: Disk, ghost leaked: bool, ghost undone: bool)
      requires Valid() && staged == [] && fs.licence.pairs == {}
      requires forall r, c :: r in requests && c in r.path ==> c in planned
      requires !fs.shared ==> root == fs.disk.root
      modifies `staged, fs`disk, fs`next, fs`log, fs`faults, fs`statFaults, fs`licence
      ensures Valid() && old(fs.faults) <= fs.faults
      ensures StagedFor(staged, requests) && (result.Ok? ==> |staged| == |requests| && !leaked)
      ensures fs.licence.doomed == old(fs.licence.doomed) && fs.licence.pairs == PairsOf(staged)
      ensures !fs.shared && result.Ok? ==> StagedOn(old(fs.disk), base, fs.disk, root, staged, requests)
      ensures !fs.shared && result.Err? && undone ==>
        && Layered(base, fs.disk, staged)
        && (if leaked then HasNewFile(old(fs.disk), base) else Widened(old(fs.disk), base))
      ensures !fs.shared && fs.faults == old(fs.faults) && Publishable(old(fs.disk), requests) ==> result.Ok?
      ensures OnlyIfTwice(old(fs.faults), old(fs.statFaults), leaked, undone)
    {
      base, leaked, undone := fs.disk, false, true;
      ValidIsWellFormed(fs);
      NothingStaged(fs.disk, root, requests);
      assert PairsOf([]) == {} && StagedFor([], requests);
      hide FileSystem.Valid, NamesApart, StagedFor, PairsOf, Layered, Widened, HasNewFile, Publishable, StagedOn;
      var k := 0;
      while k < |requests|
        invariant Valid() && old(fs.faults) <= fs.faults && k == |staged| <= |requests|
        invariant old(fs.statFaults) <= fs.statFaults && !leaked && undone
        invariant StagedFor(staged, requests)
        invariant fs.licence.doomed == old(fs.licence.doomed) && fs.licence.pairs == PairsOf(staged)
        invariant !fs.shared ==> StagedOn(old(fs.disk), base, fs.disk, root, staged, requests)
      {
        var error;
        error, base, leaked, undone := StageNext(root, requests, old(fs.disk), base);
        if error.Some? {
          return Err(error.value), base, leaked, undone;
        }
        k := k + 1;
      }
      result, leaked := Ok(()), false;
    }

    /** `sort_by_key` into install order. */
    method SortStaged(root: Inode, ghost requests: seq<WriteRequest>, ghost base: Disk)
      requires Valid() && StagedFor(staged, requests) && |staged| == |requests|
      requires fs.licence.pairs == PairsOf(staged)
      requires !fs.shared ==> Layered(base, fs.disk, staged) && ParentsOpen(fs.disk, root, staged)
      modifies `staged
      ensures Valid() && fs.licence.pairs == PairsOf(staged)
      ensures staged == Sort(old(staged), InstallLeq) && |staged| == |requests|
      ensures forall w :: w in staged ==> w.state.Staged? && ComesFrom(w, requests)
      ensures !fs.shared ==> Layered(base, fs.disk, staged) && ParentsOpen(fs.disk, root, staged)
    {
      hide FileSystem.Valid, NamesApart, PairsOf, Layered, ParentsOpen, StagedFor, ComesFrom, KindsKept;
      InstallOrderKeeps(base, fs.disk, root, staged, planned);
      SortedStagedFor(staged, Sort(staged, InstallLeq), requests);
      staged := Sort(staged, InstallLeq);
    }

    /** The failing end of `publish_inner`. */
    method Undo(ghost base: Disk, ghost layered: seq<StagedWrite>, ghost history: seq<Disk>, ghost done: nat)
      returns (ghost undone: bool)
      requires Valid() && SameButStates(layered, staged)
      requires !fs.shared ==>
        && InstallHistory(history, staged, done) && |history| == done + 1 && fs.disk == history[done]
        && Layered(base, history[0], layered)
      requires fs.licence.doomed == {} && AllPending(fs.log, fs.licence.own, staged)
      modifies `staged, fs`disk, fs`next, fs`log, fs`faults, fs`moves
      ensures Valid() && old(fs.faults) <= fs.faults && SameButStates(layered, staged)
      ensures AllAccounted(fs.log, fs.licence.own, staged)
      ensures undone <==> fs.faults == old(fs.faults)
      ensures !fs.shared && undone ==> OnlyDirectoriesAdded(base, fs.disk) && fs.disk.names == base.names
    {
      hide FileSystem.Valid, NamesApart, Layered, RolledBack, InstallHistory, OnlyDirectoriesAdded, AllPending,
        AllAccounted;
      ghost var faults, entries := fs.faults, staged;
      ghost var gone := RollBack(history, done);
      ghost var before := fs.disk;
      StatesChangedTwice(layered, entries, staged);
      CleanUp(false);
      undone := fs.faults == faults;
      if !fs.shared && undone {
        RestoredAfterCleanup(base, history, done, before, gone, staged, layered);
      }
    }

    /** The successful end of `publish_inner`. */
    method Commit(ghost requests: seq<WriteRequest>, ghost base: Disk, ghost layered: seq<StagedWrite>,
                  ghost history: seq<Disk>, ghost done: nat)
      returns (ghost undone: bool)
      requires Valid() && SameButStates(layered, staged) && fs.licence.doomed == {}
      requires forall w :: w in staged ==> w.state == w.InstalledState() && ComesFrom(w, requests)
      requires !fs.shared ==>
        && InstallHistory(history, staged, done) && |history| == done + 1 && done == |staged|
        && fs.disk == history[done]
        && Layered(base, history[0], layered)
      requires AllAccounted(fs.log, fs.licence.own, staged)
      modifies fs`disk, fs`next, fs`log, fs`faults, fs`licence
      ensures Valid() && old(fs.faults) <= fs.faults && (undone <==> fs.faults == old(fs.faults))
      ensures AllAccounted(fs.log, fs.licence.own, staged)
      ensures fs.licence == old(fs.licence).(doomed := Replaced(requests))
      ensures !fs.shared && ExpectsNoStaged(staged) ==>
        && Published(base, Swept(fs.disk, staged), staged) && DistinctBy(staged, TargetSlot)
        && DirectoriesKept(history[0], Swept(fs.disk, staged)) && fs.disk.root == history[0].root
      ensures !fs.shared && undone && ExpectsNoStaged(staged) ==> Swept(fs.disk, staged) == fs.disk
    {
      hide FileSystem.Valid, NamesApart, Layered, Published, ExpectsNoStaged, InstallHistory, InstalledSoFar,
        AllAccounted, OnlyEmptied, Swept, Emptied, DirectoriesKept;
      ghost var faults, before := fs.faults, fs.disk;
      fs.LicenseRemoval(Replaced(requests));
      CleanUp(true);
      undone := fs.faults == faults;
      if !fs.shared && ExpectsNoStaged(staged) {
        AfterInstalls(history, staged, planned, done, done);
        PublishedAfterCleanup(base, history[0], before, staged, planned, layered);
        LayeredFiles(base, history[0], layered, staged);
        DirectoriesAfterCleanup(history, staged, done, before);
        SweptByCleanup(history[0], before, fs.disk, staged);
      }
    }

    /** The rest of `publish_inner`: sort, install, roll back on failure, clean up. */
    method CommitOrUndo(root: Inode, ghost requests: seq<WriteRequest>, ghost base: Disk)
      returns (result: Result<()>, ghost undone: bool)
      requires Valid() && StagedFor(staged, requests) && |staged| == |requests|
      requires fs.licence.pairs == PairsOf(staged) && fs.licence.doomed == {}
      requires !fs.shared ==> Layered(base, fs.disk, staged) && ParentsOpen(fs.disk, root, staged)
      requires fs.moves == {}
      modifies `staged, fs`disk, fs`next, fs`log, fs`faults, fs`moves, fs`licence
      ensures Valid() && old(fs.faults) <= fs.faults && AllAccounted(fs.log, fs.licence.own, staged)
      ensures fs.licence.pairs == PairsOf(staged)
      ensures fs.licence.doomed == if result.Ok? then Replaced(requests) else {}
      ensures SameButStates(Sort(old(staged), InstallLeq), staged)
      ensures !fs.shared && result.Err? && undone ==>
        OnlyDirectoriesAdded(base, fs.disk) && fs.disk.names == base.names
      ensures !fs.shared && result.Ok? && ExpectsNoStaged(staged) ==>
        && Published(base, Swept(fs.disk, staged), staged) && DistinctBy(staged, TargetSlot)
        && DirectoriesKept(old(fs.disk), Swept(fs.disk, staged)) && fs.disk.root == old(fs.disk).root
        && (undone ==> Swept(fs.disk, staged) == fs.disk)
      ensures (!fs.shared && fs.faults == old(fs.faults) &&
               AllReady(old(fs.disk), Sort(old(staged), InstallLeq), root)) ==>
        result.Ok? && undone
      ensures fs.faults == old(fs.faults) ==> undone
      ensures (!fs.shared && result.Err? && AllReady(old(fs.disk), Sort(old(staged), InstallLeq), root) &&
               fs.faults <= old(fs.faults) + 1) ==> undone
    {
      hide Publisher.Valid, FileSystem.Valid, StagedFor, PairsOf, Layered, ParentsOpen, Published, ExpectsNoStaged,
        AllReady, InstallHistory, OnlyDirectoriesAdded, SameButStates, ComesFrom, Replaced, AllPending, AllAccounted,
        Swept;
      SortStaged(root, requests, base);
      ghost var layered := staged;
      ghost var history, done;
      result, history, done := InstallAll(root);
      StatesKeepOrigins(layered, staged, requests);
      if result.Err? {
        ghost var entries := staged;
        undone := Undo(base, layered, history, done);
        StatesKeepOrigins(layered, staged, requests);
      } else {
        undone := Commit(requests, base, layered, history, done);
      }
    }

    /** `CommitOrUndo`, seen from the disk `d0` on which the staging began. */
    method Conclude(root: Inode, ghost requests: seq<WriteRequest>, ghost d0: Disk, ghost base: Disk)
      returns (result: Result<()>, ghost undone: bool)
      requires Valid() && StagedFor(staged, requests) && |staged| == |requests|
      requires fs.licence.pairs == PairsOf(staged) && fs.licence.doomed == {}
      requires !fs.shared ==> StagedOn(d0, base, fs.disk, root, staged, requests)
      requires fs.moves == {}
      modifies `staged, fs`disk, fs`next, fs`log, fs`faults, fs`moves, fs`licence
      ensures Valid() && old(fs.faults) <= fs.faults && fs.licence.pairs == PairsOf(staged)
      ensures AllAccounted(fs.log, fs.licence.own, staged)
      ensures fs.licence.doomed == if result.Ok? then Replaced(requests) else {}
      ensures !fs.shared && result.Err? && undone ==> Widened(d0, fs.disk)
      ensures !fs.shared && result.Ok? && KnowsItsFiles(requests, d0) ==>
        && PublishedOk(d0, base, Swept(fs.disk, staged), requests, staged) && DistinctBy(requests, RequestPath)
        && (undone ==> Swept(fs.disk, staged) == fs.disk)
      ensures !fs.shared && fs.faults == old(fs.faults) && Publishable(d0, requests) ==> result.Ok? && undone
      ensures fs.faults == old(fs.faults) ==> undone
      ensures !fs.shared && result.Err? && Publishable(d0, requests) && fs.faults <= old(fs.faults) + 1 ==> undone
    {
      hide FileSystem.Valid, NamesApart, PairsOf, Widened, Layered, ParentsOpen, Published, ExpectsNoStaged,
        SameButStates, KnowsItsFiles, DistinctBy, DirectoriesKept, Replaced, AllReady, Publishable, StagedOn,
        StagedFor, PublishedAt, AllAccounted;
      ghost var layered, start := staged, fs.disk;
      if !fs.shared {
        StagedMeans(d0, base, start, root, staged, requests);
        if Publishable(d0, requests) {
          StagedIsReady(d0, base, start, root, staged, planned, requests);
        }
      }
      result, undone := CommitOrUndo(root, requests, base);
      if !fs.shared && result.Err? && undone {
        LayeredIsWellFormed(base, start, layered);
        NoNewNames(base, fs.disk);
        DirectoriesTwice(d0, base, fs.disk);
      }
      if !fs.shared && result.Ok? && KnowsItsFiles(requests, d0) {
        ghost var swept := Swept(fs.disk, staged);
        SameRoot(d0, base, start, layered);
        StagedAreNotExpected(d0, base, start, requests, layered, staged);
        PublishedRequests(start, swept, root, requests, layered, staged);
        LayeredDirectories(base, start, swept, layered);
      }
    }

    /** The end of a failed staging. */
    method GiveUp(ghost requests: seq<WriteRequest>, ghost d0: Disk, ghost base: Disk, ghost leaked: bool,
                  ghost before: bool)
      returns (ghost undone: bool)
      requires Valid() && StagedFor(staged, requests) && fs.moves == {}
      requires !fs.shared && before ==>
        Layered(base, fs.disk, staged) && if leaked then HasNewFile(d0, base) else Widened(d0, base)
      modifies fs`disk, fs`next, fs`log, fs`faults
      ensures Valid() && old(fs.faults) <= fs.faults && AllAccounted(fs.log, fs.licence.own, staged)
      ensures undone <==> before && fs.faults == old(fs.faults)
      ensures !fs.shared && undone ==> if leaked then HasNewFile(d0, fs.disk) else Widened(d0, fs.disk)
    {
      hide FileSystem.Valid, NamesApart, Widened, HasNewFile, Layered, AllAccounted, OnlyEmptied, Emptied;
      ghost var start, faults := fs.disk, fs.faults;
      RunOf(fs);
      NothingTaken(fs.log, fs.licence.own, staged);
      CleanUp(false);
      undone := before && fs.faults == faults;
      if !fs.shared && undone {
        CleanedAfterStaging(d0, base, start, staged, leaked);
      }
    }

    /** `publish_inner`.  `undone` says that no call of the undo phase (rollback and cleanup) failed
        for reasons of its own, so that after a success no staging name is left; `leaked` that the `fstat` of a new
        staging file failed. */
    method Publish(requests: seq<WriteRequest>)
      returns (result: Result<()>, ghost base: Disk, ghost leaked: bool, ghost undone: bool)
      requires fs.Valid() && staged == []
      requires forall r, c :: r in requests && c in r.path ==> c in planned
      modifies this, fs
      ensures Valid() && old(fs.faults) <= fs.faults
      ensures fs.origin == old(fs.disk) && fs.licence.pairs == PairsOf(staged)
      ensures fs.licence.doomed == if result.Ok? then Replaced(requests) else {}
      ensures !fs.shared && result.Err? && undone ==>
        if leaked then HasNewFile(old(fs.disk), fs.disk) else Widened(old(fs.disk), fs.disk)
      ensures AllAccounted(fs.log, fs.licence.own, staged)
      ensures !fs.shared && result.Ok? && KnowsItsFiles(requests, old(fs.disk)) ==>
        && PublishedOk(old(fs.disk), base, Swept(fs.disk, staged), requests, staged)
        && DistinctBy(requests, RequestPath)
        && (undone ==> Swept(fs.disk, staged) == fs.disk)
      ensures !fs.shared && fs.faults == old(fs.faults) && Publishable(old(fs.disk), requests) ==> result.Ok? && undone
      ensures !fs.shared && fs.faults == old(fs.faults) ==> undone
      ensures (!fs.shared && result.Err? && Publishable(old(fs.disk), requests) && fs.faults <= old(fs.faults) + 1) ==>
        undone
      ensures !fs.shared && leaked ==> fs.statFaults > old(fs.statFaults)
    {
      fs.Begin(false);
      base, leaked, undone := fs.disk, false, true;
      NotWidened(fs.disk);
      assert NamesApart([], planned) && PairsOf([]) == {};
      hide FileSystem.Valid, NamesApart, PairsOf, Widened, HasNewFile, Layered, KnowsItsFiles, DistinctBy,
        PublishedOk, Replaced, Emptied, Publishable, StagedOn, StagedFor, AllAccounted, Swept;
      var handle := fs.OpenRoot();
      RunOf(fs);
      NothingTaken(fs.log, fs.licence.own, staged);
      if handle.None? {
        return Err(SystemCallFailed), base, leaked, undone;
      }
      var root := handle.value;
      result, base, leaked, undone := StageAll(root, requests);
      if result.Err? {
        undone := GiveUp(requests, old(fs.disk), base, leaked, undone);
        return;
      }
      result, undone := Conclude(root, requests, old(fs.disk), base);
    }
  }
}
