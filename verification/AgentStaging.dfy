/** What publication of managed files works with: requests, staged files, the order of installs, and how a disk
    looks at each stage (crates/minco-cli/src/agent_cmd.rs, module `secure`). */
module AgentStaging {
  import opened Disks
  import opened DiskPaths
  import opened StagingFiles
  import opened Options
  import opened Paths
  import opened Sorting

  /** SHA-256, as an injective function. */
  datatype Digest = Sha256(preimage: Bytes)

  datatype Inspection = Missing | Regular(contents: Bytes, identity: Inode) | Unsafe

  datatype Expected = ExpectMissing | ExpectRegular(identity: Inode, digest: Digest) | ExpectUnsafe

  datatype WriteRequest = WriteRequest(path: Path, contents: Bytes, expected: Expected)

  datatype InstallState = Staged | Created | Exchanged | RestoreBlocked

  datatype StagedWrite = StagedWrite(
    path: Path, parentPath: Path, parent: Inode, name: string, stagingName: string,
    stagedIdentity: Inode, contents: Bytes, expected: Expected, state: InstallState)
  {
    function Target(): Slot { Slot(parent, name) }

    function Staging(): Slot { Slot(parent, stagingName) }

    /** The one rename that installs this file. */
    function InstallOp(): Op {
      if expected.ExpectMissing? then Op.RenameNoReplace(Staging(), Target()) else Op.Exchange(Staging(), Target())
    }

    function InstalledState(): InstallState {
      if expected.ExpectMissing? then Created else Exchanged
    }

    /** The step that undoes an install. */
    function UndoOp(): Op {
      if expected.ExpectMissing? then Op.Unlink(Target(), stagedIdentity) else Op.Exchange(Staging(), Target())
    }

    /** The inode that cleanup may remove from the staging name. */
    function Discardable(committed: bool): Option<Inode> {
      match state
      case Staged => Some(stagedIdentity)
      case Exchanged => if committed && expected.ExpectRegular? then Some(expected.identity) else None
      case Created => None
      case RestoreBlocked => None
    }
  }

  datatype Error =
    | InvalidPath | UnsafeRequest | ParentUnavailable | SystemCallFailed
    | ChangedAfterPlanning | ChangedIdentity | RootChanged | ParentChanged

  datatype Result<+T> = Ok(value: T) | Err(error: Error)

  // ---------- Install order ----------

  const MANIFEST_PATH: Path := [".minco", "agent-manifest.json"]

  /** Order by (is the manifest, is not an update, path). */
  predicate InstallsBefore(path: Path, update: bool, path': Path, update': bool) {
    var manifest, manifest' := path == MANIFEST_PATH, path' == MANIFEST_PATH;
    if manifest != manifest' then manifest'
    else if update != update' then update
    else PathLeq(path, path')
  }

  predicate InstallLeq(a: StagedWrite, b: StagedWrite) {
    InstallsBefore(a.path, a.expected.ExpectRegular?, b.path, b.expected.ExpectRegular?)
  }

  // ---------- What is true of a slot ----------

  predicate Expects(d: Disk, slot: Slot, expected: Expected) {
    match expected
    case ExpectMissing => slot !in d.names
    case ExpectRegular(id, digest) =>
      && IdentityAt(d, slot) == Some(id)
      && NodeAt(d, slot).Some?
      && NodeAt(d, slot).value.File?
      && Sha256(NodeAt(d, slot).value.data) == digest
    case ExpectUnsafe => false
  }

  // ---------- Layers: what staging has added ----------

  ghost function StagingSlots(staged: seq<StagedWrite>): set<Slot> {
    set w | w in staged :: w.Staging()
  }

  /** `d` is `base` with one staging file for each entry of `staged`. */
  ghost predicate Layered(base: Disk, d: Disk, staged: seq<StagedWrite>) {
    && WellFormed(base)
    && d.root == base.root
    && (forall i :: i in base.nodes ==> i in d.nodes && d.nodes[i] == base.nodes[i])
    && (forall s :: s in base.names ==> s in d.names && d.names[s] == base.names[s])
    && d.names.Keys == base.names.Keys + StagingSlots(staged)
    && (forall w :: w in staged ==>
          && w.Staging() !in base.names
          && IdentityAt(d, w.Staging()) == Some(w.stagedIdentity)
          && w.stagedIdentity !in base.nodes
          && NodeAt(d, w.Staging()) == Some(File(w.contents)))
  }

  function StagingName(w: StagedWrite): string { w.stagingName }

  /** Names chosen for staging are used for nothing else. */
  ghost predicate NamesApart(staged: seq<StagedWrite>, planned: set<string>) {
    && (forall w :: w in staged ==> w.stagingName !in planned && w.name in planned)
    && DistinctBy(staged, StagingName)
  }

  lemma NamesApartFurther(staged: seq<StagedWrite>, planned: set<string>, w: StagedWrite)
    requires NamesApart(staged, planned) && w.stagingName !in planned && w.name in planned
    requires forall v :: v in staged ==> v.stagingName != w.stagingName
    ensures NamesApart(staged + [w], planned)
  {
  }

  /** One install, as a step between two states. */
  ghost predicate Installs(d: Disk, w: StagedWrite, d': Disk) {
    && Expects(d, w.Target(), w.expected)
    && IdentityAt(d, w.Staging()) == Some(w.stagedIdentity)
    && Enabled(d, w.InstallOp())
    && d' == Apply(d, w.InstallOp())
  }

  /** Nothing stands in the way of installing `w`. */
  ghost predicate ReadyToInstall(d: Disk, w: StagedWrite, root: Inode) {
    && d.root == root
    && Descend(d, root, w.parentPath) == Some(w.parent)
    && Expects(d, w.Target(), w.expected)
    && IdentityAt(d, w.Staging()) == Some(w.stagedIdentity)
  }

  /** `w` is installed and nothing has touched its names since. */
  ghost predicate ReadyToUndo(d: Disk, w: StagedWrite) {
    && w.state == w.InstalledState()
    && !w.expected.ExpectUnsafe?
    && IdentityAt(d, w.Target()) == Some(w.stagedIdentity)
    && (w.expected.ExpectRegular? ==> IdentityAt(d, w.Staging()) == Some(w.expected.identity))
  }

  /** `history[k]` is the state in which entry `k` was installed. */
  ghost predicate InstallHistory(history: seq<Disk>, staged: seq<StagedWrite>, done: nat) {
    && |history| == done + 1
    && done <= |staged|
    && (forall k :: 0 <= k < done ==> Installs(history[k], staged[k], history[k + 1]))
    && (forall k :: 0 <= k < done ==> staged[k].state == staged[k].InstalledState())
    && (forall k :: done <= k < |staged| ==> staged[k].state.Staged?)
  }

  /** Directories made under the staging layer belong to the layer below it. */
  lemma LayeredGrows(base: Disk, d: Disk, d': Disk, staged: seq<StagedWrite>)
    requires Layered(base, d, staged) && Widened(d, d') && WellFormed(d')
    ensures Layered(Grown(base, d, d'), d', staged) && Widened(base, Grown(base, d, d'))
    ensures DirectoriesKept(d, d')
  {
    var base' := Grown(base, d, d');
    GrownDisk(base, d, d');
    GrownByDirectories(base, d, d');
    OnlyDirectoriesKeepNames(d, d');
    OnlyDirectoriesKeep(d, d');
    KeepsDirectories(d, d');
    forall w | w in staged
      ensures w.Staging() !in base'.names && IdentityAt(d', w.Staging()) == Some(w.stagedIdentity)
      ensures w.stagedIdentity !in base'.nodes && NodeAt(d', w.Staging()) == Some(File(w.contents))
    {
      StagedStillThere(base, d, d', staged, w);
    }
    UnionRegroup(base.names.Keys, StagingSlots(staged), d'.names.Keys - d.names.Keys);
    assert Widened(base, base');
    hide Grown, Widened, OnlyDirectoriesAdded, NewNamesFresh, StagingSlots, NodeAt, WellFormed, IdentityAt;
  }

  lemma UnionRegroup(x: set<Slot>, y: set<Slot>, z: set<Slot>)
    ensures (x + y) + z == (x + z) + y
  {
  }

  lemma StagedStillThere(base: Disk, d: Disk, d': Disk, staged: seq<StagedWrite>, w: StagedWrite)
    requires Layered(base, d, staged) && Keeps(d, d') && w in staged
    ensures var base' := Grown(base, d, d');
      && w.Staging() !in base'.names && IdentityAt(d', w.Staging()) == Some(w.stagedIdentity)
      && w.stagedIdentity !in base'.nodes && NodeAt(d', w.Staging()) == Some(File(w.contents))
  {
    assert w.Staging() in d.names && w.stagedIdentity in d.nodes;
  }

  /** A finished staging file is one more entry of the staging layer. */
  lemma LayerStagedFile(base: Disk, d: Disk, d': Disk, staged: seq<StagedWrite>, w: StagedWrite)
    requires Layered(base, d, staged)
    requires w.Staging() !in d.names && w.stagedIdentity !in d.nodes
    requires d' == WithFile(d, w.Staging(), w.stagedIdentity, w.contents)
    requires WellFormed(d)
    ensures Layered(base, d', staged + [w])
  {
    assert StagingSlots(staged + [w]) == StagingSlots(staged) + {w.Staging()};
    forall v | v in staged + [w]
      ensures v.Staging() !in base.names
      ensures IdentityAt(d', v.Staging()) == Some(v.stagedIdentity)
      ensures v.stagedIdentity !in base.nodes
      ensures NodeAt(d', v.Staging()) == Some(File(v.contents))
    {
      if v in staged {
        assert v.Staging() in d.names;
      } else {
        assert v == w;
      }
    }
  }

  /** A staging file that was unlinked again leaves the layers as they were. */
  lemma LayerDiscardedFile(base: Disk, d: Disk, d': Disk, staged: seq<StagedWrite>, i: Inode, node: Node)
    requires Layered(base, d, staged) && WellFormed(d) && i !in d.nodes
    requires d' == d.(nodes := d.nodes[i := node])
    ensures Layered(base, d', staged)
  {
  }

  /** A file left behind under an unused name counts as part of the lower layer. */
  lemma LayerLeakedFile(base: Disk, d: Disk, staged: seq<StagedWrite>, slot: Slot, id: Inode, data: Bytes)
    requires Layered(base, d, staged) && WellFormed(d) && slot !in d.names && id !in d.nodes
    ensures Layered(WithFile(base, slot, id, data), WithFile(d, slot, id, data), staged)
    ensures HasNewFile(base, WithFile(base, slot, id, data))
  {
    var base', d' := WithFile(base, slot, id, data), WithFile(d, slot, id, data);
    forall w | w in staged
      ensures w.Staging() !in base'.names
      ensures IdentityAt(d', w.Staging()) == Some(w.stagedIdentity)
      ensures w.stagedIdentity !in base'.nodes
      ensures NodeAt(d', w.Staging()) == Some(File(w.contents))
    {
      assert w.Staging() in d.names && w.Staging() != slot;
    }
    assert NodeAt(base', slot) == Some(File(data));
    assert slot in base'.names && slot !in base.names;
  }

  /** `b` is `a` with other install states. */
  ghost predicate SameButStates(a: seq<StagedWrite>, b: seq<StagedWrite>) {
    |a| == |b| && forall k :: 0 <= k < |a| ==> b[k] == a[k].(state := b[k].state)
  }

  /** The staging names that cleanup empties. */
  ghost function Emptied(d: Disk, staged: seq<StagedWrite>, committed: bool): set<Slot> {
    set w | w in staged && w.Discardable(committed).Some?
         && IdentityAt(d, w.Staging()) == w.Discardable(committed) :: w.Staging()
  }

  /** Undoing the last of some installs gives the state before it, up to emptied staging names. */
  lemma UndoInstall(d: Disk, w: StagedWrite, d': Disk, gone: set<Slot>)
    requires Installs(d, w, d') && w.state == w.InstalledState() && !w.expected.ExpectUnsafe?
    requires w.Target() !in gone && w.Staging() !in gone && w.name != w.stagingName
    ensures var now := d'.(names := d'.names - gone);
      && ReadyToUndo(now, w)
      && Enabled(now, w.UndoOp())
      && Apply(now, w.UndoOp()) ==
           d.(names := d.names - (gone + if w.expected.ExpectMissing? then {w.Staging()} else {}))
  {
    var now := d'.(names := d'.names - gone);
    var gone' := gone + if w.expected.ExpectMissing? then {w.Staging()} else {};
    assert Apply(now, w.UndoOp()).names == d.names - gone';
  }

  /** Installing one file leaves the others ready. */
  lemma StillReady(d: Disk, w: StagedWrite, d': Disk, v: StagedWrite, root: Inode)
    requires Installs(d, w, d') && ReadyToInstall(d, v, root) && !w.expected.ExpectUnsafe?
    requires NodeAt(d, w.Staging()) == Some(File(w.contents))
    requires v.Target() != w.Target() && v.Target() != w.Staging() && v.Staging() != w.Target()
    requires v.Staging() != w.Staging()
    ensures ReadyToInstall(d', v, root)
  {
    DescendKept(d, d', root, v.parentPath);
  }

  /** Every file is ready and no two have the same target. */
  ghost predicate AllReady(d: Disk, staged: seq<StagedWrite>, root: Inode) {
    && (forall w :: w in staged ==> ReadyToInstall(d, w, root) && NodeAt(d, w.Staging()) == Some(File(w.contents)))
    && (forall j, k :: 0 <= j < k < |staged| ==> staged[j].Target() != staged[k].Target())
  }

  lemma RestStillReady(
      d: Disk, staged: seq<StagedWrite>, k: nat, staged': seq<StagedWrite>, d': Disk, root: Inode, planned: set<string>)
    requires k < |staged| && AllReady(d, staged[k..], root) && NamesApart(staged, planned)
    requires |staged'| == |staged|
    requires staged' == staged[k := staged[k].(state := staged'[k].state)] && Installs(d, staged'[k], d')
    requires !staged[k].expected.ExpectUnsafe?
    ensures AllReady(d', staged'[k + 1..], root)
  {
    var now, rest := staged[k..], staged'[k + 1..];
    assert rest == now[1..] && staged[k] == now[0];
    forall v | v in rest
      ensures ReadyToInstall(d', v, root) && NodeAt(d', v.Staging()) == Some(File(v.contents))
    {
      var j :| 0 <= j < |rest| && rest[j] == v;
      assert v == staged[k + 1 + j] && StagingName(staged[k]) != StagingName(staged[k + 1 + j]);
      assert staged[k].Target() != v.Target() by { assert now[0].Target() != now[j + 1].Target(); }
      StillReady(d, staged[k], d', v, root);
    }
  }

  ghost predicate InstalledUpTo(staged: seq<StagedWrite>, k: nat) {
    && k <= |staged|
    && (forall j :: 0 <= j < k ==> staged[j].state == staged[j].InstalledState())
    && (forall j :: k <= j < |staged| ==> staged[j].state.Staged?)
  }

  lemma OneMoreInstalled(staged: seq<StagedWrite>, k: nat, staged': seq<StagedWrite>)
    requires InstalledUpTo(staged, k) && k < |staged|
    requires staged' == staged[k := staged[k].(state := staged[k].InstalledState())]
    ensures InstalledUpTo(staged', k + 1)
  {
  }

  lemma NextIsStaged(staged: seq<StagedWrite>, k: nat)
    requires InstalledUpTo(staged, k) && k < |staged|
    ensures staged[k].state.Staged?
  {
  }

  lemma AllInstalled(staged: seq<StagedWrite>)
    requires InstalledUpTo(staged, |staged|)
    ensures forall w :: w in staged ==> w.state == w.InstalledState()
  {
  }

  /** One more install in a history. */
  lemma HistoryFurther(history: seq<Disk>, staged: seq<StagedWrite>, k: nat, staged': seq<StagedWrite>, d': Disk)
    requires InstallHistory(history, staged, k) && k < |staged|
    requires staged' == staged[k := staged[k].(state := staged[k].InstalledState())]
    requires Installs(history[k], staged'[k], d')
    ensures InstallHistory(history + [d'], staged', k + 1)
  {
  }

  /** How far a rollback has come: entries from `k` on are undone, up to the emptied names `gone`. */
  ghost predicate RolledBack(
      history: seq<Disk>, staged: seq<StagedWrite>, done: nat, d: Disk, gone: set<Slot>, k: nat)
  {
    && |history| == done + 1 && done <= |staged| && k <= |staged|
    && (forall j :: 0 <= j < done ==> Installs(history[j], staged[j], history[j + 1]))
    && (forall j :: 0 <= j < done && j < k ==> staged[j].state == staged[j].InstalledState())
    && (forall j :: 0 <= j < |staged| && (done <= j || k <= j) ==> staged[j].state.Staged?)
    && (forall s :: s in gone ==> exists j :: k <= j < |staged| && s == staged[j].Staging())
    && var at := history[if k < done then k else done];
       d == at.(names := at.names - gone)
  }

  lemma RollbackStarts(history: seq<Disk>, staged: seq<StagedWrite>, done: nat, d: Disk)
    requires InstallHistory(history, staged, done) && d == history[done]
    ensures RolledBack(history, staged, done, d, {}, |staged|)
  {
    assert d.names - {} == d.names;
  }

  /** An entry that was installed can be undone, and undoing it is one step of the rollback. */
  lemma RollbackStep(
      history: seq<Disk>, staged: seq<StagedWrite>, planned: set<string>, done: nat, d: Disk, gone: set<Slot>, k: nat)
    requires RolledBack(history, staged, done, d, gone, k) && 0 < k <= done
    requires NamesApart(staged, planned) && !staged[k - 1].expected.ExpectUnsafe?
    ensures var w := staged[k - 1];
      && ReadyToUndo(d, w) && Enabled(d, w.UndoOp())
      && RolledBack(history, staged[k - 1 := w.(state := Staged)], done, Apply(d, w.UndoOp()),
                    gone + if w.expected.ExpectMissing? then {w.Staging()} else {}, k - 1)
  {
    var w := staged[k - 1];
    forall s | s in gone ensures s != w.Target() && s != w.Staging() {
      var j :| k <= j < |staged| && s == staged[j].Staging();
      assert StagingName(staged[k - 1]) != StagingName(staged[j]) && staged[j].stagingName !in planned;
    }
    UndoInstall(history[k - 1], w, history[k], gone);
    var staged' := staged[k - 1 := w.(state := Staged)];
    var gone' := gone + if w.expected.ExpectMissing? then {w.Staging()} else {};
    forall s | s in gone'
      ensures exists j :: k - 1 <= j < |staged'| && s == staged'[j].Staging()
    {
      if s in gone {
        var j :| k <= j < |staged| && s == staged[j].Staging();
        assert s == staged'[j].Staging();
      } else {
        assert s == staged'[k - 1].Staging();
      }
    }
  }

  lemma RollbackSkips(
      history: seq<Disk>, staged: seq<StagedWrite>, done: nat, d: Disk, gone: set<Slot>, k: nat)
    requires RolledBack(history, staged, done, d, gone, k) && done < k
    ensures staged[k - 1].state.Staged? && RolledBack(history, staged, done, d, gone, k - 1)
  {
  }

  /** One round of the rollback, given what undoing one entry does. */
  lemma RollbackRound(
      history: seq<Disk>, staged: seq<StagedWrite>, planned: set<string>, done: nat, d: Disk, gone: set<Slot>, k: nat,
      staged': seq<StagedWrite>, d': Disk) returns (gone': set<Slot>)
    requires RolledBack(history, staged, done, d, gone, k + 1) && |staged'| == |staged|
    requires NamesApart(staged, planned) && !staged[k].expected.ExpectUnsafe?
    requires staged' == staged[k := staged[k].(state := staged'[k].state)]
    requires staged[k].state.Staged? ==> staged'[k].state.Staged? && d' == d
    requires ReadyToUndo(d, staged[k]) ==>
      staged'[k].state.Staged? && Enabled(d, staged'[k].UndoOp()) && d' == Apply(d, staged'[k].UndoOp())
    ensures RolledBack(history, staged', done, d', gone', k)
  {
    if k < done {
      RollbackStep(history, staged, planned, done, d, gone, k + 1);
      gone' := gone + if staged[k].expected.ExpectMissing? then {staged[k].Staging()} else {};
    } else {
      RollbackSkips(history, staged, done, d, gone, k + 1);
      assert staged' == staged;
      gone' := gone;
    }
  }

  function TargetSlot(w: StagedWrite): Slot { w.Target() }

  function RequestPath(r: WriteRequest): Path { r.path }

  /** After `k` installs: the first `k` targets hold their new files, the replaced files wait under
      the staging names, and nothing else has moved. */
  ghost predicate InstalledSoFar(start: Disk, d: Disk, staged: seq<StagedWrite>, k: nat) {
    && k <= |staged|
    && d.root == start.root && d.nodes == start.nodes
    && (forall j :: 0 <= j < k ==>
          && IdentityAt(d, staged[j].Target()) == Some(staged[j].stagedIdentity)
          && IdentityAt(d, staged[j].Staging()) ==
               if staged[j].expected.ExpectRegular? then Some(staged[j].expected.identity) else None)
    && (forall j :: k <= j < |staged| ==> IdentityAt(d, staged[j].Staging()) == IdentityAt(start, staged[j].Staging()))
    && DistinctBy(staged[..k], TargetSlot)
    && (forall s ::
          (forall j :: 0 <= j < |staged| ==> s != staged[j].Staging() && (j < k ==> s != staged[j].Target())) ==>
          IdentityAt(d, s) == IdentityAt(start, s))
  }

  /** No expected file is one of the staged ones. */
  ghost predicate ExpectsNoStaged(staged: seq<StagedWrite>) {
    forall v, w :: v in staged && w in staged && v.expected.ExpectRegular? ==> v.expected.identity != w.stagedIdentity
  }

  lemma InstallOneMore(start: Disk, d: Disk, staged: seq<StagedWrite>, planned: set<string>, k: nat, d': Disk)
    requires InstalledSoFar(start, d, staged, k) && k < |staged| && Installs(d, staged[k], d')
    requires NamesApart(staged, planned) && ExpectsNoStaged(staged)
    requires forall w :: w in staged ==> !w.expected.ExpectUnsafe?
    ensures InstalledSoFar(start, d', staged, k + 1)
  {
    var w := staged[k];
    forall j | 0 <= j < |staged| && j != k
      ensures staged[j].Staging() != w.Staging() && staged[j].Staging() != w.Target()
      ensures staged[j].Target() != w.Staging()
    {
      assert StagingName(staged[j]) != StagingName(w);
      assert staged[j].stagingName !in planned && w.stagingName !in planned;
    }
    forall j | 0 <= j < k ensures staged[j].Target() != w.Target() {
      assert staged[j] in staged && w in staged;
      assert IdentityAt(d, staged[j].Target()) == Some(staged[j].stagedIdentity);
    }
    assert w.Target() != w.Staging() by { assert w.stagingName !in planned && w.name in planned; }
    DistinctOneMore(staged, k, TargetSlot);
    hide DistinctBy, NamesApart;
  }

  lemma NothingInstalled(d: Disk, staged: seq<StagedWrite>)
    ensures InstalledSoFar(d, d, staged, 0)
  {
  }

  lemma {:induction false} AfterInstalls(history: seq<Disk>, staged: seq<StagedWrite>, planned: set<string>, done: nat,
                                         k: nat)
    requires InstallHistory(history, staged, done) && k <= done
    requires NamesApart(staged, planned) && ExpectsNoStaged(staged)
    requires forall w :: w in staged ==> !w.expected.ExpectUnsafe?
    ensures InstalledSoFar(history[0], history[k], staged, k)
  {
    if k == 0 {
      NothingInstalled(history[0], staged);
    } else {
      AfterInstalls(history, staged, planned, done, k - 1);
      InstallOneMore(history[0], history[k - 1], staged, planned, k - 1, history[k]);
    }
    hide InstalledSoFar, Installs, NamesApart, ExpectsNoStaged;
  }

  /** The disk without the staging names. */
  ghost function Swept(d: Disk, staged: seq<StagedWrite>): Disk {
    d.(names := d.names - StagingSlots(staged))
  }

  /** Some staging names may have been emptied, and nothing else has changed. */
  ghost predicate OnlyEmptied(d: Disk, d': Disk, staged: seq<StagedWrite>) {
    && d'.root == d.root && d'.nodes == d.nodes
    && (forall s :: s in d'.names ==> s in d.names && d'.names[s] == d.names[s])
    && (forall s :: s in d.names && s !in StagingSlots(staged) ==> s in d'.names)
  }

  lemma NothingEmptied(d: Disk, staged: seq<StagedWrite>, committed: bool)
    ensures OnlyEmptied(d, d, staged) && d == d.(names := d.names - Emptied(d, staged[..0], committed))
  {
    assert d.names - Emptied(d, staged[..0], committed) == d.names;
  }

  lemma EmptiedFurther(d: Disk, d': Disk, d'': Disk, staged: seq<StagedWrite>, k: nat)
    requires OnlyEmptied(d, d', staged) && k < |staged|
    requires d'' == d' || d'' == d'.(names := d'.names - {staged[k].Staging()})
    ensures OnlyEmptied(d, d'', staged)
  {
    assert staged[k] in staged;
  }

  /** One round of a cleanup in which no call fails. */
  lemma OneMoreEmptied(d: Disk, d': Disk, staged: seq<StagedWrite>, k: nat, committed: bool)
    requires k < |staged| && d' == d.(names := d.names - Emptied(d, staged[..k], committed))
    ensures var w := staged[k];
      var gone := w.Discardable(committed).Some? && IdentityAt(d', w.Staging()) == w.Discardable(committed);
      d.(names := d.names - Emptied(d, staged[..k + 1], committed)) ==
      if gone then d'.(names := d'.names - {w.Staging()}) else d'
  {
    var w := staged[k];
    TakeOneMore(staged, k);
    var before, after := Emptied(d, staged[..k], committed), Emptied(d, staged[..k + 1], committed);
    var gone := w.Discardable(committed).Some? && IdentityAt(d', w.Staging()) == w.Discardable(committed);
    if gone {
      assert after == before + {w.Staging()};
      assert d.names - after == (d.names - before) - {w.Staging()};
    } else {
      assert after - before <= {w.Staging()};
      assert d.names - after == d.names - before;
    }
  }

  /** Behind a commit, however much of the cleanup came through, the disk without staging names is the same. */
  lemma SweptByCleanup(start: Disk, d: Disk, d': Disk, staged: seq<StagedWrite>)
    requires InstalledSoFar(start, d, staged, |staged|) && OnlyEmptied(d, d', staged)
    requires forall w :: w in staged ==> w.state == w.InstalledState() && !w.expected.ExpectUnsafe?
    ensures Swept(d', staged) == d.(names := d.names - Emptied(d, staged, true)) && d'.root == d.root
    ensures d' == d.(names := d.names - Emptied(d, staged, true)) ==> Swept(d', staged) == d'
  {
    var emptied := d.(names := d.names - Emptied(d, staged, true));
    assert Emptied(d, staged, true) <= StagingSlots(staged);
    forall s ensures s in emptied.names <==> s in Swept(d', staged).names {
      if s in StagingSlots(staged) {
        var k :| 0 <= k < |staged| && s == staged[k].Staging();
        assert staged[k] in staged;
        StagingAfterCleanup(start, d, staged, k);
      }
    }
    assert Swept(d', staged).names == emptied.names;
  }

  /** `d` is `base` with every target bound to its new file. */
  ghost predicate Published(base: Disk, d: Disk, staged: seq<StagedWrite>) {
    && d.root == base.root
    && (forall i :: i in base.nodes ==> i in d.nodes && d.nodes[i] == base.nodes[i])
    && (forall w :: w in staged ==>
          && IdentityAt(d, w.Target()) == Some(w.stagedIdentity)
          && w.stagedIdentity !in base.nodes
          && NodeAt(d, w.Target()) == Some(File(w.contents)))
    && (forall s :: (forall w :: w in staged ==> w.Target() != s) ==> IdentityAt(d, s) == IdentityAt(base, s))
  }

  /** A committed target keeps its file when the staging names are emptied. */
  lemma TargetAfterCleanup(
      base: Disk, start: Disk, d: Disk, staged: seq<StagedWrite>, planned: set<string>, layered: seq<StagedWrite>,
      k: nat)
    requires Layered(base, start, layered) && SameButStates(layered, staged)
    requires InstalledSoFar(start, d, staged, |staged|) && NamesApart(staged, planned) && k < |staged|
    ensures var d' := d.(names := d.names - Emptied(d, staged, true));
      && IdentityAt(d', staged[k].Target()) == Some(staged[k].stagedIdentity)
      && staged[k].stagedIdentity !in base.nodes
      && NodeAt(d', staged[k].Target()) == Some(File(staged[k].contents))
  {
    var w := staged[k];
    assert layered[k] in layered;
    assert w in staged && w.name in planned;
    assert forall v :: v in staged ==> v.stagingName !in planned;
    assert w.Target() !in Emptied(d, staged, true);
  }

  /** A committed staging name is empty. */
  lemma StagingAfterCleanup(start: Disk, d: Disk, staged: seq<StagedWrite>, k: nat)
    requires InstalledSoFar(start, d, staged, |staged|) && k < |staged|
    requires staged[k].state == staged[k].InstalledState() && !staged[k].expected.ExpectUnsafe?
    ensures staged[k].Staging() !in d.names - Emptied(d, staged, true)
  {
    var w := staged[k];
    assert w in staged;
    assert w.expected.ExpectRegular? ==> w.Staging() in Emptied(d, staged, true);
  }

  /** A name that no entry uses is as in the lower layer. */
  lemma OthersAfterCleanup(
      base: Disk, start: Disk, d: Disk, staged: seq<StagedWrite>, layered: seq<StagedWrite>, s: Slot)
    requires Layered(base, start, layered) && s !in StagingSlots(layered)
    requires IdentityAt(d, s) == IdentityAt(start, s) && s !in StagingSlots(staged)
    ensures IdentityAt(d.(names := d.names - Emptied(d, staged, true)), s) == IdentityAt(base, s)
  {
  }

  lemma PublishedAfterCleanup(
      base: Disk, start: Disk, d: Disk, staged: seq<StagedWrite>, planned: set<string>, layered: seq<StagedWrite>)
    requires Layered(base, start, layered) && SameButStates(layered, staged)
    requires InstalledSoFar(start, d, staged, |staged|) && NamesApart(staged, planned)
    requires forall w :: w in staged ==> w.state == w.InstalledState() && !w.expected.ExpectUnsafe?
    ensures Published(base, d.(names := d.names - Emptied(d, staged, true)), staged)
    ensures DistinctBy(staged, TargetSlot)
  {
    TakeAll(staged);
    SameStagingSlots(layered, staged);
    var d' := d.(names := d.names - Emptied(d, staged, true));
    forall w | w in staged
      ensures IdentityAt(d', w.Target()) == Some(w.stagedIdentity)
      ensures w.stagedIdentity !in base.nodes
      ensures NodeAt(d', w.Target()) == Some(File(w.contents))
    {
      var k :| 0 <= k < |staged| && staged[k] == w;
      TargetAfterCleanup(base, start, d, staged, planned, layered, k);
    }
    forall s | forall w :: w in staged ==> w.Target() != s
      ensures IdentityAt(d', s) == IdentityAt(base, s)
    {
      if s in StagingSlots(staged) {
        var k :| 0 <= k < |staged| && s == staged[k].Staging();
        StagingAfterCleanup(start, d, staged, k);
        assert layered[k] in layered;
      } else {
        assert forall j :: 0 <= j < |staged| ==> staged[j] in staged;
        OthersAfterCleanup(base, start, d, staged, layered, s);
      }
    }
  }

  lemma SameStagingSlots(a: seq<StagedWrite>, b: seq<StagedWrite>)
    requires SameButStates(a, b)
    ensures StagingSlots(a) == StagingSlots(b)
  {
    forall s | s in StagingSlots(a) ensures s in StagingSlots(b) {
      var k :| 0 <= k < |a| && s == a[k].Staging();
      assert b[k] in b && b[k].Staging() == s;
    }
    forall s | s in StagingSlots(b) ensures s in StagingSlots(a) {
      var k :| 0 <= k < |b| && s == b[k].Staging();
      assert a[k] in a && a[k].Staging() == s;
    }
  }

  /** After a rollback, cleanup empties every staging name that is still bound. */
  lemma RollbackLeavesStagedFile(start: Disk, d: Disk, gone: set<Slot>, staged: seq<StagedWrite>, w: StagedWrite)
    requires w in staged && w.state.Staged? && IdentityAt(start, w.Staging()) == Some(w.stagedIdentity)
    requires d == start.(names := start.names - gone) && w.Staging() in d.names
    ensures w.Staging() in Emptied(d, staged, false)
  {
  }

  /** Installing replaces files only. */
  lemma {:induction false} DirectoriesAfterInstalls(history: seq<Disk>, staged: seq<StagedWrite>, done: nat, k: nat)
    requires InstallHistory(history, staged, done) && k <= done
    requires forall w :: w in staged ==>
      && w.stagedIdentity in history[0].nodes && history[0].nodes[w.stagedIdentity].File?
      && !w.expected.ExpectUnsafe?
    ensures DirectoriesKept(history[0], history[k])
    ensures history[k].nodes == history[0].nodes && history[k].root == history[0].root
  {
    if k > 0 {
      DirectoriesAfterInstalls(history, staged, done, k - 1);
      assert staged[k - 1] in staged;
      assert DirectoriesKept(history[k - 1], history[k]);
    }
  }

  /** What a commit removes are files. */
  lemma DirectoriesAfterCleanup(history: seq<Disk>, staged: seq<StagedWrite>, done: nat, d: Disk)
    requires InstallHistory(history, staged, done) && done == |staged| && d == history[done]
    requires forall w :: w in staged ==>
      && w.stagedIdentity in history[0].nodes && history[0].nodes[w.stagedIdentity].File?
      && !w.expected.ExpectUnsafe?
    requires forall w :: w in staged ==> w.state == w.InstalledState()
    ensures var d' := d.(names := d.names - Emptied(d, staged, true));
      DirectoriesKept(history[0], d') && d'.root == history[0].root
  {
    DirectoriesAfterInstalls(history, staged, done, done);
    forall s | s in Emptied(d, staged, true) ensures NodeAt(d, s) != Some(Directory) {
      var w :| w in staged && w.Discardable(true).Some? && IdentityAt(d, w.Staging()) == w.Discardable(true) &&
        s == w.Staging();
      var k :| 0 <= k < |staged| && staged[k] == w;
      DirectoriesAfterInstalls(history, staged, done, k);
      assert Installs(history[k], w, history[k + 1]);
    }
  }

  /** A rollback and a cleanup leave the lower layer. */
  lemma RestoredAfterCleanup(
      base: Disk, history: seq<Disk>, done: nat, d: Disk, gone: set<Slot>, staged: seq<StagedWrite>,
      layered: seq<StagedWrite>)
    requires RolledBack(history, staged, done, d, gone, 0)
    requires Layered(base, history[0], layered) && SameButStates(layered, staged)
    ensures OnlyDirectoriesAdded(base, d.(names := d.names - Emptied(d, staged, false)))
    ensures d.names - Emptied(d, staged, false) == base.names
  {
    var d' := d.(names := d.names - Emptied(d, staged, false));
    assert forall w :: w in staged ==> w.state.Staged?;
    assert gone <= StagingSlots(staged) && Emptied(d, staged, false) <= StagingSlots(staged);
    SameStagingSlots(layered, staged);
    forall s ensures s in d'.names <==> s in base.names {
      if s in StagingSlots(layered) && s in d.names {
        var k :| 0 <= k < |layered| && s == layered[k].Staging();
        assert layered[k] in layered;
        RollbackLeavesStagedFile(history[0], d, gone, staged, staged[k]);
      }
    }
  }

  lemma OneStateChanged(a: seq<StagedWrite>, b: seq<StagedWrite>, k: nat, c: seq<StagedWrite>, state: InstallState)
    requires SameButStates(a, b) && k < |b| && c == b[k := b[k].(state := state)]
    ensures SameButStates(a, c)
  {
  }

  lemma FirstIsReady(d: Disk, staged: seq<StagedWrite>, k: nat, root: Inode)
    requires k < |staged| && AllReady(d, staged[k..], root)
    ensures ReadyToInstall(d, staged[k], root)
  {
    assert staged[k] == staged[k..][0];
  }

  ghost function PairsOf(staged: seq<StagedWrite>): set<(Slot, Slot)> {
    set w | w in staged :: (w.Staging(), w.Target())
  }

  /** The files that a committed run replaces. */
  ghost function Replaced(requests: seq<WriteRequest>): set<Inode> {
    set r | r in requests && r.expected.ExpectRegular? :: r.expected.identity
  }

  ghost predicate Stages(w: StagedWrite, r: WriteRequest) {
    && r == WriteRequest(w.path, w.contents, w.expected)
    && w.path != [] && w.parentPath == Parent(w.path) && w.name == FileName(w.path)
  }

  /** Every expected file exists. */
  ghost predicate KnowsItsFiles(requests: seq<WriteRequest>, d: Disk) {
    forall r :: r in requests && r.expected.ExpectRegular? ==> r.expected.identity in d.nodes
  }

  ghost predicate StagedFor(staged: seq<StagedWrite>, requests: seq<WriteRequest>) {
    && |staged| <= |requests|
    && forall k :: 0 <= k < |staged| ==> Stages(staged[k], requests[k]) && staged[k].state.Staged?
  }

  lemma SortedStagedFor(staged: seq<StagedWrite>, sorted: seq<StagedWrite>, requests: seq<WriteRequest>)
    requires StagedFor(staged, requests) && forall w :: w in sorted <==> w in staged
    ensures forall w :: w in sorted ==> w.state.Staged? && ComesFrom(w, requests)
  {
    forall w | w in sorted ensures w.state.Staged? && ComesFrom(w, requests) {
      var k :| 0 <= k < |staged| && staged[k] == w;
      assert Stages(w, requests[k]);
    }
    hide Stages;
  }

  /** The parents that staging opened are where the paths lead. */
  ghost predicate ParentsOpen(d: Disk, root: Inode, staged: seq<StagedWrite>) {
    forall w :: w in staged ==> Descend(d, root, w.parentPath) == Some(w.parent)
  }

  lemma OneMoreOpen(d: Disk, root: Inode, staged: seq<StagedWrite>, w: StagedWrite)
    requires ParentsOpen(d, root, staged) && Descend(d, root, w.parentPath) == Some(w.parent)
    ensures ParentsOpen(d, root, staged + [w])
  {
  }

  lemma LayeredIsWellFormed(base: Disk, d: Disk, staged: seq<StagedWrite>)
    requires Layered(base, d, staged)
    ensures WellFormed(base)
  {
  }

  lemma LayeredDirectories(base: Disk, d: Disk, d': Disk, staged: seq<StagedWrite>)
    requires Layered(base, d, staged) && DirectoriesKept(d, d')
    ensures DirectoriesKept(base, d') && WellFormed(base)
  {
  }

  lemma NoNewNames(d: Disk, d': Disk)
    requires OnlyDirectoriesAdded(d, d') && d'.names == d.names
    ensures Widened(d, d')
  {
  }

  lemma ParentsStayOpen(d: Disk, d': Disk, root: Inode, staged: seq<StagedWrite>)
    requires ParentsOpen(d, root, staged) && DirectoriesKept(d, d')
    ensures ParentsOpen(d', root, staged)
  {
    forall w | w in staged ensures Descend(d', root, w.parentPath) == Some(w.parent) {
      DescendKept(d, d', root, w.parentPath);
    }
  }

  /** Sorting into install order keeps everything that staging has established. */
  lemma InstallOrderKeeps(base: Disk, d: Disk, root: Inode, staged: seq<StagedWrite>, planned: set<string>)
    requires NamesApart(staged, planned)
    ensures var sorted := Sort(staged, InstallLeq);
      && (forall w :: w in sorted <==> w in staged)
      && |sorted| == |staged|
      && NamesApart(sorted, planned)
      && PairsOf(sorted) == PairsOf(staged)
      && (Layered(base, d, staged) ==> Layered(base, d, sorted))
      && (ParentsOpen(d, root, staged) ==> ParentsOpen(d, root, sorted))
  {
    var sorted := Sort(staged, InstallLeq);
    SamePermutation(staged, sorted);
    SortKeepsDistinct(staged, InstallLeq, StagingName);
    assert StagingSlots(sorted) == StagingSlots(staged);
    assert PairsOf(sorted) == PairsOf(staged);
  }

  ghost predicate ComesFrom(w: StagedWrite, requests: seq<WriteRequest>) {
    exists r :: r in requests && Stages(w, r)
  }

  lemma StatesChangedTwice(a: seq<StagedWrite>, b: seq<StagedWrite>, c: seq<StagedWrite>)
    requires SameButStates(a, b) && SameButStates(b, c)
    ensures SameButStates(a, c)
  {
  }

  lemma StatesKeepOrigins(a: seq<StagedWrite>, b: seq<StagedWrite>, requests: seq<WriteRequest>)
    requires SameButStates(a, b) && forall w :: w in a ==> ComesFrom(w, requests)
    ensures forall w :: w in b ==> ComesFrom(w, requests)
    ensures PairsOf(a) == PairsOf(b)
  {
    forall w | w in b ensures ComesFrom(w, requests) && (w.Staging(), w.Target()) in PairsOf(a) {
      var k :| 0 <= k < |b| && b[k] == w;
      assert a[k] in a;
      var r :| r in requests && Stages(a[k], r);
      assert Stages(w, r);
    }
    forall w | w in a ensures (w.Staging(), w.Target()) in PairsOf(b) {
      var k :| 0 <= k < |a| && a[k] == w;
      assert b[k] in b;
    }
  }

  /** Cleaning up after a failed staging leaves the lower layer. */
  lemma CleanedAfterStaging(origin: Disk, base: Disk, d: Disk, staged: seq<StagedWrite>, leaked: bool)
    requires Layered(base, d, staged) && forall w :: w in staged ==> w.state.Staged?
    requires if leaked then HasNewFile(origin, base) else Widened(origin, base)
    ensures var d' := d.(names := d.names - Emptied(d, staged, false));
      if leaked then HasNewFile(origin, d') else Widened(origin, d')
  {
    var d' := d.(names := d.names - Emptied(d, staged, false));
    assert Emptied(d, staged, false) == StagingSlots(staged);
    assert d'.names == base.names;
    assert OnlyDirectoriesAdded(base, d');
    if leaked {
      var s :| s in base.names && s !in origin.names && NodeAt(base, s).Some? && NodeAt(base, s).value.File?;
      assert NodeAt(d', s) == NodeAt(base, s);
    } else {
      DirectoriesTwice(origin, base, d');
    }
  }

  lemma SameRoot(origin: Disk, base: Disk, d: Disk, staged: seq<StagedWrite>)
    requires OnlyDirectoriesAdded(origin, base) && Layered(base, d, staged)
    ensures d.root == origin.root
  {
  }

  lemma StagedAreNotExpected(
      origin: Disk, base: Disk, d: Disk, requests: seq<WriteRequest>, layered: seq<StagedWrite>,
      staged: seq<StagedWrite>)
    requires OnlyDirectoriesAdded(origin, base) && Layered(base, d, layered)
    requires KnowsItsFiles(requests, origin) && StagedFor(layered, requests)
    requires SameButStates(Sort(layered, InstallLeq), staged)
    ensures ExpectsNoStaged(staged)
  {
    var sorted := Sort(layered, InstallLeq);
    SamePermutation(layered, sorted);
    forall v, w | v in staged && w in staged && v.expected.ExpectRegular?
      ensures v.expected.identity != w.stagedIdentity
    {
      var i :| 0 <= i < |staged| && staged[i] == v;
      var j :| 0 <= j < |staged| && staged[j] == w;
      assert sorted[i] in layered && sorted[j] in layered;
      var k :| 0 <= k < |layered| && layered[k] == sorted[i];
      assert requests[k] in requests;
    }
  }

  ghost predicate PublishedAt(d: Disk, w: StagedWrite, r: WriteRequest) {
    Stages(w, r) && r.path != [] && SlotOf(d, r.path) == Some(w.Target())
  }

  lemma LayeredFiles(base: Disk, d: Disk, layered: seq<StagedWrite>, staged: seq<StagedWrite>)
    requires Layered(base, d, layered) && SameButStates(layered, staged)
    ensures forall w :: w in staged ==> w.stagedIdentity in d.nodes && d.nodes[w.stagedIdentity].File?
  {
    forall w | w in staged ensures w.stagedIdentity in d.nodes && d.nodes[w.stagedIdentity].File? {
      var k :| 0 <= k < |staged| && staged[k] == w;
      assert layered[k] in layered;
    }
  }

  /** Every request of a finished publication is bound where its path leads. */
  lemma PublishedRequest(
      d: Disk, d': Disk, root: Inode, requests: seq<WriteRequest>, layered: seq<StagedWrite>,
      staged: seq<StagedWrite>, k: nat)
    requires StagedFor(layered, requests) && k < |layered| && ParentsOpen(d, root, layered)
    requires DirectoriesKept(d, d') && d'.root == root
    requires SameButStates(Sort(layered, InstallLeq), staged)
    ensures exists w :: w in staged && PublishedAt(d', w, requests[k])
  {
    var sorted := Sort(layered, InstallLeq);
    SamePermutation(layered, sorted);
    assert layered[k] in layered;
    DescendKept(d, d', root, layered[k].parentPath);
    var j :| 0 <= j < |sorted| && sorted[j] == layered[k];
    assert staged[j] in staged && PublishedAt(d', staged[j], requests[k]);
  }

  /** Every entry of a finished publication comes from a request, and is bound where that leads. */
  lemma PublishedEntry(
      d: Disk, d': Disk, root: Inode, requests: seq<WriteRequest>, layered: seq<StagedWrite>, staged: seq<StagedWrite>,
      w: StagedWrite)
    requires StagedFor(layered, requests) && ParentsOpen(d, root, layered)
    requires DirectoriesKept(d, d') && d'.root == root
    requires SameButStates(Sort(layered, InstallLeq), staged) && w in staged
    ensures exists r :: r in requests && PublishedAt(d', w, r)
  {
    var sorted := Sort(layered, InstallLeq);
    SamePermutation(layered, sorted);
    var j :| 0 <= j < |staged| && staged[j] == w;
    assert sorted[j] in layered;
    var k :| 0 <= k < |layered| && layered[k] == sorted[j];
    DescendKept(d, d', root, layered[k].parentPath);
    assert requests[k] in requests && PublishedAt(d', w, requests[k]);
  }

  /** Every request has its file, every staged file is that of a request, and below them only directories are new. */
  ghost predicate PublishedOk(d0: Disk, base: Disk, d: Disk, requests: seq<WriteRequest>, staged: seq<StagedWrite>) {
    && Widened(d0, base) && WellFormed(base) && Published(base, d, staged) && DirectoriesKept(base, d)
    && (forall r :: r in requests ==> exists w :: w in staged && PublishedAt(d, w, r))
    && (forall w :: w in staged ==> exists r :: r in requests && PublishedAt(d, w, r))
  }

  lemma PublishedRequests(
      d: Disk, d': Disk, root: Inode, requests: seq<WriteRequest>, layered: seq<StagedWrite>, staged: seq<StagedWrite>)
    requires StagedFor(layered, requests) && |layered| == |requests| && ParentsOpen(d, root, layered)
    requires DirectoriesKept(d, d') && d'.root == root
    requires SameButStates(Sort(layered, InstallLeq), staged) && DistinctBy(staged, TargetSlot)
    ensures forall r :: r in requests ==> exists w :: w in staged && PublishedAt(d', w, r)
    ensures forall w :: w in staged ==> exists r :: r in requests && PublishedAt(d', w, r)
    ensures DistinctBy(requests, RequestPath)
  {
    hide *;
    forall r | r in requests ensures exists w :: w in staged && PublishedAt(d', w, r) {
      var k :| 0 <= k < |requests| && requests[k] == r;
      PublishedRequest(d, d', root, requests, layered, staged, k);
    }
    forall w | w in staged ensures exists r :: r in requests && PublishedAt(d', w, r) {
      PublishedEntry(d, d', root, requests, layered, staged, w);
    }
    DistinctTargetsDistinctPaths(d, root, requests, layered, Sort(layered, InstallLeq), staged);
  }

  lemma DistinctTargetsDistinctPaths(
      d: Disk, root: Inode, requests: seq<WriteRequest>, layered: seq<StagedWrite>, sorted: seq<StagedWrite>,
      staged: seq<StagedWrite>)
    requires StagedFor(layered, requests) && |layered| == |requests| && ParentsOpen(d, root, layered)
    requires sorted == Sort(layered, InstallLeq) && SameButStates(sorted, staged) && DistinctBy(staged, TargetSlot)
    ensures DistinctBy(requests, RequestPath)
  {
    StatesKeepTargets(sorted, staged);
    hide Sort, SameButStates, DistinctBy, ParentsOpen, StagedFor;
    SortReflectsDistinct(layered, InstallLeq, TargetSlot);
    RequestsDistinct(d, root, requests, layered);
  }

  lemma StatesKeepTargets(sorted: seq<StagedWrite>, staged: seq<StagedWrite>)
    requires SameButStates(sorted, staged) && DistinctBy(staged, TargetSlot)
    ensures DistinctBy(sorted, TargetSlot)
  {
    forall i, j | 0 <= i < j < |sorted| ensures TargetSlot(sorted[i]) != TargetSlot(sorted[j]) {
      assert TargetSlot(staged[i]) != TargetSlot(staged[j]);
    }
  }

  lemma RequestsDistinct(d: Disk, root: Inode, requests: seq<WriteRequest>, layered: seq<StagedWrite>)
    requires StagedFor(layered, requests) && |layered| == |requests| && ParentsOpen(d, root, layered)
    requires DistinctBy(layered, TargetSlot)
    ensures DistinctBy(requests, RequestPath)
  {
    forall i, j | 0 <= i < j < |requests| ensures RequestPath(requests[i]) != RequestPath(requests[j]) {
      DistinctPaths(d, root, requests, layered, i, j);
    }
  }

  lemma DistinctPaths(d: Disk, root: Inode, requests: seq<WriteRequest>, layered: seq<StagedWrite>, i: nat, j: nat)
    requires StagedFor(layered, requests) && |layered| == |requests| && ParentsOpen(d, root, layered)
    requires DistinctBy(layered, TargetSlot) && i < j < |requests|
    ensures RequestPath(requests[i]) != RequestPath(requests[j])
  {
    assert TargetSlot(layered[i]) != TargetSlot(layered[j]);
    assert layered[i] in layered && layered[j] in layered;
    hide Descend;
  }

  lemma LayerEffect(base: Disk, d: Disk, staged: seq<StagedWrite>, w: StagedWrite, effect: StagingEffect, d': Disk)
    requires Layered(base, d, staged) && WellFormed(d)
    requires HasEffect(d, w.Staging(), w.contents, effect, d')
    requires effect.Written? ==> w.stagedIdentity == effect.id
    ensures Layered(LowerDisk(base, w.Staging(), effect), d', if effect.Written? then staged + [w] else staged)
    ensures effect.Left? ==> HasNewFile(base, LowerDisk(base, w.Staging(), effect))
    ensures DirectoriesKept(d, d')
  {
    match effect
    case Untouched =>
    case Written(id) => LayerStagedFile(base, d, d', staged, w);
    case Left(id, data) => LayerLeakedFile(base, d, staged, w.Staging(), id, data);
    case Removed(id, node) => LayerDiscardedFile(base, d, d', staged, id, node);
  }

  /** What `stage` establishes once the parent is open and the target is as expected. */
  lemma StageLayers(
      base: Disk, base': Disk, d: Disk, root: Inode, staged: seq<StagedWrite>, planned: set<string>,
      w: StagedWrite, effect: StagingEffect, d': Disk)
    requires Layered(base', d, staged) && WellFormed(d)
    requires HasEffect(d, w.Staging(), w.contents, effect, d')
    requires effect.Written? ==> w.stagedIdentity == effect.id
    requires Descend(d, root, w.parentPath) == Some(w.parent)
    requires Expects(d, w.Target(), w.expected)
    requires NamesApart(staged, planned) && w.name in planned
    ensures Expects(base', w.Target(), w.expected)
    ensures Layered(LowerDisk(base', w.Staging(), effect), d', if effect.Written? then staged + [w] else staged)
    ensures DirectoriesKept(d, d') && Descend(d', root, w.parentPath) == Some(w.parent)
    ensures effect.Left? && Widened(base, base') ==> HasNewFile(base, LowerDisk(base', w.Staging(), effect))
  {
    LayerEffect(base', d, staged, w, effect, d');
    DescendKept(d, d', root, w.parentPath);
    assert w.Target() !in StagingSlots(staged);
  }
}
