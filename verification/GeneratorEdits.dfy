/** The edits of a generator, the temporary files that carry them, and what an application and its undoing make of the
    disk (crates/minco-cli/src/generator_cmd.rs, `apply`). */
module GeneratorEdits {
  import opened Disks
  import opened DiskPaths
  import opened OpenPaths
  import opened Options
  import opened Paths
  import opened Sorting
  import opened TreeShapes

  datatype PlannedEdit = PlannedEdit(path: Path, before: Option<Bytes>, after: Bytes)

  function EditPath(e: PlannedEdit): Path { e.path }

  // ---------- Own files ----------

  /** `d` is `base`, except at the names in `placed`: each of the run's own inodes that is linked has one name. */
  ghost predicate Placed(base: Disk, d: Disk, placed: map<Inode, Slot>) {
    && WellFormed(base) && WellFormed(d) && d.root == base.root
    && (forall i :: i in base.nodes ==> i in d.nodes && d.nodes[i] == base.nodes[i])
    && (forall i :: i in placed ==> i !in base.nodes && i in d.nodes && d.nodes[i].File?)
    && (forall i :: i in placed ==> IdentityAt(d, placed[i]) == Some(i) && NodeAt(base, placed[i]) != Some(Directory))
    && (forall s :: s !in placed.Values ==> IdentityAt(d, s) == IdentityAt(base, s))
  }

  lemma NothingPlaced(d: Disk)
    requires WellFormed(d)
    ensures Placed(d, d, map[])
  {
  }

  lemma PlacedApart(base: Disk, d: Disk, placed: map<Inode, Slot>, i: Inode, j: Inode)
    requires Placed(base, d, placed) && i in placed && j in placed && placed[i] == placed[j]
    ensures i == j
  {
  }

  lemma PlacedValue(placed: map<Inode, Slot>, i: Inode)
    requires i in placed
    ensures placed[i] in placed.Values
  {
  }

  lemma ValuesAfterMove(placed: map<Inode, Slot>, i: Inode, to: Slot)
    ensures to in placed[i := to].Values
    ensures forall t :: t in placed.Values && (i in placed ==> t != placed[i]) ==> t in placed[i := to].Values
  {
    var placed' := placed[i := to];
    assert placed'[i] == to;
    forall t | t in placed.Values && (i in placed ==> t != placed[i]) ensures t in placed'.Values {
      var j :| j in placed && placed[j] == t;
      assert j in placed' && placed'[j] == t;
    }
  }

  lemma ValuesAfterRemoval(placed: map<Inode, Slot>, i: Inode)
    requires i in placed
    ensures forall t :: t in placed.Values && t != placed[i] ==> t in (placed - {i}).Values
  {
    var placed' := placed - {i};
    forall t | t in placed.Values && t != placed[i] ensures t in placed'.Values {
      var j :| j in placed && placed[j] == t;
      assert j in placed' && placed'[j] == t;
    }
  }

  /** A new file. */
  lemma PlaceNew(base: Disk, d: Disk, placed: map<Inode, Slot>, s: Slot, i: Inode, data: Bytes)
    requires Placed(base, d, placed) && s !in d.names && i !in d.nodes
    ensures Placed(base, d.(names := d.names[s := i], nodes := d.nodes[i := File(data)]), placed[i := s])
    ensures s !in base.names
  {
    assert s !in placed.Values;
    ValuesAfterMove(placed, i, s);
  }

  /** One of the run's files gets other bytes. */
  lemma PlaceWritten(base: Disk, d: Disk, placed: map<Inode, Slot>, i: Inode, data: Bytes)
    requires Placed(base, d, placed) && i in placed
    ensures Placed(base, d.(nodes := d.nodes[i := File(data)]), placed)
  {
  }

  /** One of the run's files moves from a name that is free on `base`. */
  lemma PlaceMoved(base: Disk, d: Disk, placed: map<Inode, Slot>, i: Inode, to: Slot)
    requires Placed(base, d, placed) && i in placed && placed[i] !in base.names
    requires to !in placed.Values && NodeAt(base, to) != Some(Directory)
    ensures Placed(base, d.(names := d.names[to := i] - {placed[i]}), placed[i := to])
  {
    var from, placed' := placed[i], placed[i := to];
    var d' := d.(names := d.names[to := i] - {from});
    PlacedValue(placed, i);
    forall j | j in placed' ensures IdentityAt(d', placed'[j]) == Some(j) {
      if j != i {
        PlacedValue(placed, j);
        if placed[j] == from { PlacedApart(base, d, placed, i, j); }
      }
    }
    ValuesAfterMove(placed, i, to);
  }

  /** One of the run's files goes away from a name that is free on `base`. */
  lemma PlaceRemoved(base: Disk, d: Disk, placed: map<Inode, Slot>, i: Inode)
    requires Placed(base, d, placed) && i in placed && placed[i] !in base.names
    ensures Placed(base, d.(names := d.names - {placed[i]}), placed - {i})
  {
    var from, placed' := placed[i], placed - {i};
    var d' := d.(names := d.names - {from});
    forall j | j in placed' ensures IdentityAt(d', placed'[j]) == Some(j) {
      if placed[j] == from { PlacedApart(base, d, placed, i, j); }
    }
    ValuesAfterRemoval(placed, i);
  }

  lemma PlacedKeepsDirectories(base: Disk, d: Disk, placed: map<Inode, Slot>)
    requires Placed(base, d, placed)
    ensures DirectoriesKept(base, d)
    ensures forall s :: NodeAt(d, s) == Some(Directory) ==> NodeAt(base, s) == Some(Directory)
  {
    forall s | s in placed.Values ensures NodeAt(d, s) != Some(Directory) && NodeAt(base, s) != Some(Directory) {
      var i :| i in placed && placed[i] == s;
    }
  }

  // ---------- Contents ----------

  /** Every name has the same contents, new directories aside. */
  ghost predicate SameContents(d: Disk, d': Disk) {
    forall s :: NodeAt(d', s) == NodeAt(d, s) || (NodeAt(d, s).None? && NodeAt(d', s) == Some(Directory))
  }

  /** Whatever the run has left in place reads like what was there before. */
  ghost predicate Restored(base: Disk, d: Disk, placed: map<Inode, Slot>) {
    forall i :: i in placed ==> i in d.nodes && NodeAt(base, placed[i]) == Some(d.nodes[i])
  }

  lemma RestoredContents(d0: Disk, base: Disk, d: Disk, placed: map<Inode, Slot>)
    requires WellFormed(d0) && OnlyDirectoriesAdded(d0, base) && Placed(base, d, placed) && Restored(base, d, placed)
    ensures SameContents(d0, d)
  {
    forall s ensures NodeAt(d, s) == NodeAt(base, s) {
      if s in placed.Values {
        var i :| i in placed && placed[i] == s;
      } else if s in base.names {
        assert base.names[s] in base.nodes;
      }
    }
    forall s ensures NodeAt(base, s) == NodeAt(d0, s) || (NodeAt(d0, s).None? && NodeAt(base, s) == Some(Directory)) {
      if s in d0.names {
        assert d0.names[s] in d0.nodes;
      }
    }
  }

  // ---------- Jobs ----------

  /** Where the new file of an edit is: under its temporary name, at the target, at the target with the old bytes
      written back, or removed. */
  datatype Where = AtTemporary | AtTarget | WrittenBack | Gone

  datatype Job = Job(edit: PlannedEdit, target: Slot, temporary: Slot, id: Inode, place: Where)

  ghost predicate Holds(d: Disk, placed: map<Inode, Slot>, id: Inode, slot: Slot, data: Bytes) {
    id in placed && placed[id] == slot && id in d.nodes && d.nodes[id] == File(data)
  }

  /** The target is as the edit was planned for. */
  ghost predicate AsPlanned(base: Disk, edit: PlannedEdit, target: Slot) {
    match edit.before
    case None => target !in base.names
    case Some(before) => NodeAt(base, target) == Some(File(before))
  }

  ghost predicate JobOk(base: Disk, d: Disk, placed: map<Inode, Slot>, j: Job) {
    && j.temporary !in base.names
    && AsPlanned(base, j.edit, j.target)
    && match j.place
       case AtTemporary => Holds(d, placed, j.id, j.temporary, j.edit.after)
       case AtTarget => Holds(d, placed, j.id, j.target, j.edit.after)
       case WrittenBack => j.edit.before.Some? && Holds(d, placed, j.id, j.target, j.edit.before.value)
       case Gone => j.id !in placed
  }

  ghost predicate OwnedBy(jobs: seq<Job>, id: Inode) {
    exists i :: 0 <= i < |jobs| && jobs[i].id == id
  }

  ghost predicate Running(base: Disk, d: Disk, placed: map<Inode, Slot>, jobs: seq<Job>) {
    && Placed(base, d, placed)
    && (forall i :: 0 <= i < |jobs| ==> JobOk(base, d, placed, jobs[i]) && jobs[i].id in d.nodes)
    && (forall i, j :: 0 <= i < j < |jobs| ==> jobs[i].id != jobs[j].id)
    && (forall id :: id in placed ==> OwnedBy(jobs, id))
  }

  /** No two jobs get in each other's way. */
  ghost predicate Apart(jobs: seq<Job>) {
    && (forall i, j :: 0 <= i < |jobs| && 0 <= j < |jobs| ==> jobs[i].temporary != jobs[j].target)
    && (forall i, j :: 0 <= i < j < |jobs| ==>
          jobs[i].target != jobs[j].target && jobs[i].temporary != jobs[j].temporary)
  }

  lemma JobAdded(base: Disk, d: Disk, placed: map<Inode, Slot>, jobs: seq<Job>, j: Job)
    requires Running(base, d, placed, jobs) && AsPlanned(base, j.edit, j.target) && j.place.AtTemporary?
    requires j.temporary !in d.names && j.id !in d.nodes
    ensures var d' := d.(names := d.names[j.temporary := j.id], nodes := d.nodes[j.id := File(j.edit.after)]);
      Running(base, d', placed[j.id := j.temporary], jobs + [j])
  {
    var d' := d.(names := d.names[j.temporary := j.id], nodes := d.nodes[j.id := File(j.edit.after)]);
    var placed', jobs' := placed[j.id := j.temporary], jobs + [j];
    PlaceNew(base, d, placed, j.temporary, j.id, j.edit.after);
    forall i | 0 <= i < |jobs'| ensures JobOk(base, d', placed', jobs'[i]) && jobs'[i].id in d'.nodes {
    }
    forall id | id in placed' ensures OwnedBy(jobs', id) {
      if id == j.id {
        assert jobs'[|jobs|].id == id;
      } else {
        var i :| 0 <= i < |jobs| && jobs[i].id == id;
        assert jobs'[i].id == id;
      }
    }
    hide Placed;
  }

  /** One job goes on; the others stand as they were. */
  lemma JobChanged(base: Disk, d: Disk, placed: map<Inode, Slot>, jobs: seq<Job>, k: nat,
                   d': Disk, placed': map<Inode, Slot>, place: Where)
    requires Running(base, d, placed, jobs) && k < |jobs| && Placed(base, d', placed')
    requires forall id :: id != jobs[k].id ==>
      (id in placed <==> id in placed') && (id in placed ==> placed'[id] == placed[id])
    requires forall id :: id in d.nodes ==> id in d'.nodes && (id != jobs[k].id ==> d'.nodes[id] == d.nodes[id])
    requires JobOk(base, d', placed', jobs[k].(place := place))
    ensures Running(base, d', placed', jobs[k := jobs[k].(place := place)])
  {
    var jobs' := jobs[k := jobs[k].(place := place)];
    forall i | 0 <= i < |jobs'| ensures JobOk(base, d', placed', jobs'[i]) && jobs'[i].id in d'.nodes {
      if i != k {
        assert jobs[i].id != jobs[k].id;
        assert JobOk(base, d, placed, jobs[i]);
      }
    }
    forall id | id in placed' ensures OwnedBy(jobs', id) {
      if id == jobs[k].id {
        assert jobs'[k].id == id;
      } else {
        var i :| 0 <= i < |jobs| && jobs[i].id == id;
        assert jobs'[i].id == id;
      }
    }
    hide Placed;
  }

  /** Where a job may go next: another job's file is not in the way. */
  lemma NotInTheWay(base: Disk, d: Disk, placed: map<Inode, Slot>, jobs: seq<Job>, k: nat)
    requires Running(base, d, placed, jobs) && Apart(jobs) && k < |jobs|
    ensures jobs[k].place.AtTemporary? ==> jobs[k].target !in placed.Values
    ensures !jobs[k].place.AtTemporary? ==> jobs[k].temporary !in placed.Values
  {
    forall id | id in placed
      ensures jobs[k].place.AtTemporary? ==> placed[id] != jobs[k].target
      ensures !jobs[k].place.AtTemporary? ==> placed[id] != jobs[k].temporary
    {
      var i :| 0 <= i < |jobs| && jobs[i].id == id;
      assert JobOk(base, d, placed, jobs[i]);
    }
  }

  /** `rename` of the temporary file, or `hard_link` and `remove_file`. */
  lemma JobInstalled(base: Disk, d: Disk, placed: map<Inode, Slot>, jobs: seq<Job>, k: nat)
    requires Running(base, d, placed, jobs) && Apart(jobs) && k < |jobs| && jobs[k].place.AtTemporary?
    ensures var j := jobs[k];
      var d' := d.(names := d.names[j.target := j.id] - {j.temporary});
      && IdentityAt(d, j.temporary) == Some(j.id) && IdentityAt(d, j.target) != Some(j.id)
      && NodeAt(d, j.temporary) != Some(Directory) && (j.edit.before.None? ==> j.target !in d.names)
      && d' == Moved(d, j.temporary, j.target)
      && Running(base, d', placed[j.id := j.target], jobs[k := j.(place := AtTarget)])
  {
    var j := jobs[k];
    assert JobOk(base, d, placed, j);
    NotInTheWay(base, d, placed, jobs, k);
    PlaceMoved(base, d, placed, j.id, j.target);
    assert IdentityAt(d, j.target) == IdentityAt(base, j.target);
    var d' := d.(names := d.names[j.target := j.id] - {j.temporary});
    hide Placed;
    JobChanged(base, d, placed, jobs, k, d', placed[j.id := j.target], AtTarget);
  }

  /** `remove_file` of the temporary file. */
  lemma TemporaryRemoved(base: Disk, d: Disk, placed: map<Inode, Slot>, jobs: seq<Job>, k: nat)
    requires Running(base, d, placed, jobs) && k < |jobs| && jobs[k].place.AtTemporary?
    ensures var j := jobs[k];
      var d' := d.(names := d.names - {j.temporary});
      && IdentityAt(d, j.temporary) == Some(j.id) && NodeAt(d, j.temporary) != Some(Directory)
      && Running(base, d', placed - {j.id}, jobs[k := j.(place := Gone)])
  {
    var j := jobs[k];
    assert JobOk(base, d, placed, j);
    PlaceRemoved(base, d, placed, j.id);
    assert IdentityAt(d, j.temporary) == Some(j.id);
    hide Placed;
    JobChanged(base, d, placed, jobs, k, d.(names := d.names - {j.temporary}), placed - {j.id}, Gone);
  }

  /** A job whose file has left the temporary name has left nothing there. */
  lemma TemporaryIsFree(base: Disk, d: Disk, placed: map<Inode, Slot>, jobs: seq<Job>, k: nat)
    requires Running(base, d, placed, jobs) && Apart(jobs) && k < |jobs| && !jobs[k].place.AtTemporary?
    ensures jobs[k].temporary !in d.names
  {
    NotInTheWay(base, d, placed, jobs, k);
    assert JobOk(base, d, placed, jobs[k]);
    assert IdentityAt(d, jobs[k].temporary) == IdentityAt(base, jobs[k].temporary);
  }

  /** One step of `rollback_installed`. */
  lemma JobRolledBack(base: Disk, d: Disk, placed: map<Inode, Slot>, jobs: seq<Job>, k: nat)
    requires Running(base, d, placed, jobs) && k < |jobs| && jobs[k].place.AtTarget?
    ensures var j := jobs[k];
      && IdentityAt(d, j.target) == Some(j.id) && j.id in d.nodes && d.nodes[j.id].File?
      && match j.edit.before
         case None =>
           Running(base, d.(names := d.names - {j.target}), placed - {j.id}, jobs[k := j.(place := Gone)])
         case Some(before) =>
           Running(base, d.(nodes := d.nodes[j.id := File(before)]), placed, jobs[k := j.(place := WrittenBack)])
  {
    var j := jobs[k];
    assert JobOk(base, d, placed, j);
    assert IdentityAt(d, j.target) == Some(j.id);
    match j.edit.before
    case None =>
      PlaceRemoved(base, d, placed, j.id);
      hide Placed;
      JobChanged(base, d, placed, jobs, k, d.(names := d.names - {j.target}), placed - {j.id}, Gone);
    case Some(before) =>
      PlaceWritten(base, d, placed, j.id, before);
      hide Placed;
      JobChanged(base, d, placed, jobs, k, d.(nodes := d.nodes[j.id := File(before)]), placed, WrittenBack);
  }

  /** The file of the job is gone, or its target has its old bytes again. */
  ghost predicate Settled(j: Job) {
    j.place.Gone? || j.place.WrittenBack?
  }

  ghost predicate AllSettled(jobs: seq<Job>) {
    forall i :: 0 <= i < |jobs| ==> Settled(jobs[i])
  }

  /** With every file gone or written back, the contents are those of the start. */
  lemma AllRolledBack(d0: Disk, base: Disk, d: Disk, placed: map<Inode, Slot>, jobs: seq<Job>)
    requires WellFormed(d0) && OnlyDirectoriesAdded(d0, base) && Running(base, d, placed, jobs)
    requires AllSettled(jobs)
    ensures SameContents(d0, d)
  {
    forall id | id in placed ensures id in d.nodes && NodeAt(base, placed[id]) == Some(d.nodes[id]) {
      var i :| 0 <= i < |jobs| && jobs[i].id == id;
      assert JobOk(base, d, placed, jobs[i]);
    }
    RestoredContents(d0, base, d, placed);
  }

  // ---------- Plans and results ----------

  datatype Error =
    | PreflightFailed | DirectoryFailed | OpenFailed | WriteFailed | InstallFailed | RollbackFailed

  datatype Result = Ok | Err(error: Error)

  /** `preflight`: every edit still meets the project that it was planned for. */
  ghost predicate Preflighted(d: Disk, edits: seq<PlannedEdit>) {
    forall e :: e in edits ==> ValidRelative(e.path) && Expected(d, e)
  }

  ghost predicate Expected(d: Disk, e: PlannedEdit) {
    match e.before
    case None => EntryAt(d, e.path).None?
    case Some(before) => FileAt(d, e.path) == Some(before)
  }

  /** The edit passes the preflight, and nothing is in the way to its target. */
  ghost predicate Meets(d: Disk, e: PlannedEdit) {
    ValidRelative(e.path) && !Blocked(d, d.root, Parent(e.path)) && Expected(d, e)
  }

  /** `d` is `d0` with new directories and with the new contents at the targets. */
  ghost predicate Generated(d0: Disk, d: Disk, edits: seq<PlannedEdit>) {
    && (forall e :: e in edits ==> ValidRelative(e.path) && FileAt(d, e.path) == Some(e.after))
    && (forall s ::
          || NodeAt(d, s) == NodeAt(d0, s)
          || (NodeAt(d0, s).None? && NodeAt(d, s) == Some(Directory))
          || IsTarget(d, edits, s))
  }

  ghost predicate IsTarget(d: Disk, edits: seq<PlannedEdit>, s: Slot) {
    exists e :: e in edits && e.path != [] && SlotOf(d, e.path) == Some(s)
  }

  /** Applied once more, the edits pass the preflight exactly if none of them creates a file or changes bytes. */
  lemma ReapplyPasses(d0: Disk, d: Disk, edits: seq<PlannedEdit>)
    requires Generated(d0, d, edits)
    ensures Preflighted(d, edits) <==> forall e :: e in edits ==> e.before == Some(e.after)
  {
    forall e | e in edits ensures EntryAt(d, e.path).Some? {
      assert FileAt(d, e.path).Some?;
    }
    if Preflighted(d, edits) {
      forall e | e in edits ensures e.before == Some(e.after) {
        assert FileAt(d, e.path) == Some(e.after);
      }
    }
  }

  // ---------- Temporary files ----------

  function Decimal(n: nat): string {
    if n < 10 then ["0123456789"[n]] else Decimal(n / 10) + ["0123456789"[n % 10]]
  }

  function TemporaryName(file: string, process: string, index: nat): string {
    "." + file + ".minco-" + process + "-" + Decimal(index) + ".tmp"
  }

  function TemporaryPath(path: Path, process: string, index: nat): (r: Path)
    requires path != []
    ensures r != [] && Parent(r) == Parent(path)
  {
    Parent(path) + [TemporaryName(FileName(path), process, index)]
  }

  // ---------- The bookkeeping of a run ----------

  /** Every target can be reached and is as planned. */
  ghost predicate Targeted(base: Disk, edits: seq<PlannedEdit>) {
    forall i :: 0 <= i < |edits| ==>
      && edits[i].path != [] && SlotOf(base, edits[i].path).Some?
      && AsPlanned(base, edits[i], SlotOf(base, edits[i].path).value)
  }

  ghost predicate JobsFor(base: Disk, jobs: seq<Job>, edits: seq<PlannedEdit>, temporaries: seq<Path>) {
    && |jobs| == |temporaries| <= |edits|
    && forall i :: 0 <= i < |jobs| ==>
         && edits[i].path != [] && temporaries[i] != []
         && jobs[i].edit == edits[i]
         && SlotOf(base, edits[i].path) == Some(jobs[i].target)
         && SlotOf(base, temporaries[i]) == Some(jobs[i].temporary)
  }

  ghost predicate AllAt(jobs: seq<Job>, place: Where) {
    forall i :: 0 <= i < |jobs| ==> jobs[i].place == place
  }

  /** The jobs at their targets are those that `installed` lists. */
  ghost predicate Lists(installed: seq<nat>, jobs: seq<Job>) {
    && (forall k :: 0 <= k < |installed| ==> installed[k] < |jobs| && jobs[installed[k]].place.AtTarget?)
    && (forall i :: 0 <= i < |jobs| && jobs[i].place.AtTarget? ==> i in installed)
    && (forall j, k :: 0 <= j < k < |installed| ==> installed[j] != installed[k])
  }

  function Indices(n: nat): (r: seq<nat>)
    ensures |r| == n && forall i :: 0 <= i < n ==> r[i] == i
  {
    seq(n, i => i)
  }

  /** A path that can be reached on `base` leads to the same name while the run goes on. */
  lemma SameSlot(base: Disk, d: Disk, placed: map<Inode, Slot>, path: Path)
    requires Placed(base, d, placed) && path != [] && SlotOf(base, path).Some?
    ensures SlotOf(d, path) == SlotOf(base, path)
  {
    PlacedKeepsDirectories(base, d, placed);
    DescendKept(base, d, base.root, Parent(path));
  }

  /** What the last preflight shows: the jobs do not get in each other's way. */
  lemma JobsApart(base: Disk, d: Disk, placed: map<Inode, Slot>, jobs: seq<Job>, edits: seq<PlannedEdit>,
                  temporaries: seq<Path>)
    requires Running(base, d, placed, jobs) && JobsFor(base, jobs, edits, temporaries) && AllAt(jobs, AtTemporary)
    requires TreeShaped(base) && DistinctBy(edits, EditPath) && Preflighted(d, edits)
    ensures Apart(jobs)
  {
    forall i, j | 0 <= i < |jobs| && 0 <= j < |jobs| ensures jobs[i].temporary != jobs[j].target {
      assert JobOk(base, d, placed, jobs[i]) && JobOk(base, d, placed, jobs[j]);
      assert edits[j] in edits;
      SameSlot(base, d, placed, edits[j].path);
    }
    forall i, j | 0 <= i < j < |jobs|
      ensures jobs[i].target != jobs[j].target && jobs[i].temporary != jobs[j].temporary
    {
      assert JobOk(base, d, placed, jobs[i]) && JobOk(base, d, placed, jobs[j]);
      assert EditPath(edits[i]) != EditPath(edits[j]);
      if jobs[i].target == jobs[j].target {
        OneSlot(base, edits[i].path, edits[j].path);
      }
    }
  }

  lemma TargetGenerated(base: Disk, d: Disk, placed: map<Inode, Slot>, jobs: seq<Job>, edits: seq<PlannedEdit>,
                        temporaries: seq<Path>, i: nat)
    requires Running(base, d, placed, jobs) && JobsFor(base, jobs, edits, temporaries) && AllAt(jobs, AtTarget)
    requires i < |jobs|
    ensures FileAt(d, edits[i].path) == Some(edits[i].after)
    ensures IsTarget(d, edits, jobs[i].target) && placed[jobs[i].id] == jobs[i].target
  {
    assert JobOk(base, d, placed, jobs[i]);
    assert IdentityAt(d, jobs[i].target) == Some(jobs[i].id);
    SameSlot(base, d, placed, edits[i].path);
    assert edits[i] in edits;
    hide Placed;
  }

  lemma OthersGenerated(base: Disk, d: Disk, placed: map<Inode, Slot>, jobs: seq<Job>, edits: seq<PlannedEdit>,
                        temporaries: seq<Path>, s: Slot)
    requires Running(base, d, placed, jobs) && JobsFor(base, jobs, edits, temporaries) && AllAt(jobs, AtTarget)
    ensures NodeAt(d, s) == NodeAt(base, s) || IsTarget(d, edits, s)
  {
    if s in placed.Values {
      var id :| id in placed && placed[id] == s;
      var i :| 0 <= i < |jobs| && jobs[i].id == id;
      TargetGenerated(base, d, placed, jobs, edits, temporaries, i);
    } else if s in base.names {
      assert base.names[s] in base.nodes;
    }
  }

  lemma DirectoriesInContents(d: Disk, d': Disk, s: Slot)
    requires WellFormed(d) && OnlyDirectoriesAdded(d, d')
    ensures NodeAt(d', s) == NodeAt(d, s) || (NodeAt(d, s).None? && NodeAt(d', s) == Some(Directory))
  {
    if s in d.names {
      assert d.names[s] in d.nodes;
    }
  }

  /** A finished run. */
  lemma AllGenerated(d0: Disk, base: Disk, d: Disk, placed: map<Inode, Slot>, jobs: seq<Job>, edits: seq<PlannedEdit>,
                     temporaries: seq<Path>)
    requires WellFormed(d0) && OnlyDirectoriesAdded(d0, base) && Running(base, d, placed, jobs)
    requires JobsFor(base, jobs, edits, temporaries) && |jobs| == |edits| && AllAt(jobs, AtTarget)
    requires forall e :: e in edits ==> ValidRelative(e.path)
    ensures Generated(d0, d, edits)
  {
    hide Running, JobsFor, AllAt, IsTarget, FileAt, ValidRelative, OnlyDirectoriesAdded;
    forall e | e in edits ensures FileAt(d, e.path) == Some(e.after) {
      var i :| 0 <= i < |edits| && edits[i] == e;
      TargetGenerated(base, d, placed, jobs, edits, temporaries, i);
    }
    forall s
      ensures || NodeAt(d, s) == NodeAt(d0, s)
              || (NodeAt(d0, s).None? && NodeAt(d, s) == Some(Directory))
              || IsTarget(d, edits, s)
    {
      OthersGenerated(base, d, placed, jobs, edits, temporaries, s);
      DirectoriesInContents(d0, base, s);
    }
  }

  lemma NotEmpty(path: Path)
    requires ValidRelative(path)
    ensures path != []
  {
  }

  lemma PreflightedFurther(d: Disk, edits: seq<PlannedEdit>, k: nat)
    requires k < |edits|
    ensures Preflighted(d, edits[..k]) && Preflighted(d, [edits[k]]) ==> Preflighted(d, edits[..k + 1])
  {
    TakeOneMore(edits, k);
    assert edits[k] in [edits[k]];
    hide ValidRelative, EntryAt, FileAt;
  }

  lemma StillReached(d: Disk, d': Disk, edits: seq<PlannedEdit>, k: nat)
    requires Widened(d, d') && k < |edits| && edits[k].path != [] && forall e :: e in edits[..k] ==> e.path != []
    requires forall e :: e in edits[..k] ==> SlotOf(d, e.path).Some?
    requires Descend(d', d'.root, Parent(edits[k].path)).Some?
    ensures forall e :: e in edits[..k + 1] ==> e.path != [] && SlotOf(d', e.path).Some?
  {
    TakeOneMore(edits, k);
    OnlyDirectoriesKeep(d, d');
    KeepsDirectories(d, d');
    forall e | e in edits[..k] ensures SlotOf(d', e.path).Some? {
      DescendKept(d, d', d.root, Parent(e.path));
    }
  }

  /** The temporary name of a job, as the run sees it. */
  lemma TemporarySlot(base: Disk, d: Disk, placed: map<Inode, Slot>, jobs: seq<Job>, edits: seq<PlannedEdit>,
                      temporaries: seq<Path>, k: nat)
    requires Running(base, d, placed, jobs) && JobsFor(base, jobs, edits, temporaries) && k < |jobs|
    ensures SlotOf(d, temporaries[k]) == Some(jobs[k].temporary)
    ensures SlotOf(d, edits[k].path) == Some(jobs[k].target)
  {
    SameSlot(base, d, placed, temporaries[k]);
    SameSlot(base, d, placed, edits[k].path);
  }

  lemma JobsForPlaces(base: Disk, jobs: seq<Job>, edits: seq<PlannedEdit>, temporaries: seq<Path>, k: nat, place: Where)
    requires JobsFor(base, jobs, edits, temporaries) && k < |jobs|
    ensures JobsFor(base, jobs[k := jobs[k].(place := place)], edits, temporaries)
  {
  }

  /** The temporary file of an edit goes beside its target. */
  lemma TemporaryReached(base: Disk, d: Disk, placed: map<Inode, Slot>, jobs: seq<Job>, edits: seq<PlannedEdit>, k: nat,
                         temporary: Path)
    requires Running(base, d, placed, jobs) && Targeted(base, edits) && k < |edits|
    requires temporary != [] && Parent(temporary) == Parent(edits[k].path)
    ensures edits[k].path != [] && SlotOf(base, edits[k].path).Some?
    ensures SlotOf(base, temporary).Some? && SlotOf(d, temporary) == SlotOf(base, temporary)
  {
    SameSlot(base, d, placed, temporary);
  }

  lemma TargetedAt(base: Disk, edits: seq<PlannedEdit>, k: nat)
    requires Targeted(base, edits) && k < |edits|
    ensures edits[k].path != [] && SlotOf(base, edits[k].path).Some?
    ensures AsPlanned(base, edits[k], SlotOf(base, edits[k].path).value)
  {
  }

  lemma SlotBesideFile(d: Disk, slot: Slot, id: Inode, data: Bytes, path: Path)
    requires slot !in d.names && id !in d.nodes && path != [] && SlotOf(d, path).Some?
    ensures SlotOf(WithFile(d, slot, id, data), path) == SlotOf(d, path)
  {
    var d' := WithFile(d, slot, id, data);
    assert DirectoriesKept(d, d');
    DescendKept(d, d', d.root, Parent(path));
  }

  /** A temporary file that could not be written is removed again. */
  lemma DiscardedFile(base: Disk, d: Disk, placed: map<Inode, Slot>, jobs: seq<Job>, slot: Slot, id: Inode, data: Bytes,
                      d': Disk, removed: bool)
    requires Running(base, d, placed, jobs) && slot !in d.names && id !in d.nodes
    requires var full := WithFile(d, slot, id, data);
      if removed then d' == full.(names := full.names - {slot})
      else d' == full && (slot !in full.names || NodeAt(full, slot) == Some(Directory))
    ensures Running(base, d', placed, jobs)
  {
    assert d.names[slot := id] - {slot} == d.names;
    assert removed && d' == d.(nodes := d.nodes[id := File(data)]);
    assert id !in placed;
    assert forall i :: 0 <= i < |jobs| ==> jobs[i].id != id;
    forall i | 0 <= i < |jobs| ensures JobOk(base, d', placed, jobs[i]) {
      assert JobOk(base, d, placed, jobs[i]);
    }
  }

  /** `d` with the file at `src` moved to `dst`. */
  ghost function Moved(d: Disk, src: Slot, dst: Slot): Disk
    requires src in d.names
  {
    d.(names := d.names[dst := d.names[src]] - {src})
  }

  lemma ReadyToInstall(base: Disk, d: Disk, placed: map<Inode, Slot>, jobs: seq<Job>, edits: seq<PlannedEdit>,
                       temporaries: seq<Path>, k: nat)
    requires Running(base, d, placed, jobs) && JobsFor(base, jobs, edits, temporaries)
    requires Apart(jobs) && k < |jobs| && jobs[k].place.AtTemporary?
    ensures var j := jobs[k];
      && SlotOf(d, temporaries[k]) == Some(j.temporary) && SlotOf(d, edits[k].path) == Some(j.target)
      && IdentityAt(d, j.temporary) == Some(j.id) && IdentityAt(d, j.target) != Some(j.id)
      && NodeAt(d, j.temporary) != Some(Directory) && (edits[k].before.None? ==> j.target !in d.names)
      && Running(base, Moved(d, j.temporary, j.target), placed[j.id := j.target], jobs[k := j.(place := AtTarget)])
      && JobsFor(base, jobs[k := j.(place := AtTarget)], edits, temporaries)
  {
    TemporarySlot(base, d, placed, jobs, edits, temporaries, k);
    JobInstalled(base, d, placed, jobs, k);
    JobsForPlaces(base, jobs, edits, temporaries, k, AtTarget);
  }

  lemma ReadyToRollBack(base: Disk, d: Disk, placed: map<Inode, Slot>, jobs: seq<Job>, edits: seq<PlannedEdit>,
                        temporaries: seq<Path>, k: nat)
    requires Running(base, d, placed, jobs) && JobsFor(base, jobs, edits, temporaries)
    requires k < |jobs| && jobs[k].place.AtTarget?
    ensures var j := jobs[k];
      && SlotOf(d, edits[k].path) == Some(j.target)
      && IdentityAt(d, j.target) == Some(j.id) && j.id in d.nodes && d.nodes[j.id].File?
      && match edits[k].before
         case None =>
           && Running(base, d.(names := d.names - {j.target}), placed - {j.id}, jobs[k := j.(place := Gone)])
           && JobsFor(base, jobs[k := j.(place := Gone)], edits, temporaries)
         case Some(before) =>
           && Running(base, d.(nodes := d.nodes[j.id := File(before)]), placed, jobs[k := j.(place := WrittenBack)])
           && JobsFor(base, jobs[k := j.(place := WrittenBack)], edits, temporaries)
  {
    TemporarySlot(base, d, placed, jobs, edits, temporaries, k);
    JobRolledBack(base, d, placed, jobs, k);
    JobsForPlaces(base, jobs, edits, temporaries, k, if edits[k].before.None? then Gone else WrittenBack);
  }

  lemma SlotsAfterLink(d: Disk, src: Slot, dst: Slot, from: Path, to: Path)
    requires Enabled(d, Op.HardLink(src, dst)) && from != [] && to != []
    requires SlotOf(d, from) == Some(src) && SlotOf(d, to) == Some(dst)
    ensures var d' := Apply(d, Op.HardLink(src, dst));
      SlotOf(d', from) == Some(src) && SlotOf(d', to) == Some(dst) && NodeAt(d', dst) == NodeAt(d, src)
  {
    var d' := Apply(d, Op.HardLink(src, dst));
    assert DirectoriesKept(d, d');
    DescendKept(d, d', d.root, Parent(from));
    DescendKept(d, d', d.root, Parent(to));
  }

  lemma LinkTakenBack(d: Disk, src: Slot, dst: Slot)
    requires Enabled(d, Op.HardLink(src, dst))
    ensures var d' := Apply(d, Op.HardLink(src, dst)); d'.(names := d'.names - {dst}) == d
  {
    assert d.names[dst := d.names[src]] - {dst} == d.names;
  }

  /** The sort key of the install order. */
  predicate IsUpdate(edits: seq<PlannedEdit>, i: nat) {
    i < |edits| && edits[i].before.Some?
  }

  predicate CreatesFirst(edits: seq<PlannedEdit>, i: nat, j: nat) {
    !IsUpdate(edits, i) || IsUpdate(edits, j)
  }

  ghost predicate IsOrder(edits: seq<PlannedEdit>, order: seq<nat>) {
    && |order| == |edits|
    && (forall i :: i in order <==> 0 <= i < |edits|)
    && (forall j, k :: 0 <= j < k < |order| ==> order[j] != order[k])
  }

  lemma InstallOrder(edits: seq<PlannedEdit>, order: seq<nat>)
    requires order == Sort(Indices(|edits|), (i, j) => CreatesFirst(edits, i, j))
    ensures IsOrder(edits, order)
    ensures forall j, k :: 0 <= j < k < |order| && IsUpdate(edits, order[j]) ==> IsUpdate(edits, order[k])
  {
    var indices, le, key := Indices(|edits|), (i, j) => CreatesFirst(edits, i, j), (i: nat) => i;
    SamePermutation(indices, order);
    SortKeepsDistinct(indices, le, key);
    SortSorts(indices, le);
    forall i ensures i in indices <==> 0 <= i < |edits| {
      if 0 <= i < |edits| {
        assert indices[i] == i;
      }
    }
    forall j, k | 0 <= j < k < |order|
      ensures order[j] != order[k] && (IsUpdate(edits, order[j]) ==> IsUpdate(edits, order[k]))
    {
      assert key(order[j]) != key(order[k]);
      SortedPair(order, le, j, k);
    }
  }

  ghost predicate InstalledSoFar(jobs: seq<Job>, done: seq<nat>) {
    forall i :: 0 <= i < |jobs| ==> jobs[i].place == if i in done then AtTarget else AtTemporary
  }

  lemma OneMoreInstalled(jobs: seq<Job>, done: seq<nat>, i: nat)
    requires InstalledSoFar(jobs, done) && Apart(jobs) && i < |jobs|
    ensures var jobs' := jobs[i := jobs[i].(place := AtTarget)];
      InstalledSoFar(jobs', done + [i]) && Apart(jobs')
  {
    var jobs' := jobs[i := jobs[i].(place := AtTarget)];
    forall k | 0 <= k < |jobs'| ensures jobs'[k].target == jobs[k].target && jobs'[k].temporary == jobs[k].temporary {
    }
  }

  lemma InstalledStays(jobs: seq<Job>, done: seq<nat>, i: nat)
    requires InstalledSoFar(jobs, done) && i < |jobs| && i !in done
    ensures jobs[i].place.AtTemporary?
  {
  }

  lemma AllIn(jobs: seq<Job>, edits: seq<PlannedEdit>, order: seq<nat>)
    requires InstalledSoFar(jobs, order) && IsOrder(edits, order) && |jobs| == |edits|
    ensures AllAt(jobs, AtTarget)
  {
  }

  lemma NoneIn(jobs: seq<Job>)
    requires AllAt(jobs, AtTemporary)
    ensures InstalledSoFar(jobs, [])
  {
  }

  ghost predicate NamesUsable(edits: seq<PlannedEdit>, temporaries: seq<Path>) {
    && |temporaries| == |edits|
    && (forall p :: p in temporaries ==> p != [])
    && (forall i :: 0 <= i < |edits| ==> edits[i].path != [])
  }

  ghost predicate AreIndices(done: seq<nat>, n: nat) {
    && (forall i :: i in done ==> i < n)
    && (forall j, k :: 0 <= j < k < |done| ==> done[j] != done[k])
  }

  lemma OrderPrefix(edits: seq<PlannedEdit>, order: seq<nat>, k: nat)
    requires IsOrder(edits, order) && k <= |order|
    ensures AreIndices(order[..k], |edits|)
  {
    forall i | i in order[..k] ensures i < |edits| {
      assert i in order;
    }
  }

  /** After cleanup what is installed is what is still there. */
  lemma InstalledAfterCleanUp(jobs: seq<Job>, jobs': seq<Job>, done: seq<nat>)
    requires InstalledSoFar(jobs, done) && |jobs'| == |jobs| && AreIndices(done, |jobs|)
    requires forall i :: 0 <= i < |jobs'| ==>
      jobs'[i].place == if jobs[i].place.AtTemporary? then Gone else jobs[i].place
    ensures Lists(done, jobs')
    ensures forall i :: 0 <= i < |jobs'| ==> jobs'[i].place.AtTarget? || Settled(jobs'[i])
  {
    forall j | 0 <= j < |done| ensures done[j] < |jobs'| && jobs'[done[j]].place.AtTarget? {
      assert done[j] in done;
    }
  }

  lemma OrderAt(edits: seq<PlannedEdit>, order: seq<nat>, k: nat)
    requires IsOrder(edits, order) && k < |order|
    ensures order[k] < |edits| && order[k] !in order[..k]
    ensures order[..k + 1] == order[..k] + [order[k]]
  {
    assert order[k] in order;
  }

  lemma PathsNotEmpty(edits: seq<PlannedEdit>)
    requires forall e :: e in edits ==> ValidRelative(e.path)
    ensures forall i :: 0 <= i < |edits| ==> edits[i].path != []
  {
    forall i | 0 <= i < |edits| ensures edits[i].path != [] {
      NotEmpty(edits[i].path);
    }
  }

  lemma SameContentsItself(d: Disk)
    ensures SameContents(d, d)
  {
  }

  lemma WidenedContents(d: Disk, d': Disk)
    requires WellFormed(d) && Widened(d, d')
    ensures SameContents(d, d')
  {
    forall s ensures NodeAt(d', s) == NodeAt(d, s) || (NodeAt(d, s).None? && NodeAt(d', s) == Some(Directory)) {
      DirectoriesInContents(d, d', s);
    }
  }

  /** The run on the disk with all directories in place. */
  lemma RunStarts(d0: Disk, base: Disk, edits: seq<PlannedEdit>)
    requires TreeShaped(d0) && Widened(d0, base) && WellFormed(base) && Preflighted(base, edits)
    requires forall e :: e in edits ==> e.path != [] && SlotOf(base, e.path).Some?
    ensures Running(base, base, map[], []) && JobsFor(base, [], edits, []) && Targeted(base, edits)
    ensures TreeShaped(base) && OnlyDirectoriesAdded(d0, base) && WellFormed(d0)
  {
    NothingPlaced(base);
    OnlyDirectoriesKeep(d0, base);
    TreeShapeKept(d0, base);
    forall i | 0 <= i < |edits|
      ensures edits[i].path != [] && SlotOf(base, edits[i].path).Some?
      ensures AsPlanned(base, edits[i], SlotOf(base, edits[i].path).value)
    {
      assert edits[i] in edits;
    }
  }

  /** A temporary file left behind is a new file. */
  lemma LeftBehind(d0: Disk, base: Disk, d: Disk, placed: map<Inode, Slot>, jobs: seq<Job>)
    requires OnlyDirectoriesAdded(d0, base) && Running(base, d, placed, jobs) && AllAt(jobs, AtTemporary) && jobs != []
    ensures HasNewFile(d0, d)
  {
    var j := jobs[0];
    assert JobOk(base, d, placed, j);
    assert IdentityAt(d, j.temporary) == Some(j.id) && NodeAt(d, j.temporary) == Some(File(j.edit.after));
    assert j.temporary in d.names && j.temporary !in d0.names;
  }

  lemma AllGone(jobs: seq<Job>)
    requires AllAt(jobs, Gone)
    ensures AllSettled(jobs)
  {
  }
}
