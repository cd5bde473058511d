/** The mutable directory tree that every publisher of the repository works on, as a value:
    directory entries, the nodes they name, and the atomic steps that change them.

    An `Inode` stands for the (device, inode) pair that the source calls an identity.  An open
    directory handle is the inode of that directory, so that it stays the same directory when
    the path leading to it is renamed or replaced.  Inode numbers are never reused. */
module Disks {
  import opened Options

  newtype byte = x: int | 0 <= x < 256
  type Bytes = seq<byte>
  type Inode = nat

  datatype Node = File(data: Bytes) | Directory | Special

  datatype Slot = Slot(dir: Inode, name: string)

  /** `root` is the directory that the project path leads to. */
  datatype Disk = Disk(root: Inode, names: map<Slot, Inode>, nodes: map<Inode, Node>)

  predicate WellFormed(d: Disk) {
    forall s :: s in d.names ==> d.names[s] in d.nodes
  }

  ghost predicate Linked(d: Disk, i: Inode) {
    exists s :: s in d.names && d.names[s] == i
  }

  function NodeAt(d: Disk, s: Slot): Option<Node> {
    if s in d.names && d.names[s] in d.nodes then Some(d.nodes[d.names[s]]) else None
  }

  function IdentityAt(d: Disk, s: Slot): Option<Inode> {
    if s in d.names then Some(d.names[s]) else None
  }

  // ---------- Atomic steps ----------

  /** What one system call changes.  `Interference` is anything that other processes do. */
  datatype Op =
    | MakeDirectory(slot: Slot, inode: Inode)
    | CreateFile(slot: Slot, inode: Inode)
    | WriteFile(inode: Inode, data: Bytes)
    | RenameNoReplace(src: Slot, dst: Slot)
    | Exchange(src: Slot, dst: Slot)
    | Unlink(slot: Slot, inode: Inode)
    | HardLink(src: Slot, dst: Slot)
    | RenameReplace(src: Slot, dst: Slot)
    | Interference

  predicate Enabled(d: Disk, op: Op) {
    match op
    case MakeDirectory(s, i) => s !in d.names && i !in d.nodes
    case CreateFile(s, i) => s !in d.names && i !in d.nodes
    case WriteFile(i, _) => i in d.nodes && d.nodes[i].File?
    case RenameNoReplace(src, dst) => src in d.names && dst !in d.names
    case Exchange(src, dst) => src in d.names && dst in d.names
    case Unlink(s, i) => s in d.names && d.names[s] == i
    case HardLink(src, dst) => src in d.names && dst !in d.names
    case RenameReplace(src, _) => src in d.names
    case Interference => true
  }

  function Apply(d: Disk, op: Op): Disk
    requires Enabled(d, op)
  {
    match op
    case MakeDirectory(s, i) => d.(names := d.names[s := i], nodes := d.nodes[i := Directory])
    case CreateFile(s, i) => d.(names := d.names[s := i], nodes := d.nodes[i := File([])])
    case WriteFile(i, data) => d.(nodes := d.nodes[i := File(data)])
    case RenameNoReplace(src, dst) => d.(names := d.names[dst := d.names[src]] - {src})
    case Exchange(src, dst) => d.(names := d.names[dst := d.names[src]][src := d.names[dst]])
    case Unlink(s, _) => d.(names := d.names - {s})
    case HardLink(src, dst) => d.(names := d.names[dst := d.names[src]])
    case RenameReplace(src, dst) =>
      // two links to one inode: POSIX leaves both in place
      if dst in d.names && d.names[dst] == d.names[src] then d
      else d.(names := d.names[dst := d.names[src]] - {src})
    case Interference => d
  }

  /** Other processes may rebind every name and rewrite every file; they cannot turn an existing
      inode into something of another kind, and a number once used is never used again. */
  predicate Interferes(d: Disk, d': Disk) {
    WellFormed(d') && KindsKept(d, d')
  }

  predicate KindsKept(d: Disk, d': Disk) {
    forall i :: i in d.nodes ==>
      && i in d'.nodes
      && (d.nodes[i].File? <==> d'.nodes[i].File?)
      && (d.nodes[i].Directory? <==> d'.nodes[i].Directory?)
  }

  // ---------- Histories ----------

  datatype Event = Event(before: Disk, op: Op, after: Disk)

  ghost predicate IsStep(e: Event) {
    && Enabled(e.before, e.op)
    && if e.op.Interference? then Interferes(e.before, e.after) else e.after == Apply(e.before, e.op)
  }

  /** `log` is a run: each step starts where the one before it stopped. */
  ghost predicate IsRun(log: seq<Event>) {
    && (forall k :: 0 <= k < |log| ==> IsStep(log[k]))
    && (forall k :: 0 < k < |log| ==> log[k - 1].after == log[k].before)
  }

  ghost predicate RunsBetween(log: seq<Event>, d: Disk, d': Disk) {
    && IsRun(log)
    && (if |log| == 0 then d == d' else log[0].before == d && log[|log| - 1].after == d')
  }

  // ---------- Licences ----------

  /** What a run may do.  It owns the inodes that it created, may discard those and the `doomed`
      ones, and may move files between the two names of a pair.  A `replacing` run may in addition
      link, overwrite and unlink anything. */
  datatype Licence = Licence(own: set<Inode>, doomed: set<Inode>, pairs: set<(Slot, Slot)>, replacing: bool)

  ghost predicate Paired(l: Licence, a: Slot, b: Slot) {
    (a, b) in l.pairs || (b, a) in l.pairs
  }

  ghost predicate Permitted(op: Op, l: Licence) {
    match op
    case Interference => true
    case MakeDirectory(_, _) => true
    case CreateFile(_, i) => i in l.own
    case WriteFile(i, _) => i in l.own || l.replacing
    case RenameNoReplace(src, dst) => Paired(l, src, dst)
    case Exchange(src, dst) => Paired(l, src, dst)
    case Unlink(_, i) => i in l.own || i in l.doomed || l.replacing
    case HardLink(_, _) => l.replacing
    case RenameReplace(_, _) => l.replacing
  }

  /** The inodes that a run created. */
  ghost function CreatedIn(log: seq<Event>): set<Inode> {
    if log == [] then {}
    else
      var e := log[|log| - 1];
      CreatedIn(log[..|log| - 1]) + if e.op.CreateFile? then {e.op.inode} else {}
  }

  predicate IsMove(op: Op) {
    op.RenameNoReplace? || op.Exchange?
  }

  /** The steps at which a run moved a file between two names. */
  ghost function MovesIn(log: seq<Event>): set<nat> {
    if log == [] then {}
    else
      var k := |log| - 1;
      MovesIn(log[..k]) + if IsMove(log[k].op) then {k} else {}
  }

  lemma {:induction false} MovesAre(log: seq<Event>, k: nat)
    ensures k in MovesIn(log) <==> k < |log| && IsMove(log[k].op)
  {
    if log != [] {
      MovesAre(log[..|log| - 1], k);
    }
  }

  ghost predicate Disciplined(log: seq<Event>, l: Licence) {
    forall k :: 0 <= k < |log| ==> Permitted(log[k].op, l)
  }

  /** A run may do more when it owns more. */
  lemma MoreIsPermitted(log: seq<Event>, l: Licence, more: Licence)
    requires Disciplined(log, l) && more == l.(own := more.own) && l.own <= more.own
    ensures Disciplined(log, more)
  {
    forall k | 0 <= k < |log| ensures Permitted(log[k].op, more) {
      assert Permitted(log[k].op, l);
    }
  }

  lemma RunGoesOn(log: seq<Event>, d: Disk, e: Event)
    requires RunsBetween(log, d, e.before) && IsStep(e)
    ensures RunsBetween(log + [e], d, e.after)
  {
    hide IsStep;
    var longer := log + [e];
    forall k | 0 <= k < |longer| ensures IsStep(longer[k]) {
      assert longer[k] == if k < |log| then log[k] else e;
    }
    forall k | 0 < k < |longer| ensures longer[k - 1].after == longer[k].before {
      assert longer[k - 1] == log[k - 1] && longer[k] == if k < |log| then log[k] else e;
    }
    assert longer[|longer| - 1] == e && longer[0] == if log == [] then e else log[0];
  }

  lemma StillDisciplined(log: seq<Event>, e: Event, l: Licence)
    requires Disciplined(log, l) && Permitted(e.op, l)
    ensures Disciplined(log + [e], l)
  {
    hide Permitted;
  }

  /** A run goes on by one step. */
  lemma OneMoreStep(log: seq<Event>, d: Disk, e: Event, l: Licence)
    requires RunsBetween(log, d, e.before) && IsStep(e) && Disciplined(log, l) && Permitted(e.op, l)
    ensures RunsBetween(log + [e], d, e.after) && Disciplined(log + [e], l) && log <= log + [e]
    ensures CreatedIn(log + [e]) == CreatedIn(log) + if e.op.CreateFile? then {e.op.inode} else {}
    ensures MovesIn(log + [e]) == MovesIn(log) + if IsMove(e.op) then {|log|} else {}
  {
    hide Permitted, IsStep, RunsBetween, Disciplined, IsMove;
    RunGoesOn(log, d, e);
    StillDisciplined(log, e, l);
    var longer := log + [e];
    assert longer[..|longer| - 1] == log && longer[|longer| - 1] == e;
  }
}
