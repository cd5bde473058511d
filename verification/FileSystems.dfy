/** System calls over a `Disk`.  Each call may fail for reasons of its own (a fault), and when the
    file system is shared other processes may act before the call takes effect. */
module FileSystems {
  import opened Disks
  import opened Options

  datatype StatResult = Missing | Found(inode: Inode, node: Node) | StatFailed

  datatype MakeResult = Made | AlreadyExists | MakeFailed

  /** Outcome of "compare the identity, then unlink". */
  datatype GuardedUnlink = NotSame | Removed | UnlinkFailed

  lemma ValidIsWellFormed(fs: FileSystem)
    requires fs.Valid()
    ensures WellFormed(fs.disk)
  {
  }

  class FileSystem {
    var disk: Disk
    var next: Inode             // every inode number in use is below it
    const shared: bool          // do other processes act?
    ghost var faults: nat       // calls that failed for reasons of their own
    ghost var statFaults: nat   // those of them that were the `fstat` of a handle
    ghost var origin: Disk      // the state when the current run began
    ghost var log: seq<Event>   // every step of the current run
    ghost var moves: set<nat>   // those of them that moved a file between two names
    ghost var licence: Licence  // what the current run may do

    ghost predicate Valid()
      reads this
    {
      && WellFormed(disk)
      && (forall i :: i in disk.nodes ==> i < next)
      && licence.own == CreatedIn(log)
      && (forall i :: i in licence.own ==> i < next && i !in origin.nodes)
      && RunsBetween(log, origin, disk)
      && Disciplined(log, licence)
      && KindsKept(origin, disk)
      && moves == MovesIn(log)
    }

    constructor (disk: Disk, next: Inode, shared: bool)
      requires WellFormed(disk) && forall i :: i in disk.nodes ==> i < next
      ensures Valid() && this.disk == disk && this.shared == shared && faults == 0
    {
      this.disk, this.next, this.shared := disk, next, shared;
      faults := 0;
      origin, log, moves, licence := disk, [], {}, Licence({}, {}, {}, false);
    }

    /** Starts a new run. */
    ghost method Begin(replacing: bool)
      requires Valid()
      modifies `origin, `log, `moves, `licence
      ensures Valid() && origin == disk && licence == Licence({}, {}, {}, replacing) && log == [] && moves == {}
    {
      origin, log, moves, licence := disk, [], {}, Licence({}, {}, {}, replacing);
    }

    /** Licenses moves between the names `a` and `b`. */
    ghost method LicensePair(a: Slot, b: Slot)
      requires Valid()
      modifies `licence
      ensures Valid() && licence == old(licence).(pairs := old(licence).pairs + {(a, b)})
    {
      licence := licence.(pairs := licence.pairs + {(a, b)});
    }

    /** Licenses the removal of `inodes`. */
    ghost method LicenseRemoval(inodes: set<Inode>)
      requires Valid()
      modifies `licence
      ensures Valid() && licence == old(licence).(doomed := old(licence).doomed + inodes)
    {
      licence := licence.(doomed := licence.doomed + inodes);
    }

    /** Counts something that went wrong by chance. */
    ghost method CountFault()
      requires Valid()
      modifies `faults
      ensures Valid() && faults == old(faults) + 1
    {
      faults := faults + 1;
    }

    /** Time passes: numbers are not reused, nodes keep their kind, faults and steps add up. */
    twostate predicate Advances()
      reads this
    {
      && old(next) <= next
      && old(faults) <= faults
      && KindsKept(old(disk), disk)
      && old(log) <= log
    }

    /** What other processes do before the next call takes effect. */
    method Interfere()
      requires Valid()
      modifies `disk, `next, `log
      ensures Valid() && Advances()
      ensures !shared ==> disk == old(disk) && log == old(log)
    {
      hide RunsBetween, Disciplined, CreatedIn, MovesIn;
      var other: Disk := *;
      var bound: Inode := *;
      if shared && Interferes(disk, other) && next <= bound && forall i :: i in other.nodes ==> i < bound {
        OneMoreStep(log, origin, Event(disk, Interference, other), licence);
        log := log + [Event(disk, Interference, other)];
        disk, next := other, bound;
      }
    }

    /** Records one atomic step. */
    method Do(op: Op)
      requires Valid() && !op.Interference? && !IsMove(op) && Enabled(disk, op)
      requires !op.CreateFile? && Permitted(op, licence)
      requires op.MakeDirectory? ==> op.inode < next
      modifies `disk, `log
      ensures Valid() && Advances()
      ensures disk == Apply(old(disk), op)
    {
      hide RunsBetween, Disciplined, CreatedIn, MovesIn, Permitted;
      var event := Event(disk, op, Apply(disk, op));
      OneMoreStep(log, origin, event, licence);
      log := log + [event];
      disk := Apply(disk, op);
    }

    /** Records one move. */
    method DoMove(op: Op)
      requires Valid() && IsMove(op) && Enabled(disk, op) && Permitted(op, licence)
      modifies `disk, `log, `moves
      ensures Valid() && Advances()
      ensures disk == Apply(old(disk), op)
      ensures log == old(log) + [Event(old(disk), op, disk)] && moves == old(moves) + {|old(log)|}
    {
      hide RunsBetween, Disciplined, CreatedIn, MovesIn, Permitted;
      var event := Event(disk, op, Apply(disk, op));
      OneMoreStep(log, origin, event, licence);
      moves := moves + {|log|};
      log := log + [event];
      disk := Apply(disk, op);
    }

    /** Records the creation of a file, which the run then owns. */
    method DoCreate(slot: Slot, i: Inode)
      requires Valid() && Enabled(disk, Op.CreateFile(slot, i)) && i < next && i !in origin.nodes
      modifies `disk, `log, `licence
      ensures Valid() && Advances()
      ensures disk == Apply(old(disk), Op.CreateFile(slot, i))
      ensures licence == old(licence).(own := old(licence).own + {i})
    {
      hide RunsBetween, Disciplined, CreatedIn, MovesIn;
      var event := Event(disk, Op.CreateFile(slot, i), Apply(disk, Op.CreateFile(slot, i)));
      licence := licence.(own := licence.own + {i});
      MoreIsPermitted(log, old(licence), licence);
      OneMoreStep(log, origin, event, licence);
      log := log + [event];
      disk := event.after;
    }

    /** Decides whether this call fails for a reason of its own. */
    method Fault() returns (failed: bool)
      modifies `faults
      ensures faults == if failed then old(faults) + 1 else old(faults)
    {
      failed := *;
      if failed {
        faults := faults + 1;
      }
    }

    /** `open(root)` and `fstat` of the handle. */
    method OpenRoot() returns (root: Option<Inode>)
      requires Valid()
      modifies `disk, `next, `log, `faults
      ensures Valid() && Advances()
      ensures !shared ==> disk == old(disk) && (root == None || root == Some(disk.root))
      ensures !shared && faults == old(faults) ==> root == Some(disk.root)
    {
      Interfere();
      var failed := Fault();
      root := if failed then None else Some(disk.root);
    }

    /** `mkdirat`; an existing entry of any kind is not an error for the callers. */
    method MakeDirectory(slot: Slot) returns (result: MakeResult)
      requires Valid()
      modifies `disk, `next, `log, `faults
      ensures Valid() && Advances()
      ensures !shared ==> match result
        case Made => slot !in old(disk).names && exists i ::
          i !in old(disk).nodes && old(next) <= i && disk == Apply(old(disk), Op.MakeDirectory(slot, i))
        case AlreadyExists => slot in disk.names && disk == old(disk)
        case MakeFailed => disk == old(disk) && faults > old(faults)
    {
      Interfere();
      var failed := Fault();
      if failed {
        return MakeFailed;
      }
      if slot in disk.names {
        return AlreadyExists;
      }
      var i := next;
      next := next + 1;
      Do(Op.MakeDirectory(slot, i));
      return Made;
    }

    /** `openat` with `DIRECTORY | NOFOLLOW`, and `fstat` of the handle. */
    method OpenDirectory(slot: Slot) returns (dir: Option<Inode>)
      requires Valid()
      modifies `disk, `next, `log, `faults
      ensures Valid() && Advances()
      ensures !shared ==> disk == old(disk)
      ensures !shared && dir.Some? ==> NodeAt(disk, slot) == Some(Directory) && disk.names[slot] == dir.value
      ensures !shared && dir.None? && faults == old(faults) ==> NodeAt(disk, slot) != Some(Directory)
    {
      Interfere();
      var failed := Fault();
      dir := if !failed && NodeAt(disk, slot) == Some(Directory) then Some(disk.names[slot]) else None;
    }

    /** `statat` without following symbolic links. */
    method Stat(slot: Slot) returns (result: StatResult)
      requires Valid()
      modifies `disk, `next, `log, `faults
      ensures Valid() && Advances()
      ensures !shared ==> disk == old(disk)
      ensures match result
        case Missing => slot !in disk.names
        case Found(i, node) => IdentityAt(disk, slot) == Some(i) && NodeAt(disk, slot) == Some(node)
        case StatFailed => faults > old(faults)
    {
      Interfere();
      var failed := Fault();
      result := if failed then StatFailed
                else if slot in disk.names then Found(disk.names[slot], disk.nodes[disk.names[slot]])
                else Missing;
    }

    /** `identity_at`: a failing `statat` reads as no identity. */
    method Identity(slot: Slot) returns (id: Option<Inode>)
      requires Valid()
      modifies `disk, `next, `log, `faults
      ensures Valid() && Advances()
      ensures id.Some? ==> id == IdentityAt(disk, slot)
      ensures !shared ==> disk == old(disk)
      ensures !shared && faults == old(faults) ==> id == IdentityAt(disk, slot)
    {
      var result := Stat(slot);
      id := if result.Found? then Some(result.inode) else None;
    }

    /** `openat` for reading and `fstat` of the handle. */
    method OpenFile(slot: Slot) returns (id: Option<Inode>)
      requires Valid()
      modifies `disk, `next, `log, `faults
      ensures Valid() && Advances()
      ensures id.Some? ==> id.value in disk.nodes
      ensures !shared ==> disk == old(disk) && (id.Some? ==> id == IdentityAt(disk, slot))
      ensures !shared && faults == old(faults) ==> id == IdentityAt(disk, slot)
    {
      Interfere();
      var failed := Fault();
      id := if !failed && slot in disk.names then Some(disk.names[slot]) else None;
    }

    /** Reads an open file to its end. */
    method Read(id: Inode) returns (data: Option<Bytes>)
      requires Valid() && id in disk.nodes
      modifies `disk, `next, `log, `faults
      ensures Valid() && Advances()
      ensures !shared ==> disk == old(disk) && (data.Some? ==> disk.nodes[id] == File(data.value))
      ensures !shared && faults == old(faults) && disk.nodes[id].File? ==> data.Some?
    {
      Interfere();
      var failed := Fault();
      data := if !failed && id in disk.nodes && disk.nodes[id].File? then Some(disk.nodes[id].data) else None;
    }

    /** `openat` with `CREATE | EXCL | NOFOLLOW`. */
    method CreateFile(slot: Slot) returns (id: Option<Inode>)
      requires Valid()
      modifies `disk, `next, `log, `faults, `licence
      ensures Valid() && Advances()
      ensures licence == if id.Some? then old(licence).(own := old(licence).own + {id.value}) else old(licence)
      ensures id.Some? ==> id.value in disk.nodes && disk.nodes[id.value].File? && old(next) <= id.value < next
      ensures !shared ==> match id
        case Some(i) => Enabled(old(disk), Op.CreateFile(slot, i)) && disk == Apply(old(disk), Op.CreateFile(slot, i))
        case None => disk == old(disk) && (faults > old(faults) || slot in disk.names)
    {
      Interfere();
      var failed := Fault();
      if failed || slot in disk.names {
        return None;
      }
      var i := next;
      next := next + 1;
      DoCreate(slot, i);
      return Some(i);
    }

    /** `write_all` and `sync_all`; a failing call may have written a part. */
    method WriteAndSync(id: Inode, data: Bytes) returns (ok: bool)
      requires Valid() && id in disk.nodes && disk.nodes[id].File?
      requires id in licence.own || licence.replacing
      modifies `disk, `next, `log, `faults
      ensures Valid() && Advances()
      ensures ok || faults > old(faults)
      ensures id in disk.nodes && disk.nodes[id].File?
      ensures !shared ==> exists n :: 0 <= n <= |data| && disk == Apply(old(disk), Op.WriteFile(id, data[..n]))
      ensures !shared && ok ==> disk == Apply(old(disk), Op.WriteFile(id, data))
    {
      Interfere();
      var failed := Fault();
      var part: int := *;
      var n := if failed && 0 <= part < |data| then part else |data|;
      assert n == |data| ==> data[..n] == data;
      Do(Op.WriteFile(id, data[..n]));
      ok := !failed;
    }

    /** `fstat` of an open handle. */
    method StatHandle() returns (ok: bool)
      requires Valid()
      modifies `disk, `next, `log, `faults, `statFaults
      ensures Valid() && Advances()
      ensures !shared ==> disk == old(disk)
      ensures ok <==> faults == old(faults)
      ensures statFaults == if ok then old(statFaults) else old(statFaults) + 1
    {
      Interfere();
      var failed := Fault();
      ok := !failed;
      if failed {
        statFaults := statFaults + 1;
      }
    }

    /** `fsync` of a directory handle. */
    method SyncDirectory() returns (ok: bool)
      requires Valid()
      modifies `disk, `next, `log, `faults
      ensures Valid() && Advances()
      ensures !shared ==> disk == old(disk)
      ensures ok <==> faults == old(faults)
    {
      Interfere();
      var failed := Fault();
      ok := !failed;
    }

    /** `renameat_with`, which replaces nothing or exchanges. */
    method Move(op: Op) returns (ok: bool)
      requires Valid() && IsMove(op) && Permitted(op, licence)
      modifies `disk, `next, `log, `faults, `moves
      ensures Valid() && Advances()
      ensures ok ==>
        && |log| > 0 && |old(log)| < |log| && log[|log| - 1].op == op && log[|log| - 1].after == disk
        && moves == old(moves) + {|log| - 1}
      ensures !ok ==> moves == old(moves)
      ensures !shared && ok ==> Enabled(old(disk), op) && disk == Apply(old(disk), op)
      ensures !shared && !ok ==> disk == old(disk) && (faults > old(faults) || !Enabled(disk, op))
    {
      Interfere();
      var failed := Fault();
      ok := !failed && Enabled(disk, op);
      if ok {
        DoMove(op);
      }
    }

    /** A system call that performs `op` if it is enabled. */
    method Attempt(op: Op) returns (ok: bool)
      requires Valid() && !op.Interference? && !IsMove(op) && !op.MakeDirectory? && !op.CreateFile?
      requires Permitted(op, licence)
      modifies `disk, `next, `log, `faults
      ensures Valid() && Advances()
      ensures !shared && ok ==> Enabled(old(disk), op) && disk == Apply(old(disk), op)
      ensures !shared && !ok ==> disk == old(disk) && (faults > old(faults) || !Enabled(disk, op))
    {
      Interfere();
      var failed := Fault();
      ok := !failed && Enabled(disk, op);
      if ok {
        Do(op);
      }
    }

    /** `remove_file`: unlinks whatever file has the name. */
    method RemoveFile(slot: Slot) returns (ok: bool)
      requires Valid() && licence.replacing
      modifies `disk, `next, `log, `faults
      ensures Valid() && Advances()
      ensures !shared && ok ==> slot in old(disk).names && NodeAt(old(disk), slot) != Some(Directory)
      ensures !shared && ok ==> disk == Apply(old(disk), Op.Unlink(slot, old(disk).names[slot]))
      ensures !shared && !ok ==> disk == old(disk)
      ensures !shared && !ok && faults == old(faults) ==> slot !in disk.names || NodeAt(disk, slot) == Some(Directory)
    {
      Interfere();
      var failed := Fault();
      ok := !failed && slot in disk.names && NodeAt(disk, slot) != Some(Directory);
      if ok {
        Do(Op.Unlink(slot, disk.names[slot]));
      }
    }

    /** `identity_at` followed by `unlinkat`, with no interference between the two. */
    method UnlinkIfSame(slot: Slot, id: Inode) returns (result: GuardedUnlink)
      requires Valid() && Permitted(Op.Unlink(slot, id), licence)
      modifies `disk, `next, `log, `faults
      ensures Valid() && Advances()
      ensures !shared ==> match result
        case NotSame => disk == old(disk) && (faults == old(faults) ==> IdentityAt(disk, slot) != Some(id))
        case Removed => IdentityAt(old(disk), slot) == Some(id) && disk == Apply(old(disk), Op.Unlink(slot, id))
        case UnlinkFailed => disk == old(disk) && faults > old(faults)
    {
      Interfere();
      var failed := Fault();
      if failed || IdentityAt(disk, slot) != Some(id) {
        return NotSame;
      }
      failed := Fault();
      if failed {
        return UnlinkFailed;
      }
      Do(Op.Unlink(slot, id));
      return Removed;
    }
  }
}
