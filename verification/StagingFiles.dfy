/** Staging files: what writing one may leave behind. */
module StagingFiles {
  import opened Disks
  import opened DiskPaths
  import opened FileSystems
  import opened Options

  /** What became of a new staging file: none was created, it holds its bytes, it was left behind, or it was
      removed again. */
  datatype StagingEffect =
    | Untouched | Written(id: Inode) | Left(id: Inode, data: Bytes) | Removed(id: Inode, node: Node)

  ghost predicate HasEffect(d: Disk, slot: Slot, contents: Bytes, effect: StagingEffect, d': Disk) {
    match effect
    case Untouched => d' == d
    case Written(id) => slot !in d.names && id !in d.nodes && d' == WithFile(d, slot, id, contents)
    case Left(id, data) => slot !in d.names && id !in d.nodes && d' == WithFile(d, slot, id, data)
    case Removed(id, node) => id !in d.nodes && d' == d.(nodes := d.nodes[id := node])
  }

  /** The lower disk after `effect`. */
  ghost function LowerDisk(base: Disk, slot: Slot, effect: StagingEffect): Disk {
    if effect.Left? then WithFile(base, slot, effect.id, effect.data) else base
  }

  /** The second half of `stage` and of `prepare`: creates the file, writes it, and unlinks it again if that fails.
      The `fstat` of the new file may fail, which returns without unlinking it; `undone` says that no call failed
      that was to undo the creation. */
  method WriteNewFile(fs: FileSystem, slot: Slot, contents: Bytes)
    returns (id: Option<Inode>, ghost effect: StagingEffect, ghost undone: bool)
    requires fs.Valid()
    modifies fs`disk, fs`next, fs`log, fs`faults, fs`statFaults, fs`licence
    ensures fs.Valid() && old(fs.faults) <= fs.faults
    ensures fs.licence == old(fs.licence).(own := fs.licence.own) && old(fs.licence.own) <= fs.licence.own
    ensures match id case Some(i) => undone && effect == Written(i) && i in fs.licence.own case None => !effect.Written?
    ensures !fs.shared ==> HasEffect(old(fs.disk), slot, contents, effect, fs.disk)
    ensures !fs.shared && undone && effect.Left? ==> effect.data == [] && fs.statFaults > old(fs.statFaults)
    ensures !fs.shared && effect.Left? ==> fs.faults > old(fs.faults)
    ensures old(fs.statFaults) <= fs.statFaults && (!fs.shared && !undone ==> fs.faults >= old(fs.faults) + 2)
    ensures !fs.shared && fs.faults == old(fs.faults) && slot !in old(fs.disk.names) ==> id.Some?
  {
    hide RunsBetween, Disciplined, CreatedIn, Apply, WithFile;
    undone, effect := true, Untouched;
    ghost var before := fs.disk;
    id := fs.CreateFile(slot);
    if id.None? {
      return;
    }
    var i := id.value;
    if !fs.shared {
      CreatedWrittenRemoved(before, slot, i, []);
    }
    var known := fs.StatHandle();
    if !known {
      return None, Left(i, []), undone;
    }
    ghost var data: Bytes;
    var written := fs.WriteAndSync(i, contents);
    if !fs.shared {
      CreatedWrittenRemoved(before, slot, i, contents);
      ghost var n :|
        0 <= n <= |contents| && fs.disk == Apply(WithFile(before, slot, i, []), Op.WriteFile(i, contents[..n]));
      data := if written then contents else contents[..n];
      CreatedWrittenRemoved(before, slot, i, data);
    }
    if written {
      var current := fs.Identity(slot);
      if current == Some(i) {
        return Some(i), Written(i), undone;
      }
    }
    ghost var faults := fs.faults;
    if !fs.shared {
      SlotOfNewFile(before, slot, i, data);
    }
    var removal := fs.UnlinkIfSame(slot, i);
    undone := fs.faults == faults;
    if !fs.shared {
      effect := if removal.Removed? then StagingEffect.Removed(i, Node.File(data)) else Left(i, data);
    }
    id := None;
  }
}
