/** When the edits of a generator have nothing in their way: every target is as planned and can be reached, none lies
    on the way to another, and the names of the temporary files are free. */
module GeneratorReadiness {
  import opened Disks
  import opened DiskPaths
  import opened GeneratorEdits
  import opened OpenPaths
  import opened Options
  import opened Paths
  import opened Sorting
  import opened TreeShapes

  // ---------- Temporary names ----------

  lemma DecimalDigits(n: nat)
    ensures Decimal(n) != "" && forall c :: c in Decimal(n) ==> c != '-'
  {
  }

  lemma LastDigit(n: nat)
    ensures var text := Decimal(n);
      && text != "" && text[|text| - 1] == "0123456789"[n % 10]
      && text[..|text| - 1] == if n < 10 then "" else Decimal(n / 10)
  {
  }

  lemma SameDigit(a: nat, b: nat)
    requires a < 10 && b < 10 && "0123456789"[a] == "0123456789"[b]
    ensures a == b
  {
  }

  lemma {:induction false} DecimalInjective(m: nat, n: nat)
    requires Decimal(m) == Decimal(n)
    ensures m == n
  {
    LastDigit(m);
    LastDigit(n);
    SameDigit(m % 10, n % 10);
    if m >= 10 && n >= 10 {
      DecimalInjective(m / 10, n / 10);
    } else {
      LastDigit(m / 10);
      LastDigit(n / 10);
    }
    hide Decimal;
  }

  /** What follows the last dash is determined. */
  lemma AfterLastDash(x: string, y: string, s: string, t: string, tail: string)
    requires x + "-" + s + tail == y + "-" + t + tail && '-' !in s && '-' !in t
    ensures s == t
  {
    if |s| == |t| {
      assert s == (x + "-" + s + tail)[|x| + 1..|x| + 1 + |s|] && t == (y + "-" + t + tail)[|y| + 1..|y| + 1 + |t|];
    } else if |s| < |t| {
      DashInLonger(x, y, s, t, tail);
    } else {
      DashInLonger(y, x, t, s, tail);
    }
  }

  lemma DashInLonger(x: string, y: string, s: string, t: string, tail: string)
    requires x + "-" + s + tail == y + "-" + t + tail && |s| < |t|
    ensures '-' in t
  {
    assert (x + "-" + s + tail)[|x|] == '-' && (y + "-" + t + tail)[|x|] == t[|x| - |y| - 1];
  }

  /** The temporary files of two edits never share a name. */
  lemma TemporariesDiffer(p: Path, q: Path, process: string, i: nat, j: nat)
    requires p != [] && q != [] && i != j
    ensures TemporaryPath(p, process, i) != TemporaryPath(q, process, j)
  {
    var a, b := TemporaryPath(p, process, i), TemporaryPath(q, process, j);
    if a == b {
      assert a[|a| - 1] == b[|b| - 1];
      DecimalDigits(i);
      DecimalDigits(j);
      AfterLastDash("." + FileName(p) + ".minco-" + process, "." + FileName(q) + ".minco-" + process,
        Decimal(i), Decimal(j), ".tmp");
      DecimalInjective(i, j);
    }
  }

  // ---------- Edits that can be applied ----------

  ghost function PathsOf(edits: seq<PlannedEdit>): set<Path> {
    set e | e in edits :: e.path
  }

  /** The name for the temporary file of the edit is free and on the way to no target. */
  ghost predicate RoomFor(d: Disk, edits: seq<PlannedEdit>, temporary: Path) {
    EntryAt(d, temporary).None? && forall e :: e in edits ==> !(temporary <= e.path)
  }

  ghost predicate Applicable(d: Disk, edits: seq<PlannedEdit>, process: string) {
    && TreeShaped(d) && Rooted(d) && DistinctBy(edits, EditPath)
    && (forall e :: e in edits ==> e.path != [] && Meets(d, e))
    && (forall e, f :: e in edits && f in edits ==> !(e.path < f.path))
    && (forall i :: 0 <= i < |edits| && edits[i].path != [] ==>
          RoomFor(d, edits, TemporaryPath(edits[i].path, process, i)))
  }

  /** The way to the next target is open. */
  lemma NextIsOpen(d0: Disk, d: Disk, edits: seq<PlannedEdit>, process: string, k: nat)
    requires Applicable(d0, edits, process) && k < |edits|
    requires Widened(d0, d) && WellFormed(d) && MadeFor(d0, d, PathsOf(edits))
    ensures Rooted(d) && edits[k].path != [] && !Blocked(d, d.root, Parent(edits[k].path))
  {
    assert edits[k] in edits;
    RootedBelow(d0, d, PathsOf(edits));
    UnblockedStays(d0, d, d.root, Parent(edits[k].path));
  }

  /** Behind new directories the edits still meet the disk. */
  lemma MeetBelow(d0: Disk, base: Disk, edits: seq<PlannedEdit>, process: string)
    requires Applicable(d0, edits, process) && Widened(d0, base) && WellFormed(base)
    requires MadeFor(d0, base, PathsOf(edits))
    requires forall e :: e in edits ==> e.path != [] && SlotOf(base, e.path).Some?
    ensures forall e :: e in edits ==> Meets(base, e)
  {
    OnlyDirectoriesKeep(d0, base);
    TreeShapeKept(d0, base);
    forall e | e in edits ensures Meets(base, e) {
      assert Meets(d0, e);
      OpenIsUnblocked(base, base.root, Parent(e.path));
      EntryKept(d0, base, e.path);
      if e.before.None? {
        FreeBelow(d0, base, PathsOf(edits), e.path);
      }
    }
  }

  /** A free path that no new directory was made for is still free. */
  lemma FreeBelow(d0: Disk, base: Disk, paths: set<Path>, path: Path)
    requires TreeShaped(d0) && Rooted(d0) && Widened(d0, base) && WellFormed(base) && MadeFor(d0, base, paths)
    requires path != [] && EntryAt(d0, path).None? && forall p :: p in paths ==> !(path < p)
    ensures EntryAt(base, path).None?
  {
    OnlyDirectoriesKeep(d0, base);
    TreeShapeKept(d0, base);
    if EntryAt(base, path).Some? {
      var slot := SlotOf(base, path).value;
      if slot in d0.names {
        OldSlot(d0, base, Parent(path));
      } else {
        NotOnTheWay(base, paths, path, slot);
      }
    }
  }

  /** Every edit has room for its temporary file. */
  ghost predicate Roomy(base: Disk, edits: seq<PlannedEdit>, process: string) {
    && TreeShaped(base) && DistinctBy(edits, EditPath)
    && forall i :: 0 <= i < |edits| ==>
         edits[i].path != [] && RoomFor(base, edits, TemporaryPath(edits[i].path, process, i))
  }

  lemma RoomBelow(d0: Disk, base: Disk, edits: seq<PlannedEdit>, process: string)
    requires Applicable(d0, edits, process) && Widened(d0, base) && WellFormed(base)
    requires MadeFor(d0, base, PathsOf(edits))
    ensures Roomy(base, edits, process)
  {
    OnlyDirectoriesKeep(d0, base);
    TreeShapeKept(d0, base);
    forall i | 0 <= i < |edits|
      ensures edits[i].path != [] && RoomFor(base, edits, TemporaryPath(edits[i].path, process, i))
    {
      assert edits[i] in edits;
      var temporary := TemporaryPath(edits[i].path, process, i);
      assert RoomFor(d0, edits, temporary);
      FreeBelow(d0, base, PathsOf(edits), temporary);
    }
  }

  // ---------- The run ----------

  ghost predicate Named(temporaries: seq<Path>, edits: seq<PlannedEdit>, process: string) {
    |temporaries| <= |edits| && forall i :: 0 <= i < |temporaries| ==>
      edits[i].path != [] && temporaries[i] == TemporaryPath(edits[i].path, process, i)
  }

  lemma OneMoreNamed(temporaries: seq<Path>, edits: seq<PlannedEdit>, process: string)
    requires Named(temporaries, edits, process) && |temporaries| < |edits| && edits[|temporaries|].path != []
    ensures Named(temporaries + [TemporaryPath(edits[|temporaries|].path, process, |temporaries|)], edits, process)
  {
  }

  /** The next temporary name is free. */
  lemma NextHasRoom(base: Disk, d: Disk, placed: map<Inode, Slot>, jobs: seq<Job>, edits: seq<PlannedEdit>,
                    temporaries: seq<Path>, process: string)
    requires Running(base, d, placed, jobs) && JobsFor(base, jobs, edits, temporaries) && AllAt(jobs, AtTemporary)
    requires Roomy(base, edits, process) && Named(temporaries, edits, process) && |jobs| < |edits|
    ensures edits[|jobs|].path != []
    ensures EntryAt(d, TemporaryPath(edits[|jobs|].path, process, |jobs|)).None?
  {
    var k := |jobs|;
    var temporary := TemporaryPath(edits[k].path, process, k);
    assert RoomFor(base, edits, temporary);
    forall id | id in placed && SlotOf(base, temporary).Some? ensures placed[id] != SlotOf(base, temporary).value {
      var i :| 0 <= i < |jobs| && jobs[i].id == id;
      assert JobOk(base, d, placed, jobs[i]);
      TemporariesDiffer(edits[i].path, edits[k].path, process, i, k);
      if SlotOf(base, temporary) == Some(jobs[i].temporary) {
        OneSlot(base, temporaries[i], temporary);
      }
    }
    EntryUnplaced(base, d, placed, temporary);
  }

  /** Away from the run's own files every path leads where it led. */
  lemma EntryUnplaced(base: Disk, d: Disk, placed: map<Inode, Slot>, path: Path)
    requires Placed(base, d, placed) && path != []
    requires forall id :: id in placed && SlotOf(base, path).Some? ==> placed[id] != SlotOf(base, path).value
    ensures EntryAt(d, path) == EntryAt(base, path) && FileAt(d, path) == FileAt(base, path)
  {
    PlacedKeepsDirectories(base, d, placed);
    if Descend(d, d.root, Parent(path)).Some? {
      DescendBack(base, d, d.root, Parent(path));
    }
    if SlotOf(base, path).Some? {
      SameSlot(base, d, placed, path);
      var slot := SlotOf(base, path).value;
      assert slot !in placed.Values;
      assert IdentityAt(d, slot) == IdentityAt(base, slot);
    }
  }

  lemma {:induction false} DescendBack(base: Disk, d: Disk, dir: Inode, path: Path)
    requires forall s :: NodeAt(d, s) == Some(Directory) ==> NodeAt(base, s) == Some(Directory)
    requires DirectoriesKept(base, d) && Descend(d, dir, path).Some?
    ensures Descend(base, dir, path).Some?
    decreases path
  {
    if path != [] {
      var s := Slot(dir, path[0]);
      assert NodeAt(base, s) == Some(Directory);
      DescendBack(base, d, d.names[s], path[1..]);
    }
  }

  /** No temporary file stands at a target. */
  lemma NotAtTarget(base: Disk, d: Disk, placed: map<Inode, Slot>, jobs: seq<Job>, edits: seq<PlannedEdit>,
                    temporaries: seq<Path>, process: string, path: Path, id: Inode)
    requires Running(base, d, placed, jobs) && JobsFor(base, jobs, edits, temporaries) && AllAt(jobs, AtTemporary)
    requires Roomy(base, edits, process) && Named(temporaries, edits, process)
    requires path != [] && SlotOf(base, path).Some? && path in PathsOf(edits) && id in placed
    ensures placed[id] != SlotOf(base, path).value
  {
    hide TreeShaped, SlotOf, TemporaryPath, Placed, AsPlanned;
    var i :| 0 <= i < |jobs| && jobs[i].id == id;
    assert JobOk(base, d, placed, jobs[i]);
    assert RoomFor(base, edits, temporaries[i]);
    if SlotOf(base, path) == Some(jobs[i].temporary) {
      OneSlot(base, temporaries[i], path);
    }
  }

  /** With all temporary files written the edits still meet the disk. */
  lemma MeetAmongTemporaries(base: Disk, d: Disk, placed: map<Inode, Slot>, jobs: seq<Job>, edits: seq<PlannedEdit>,
                             temporaries: seq<Path>, process: string)
    requires Running(base, d, placed, jobs) && JobsFor(base, jobs, edits, temporaries) && AllAt(jobs, AtTemporary)
    requires Roomy(base, edits, process) && Named(temporaries, edits, process)
    requires forall e :: e in edits ==> e.path != [] && SlotOf(base, e.path).Some? && Meets(base, e)
    ensures forall e :: e in edits ==> Meets(d, e)
  {
    RunningPlaced(base, d, placed, jobs);
    hide Running, JobsFor, AllAt, Roomy, Named, Placed, SlotOf, FileAt, EntryAt, Blocked, ValidRelative;
    forall e | e in edits ensures Meets(d, e) {
      forall id | id in placed ensures placed[id] != SlotOf(base, e.path).value {
        NotAtTarget(base, d, placed, jobs, edits, temporaries, process, e.path, id);
      }
      EntryUnplaced(base, d, placed, e.path);
      StaysOpen(base, d, placed, e.path);
    }
  }

  lemma RunningPlaced(base: Disk, d: Disk, placed: map<Inode, Slot>, jobs: seq<Job>)
    requires Running(base, d, placed, jobs)
    ensures Placed(base, d, placed)
  {
  }

  lemma StaysOpen(base: Disk, d: Disk, placed: map<Inode, Slot>, path: Path)
    requires Placed(base, d, placed) && path != [] && SlotOf(base, path).Some?
    ensures !Blocked(d, d.root, Parent(path))
  {
    SameSlot(base, d, placed, path);
    OpenIsUnblocked(d, d.root, Parent(path));
  }

  lemma AllMeetAmongTemporaries(base: Disk, d: Disk, placed: map<Inode, Slot>, jobs: seq<Job>, edits: seq<PlannedEdit>,
                                temporaries: seq<Path>, process: string)
    requires Running(base, d, placed, jobs) && JobsFor(base, jobs, edits, temporaries) && AllAt(jobs, AtTemporary)
    requires Roomy(base, edits, process) && Named(temporaries, edits, process) && Targeted(base, edits)
    requires forall e :: e in edits ==> Meets(base, e)
    ensures forall e :: e in edits ==> Meets(d, e)
  {
    forall e | e in edits ensures e.path != [] && SlotOf(base, e.path).Some? {
      var i :| 0 <= i < |edits| && edits[i] == e;
      TargetedAt(base, edits, i);
    }
    hide Targeted, Running, JobsFor, AllAt, Roomy, Named, Meets, SlotOf;
    MeetAmongTemporaries(base, d, placed, jobs, edits, temporaries, process);
  }

  lemma ApplicableMeets(d: Disk, edits: seq<PlannedEdit>, process: string)
    ensures Applicable(d, edits, process) ==> forall e :: e in edits ==> Meets(d, e)
  {
  }

  /** Behind the directories that were made for the edits, they still meet the disk and have room. */
  lemma ReadyBelow(d0: Disk, base: Disk, edits: seq<PlannedEdit>, process: string)
    requires Widened(d0, base) && WellFormed(base) && MadeFor(d0, base, PathsOf(edits))
    requires forall e :: e in edits ==> e.path != [] && SlotOf(base, e.path).Some?
    ensures Applicable(d0, edits, process) ==> Roomy(base, edits, process) && forall e :: e in edits ==> Meets(base, e)
  {
    if Applicable(d0, edits, process) {
      MeetBelow(d0, base, edits, process);
      RoomBelow(d0, base, edits, process);
    }
  }
}
