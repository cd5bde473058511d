/** What the publishers do to the files of others, whatever other processes do between their steps. */
module Interleavings {
  import opened Disks
  import opened Options
  import opened FileSystems
  import opened Histories
  import opened Sorting
  import Agent = AgentPublication
  import Staging = AgentStaging
  import opened AgentTracking
  import Delivery = DeliveryPublication

  /** The run began with the first state of its log and ended with the last. */
  lemma RunEnds(fs: FileSystem)
    requires fs.Valid() && 0 < |fs.log|
    ensures StateAt(fs.log, 0) == fs.origin && FinalState(fs.log) == fs.disk
    ensures IsRun(fs.log) && Disciplined(fs.log, fs.licence)
  {
  }

  /** `i` is linked after `k` steps of the run, and from then on no other process takes its last link away. */
  ghost predicate HeldByOthers(fs: FileSystem, k: nat, i: Inode)
    reads fs
  {
    && k <= |fs.log| && i !in fs.licence.own
    && (if |fs.log| == 0 then Linked(fs.disk, i) else Linked(StateAt(fs.log, k), i))
    && OthersKeepLinked(fs.log, k, i)
  }

  lemma StillLinked(fs: FileSystem, k: nat, i: Inode)
    requires fs.Valid() && !fs.licence.replacing && HeldByOthers(fs, k, i) && i !in fs.licence.doomed
    ensures Linked(fs.disk, i)
  {
    if |fs.log| > 0 {
      RunEnds(fs);
      Conservation(fs.log, k, fs.licence, i);
    }
  }

  /** Neither publisher rewrites the bytes of a file that is not its own. */
  lemma OthersBytesKept(fs: FileSystem, k: nat, i: Inode)
    requires fs.Valid() && !fs.licence.replacing && 0 < |fs.log| && k <= |fs.log| && i !in fs.licence.own
    requires i in StateAt(fs.log, k).nodes && OthersKeepBytes(fs.log, k, i)
    ensures i in fs.disk.nodes && fs.disk.nodes[i] == StateAt(fs.log, k).nodes[i]
  {
    RunEnds(fs);
    BytesKept(fs.log, k, fs.licence, i);
  }

  /** Inode conservation of the agent publisher.  Its contract says that the licence of a finished run dooms
      what `Replaced` names after success and nothing after failure. */
  lemma AgentLosesNothing(p: Agent.Publisher, requests: seq<Staging.WriteRequest>, ok: bool, k: nat, i: Inode)
    requires p.Valid() && p.fs.licence.doomed == if ok then Staging.Replaced(requests) else {}
    requires HeldByOthers(p.fs, k, i)
    requires ok ==> forall r :: r in requests && r.expected.ExpectRegular? ==> r.expected.identity != i
    ensures Linked(p.fs.disk, i)
  {
    StillLinked(p.fs, k, i);
  }

  /** The create-only publisher never takes a name away from anybody else's inode. */
  lemma DeliveryLosesNothing(p: Delivery.Publisher, k: nat, i: Inode)
    requires p.Valid() && HeldByOthers(p.fs, k, i)
    ensures Linked(p.fs.disk, i)
  {
    StillLinked(p.fs, k, i);
  }

  /** Files that were there before the run are nobody's own. */
  lemma StartingFilesAreOthers(fs: FileSystem, i: Inode)
    requires fs.Valid() && i in fs.origin.nodes
    ensures i !in fs.licence.own
  {
  }

  // ---------- Where a file can end ----------

  ghost function HomeMap(staged: seq<Staging.StagedWrite>): map<Slot, Slot> {
    map s | s in Staging.StagingSlots(staged) :: TargetOf(staged, s)
  }

  ghost function TargetOf(staged: seq<Staging.StagedWrite>, s: Slot): Slot
    requires s in Staging.StagingSlots(staged)
  {
    var w :| w in staged && w.Staging() == s;
    w.Target()
  }

  lemma PairsAreHomed(p: Agent.Publisher)
    requires p.Valid() && p.fs.licence.pairs == Staging.PairsOf(p.staged)
    ensures Homed(p.fs.licence, HomeMap(p.staged))
  {
    var staged, home := p.staged, HomeMap(p.staged);
    forall a, b | (a, b) in Staging.PairsOf(staged) ensures Home(home, a) == Home(home, b) == b {
      var w :| w in staged && (a, b) == (w.Staging(), w.Target());
      var v :| v in staged && v.Staging() == a && home[a] == v.Target();
      SameStagingName(staged, p.planned, v, w);
      forall u | u in staged ensures u.Staging() != b {
        assert u.stagingName !in p.planned && w.name in p.planned;
      }
    }
  }

  lemma SameStagingName(staged: seq<Staging.StagedWrite>, planned: set<string>, v: Staging.StagedWrite,
                        w: Staging.StagedWrite)
    requires Staging.NamesApart(staged, planned) && v in staged && w in staged && v.stagingName == w.stagingName
    ensures v == w
  {
    var i :| 0 <= i < |staged| && staged[i] == v;
    var j :| 0 <= j < |staged| && staged[j] == w;
    assert i != j ==> Staging.StagingName(staged[i]) != Staging.StagingName(staged[j]);
  }

  /** `s` is the name `home`, or a staging name of a publication to it. */
  ghost predicate NameFor(staged: seq<Staging.StagedWrite>, home: Slot, s: Slot) {
    s == home || exists w :: w in staged && w.Staging() == s && w.Target() == home
  }

  lemma HomeIsNamed(staged: seq<Staging.StagedWrite>, s: Slot)
    ensures NameFor(staged, Home(HomeMap(staged), s), s)
  {
    if s in Staging.StagingSlots(staged) {
      var w :| w in staged && w.Staging() == s && HomeMap(staged)[s] == w.Target();
    }
  }

  /** A step of the run that moved a file to `t` moved it from the target of an entry to its staging name, or back. */
  lemma MoveOfEntry(p: Agent.Publisher, j: nat, src: Slot, t: Slot, i: Inode) returns (w: Staging.StagedWrite)
    requires p.Valid() && p.fs.licence.pairs == Staging.PairsOf(p.staged) && j < |p.fs.log|
    requires MovesFile(p.fs.log[j], src, t, i)
    ensures w in p.staged
    ensures (src == w.Target() && t == w.Staging()) || (src == w.Staging() && t == w.Target())
  {
    RunOf(p.fs);
    var op := p.fs.log[j].op;
    assert Permitted(op, p.fs.licence) && (op.RenameNoReplace? || op.Exchange?);
    assert Paired(p.fs.licence, src, t);
    w :| w in p.staged && ((w.Staging(), w.Target()) == (src, t) || (w.Staging(), w.Target()) == (t, src));
  }

  /** Where a file ends that no entry replaces: at its name, at a target, or under the staging name of an entry whose
      restore is blocked. */
  ghost predicate EndsWell(staged: seq<Staging.StagedWrite>, s: Slot, t: Slot) {
    t == s || exists w :: w in staged && (t == w.Target() || (t == w.Staging() && w.state.RestoreBlocked?))
  }

  /** A user's file that stands at `s` after `k` steps, and from which others take no name from then on, ends at a name
      for the same target: where it was, at the target itself, or under a staging name of a publication to that target.
      The run leaves it under a staging name only with the restore of that entry blocked, unless the entry was to
      replace it. */
  lemma UserFileStaysHome(p: Agent.Publisher, requests: seq<Staging.WriteRequest>, ok: bool, k: nat, i: Inode, s: Slot)
    returns (t: Slot, home: Slot)
    requires p.Valid() && p.fs.licence.pairs == Staging.PairsOf(p.staged)
    requires p.fs.licence.doomed == if ok then Staging.Replaced(requests) else {}
    requires AllAccounted(p.fs.log, p.fs.licence.own, p.staged)
    requires 0 < |p.fs.log| && k <= |p.fs.log| && OthersKeepNames(p.fs.log, k, i)
    requires i !in p.fs.licence.own && IdentityAt(StateAt(p.fs.log, k), s) == Some(i)
    requires ok ==> forall r :: r in requests && r.expected.ExpectRegular? ==> r.expected.identity != i
    ensures IdentityAt(p.fs.disk, t) == Some(i)
    ensures NameFor(p.staged, home, s) && NameFor(p.staged, home, t)
    ensures (forall w :: w in p.staged && w.expected.ExpectRegular? ==> w.expected.identity != i) ==>
      EndsWell(p.staged, s, t)
  {
    RunEnds(p.fs);
    PairsAreHomed(p);
    t := Confinement(p.fs.log, k, p.fs.licence, HomeMap(p.staged), i, s);
    home := Home(HomeMap(p.staged), s);
    HomeIsNamed(p.staged, s);
    HomeIsNamed(p.staged, t);
    if t != s && forall w :: w in p.staged && w.expected.ExpectRegular? ==> w.expected.identity != i {
      MovedFileEnds(p, k, i, s, t);
    }
  }

  lemma MovedFileEnds(p: Agent.Publisher, k: nat, i: Inode, s: Slot, t: Slot)
    requires p.Valid() && p.fs.licence.pairs == Staging.PairsOf(p.staged) && i !in p.fs.licence.own
    requires AllAccounted(p.fs.log, p.fs.licence.own, p.staged) && OthersKeepNames(p.fs.log, k, i)
    requires forall w :: w in p.staged && w.expected.ExpectRegular? ==> w.expected.identity != i
    requires t != s && CameTo(p.fs.log, k, i, s, t)
    ensures EndsWell(p.staged, s, t)
  {
    var log := p.fs.log;
    var j, src :| k <= j < |log| && MovesFile(log[j], src, t, i);
    var w := MoveOfEntry(p, j, src, t, i);
    if t != w.Target() {
      assert Took(log, w, i, j) && RacedIn(p.fs.licence.own, w, i) && Accounted(log, p.fs.licence.own, w);
    }
  }

  /** The same for a file that was there when the run began. */
  lemma StartingFileStaysHome(p: Agent.Publisher, requests: seq<Staging.WriteRequest>, ok: bool, i: Inode, s: Slot)
    returns (t: Slot, home: Slot)
    requires p.Valid() && p.fs.licence.pairs == Staging.PairsOf(p.staged)
    requires p.fs.licence.doomed == if ok then Staging.Replaced(requests) else {}
    requires AllAccounted(p.fs.log, p.fs.licence.own, p.staged)
    requires 0 < |p.fs.log| && OthersKeepNames(p.fs.log, 0, i)
    requires IdentityAt(p.fs.origin, s) == Some(i) && WellFormed(p.fs.origin)
    requires ok ==> forall r :: r in requests && r.expected.ExpectRegular? ==> r.expected.identity != i
    ensures IdentityAt(p.fs.disk, t) == Some(i)
    ensures NameFor(p.staged, home, s) && NameFor(p.staged, home, t)
    ensures (forall w :: w in p.staged && w.expected.ExpectRegular? ==> w.expected.identity != i) ==>
      EndsWell(p.staged, s, t)
  {
    RunEnds(p.fs);
    StartingFilesAreOthers(p.fs, i);
    t, home := UserFileStaysHome(p, requests, ok, 0, i, s);
  }
}
