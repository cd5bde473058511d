/** What a disciplined run can and cannot do to files that are not its own, whatever other
    processes do in between. */
module Histories {
  import opened Disks
  import opened Options

  /** The state after the first `k` steps. */
  ghost function StateAt(log: seq<Event>, k: nat): Disk
    requires 0 < |log| && k <= |log|
  {
    if k < |log| then log[k].before else log[|log| - 1].after
  }

  ghost function FinalState(log: seq<Event>): Disk
    requires 0 < |log|
  {
    log[|log| - 1].after
  }

  /** The name that a staging name stands in for; every other name stands for itself. */
  ghost function Home(home: map<Slot, Slot>, s: Slot): Slot {
    if s in home then home[s] else s
  }

  /** Both names of every pair have the same home. */
  ghost predicate Homed(l: Licence, home: map<Slot, Slot>) {
    forall a, b :: (a, b) in l.pairs ==> Home(home, a) == Home(home, b)
  }

  /** No interference at or after step `from` takes away the last link of `i`. */
  ghost predicate OthersKeepLinked(log: seq<Event>, from: nat, i: Inode) {
    forall k :: from <= k < |log| && log[k].op.Interference? && Linked(log[k].before, i) ==> Linked(log[k].after, i)
  }

  /** No interference at or after step `from` rewrites the node `i`. */
  ghost predicate OthersKeepBytes(log: seq<Event>, from: nat, i: Inode) {
    forall k :: from <= k < |log| && log[k].op.Interference? && i in log[k].before.nodes ==>
      i in log[k].after.nodes && log[k].after.nodes[i] == log[k].before.nodes[i]
  }

  /** No interference at or after step `from` takes a name away from `i`. */
  ghost predicate OthersKeepNames(log: seq<Event>, from: nat, i: Inode) {
    forall k :: from <= k < |log| && log[k].op.Interference? ==> NamesKept(log[k].before, log[k].after, i)
  }

  ghost predicate NamesKept(d: Disk, d': Disk, i: Inode) {
    forall s :: IdentityAt(d, s) == Some(i) ==> IdentityAt(d', s) == Some(i)
  }

  /** A step of the run moves `i` from the name `src` to the name `dst`. */
  ghost predicate MovesFile(e: Event, src: Slot, dst: Slot, i: Inode) {
    && IdentityAt(e.before, src) == Some(i)
    && match e.op
       case RenameNoReplace(a, b) => a == src && b == dst
       case Exchange(a, b) => (a == src && b == dst) || (a == dst && b == src)
       case _ => false
  }

  ghost predicate Touches(op: Op, s: Slot) {
    match op
    case RenameNoReplace(a, b) => s == a || s == b
    case Exchange(a, b) => s == a || s == b
    case _ => false
  }

  /** From step `from` on the run moves nothing to or from the name `s`. */
  ghost predicate LeftAlone(log: seq<Event>, from: nat, s: Slot) {
    forall k :: from <= k < |log| ==> !Touches(log[k].op, s)
  }

  /** A file that nobody discards stays at a name that the run leaves alone. */
  lemma {:induction false} StillThere(log: seq<Event>, k: nat, l: Licence, i: Inode, s: Slot)
    requires IsRun(log) && k <= |log| && 0 < |log| && Disciplined(log, l) && !l.replacing
    requires i !in l.own && i !in l.doomed && IdentityAt(StateAt(log, k), s) == Some(i)
    requires OthersKeepNames(log, k, i) && LeftAlone(log, k, s)
    ensures IdentityAt(FinalState(log), s) == Some(i)
    decreases |log| - k
  {
    if k < |log| {
      assert StateAt(log, k + 1) == log[k].after;
      assert !Touches(log[k].op, s) && Permitted(log[k].op, l);
      StillThere(log, k + 1, l, i, s);
    }
  }

  lemma StepKeepsLinked(e: Event, l: Licence, i: Inode)
    requires IsStep(e) && !e.op.Interference? && Permitted(e.op, l) && !l.replacing
    requires i !in l.own && i !in l.doomed && Linked(e.before, i)
    ensures Linked(e.after, i)
  {
    var s :| s in e.before.names && e.before.names[s] == i;
    var t := match e.op
      case RenameNoReplace(src, dst) => if s == src then dst else s
      case Exchange(src, dst) => if s == src then dst else if s == dst then src else s
      case _ => s;
    assert t in e.after.names && e.after.names[t] == i;
  }

  /** Inode conservation: an inode linked after `k` steps, that the run may not discard and that
      other processes never unlink, is still linked when the run ends. */
  lemma {:induction false} Conservation(
      log: seq<Event>, k: nat, l: Licence, i: Inode)
    requires IsRun(log) && k <= |log| && 0 < |log|
    requires Disciplined(log, l) && !l.replacing
    requires i !in l.own && i !in l.doomed && Linked(StateAt(log, k), i) && OthersKeepLinked(log, k, i)
    ensures Linked(FinalState(log), i)
    decreases |log| - k
  {
    if k < |log| {
      if !log[k].op.Interference? {
        StepKeepsLinked(log[k], l, i);
      }
      assert StateAt(log, k + 1) == log[k].after;
      Conservation(log, k + 1, l, i);
    }
  }

  /** The last name of a file: the one it had at `from`, or the one that the run moved it to. */
  ghost predicate CameTo(log: seq<Event>, from: nat, i: Inode, s: Slot, t: Slot) {
    t == s || exists j, src :: from <= j < |log| && MovesFile(log[j], src, t, i)
  }

  /** If from step `k` on others take no name away from it, a file that the run may not discard ends at a name with
      the same home as the one it had, and the run itself moved it there if that is another one. */
  lemma {:induction false} Confinement(
      log: seq<Event>, k: nat, l: Licence, home: map<Slot, Slot>, i: Inode, s: Slot)
    returns (t: Slot)
    requires IsRun(log) && k <= |log| && 0 < |log|
    requires Disciplined(log, l) && !l.replacing && OthersKeepNames(log, k, i) && Homed(l, home)
    requires i !in l.own && i !in l.doomed && IdentityAt(StateAt(log, k), s) == Some(i)
    ensures IdentityAt(FinalState(log), t) == Some(i) && Home(home, t) == Home(home, s)
    ensures CameTo(log, k, i, s, t)
    decreases |log| - k
  {
    if k == |log| {
      t := s;
    } else {
      var e := log[k];
      assert StateAt(log, k + 1) == e.after;
      if e.op.Interference? {
        assert NamesKept(e.before, e.after, i);
      }
      var next := match e.op
        case RenameNoReplace(src, dst) => if s == src then dst else s
        case Exchange(src, dst) => if s == src then dst else if s == dst then src else s
        case _ => s;
      assert IdentityAt(e.after, next) == Some(i) && Home(home, next) == Home(home, s);
      assert next == s || MovesFile(log[k], s, next, i);
      t := Confinement(log, k + 1, l, home, i, next);
    }
  }

  /** The run rewrites no bytes but those of its own files. */
  lemma {:induction false} BytesKept(
      log: seq<Event>, k: nat, l: Licence, i: Inode)
    requires IsRun(log) && k <= |log| && 0 < |log|
    requires Disciplined(log, l) && !l.replacing && OthersKeepBytes(log, k, i)
    requires i !in l.own && i in StateAt(log, k).nodes
    ensures i in FinalState(log).nodes && FinalState(log).nodes[i] == StateAt(log, k).nodes[i]
    decreases |log| - k
  {
    if k < |log| {
      assert StateAt(log, k + 1) == log[k].after;
      BytesKept(log, k + 1, l, i);
    }
  }
}
