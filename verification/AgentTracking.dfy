/** What becomes of files that a publication moved off their targets although they were not the expected ones: the
    entry ends with its restore blocked, and the file stays under the staging name. */
module AgentTracking {
  import opened Disks
  import opened Options
  import opened Histories
  import opened FileSystems
  import opened Sorting
  import opened AgentStaging

  /** Step `j` took `i` from the target of `w` to its staging name, and from then on others have kept its names. */
  ghost predicate Took(log: seq<Event>, w: StagedWrite, i: Inode, j: nat) {
    j < |log| && MovesFile(log[j], w.Target(), w.Staging(), i) && OthersKeepNames(log, j + 1, i)
  }

  /** `i` is neither a file of the run nor the one that `w` replaces. */
  ghost predicate RacedIn(own: set<Inode>, w: StagedWrite, i: Inode) {
    i !in own && (w.expected.ExpectRegular? ==> i != w.expected.identity)
  }

  /** Whatever `w` took away that had raced in, its restore is blocked. */
  ghost predicate Accounted(log: seq<Event>, own: set<Inode>, w: StagedWrite) {
    w.state.RestoreBlocked? || forall i, j: nat :: Took(log, w, i, j) ==> !RacedIn(own, w, i)
  }

  /** The same, but for an exchange that is still to be rolled back. */
  ghost predicate Pending(log: seq<Event>, own: set<Inode>, w: StagedWrite) {
    || Accounted(log, own, w)
    || (w.state.Exchanged? &&
        forall i, j: nat :: Took(log, w, i, j) && RacedIn(own, w, i) ==> LeftAlone(log, j + 1, w.Staging()))
  }

  ghost predicate AllAccounted(log: seq<Event>, own: set<Inode>, staged: seq<StagedWrite>) {
    forall w :: w in staged ==> Accounted(log, own, w)
  }

  ghost predicate AllPending(log: seq<Event>, own: set<Inode>, staged: seq<StagedWrite>) {
    forall w :: w in staged ==> Pending(log, own, w)
  }

  // ---------- As the run goes on ----------

  /** The log went on from `log` to `log'` and moved nothing to or from `s`. */
  ghost predicate WentOn(log: seq<Event>, log': seq<Event>, s: Slot) {
    log <= log' && LeftAlone(log', |log|, s)
  }

  /** No move was made at all. */
  lemma NoMoves(log: seq<Event>, log': seq<Event>, s: Slot)
    requires log <= log' && MovesIn(log') == MovesIn(log)
    ensures WentOn(log, log', s)
  {
    forall k | |log| <= k < |log'| ensures !Touches(log'[k].op, s) {
      MovesAre(log', k);
      MovesAre(log, k);
    }
  }

  lemma TookBefore(log: seq<Event>, log': seq<Event>, w: StagedWrite, i: Inode, j: nat)
    requires WentOn(log, log', w.Staging()) && Took(log', w, i, j)
    ensures Took(log, w, i, j)
  {
    assert j < |log| by {
      if j >= |log| {
        assert Touches(log'[j].op, w.Staging());
      }
    }
    forall k | j + 1 <= k < |log| && log[k].op.Interference? ensures NamesKept(log[k].before, log[k].after, i) {
      assert log[k] == log'[k];
    }
  }

  lemma AccountedLater(log: seq<Event>, log': seq<Event>, own: set<Inode>, w: StagedWrite)
    requires WentOn(log, log', w.Staging())
    ensures Accounted(log, own, w) ==> Accounted(log', own, w)
    ensures Pending(log, own, w) ==> Pending(log', own, w)
  {
    forall i, j: nat | Took(log', w, i, j) ensures Took(log, w, i, j) {
      TookBefore(log, log', w, i, j);
    }
    forall i, j: nat | Took(log', w, i, j) && LeftAlone(log, j + 1, w.Staging())
      ensures LeftAlone(log', j + 1, w.Staging())
    {
      forall k | j + 1 <= k < |log'| ensures !Touches(log'[k].op, w.Staging()) {
        if k < |log| {
          assert log'[k] == log[k];
        }
      }
    }
    hide Took, RacedIn;
  }

  lemma AllLater(log: seq<Event>, log': seq<Event>, own: set<Inode>, staged: seq<StagedWrite>)
    requires log <= log' && MovesIn(log') == MovesIn(log)
    ensures AllAccounted(log, own, staged) ==> AllAccounted(log', own, staged)
    ensures AllPending(log, own, staged) ==> AllPending(log', own, staged)
  {
    forall w | w in staged
      ensures Accounted(log, own, w) ==> Accounted(log', own, w)
      ensures Pending(log, own, w) ==> Pending(log', own, w)
    {
      NoMoves(log, log', w.Staging());
      AccountedLater(log, log', own, w);
    }
    hide Accounted, Pending;
  }

  /** Without any move nothing was taken. */
  lemma NothingTaken(log: seq<Event>, own: set<Inode>, staged: seq<StagedWrite>)
    requires MovesIn(log) == {}
    ensures AllAccounted(log, own, staged)
  {
    forall w, i, j: nat | w in staged && Took(log, w, i, j) ensures false {
      MovesAre(log, j);
    }
  }

  // ---------- One entry ----------

  /** The install of an entry that was not touched before. */
  lemma InstallPends(log: seq<Event>, log': seq<Event>, own: set<Inode>, w: StagedWrite)
    requires LeftAlone(log, 0, w.Staging()) && log <= log' && |log| < |log'| && w.Staging() != w.Target()
    requires MovesIn(log') == MovesIn(log) + {|log'| - 1} && log'[|log'| - 1].op == w.InstallOp()
    ensures Pending(log', own, w.(state := w.InstalledState()))
  {
    var w' := w.(state := w.InstalledState());
    var last := |log'| - 1;
    forall j: nat | j < last ensures !Touches(log'[j].op, w.Staging()) {
      MovesAre(log', j);
      MovesAre(log, j);
      if j < |log| {
        assert log'[j] == log[j] && !Touches(log[j].op, w.Staging());
      }
    }
    forall i, j: nat | Took(log', w', i, j) ensures w'.state.Exchanged? && LeftAlone(log', j + 1, w.Staging()) {
      assert Touches(log'[j].op, w.Staging());
      assert j == last;
    }
    hide MovesIn;
  }

  /** A pending entry whose staging name holds the replaced file has taken away nothing that raced in. */
  lemma VerifiedIsClean(log: seq<Event>, l: Licence, w: StagedWrite, d: Disk)
    requires IsRun(log) && 0 < |log| && FinalState(log) == d && Disciplined(log, l) && !l.replacing && l.doomed == {}
    requires Pending(log, l.own, w) && w.expected.ExpectRegular? && w.Staging() != w.Target()
    requires IdentityAt(d, w.Staging()) == Some(w.expected.identity)
    ensures forall i, j: nat :: Took(log, w, i, j) && RacedIn(l.own, w, i) ==> w.state.RestoreBlocked?
  {
    forall i, j: nat | Took(log, w, i, j) && RacedIn(l.own, w, i) ensures w.state.RestoreBlocked? {
      if !w.state.RestoreBlocked? {
        StaysStaged(log, l, w, i, j);
      }
    }
  }

  lemma StaysStaged(log: seq<Event>, l: Licence, w: StagedWrite, i: Inode, j: nat)
    requires IsRun(log) && 0 < |log| && Disciplined(log, l) && !l.replacing && l.doomed == {}
    requires Took(log, w, i, j) && RacedIn(l.own, w, i) && LeftAlone(log, j + 1, w.Staging())
    requires w.Staging() != w.Target()
    ensures IdentityAt(FinalState(log), w.Staging()) == Some(i)
  {
    var e := log[j];
    assert IsStep(e) && e.after == Apply(e.before, e.op);
    assert IdentityAt(e.after, w.Staging()) == Some(i);
    assert StateAt(log, j + 1) == e.after;
    StillThere(log, j + 1, l, i, w.Staging());
  }

  /** The exchange that rolls an entry back, seen to have put the run's own file under the staging name. */
  lemma ExchangedBack(
      log: seq<Event>, last: nat, log': seq<Event>, l: Licence, w: StagedWrite, d: Disk)
    requires log <= log' && |log| <= last < |log'| && MovesIn(log') == MovesIn(log) + {last}
    requires w.Staging() != w.Target()
    requires forall i, j: nat :: Took(log, w, i, j) ==> !RacedIn(l.own, w, i)
    requires IsRun(log') && FinalState(log') == d && Disciplined(log', l) && !l.replacing && l.doomed == {}
    requires IdentityAt(d, w.Staging()) == Some(w.stagedIdentity) && w.stagedIdentity in l.own
    ensures forall i, j: nat :: Took(log', w, i, j) ==> !RacedIn(l.own, w, i)
  {
    forall i, j: nat | Took(log', w, i, j) && RacedIn(l.own, w, i) ensures false {
      MovesAre(log', j);
      MovesAre(log, j);
      if j < |log| {
        forall k | j + 1 <= k < |log| && log[k].op.Interference? ensures NamesKept(log[k].before, log[k].after, i) {
          assert log[k] == log'[k];
        }
        assert Took(log, w, i, j);
      } else {
        forall k | j + 1 <= k < |log'| ensures !Touches(log'[k].op, w.Staging()) {
          MovesAre(log', k);
          MovesAre(log, k);
        }
        StaysStaged(log', l, w, i, j);
      }
    }
  }

  // ---------- All entries ----------

  lemma RunOf(fs: FileSystem)
    requires fs.Valid()
    ensures IsRun(fs.log) && Disciplined(fs.log, fs.licence) && fs.moves == MovesIn(fs.log)
    ensures 0 < |fs.log| ==> FinalState(fs.log) == fs.disk
  {
  }

  /** Whatever was moved had to do with `w`. */
  ghost predicate OthersLeft(log: seq<Event>, log': seq<Event>, a: Slot, b: Slot) {
    forall s :: s != a && s != b ==> WentOn(log, log', s)
  }

  lemma NothingMoved(log: seq<Event>, log': seq<Event>, w: StagedWrite)
    requires log <= log' && MovesIn(log') == MovesIn(log)
    ensures OthersLeft(log, log', w.Staging(), w.Target())
  {
    forall s ensures WentOn(log, log', s) {
      NoMoves(log, log', s);
    }
  }

  lemma OneMoved(log: seq<Event>, log': seq<Event>, last: nat, w: StagedWrite)
    requires log <= log' && |log| <= last < |log'| && MovesIn(log') == MovesIn(log) + {last}
    requires forall s :: Touches(log'[last].op, s) ==> s == w.Staging() || s == w.Target()
    ensures OthersLeft(log, log', w.Staging(), w.Target())
  {
    forall s, k | s != w.Staging() && s != w.Target() && |log| <= k < |log'| ensures !Touches(log'[k].op, s) {
      MovesAre(log', k);
      MovesAre(log, k);
    }
  }

  lemma LeftBefore(log: seq<Event>, log': seq<Event>, log'': seq<Event>, w: StagedWrite)
    requires log <= log' <= log'' && OthersLeft(log, log', w.Staging(), w.Target())
    requires OthersLeft(log', log'', w.Staging(), w.Target())
    ensures OthersLeft(log, log'', w.Staging(), w.Target())
  {
    forall s, k | s != w.Staging() && s != w.Target() && |log| <= k < |log''| ensures !Touches(log''[k].op, s) {
      assert WentOn(log, log', s) && WentOn(log', log'', s);
      if k < |log'| {
        assert log'[k] == log''[k];
      }
    }
  }

  lemma LeftAloneLater(log: seq<Event>, log': seq<Event>, s: Slot)
    requires LeftAlone(log, 0, s) && WentOn(log, log', s)
    ensures LeftAlone(log', 0, s)
  {
    forall k | 0 <= k < |log'| ensures !Touches(log'[k].op, s) {
      if k < |log| {
        assert log'[k] == log[k];
      }
    }
  }

  lemma LeftAloneIsAccounted(log: seq<Event>, own: set<Inode>, w: StagedWrite)
    requires LeftAlone(log, 0, w.Staging())
    ensures Accounted(log, own, w)
  {
    forall i, j: nat | Took(log, w, i, j) ensures false {
      assert Touches(log[j].op, w.Staging());
    }
  }

  /** The first `k` entries have been installed and verified, the others have not been touched. */
  ghost predicate TrackedTo(log: seq<Event>, own: set<Inode>, staged: seq<StagedWrite>, k: nat) {
    && k <= |staged|
    && (forall x :: 0 <= x < k ==> Accounted(log, own, staged[x]))
    && (forall x :: k <= x < |staged| ==> LeftAlone(log, 0, staged[x].Staging()))
  }

  lemma TrackStarts(log: seq<Event>, own: set<Inode>, staged: seq<StagedWrite>)
    requires MovesIn(log) == {}
    ensures TrackedTo(log, own, staged, 0)
  {
    forall j | 0 <= j < |log| ensures !IsMove(log[j].op) {
      MovesAre(log, j);
    }
  }

  lemma TrackEnds(log: seq<Event>, own: set<Inode>, staged: seq<StagedWrite>)
    requires TrackedTo(log, own, staged, |staged|)
    ensures AllAccounted(log, own, staged)
  {
    hide Accounted;
  }

  lemma NamesOfOthers(staged: seq<StagedWrite>, planned: set<string>, k: nat, x: nat)
    requires NamesApart(staged, planned) && k < |staged| && x < |staged| && x != k
    ensures staged[x].Staging() != staged[k].Staging() && staged[x].Staging() != staged[k].Target()
    ensures staged[k].Staging() != staged[k].Target()
  {
    assert staged[k] in staged && staged[x] in staged;
    assert StagingName(staged[x]) != StagingName(staged[k]);
  }

  /** One round of the installs. */
  lemma RoundTracks(log: seq<Event>, log': seq<Event>, own: set<Inode>, planned: set<string>, staged: seq<StagedWrite>,
                    k: nat, staged': seq<StagedWrite>)
    requires TrackedTo(log, own, staged, k) && k < |staged| && NamesApart(staged, planned)
    requires |staged'| == |staged| && staged' == staged[k := staged'[k]]
    requires staged'[k] == staged[k].(state := staged'[k].state)
    requires OthersLeft(log, log', staged[k].Staging(), staged[k].Target()) && Pending(log', own, staged'[k])
    ensures AllPending(log', own, staged')
    ensures Accounted(log', own, staged'[k]) ==> TrackedTo(log', own, staged', k + 1)
  {
    forall x | 0 <= x < |staged| && x != k
      ensures Accounted(log', own, staged'[x]) && (x > k ==> LeftAlone(log', 0, staged'[x].Staging()))
    {
      assert staged'[x] == staged[x];
      NamesOfOthers(staged, planned, k, x);
      assert WentOn(log, log', staged[x].Staging());
      if x > k {
        LeftAloneLater(log, log', staged[x].Staging());
        LeftAloneIsAccounted(log', own, staged[x]);
      } else {
        AccountedLater(log, log', own, staged[x]);
      }
      hide Accounted, Pending, LeftAlone, WentOn, NamesApart;
    }
    hide Accounted, LeftAlone, NamesApart, OthersLeft;
  }

  /** The entries from `k` on are rolled back, the others are not yet. */
  ghost predicate RolledTo(log: seq<Event>, own: set<Inode>, staged: seq<StagedWrite>, k: nat) {
    && (forall x :: 0 <= x < |staged| && x < k ==> Pending(log, own, staged[x]))
    && (forall x :: k <= x < |staged| ==> Accounted(log, own, staged[x]))
  }

  lemma RollStarts(log: seq<Event>, own: set<Inode>, staged: seq<StagedWrite>)
    requires AllPending(log, own, staged)
    ensures RolledTo(log, own, staged, |staged|)
  {
    hide Pending;
  }

  lemma RoundRolls(log: seq<Event>, log': seq<Event>, own: set<Inode>, planned: set<string>, staged: seq<StagedWrite>,
                   k: nat, staged': seq<StagedWrite>)
    requires RolledTo(log, own, staged, k + 1) && k < |staged| && NamesApart(staged, planned)
    requires |staged'| == |staged| && staged' == staged[k := staged'[k]]
    requires OthersLeft(log, log', staged[k].Staging(), staged[k].Target()) && Accounted(log', own, staged'[k])
    ensures RolledTo(log', own, staged', k)
  {
    forall x | 0 <= x < |staged| && x != k
      ensures if x < k then Pending(log', own, staged'[x]) else Accounted(log', own, staged'[x])
    {
      assert staged'[x] == staged[x];
      NamesOfOthers(staged, planned, k, x);
      assert WentOn(log, log', staged[x].Staging());
      AccountedLater(log, log', own, staged[x]);
      hide Accounted, Pending, WentOn, NamesApart;
    }
    hide Accounted, Pending, NamesApart, OthersLeft;
  }

  // ---------- What one entry goes through ----------

  lemma StaysPending(log: seq<Event>, log': seq<Event>, own: set<Inode>, w: StagedWrite)
    requires log <= log' && MovesIn(log') == MovesIn(log)
    ensures Accounted(log, own, w) ==> Accounted(log', own, w)
    ensures Pending(log, own, w) ==> Pending(log', own, w)
    ensures LeftAlone(log, 0, w.Staging()) ==> LeftAlone(log', 0, w.Staging())
  {
    NoMoves(log, log', w.Staging());
    AccountedLater(log, log', own, w);
    if LeftAlone(log, 0, w.Staging()) {
      LeftAloneLater(log, log', w.Staging());
    }
    hide Accounted, Pending, LeftAlone, WentOn;
  }

  /** An entry that is not exchanged has taken nothing that raced in. */
  lemma NotExchanged(log: seq<Event>, own: set<Inode>, w: StagedWrite, state: InstallState)
    requires Pending(log, own, w) && !w.state.Exchanged? && !w.state.RestoreBlocked?
    ensures Accounted(log, own, w.(state := state))
  {
    var w' := w.(state := state);
    forall i, j: nat | Took(log, w', i, j) ensures !RacedIn(own, w', i) {
      assert Took(log, w, i, j);
    }
  }

  lemma NotExchangedNow(log: seq<Event>, own: set<Inode>, w: StagedWrite)
    requires Pending(log, own, w) && !w.state.Exchanged?
    ensures Accounted(log, own, w)
  {
  }

  lemma RestoreIsBlocked(log: seq<Event>, own: set<Inode>, w: StagedWrite)
    ensures Accounted(log, own, w.(state := RestoreBlocked))
  {
  }

  /** The exchange that takes an entry back, seen from before it. */
  lemma TakenBack(log: seq<Event>, last: nat, log': seq<Event>, l: Licence, w: StagedWrite, d: Disk, d': Disk)
    requires IsRun(log) && Disciplined(log, l) && (0 < |log| ==> FinalState(log) == d)
    requires Pending(log, l.own, w) && w.state.Exchanged? && w.expected.ExpectRegular? && w.Staging() != w.Target()
    requires IdentityAt(d, w.Staging()) == Some(w.expected.identity)
    requires log <= log' && |log| <= last < |log'| && MovesIn(log') == MovesIn(log) + {last}
    requires IsRun(log') && FinalState(log') == d' && Disciplined(log', l) && !l.replacing && l.doomed == {}
    requires IdentityAt(d', w.Staging()) == Some(w.stagedIdentity) && w.stagedIdentity in l.own
    ensures Accounted(log', l.own, w.(state := Staged))
  {
    var w' := w.(state := Staged);
    forall i, j: nat | Took(log, w, i, j) ensures !RacedIn(l.own, w, i) {
      VerifiedIsClean(log, l, w, d);
    }
    ExchangedBack(log, last, log', l, w, d');
    forall i, j: nat | Took(log', w', i, j) ensures !RacedIn(l.own, w', i) {
      assert Took(log', w, i, j);
    }
  }
}
