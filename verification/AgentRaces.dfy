/** Syncs taken apart: every install is a step of its own, users edit the tree between any two of them, and a
    publication may be taken back or crash at any moment (crates/minco-cli/src/agent_cmd.rs, `sync` and
    `publish_inner`). */
module AgentRaces {
  import opened Disks
  import opened Options
  import opened Paths
  import opened Sorting
  import opened AgentStaging
  import opened AgentPlan
  import opened AgentPlanFacts
  import opened AgentSync
  import opened AgentRuns

  /** An install that was made: what it found and what it left. */
  datatype Displaced = Displaced(path: Path, before: Inspection, written: Inspection)

  datatype Activity =
    | Idle | Publishing(target: Target, planned: Tree, done: seq<Displaced>) | TakingBack(done: seq<Displaced>)

  datatype Moment = Moment(tree: Tree, activity: Activity)

  /** `planned` is what the sync has seen of the project before it starts to publish. */
  datatype Deed =
    | Edit(after: Tree) | Start(target: Target, planned: Tree) | Install(id: Inode) | Commit | Fail | TakeBack | Crash

  function Put(tree: Tree, path: Path, state: Inspection): (r: Tree)
    ensures Inspect(r, path) == state && forall p :: p != path ==> Inspect(r, p) == Inspect(tree, p)
  {
    if state.Missing? then tree - {path} else tree[path := state]
  }

  ghost predicate Leads(b: Bundle, m: Moment, deed: Deed, m': Moment) {
    match deed
    case Edit(after) => m' == m.(tree := after)
    case Start(target, planned) =>
      && m.activity.Idle?
      && m' == if PlanFor(b, planned, target).safe then m.(activity := Publishing(target, planned, [])) else m
    case Install(id) => m.activity.Publishing? && Installs(b, m, id, m')
    case Commit =>
      && m.activity.Publishing? && m' == m.(activity := Idle)
      && |m.activity.done| == |InstallOrder(PlanFor(b, m.activity.planned, m.activity.target))|
    case Fail => m.activity.Publishing? && m' == m.(activity := TakingBack(m.activity.done))
    case TakeBack => m.activity.TakingBack? && TakesBack(m, m')
    case Crash => m' == m.(activity := Idle)
  }

  /** The next file is installed if its expectation is met; if it is not, the publication is taken back. */
  ghost predicate Installs(b: Bundle, m: Moment, id: Inode, m': Moment)
    requires m.activity.Publishing?
  {
    var Publishing(target, planned, done) := m.activity;
    var order := InstallOrder(PlanFor(b, planned, target));
    |done| < |order| &&
    var a := order[|done|];
    if MeetsExpectation(m.tree, a) then
      var written := Regular(a.contents, id);
      m' == Moment(Put(m.tree, a.path, written),
                   Publishing(target, planned, done + [Displaced(a.path, Inspect(m.tree, a.path), written)]))
    else m' == m.(activity := TakingBack(done))
  }

  /** The last install is taken back, unless its file has changed since. */
  ghost predicate TakesBack(m: Moment, m': Moment)
    requires m.activity.TakingBack?
  {
    var done := m.activity.done;
    if done == [] then m' == m.(activity := Idle)
    else
      var last := done[|done| - 1];
      var tree := if Inspect(m.tree, last.path) == last.written then Put(m.tree, last.path, last.before) else m.tree;
      m' == Moment(tree, TakingBack(done[..|done| - 1]))
  }

  // ---------- One install ----------

  /** What an install replaces the planned manifest records with its digest; otherwise it finds nothing there. */
  lemma ReplacesManagedOnly(b: Bundle, planned: Tree, target: Target, now: Tree, a: PlanAction)
    requires ValidBundle(b) && PlanFor(b, planned, target).safe && a in InstallOrder(PlanFor(b, planned, target))
    requires a.path != MANIFEST_PATH && MeetsExpectation(now, a)
    ensures Inspect(now, a.path).Missing? ||
      (Inspect(now, a.path).Regular? && Find(Records(b, planned), a.path).Some? &&
       Find(Records(b, planned), a.path).value.sha256 == Hex(Sha256(Inspect(now, a.path).contents)))
  {
    hide ValidBundle, PlanFor, Sort, Takes, Records, Find;
    InstallOrderMembers(b, planned, target);
    PlanActions(b, planned, target);
    var f :| Takes(b, planned, target, f) && a == ActionAt(b, planned, f);
  }

  /** A file that the planned manifest does not record with its digest: the user's. */
  ghost predicate NotManaged(b: Bundle, planned: Tree, now: Tree, p: Path) {
    && !Inspect(now, p).Missing?
    && forall r :: Find(Records(b, planned), p) == Some(r) && Inspect(now, p).Regular? ==>
         r.sha256 != Hex(Sha256(Inspect(now, p).contents))
  }

  /** No single install changes such a file, whatever users have done to the tree since the plan was made. */
  lemma InstallRespectsUsers(b: Bundle, m: Moment, id: Inode, m': Moment, p: Path)
    requires ValidBundle(b) && m.activity.Publishing? && Leads(b, m, Install(id), m') && p != MANIFEST_PATH
    requires PlanFor(b, m.activity.planned, m.activity.target).safe && NotManaged(b, m.activity.planned, m.tree, p)
    ensures Inspect(m'.tree, p) == Inspect(m.tree, p)
  {
    hide ValidBundle, PlanFor, Sort, Takes, Records, Find, InstallOrder, MeetsExpectation;
    var order := InstallOrder(PlanFor(b, m.activity.planned, m.activity.target));
    var a := order[|m.activity.done|];
    assert a in order;
    if MeetsExpectation(m.tree, a) && a.path == p {
      ReplacesManagedOnly(b, m.activity.planned, m.activity.target, m.tree, a);
    }
  }

  // ---------- Whole runs ----------

  ghost predicate Unrecorded(b: Bundle, tree: Tree, p: Path) {
    Find(Records(b, tree), p).None?
  }

  /** No install so far was at `p`, and whatever manifest was replaced does not record it. */
  ghost predicate DoneElsewhere(b: Bundle, done: seq<Displaced>, p: Path) {
    forall d :: d in done ==>
      d.path != p && (d.path == MANIFEST_PATH ==> Find(Recorded(LoadManifest(b, d.before)), p).None?)
  }

  /** The installs so far are the first ones of the plan. */
  ghost predicate InOrder(b: Bundle, activity: Activity)
    requires activity.Publishing?
  {
    var order := InstallOrder(PlanFor(b, activity.planned, activity.target));
    && PlanFor(b, activity.planned, activity.target).safe && |activity.done| <= |order|
    && forall j :: 0 <= j < |activity.done| ==> activity.done[j].path == order[j].path
  }

  /** The file at `p` is as it was, unrecorded, and no sync under way knows it as its own. */
  ghost predicate LeftInPeace(b: Bundle, m: Moment, p: Path, file: Inspection) {
    && Inspect(m.tree, p) == file && Unrecorded(b, m.tree, p)
    && match m.activity
       case Idle => true
       case Publishing(_, planned, done) =>
         InOrder(b, m.activity) && Unrecorded(b, planned, p) && DoneElsewhere(b, done, p)
       case TakingBack(done) => DoneElsewhere(b, done, p)
  }

  lemma SameManifestSameRecords(b: Bundle, tree: Tree, tree': Tree, p: Path)
    requires Inspect(tree, MANIFEST_PATH) == Inspect(tree', MANIFEST_PATH)
    ensures Unrecorded(b, tree, p) <==> Unrecorded(b, tree', p)
  {
  }

  /** The manifest of a plan records no file that was unrecorded and stood in the way. */
  lemma ManifestClaimsNothing(b: Bundle, activity: Activity, p: Path, id: Inode)
    requires ValidBundle(b) && activity.Publishing? && InOrder(b, activity) && p != MANIFEST_PATH
    requires Unrecorded(b, activity.planned, p) && DoneElsewhere(b, activity.done, p)
    requires var order := InstallOrder(PlanFor(b, activity.planned, activity.target));
      |activity.done| < |order| && order[|activity.done|].path == MANIFEST_PATH
    ensures var a := InstallOrder(PlanFor(b, activity.planned, activity.target))[|activity.done|];
      Find(Recorded(LoadManifest(b, Regular(a.contents, id))), p).None?
  {
    hide ValidBundle, PlanFor, Sort, Takes, Records, InstallOrder, DistinctBy, LoadManifest, Increasing;
    var Publishing(target, planned, done) := activity;
    var order := InstallOrder(PlanFor(b, planned, target));
    var manifest := PlanFor(b, planned, target).manifest;
    ManifestInstallsLast(b, planned, target);
    assert |done| == |order| - 1;
    forall a | a in order ensures a.path != p {
      var j :| 0 <= j < |order| && order[j] == a;
      assert j < |done| ==> done[j] in done;
    }
    NextManifestLoads(b, planned, target, id);
    NextRecords(b, planned, target);
    if Find(manifest.files, p).Some? {
      var r := Find(manifest.files, p).value;
      assert Carries(b, planned, target, r);
      var f :| Takes(b, planned, target, f) && r == RecordFor(f);
      TakenUnrecordedIsCreated(b, planned, target, f);
    }
  }

  /** One install leaves the file in peace. */
  lemma InstallLeaves(b: Bundle, m: Moment, id: Inode, m': Moment, p: Path, file: Inspection)
    requires ValidBundle(b) && LeftInPeace(b, m, p, file) && m.activity.Publishing? && Installs(b, m, id, m')
    requires p != MANIFEST_PATH && !file.Missing?
    ensures LeftInPeace(b, m', p, file)
  {
    hide ValidBundle, PlanFor, Sort, Records, InstallOrder, MeetsExpectation, Find, LoadManifest, Put, Unrecorded;
    var Publishing(target, planned, done) := m.activity;
    var order := InstallOrder(PlanFor(b, planned, target));
    var a := order[|done|];
    if MeetsExpectation(m.tree, a) {
      assert a in order;
      if a.path == MANIFEST_PATH {
        ManifestClaimsNothing(b, m.activity, p, id);
        RecordsAre(b, m'.tree, p);
      } else {
        ReplacesManagedOnly(b, planned, target, m.tree, a);
        RecordsAre(b, planned, p);
        SameManifestSameRecords(b, m.tree, m'.tree, p);
      }
      RecordsAre(b, m.tree, p);
    }
  }

  lemma RecordsAre(b: Bundle, tree: Tree, p: Path)
    ensures Unrecorded(b, tree, p) <==> Find(Recorded(LoadManifest(b, Inspect(tree, MANIFEST_PATH))), p).None?
    ensures Unrecorded(b, tree, p) <==> Find(Records(b, tree), p).None?
  {
  }

  lemma TakeBackLeaves(b: Bundle, m: Moment, m': Moment, p: Path, file: Inspection)
    requires LeftInPeace(b, m, p, file) && m.activity.TakingBack? && TakesBack(m, m')
    ensures LeftInPeace(b, m', p, file)
  {
    hide Find, LoadManifest, Put, Inspect, Unrecorded;
    var done := m.activity.done;
    if done != [] {
      var last := done[|done| - 1];
      assert last in done && forall d :: d in done[..|done| - 1] ==> d in done;
      if last.path == MANIFEST_PATH {
        RecordsAre(b, m'.tree, p);
      }
      if last.path != MANIFEST_PATH || m'.tree == m.tree {
        SameManifestSameRecords(b, m.tree, m'.tree, p);
      }
    }
  }

  ghost predicate IsRace(b: Bundle, moments: seq<Moment>, deeds: seq<Deed>) {
    && |moments| == |deeds| + 1
    && forall k :: 0 <= k < |deeds| ==> Leads(b, moments[k], deeds[k], moments[k + 1])
  }

  /** The users' edits after `from` leave the file at `p` as it is and do not record it. */
  ghost predicate UsersLeave(b: Bundle, moments: seq<Moment>, deeds: seq<Deed>, from: nat, p: Path) {
    forall k :: from <= k < |deeds| && k + 1 < |moments| && deeds[k].Edit? ==>
      Inspect(moments[k + 1].tree, p) == Inspect(moments[k].tree, p) && Unrecorded(b, moments[k + 1].tree, p)
  }

  /** A sync that starts after `from` has seen the manifest after `from`. */
  ghost predicate SawManifest(moments: seq<Moment>, from: nat, k: nat, planned: Tree) {
    exists i :: from <= i <= k && i < |moments| &&
      Inspect(planned, MANIFEST_PATH) == Inspect(moments[i].tree, MANIFEST_PATH)
  }

  ghost predicate SyncsLook(moments: seq<Moment>, deeds: seq<Deed>, from: nat) {
    forall k :: from <= k < |deeds| && deeds[k].Start? ==> SawManifest(moments, from, k, deeds[k].planned)
  }

  /** Over any run of edits and syncs, however they interleave, fail and crash, a file that the user put there and that
      the manifest does not record stays the same file. */
  lemma {:induction false} RacedFileSurvives(
      b: Bundle, moments: seq<Moment>, deeds: seq<Deed>, from: nat, p: Path, k: nat)
    requires ValidBundle(b) && IsRace(b, moments, deeds) && from <= k < |moments| && p != MANIFEST_PATH
    requires moments[from].activity.Idle? && Unrecorded(b, moments[from].tree, p)
    requires !Inspect(moments[from].tree, p).Missing?
    requires UsersLeave(b, moments, deeds, from, p) && SyncsLook(moments, deeds, from)
    ensures LeftInPeace(b, moments[k], p, Inspect(moments[from].tree, p))
    decreases k
  {
    hide ValidBundle, Unrecorded, Installs, TakesBack, InOrder, PlanFor, InstallOrder, Inspect, DoneElsewhere;
    if k > from {
      var file, m, deed := Inspect(moments[from].tree, p), moments[k - 1], deeds[k - 1];
      RacedFileSurvives(b, moments, deeds, from, p, k - 1);
      assert Leads(b, m, deed, moments[k]);
      match deed
      case Install(id) => InstallLeaves(b, m, id, moments[k], p, file);
      case TakeBack => TakeBackLeaves(b, m, moments[k], p, file);
      case Start(target, planned) =>
        var i :| from <= i <= k - 1 && Inspect(planned, MANIFEST_PATH) == Inspect(moments[i].tree, MANIFEST_PATH);
        RacedFileSurvives(b, moments, deeds, from, p, i);
        SameManifestSameRecords(b, planned, moments[i].tree, p);
        NothingDone(b, target, planned, p);
      case _ =>
    }
  }

  lemma NothingDone(b: Bundle, target: Target, planned: Tree, p: Path)
    ensures DoneElsewhere(b, [], p)
    ensures PlanFor(b, planned, target).safe ==> InOrder(b, Publishing(target, planned, []))
  {
    hide PlanFor, InstallOrder;
  }
}
