/** The projection planner: which managed files to create or update, what conflicts with the user's
    tree, and the ownership manifest that records the result (crates/minco-cli/src/agent_cmd.rs). */
module AgentPlan {
  import opened Disks
  import opened Options
  import opened Paths
  import opened Sorting
  import opened AgentStaging

  // ---------- The compiled-in bundle ----------

  datatype Client = Claude | Codex

  datatype Target = OnlyCodex | OnlyClaude | All

  predicate Selects(target: Target, client: Client) {
    match target
    case OnlyCodex => client == Codex
    case OnlyClaude => client == Claude
    case All => true
  }

  function ProjectionRoot(client: Client): Path {
    match client
    case Claude => [".claude", "skills"]
    case Codex => [".agents", "skills"]
  }

  const CLAUDE_BRIDGE: Path := ["CLAUDE.md"]
  const AGENTS_FILE: Path := ["AGENTS.md"]

  datatype Asset = Asset(path: Path, contents: Bytes)

  /** A recorded checksum: the digest of some contents, or text that is the digest of none. */
  datatype Checksum = Hex(digest: Digest) | Text(text: string)

  datatype ManagedFile = ManagedFile(path: Path, client: Client, sha256: Checksum)

  datatype Manifest = Manifest(
    schemaVersion: nat, mincoVersion: string, bundleDigest: string, clients: seq<Client>, files: seq<ManagedFile>)

  /** `render` and `parse` are the JSON writer and reader. */
  datatype Bundle = Bundle(
    version: string, digest: string, assets: seq<Asset>, bridge: Bytes,
    render: Manifest -> Bytes, parse: Bytes -> Option<Manifest>)

  function AssetPath(a: Asset): Path { a.path }

  ghost predicate ValidBundle(b: Bundle) {
    && DistinctBy(b.assets, AssetPath)
    && (forall a :: a in b.assets ==> a.path != [] && NoSlash(a.path))
    && (forall m :: b.parse(b.render(m)) == Some(m))
  }

  // ---------- Desired files ----------

  datatype DesiredFile = DesiredFile(path: Path, client: Client, contents: Bytes, allowUserOwned: bool)

  function Projected(client: Client, assets: seq<Asset>): (r: seq<DesiredFile>)
    ensures |r| == |assets|
    ensures forall k :: 0 <= k < |r| ==> r[k] == Projection(client, assets[k])
  {
    seq(|assets|, k requires 0 <= k < |assets| => Projection(client, assets[k]))
  }

  function Bridge(b: Bundle): DesiredFile {
    DesiredFile(CLAUDE_BRIDGE, Claude, b.bridge, true)
  }

  predicate DesiredLeq(f: DesiredFile, g: DesiredFile) {
    StringLeq(Render(f.path), Render(g.path))
  }

  /** `desired_files`. */
  function DesiredFiles(b: Bundle, target: Target): seq<DesiredFile> {
    Sort(
      (if Selects(target, Claude) then Projected(Claude, b.assets) + [Bridge(b)] else [])
      + (if Selects(target, Codex) then Projected(Codex, b.assets) else []),
      DesiredLeq)
  }

  function Projection(client: Client, a: Asset): DesiredFile {
    DesiredFile(ProjectionRoot(client) + a.path, client, a.contents, false)
  }

  ghost predicate IsProjection(client: Client, assets: seq<Asset>, f: DesiredFile) {
    exists a :: a in assets && f == Projection(client, a)
  }

  /** What `desired_files` holds, without its order. */
  ghost predicate Desired(b: Bundle, target: Target, f: DesiredFile) {
    Selects(target, f.client) && (f == Bridge(b) || IsProjection(f.client, b.assets, f))
  }

  lemma ProjectedMembers(client: Client, assets: seq<Asset>, f: DesiredFile)
    ensures f in Projected(client, assets) <==> IsProjection(client, assets, f)
    ensures f in Projected(client, assets) ==> f.client == client
  {
    var r := Projected(client, assets);
    if f in r {
      var k :| 0 <= k < |r| && r[k] == f;
      assert assets[k] in assets;
    }
    if IsProjection(client, assets, f) {
      var a :| a in assets && f == Projection(client, a);
      var k :| 0 <= k < |assets| && assets[k] == a;
      assert r[k] == f;
    }
  }

  lemma DesiredMembers(b: Bundle, target: Target, f: DesiredFile)
    ensures f in DesiredFiles(b, target) <==> Desired(b, target, f)
  {
    hide IsProjection, Projection, Sort;
    ProjectedMembers(Claude, b.assets, f);
    ProjectedMembers(Codex, b.assets, f);
    var claude := if Selects(target, Claude) then Projected(Claude, b.assets) + [Bridge(b)] else [];
    var codex := if Selects(target, Codex) then Projected(Codex, b.assets) else [];
    SamePermutation(claude + codex, DesiredFiles(b, target));
    assert f in claude + codex <==> f in claude || f in codex;
    assert Bridge(b).client == Claude;
    if IsProjection(f.client, b.assets, f) {
      assert f.client == Claude || f.client == Codex;
    }
  }

  lemma BridgeIsNoProjection(b: Bundle, client: Client)
    requires ValidBundle(b)
    ensures forall f :: IsProjection(client, b.assets, f) ==> f.path != CLAUDE_BRIDGE
  {
    forall f | IsProjection(client, b.assets, f) ensures |f.path| > 2 {
      var a :| a in b.assets && f == Projection(client, a);
    }
  }

  /** A projection path belongs to one client and has one content. */
  lemma DesiredByPath(b: Bundle, target: Target, target': Target, f: DesiredFile, g: DesiredFile)
    requires ValidBundle(b) && Desired(b, target, f) && Desired(b, target', g) && f.path == g.path
    ensures f == g
  {
    BridgeIsNoProjection(b, f.client);
    BridgeIsNoProjection(b, g.client);
    RootsDiffer();
    if f != Bridge(b) && g != Bridge(b) {
      var a :| a in b.assets && f == Projection(f.client, a);
      var a' :| a' in b.assets && g == Projection(g.client, a');
      assert f.path[0] == ProjectionRoot(f.client)[0] && g.path[0] == ProjectionRoot(g.client)[0];
      assert a.path == f.path[2..] && a'.path == g.path[2..];
      var i :| 0 <= i < |b.assets| && b.assets[i] == a;
      var j :| 0 <= j < |b.assets| && b.assets[j] == a';
      assert AssetPath(b.assets[i]) == AssetPath(b.assets[j]);
      assert i == j;
    }
  }

  lemma RootsDiffer()
    ensures ProjectionRoot(Claude)[0] != ProjectionRoot(Codex)[0]
  {
    assert ".claude"[1] != ".agents"[1];
  }

  lemma DesiredPathsOrdinary(b: Bundle, target: Target, f: DesiredFile)
    requires ValidBundle(b) && Desired(b, target, f)
    ensures f.path != MANIFEST_PATH && f.path != AGENTS_FILE && NoSlash(f.path)
    ensures f.allowUserOwned <==> f.path == CLAUDE_BRIDGE
  {
    assert ".minco"[1] != ".claude"[1] && ".minco"[1] != ".agents"[1];
    assert "CLAUDE.md"[0] != "AGENTS.md"[0];
    if f != Bridge(b) {
      var a :| a in b.assets && f == Projection(f.client, a);
      assert |f.path| > 2;
    }
  }

  // ---------- The tree and its manifest ----------

  /** What `inspect` reports for each path; a path outside the map is missing. */
  type Tree = map<Path, Inspection>

  function Inspect(tree: Tree, path: Path): Inspection {
    if path in tree then tree[path] else Missing
  }

  datatype ConflictCode =
    | UnsafePathEntry | InvalidManifest | ManagedDependencyMissing
    | ManagedFileMissing | ManagedFileModified | UserOwnedDestination

  datatype Conflict = Conflict(path: Path, code: ConflictCode)

  datatype ManualCode = AgentsInstructionsMissing | ClaudeInstructions | McpConfiguration

  datatype ManualAction = ManualAction(client: Client, code: ManualCode)

  function Find(files: seq<ManagedFile>, path: Path): (r: Option<ManagedFile>)
    ensures r.Some? ==> r.value in files && r.value.path == path
    ensures r.None? ==> forall f :: f in files ==> f.path != path
  {
    if files == [] then None
    else if files[|files| - 1].path == path then Some(files[|files| - 1])
    else Find(files[..|files| - 1], path)
  }

  function ManagedPath(f: ManagedFile): Path { f.path }

  predicate ValidChecksum(c: Checksum) {
    c.Hex? || |c.text| == 64
  }

  predicate ClaimsFixedPath(b: Bundle, f: ManagedFile) {
    exists g ::
      g in DesiredFiles(b, OnlyClaude) + DesiredFiles(b, OnlyCodex) && g.path == f.path && g.client == f.client
  }

  predicate ValidManifest(b: Bundle, m: Manifest) {
    && m.schemaVersion == 1
    && (forall f :: f in m.files ==> ClaimsFixedPath(b, f) && ValidChecksum(f.sha256))
    && |set f | f in m.files :: f.path| == |m.files|
  }

  /** `load_manifest`. */
  function LoadManifest(b: Bundle, state: Inspection): Option<Manifest> {
    match state
    case Regular(contents, _) =>
      (match b.parse(contents)
       case Some(m) => if ValidManifest(b, m) then Some(m) else None
       case None => None)
    case _ => None
  }

  function ManifestConflicts(b: Bundle, state: Inspection): seq<Conflict> {
    match state
    case Unsafe => [Conflict(MANIFEST_PATH, UnsafePathEntry)]
    case Missing => []
    case Regular(_, _) => if LoadManifest(b, state).Some? then [] else [Conflict(MANIFEST_PATH, InvalidManifest)]
  }

  function Recorded(previous: Option<Manifest>): seq<ManagedFile> {
    if previous.Some? then previous.value.files else []
  }

  // ---------- One file ----------

  datatype ActionKind = Create | Update | Unchanged | ConflictAction

  datatype PlanAction = PlanAction(
    path: Path, client: Option<Client>, kind: ActionKind, desiredDigest: Digest, currentDigest: Option<Digest>,
    contents: Bytes, expected: Expected)

  /** `claude_bridge_available`. */
  predicate BridgeAvailable(tree: Tree, target: Target) {
    Selects(target, Claude) ==> Inspect(tree, AGENTS_FILE).Regular?
  }

  function BridgeConflicts(tree: Tree, recorded: seq<ManagedFile>, target: Target): seq<Conflict> {
    if !Selects(target, Claude) then []
    else match Inspect(tree, AGENTS_FILE)
      case Regular(_, _) => []
      case Missing =>
        if Find(recorded, CLAUDE_BRIDGE).Some? then [Conflict(AGENTS_FILE, ManagedDependencyMissing)] else []
      case Unsafe => [Conflict(AGENTS_FILE, UnsafePathEntry)]
  }

  function BridgeManual(tree: Tree, recorded: seq<ManagedFile>, target: Target): seq<ManualAction> {
    if Selects(target, Claude) && Inspect(tree, AGENTS_FILE).Missing? && Find(recorded, CLAUDE_BRIDGE).None?
    then [ManualAction(Claude, AgentsInstructionsMissing)]
    else []
  }

  /** A user's own file at a path that allows one. */
  predicate LeftToUser(tree: Tree, recorded: seq<ManagedFile>, f: DesiredFile) {
    f.allowUserOwned && Find(recorded, f.path).None? && Inspect(tree, f.path).Regular?
  }

  predicate Skipped(available: bool, f: DesiredFile) {
    f.path == CLAUDE_BRIDGE && !available
  }

  predicate Considered(tree: Tree, recorded: seq<ManagedFile>, available: bool, f: DesiredFile) {
    !Skipped(available, f) && !LeftToUser(tree, recorded, f)
  }

  function KindFor(state: Inspection, managed: Option<ManagedFile>, f: DesiredFile): ActionKind {
    match state
    case Missing => if managed.Some? then ConflictAction else Create
    case Unsafe => ConflictAction
    case Regular(contents, _) =>
      if managed.Some? && managed.value.sha256 == Hex(Sha256(contents)) then
        if Sha256(contents) == Sha256(f.contents) then Unchanged else Update
      else ConflictAction
  }

  function ConflictFor(state: Inspection, managed: Option<ManagedFile>, f: DesiredFile): seq<Conflict> {
    match state
    case Missing => if managed.Some? then [Conflict(f.path, ManagedFileMissing)] else []
    case Unsafe => [Conflict(f.path, UnsafePathEntry)]
    case Regular(contents, _) =>
      if managed.None? then [Conflict(f.path, UserOwnedDestination)]
      else if managed.value.sha256 == Hex(Sha256(contents)) then []
      else [Conflict(f.path, ManagedFileModified)]
  }

  function ExpectedFor(state: Inspection): Expected {
    match state
    case Missing => ExpectMissing
    case Regular(contents, id) => ExpectRegular(id, Sha256(contents))
    case Unsafe => ExpectUnsafe
  }

  function CurrentDigest(state: Inspection): Option<Digest> {
    if state.Regular? then Some(Sha256(state.contents)) else None
  }

  function ActionFor(tree: Tree, recorded: seq<ManagedFile>, f: DesiredFile): PlanAction {
    var state := Inspect(tree, f.path);
    PlanAction(f.path, Some(f.client), KindFor(state, Find(recorded, f.path), f), Sha256(f.contents),
               CurrentDigest(state), f.contents, ExpectedFor(state))
  }

  function RecordFor(f: DesiredFile): ManagedFile {
    ManagedFile(f.path, f.client, Hex(Sha256(f.contents)))
  }

  // ---------- The plan ----------

  /** What the loop over the desired files accumulates. */
  datatype Progress = Progress(
    actions: seq<PlanAction>, conflicts: seq<Conflict>, manual: seq<ManualAction>, next: seq<ManagedFile>)

  function PlanFiles(tree: Tree, recorded: seq<ManagedFile>, available: bool, files: seq<DesiredFile>): Progress {
    if files == [] then Progress([], [], [], [])
    else
      var done := PlanFiles(tree, recorded, available, files[..|files| - 1]);
      var f := files[|files| - 1];
      if Skipped(available, f) then done
      else if LeftToUser(tree, recorded, f) then
        done.(manual := done.manual + [ManualAction(f.client, ClaudeInstructions)])
      else
        Progress(
          done.actions + [ActionFor(tree, recorded, f)],
          done.conflicts + ConflictFor(Inspect(tree, f.path), Find(recorded, f.path), f),
          done.manual,
          done.next + [RecordFor(f)])
  }

  predicate RecordLeq(f: ManagedFile, g: ManagedFile) {
    StringLeq(Render(f.path), Render(g.path))
  }

  /** `dedup_by` on the path. */
  function Dedup(files: seq<ManagedFile>): seq<ManagedFile> {
    if |files| < 2 then files
    else
      var rest := Dedup(files[..|files| - 1]);
      if rest != [] && rest[|rest| - 1].path == files[|files| - 1].path then rest else rest + [files[|files| - 1]]
  }

  predicate Retains(target: Target, f: ManagedFile) {
    !Selects(target, f.client)
  }

  function Retained(target: Target, recorded: seq<ManagedFile>): seq<ManagedFile> {
    Filter(recorded, f => Retains(target, f))
  }

  function ClientsOf(files: seq<ManagedFile>): seq<Client> {
    (if exists f :: f in files && f.client == Claude then [Claude] else [])
    + (if exists f :: f in files && f.client == Codex then [Codex] else [])
  }

  function NextManifest(b: Bundle, target: Target, recorded: seq<ManagedFile>, next: seq<ManagedFile>): Manifest {
    var files := Dedup(Sort(Retained(target, recorded) + next, RecordLeq));
    Manifest(1, b.version, b.digest, ClientsOf(files), files)
  }

  function ManifestAction(b: Bundle, state: Inspection, next: Manifest): PlanAction {
    var contents := b.render(next);
    var kind := match state
      case Missing => Create
      case Unsafe => ConflictAction
      case Regular(current, _) =>
        if LoadManifest(b, state).None? then ConflictAction
        else if Sha256(current) == Sha256(contents) then Unchanged
        else Update;
    PlanAction(MANIFEST_PATH, None, kind, Sha256(contents), CurrentDigest(state), contents, ExpectedFor(state))
  }

  predicate ActionLeq(x: PlanAction, y: PlanAction) {
    StringLeq(Render(x.path), Render(y.path))
  }

  predicate ConflictLeq(x: Conflict, y: Conflict) {
    if x.path != y.path then StringLeq(Render(x.path), Render(y.path)) else CodeRank(x.code) <= CodeRank(y.code)
  }

  /** The rank of a code's text. */
  function CodeRank(code: ConflictCode): nat {
    match code
    case InvalidManifest => 0
    case ManagedDependencyMissing => 1
    case ManagedFileMissing => 2
    case ManagedFileModified => 3
    case UnsafePathEntry => 4
    case UserOwnedDestination => 5
  }

  predicate ManualLeq(x: ManualAction, y: ManualAction) {
    if x.client != y.client then x.client == Claude else ManualRank(x.code) <= ManualRank(y.code)
  }

  function ManualRank(code: ManualCode): nat {
    match code
    case AgentsInstructionsMissing => 0
    case ClaudeInstructions => 1
    case McpConfiguration => 2
  }

  function McpActions(target: Target): seq<ManualAction> {
    (if Selects(target, Claude) then [ManualAction(Claude, McpConfiguration)] else [])
    + (if Selects(target, Codex) then [ManualAction(Codex, McpConfiguration)] else [])
  }

  datatype Plan = Plan(
    bundleDigest: string, target: Target, safe: bool, actions: seq<PlanAction>, conflicts: seq<Conflict>,
    manual: seq<ManualAction>, manifest: Manifest)

  /** `build_plan`, as a function of the tree. */
  function PlanFor(b: Bundle, tree: Tree, target: Target): Plan {
    var state := Inspect(tree, MANIFEST_PATH);
    var recorded := Recorded(LoadManifest(b, state));
    var available := BridgeAvailable(tree, target);
    var done := PlanFiles(tree, recorded, available, DesiredFiles(b, target));
    var next := NextManifest(b, target, recorded, done.next);
    var conflicts := ManifestConflicts(b, state) + BridgeConflicts(tree, recorded, target) + done.conflicts;
    Plan(b.digest, target, conflicts == [],
         Sort(done.actions + [ManifestAction(b, state, next)], ActionLeq),
         Sort(conflicts, ConflictLeq),
         Sort(McpActions(target) + (BridgeManual(tree, recorded, target) + done.manual), ManualLeq),
         next)
  }

  /** `build_plan`. */
  method BuildPlan(b: Bundle, tree: Tree, target: Target) returns (plan: Plan)
    ensures plan == PlanFor(b, tree, target)
  {
    var desired := DesiredFiles(b, target);
    var state := Inspect(tree, MANIFEST_PATH);
    var conflicts := ManifestConflicts(b, state);
    var recorded := Recorded(LoadManifest(b, state));
    var actions, next, manual := [], Retained(target, recorded), BridgeManual(tree, recorded, target);
    conflicts := conflicts + BridgeConflicts(tree, recorded, target);
    var available := BridgeAvailable(tree, target);
    ghost var conflicts0, next0, manual0 := conflicts, next, manual;
    hide LoadManifest, BridgeConflicts, BridgeManual, BridgeAvailable, Skipped, LeftToUser, ConflictFor, ActionFor,
      RecordFor, DesiredFiles, Sort, Dedup, ManifestAction, ManifestConflicts, Filter, ClientsOf, McpActions, Find;
    for k := 0 to |desired|
      invariant var done := PlanFiles(tree, recorded, available, desired[..k]);
        && actions == done.actions && conflicts == conflicts0 + done.conflicts
        && manual == manual0 + done.manual && next == next0 + done.next
    {
      var f := desired[k];
      TakeOneMore(desired, k);
      assert desired[..k + 1][..k] == desired[..k];
      if Skipped(available, f) {
        continue;
      }
      if LeftToUser(tree, recorded, f) {
        manual := manual + [ManualAction(f.client, ClaudeInstructions)];
        continue;
      }
      var found := Inspect(tree, f.path);
      var managed := Find(recorded, f.path);
      conflicts := conflicts + ConflictFor(found, managed, f);
      next := next + [RecordFor(f)];
      actions := actions + [ActionFor(tree, recorded, f)];
    }
    TakeAll(desired);
    next := Dedup(Sort(next, RecordLeq));
    var manifest := Manifest(1, b.version, b.digest, ClientsOf(next), next);
    actions := Sort(actions + [ManifestAction(b, state, manifest)], ActionLeq);
    plan := Plan(b.digest, target, conflicts == [], actions, Sort(conflicts, ConflictLeq),
                 Sort(McpActions(target) + manual, ManualLeq), manifest);
  }
}
