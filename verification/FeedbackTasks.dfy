/** Client feedback turned into a repository task: a plan that binds the exact inputs and the current source, and its
    application, which must not trip over its own plan (crates/minco-cli/src/feedback_cmd.rs). */
module FeedbackTasks {
  import opened Options
  import opened Paths
  import opened Disks
  import opened DeliveryReadiness
  import opened DiskPaths
  import opened FileSystems
  import opened OpenPaths
  import opened SourceOnDisk
  import opened TaskSearches
  import opened TreeShapes
  import SourceManifests
  import SourceRules
  import SourceWalk
  import Delivery = DeliveryOutputs
  import DeliveryPublication

  const RECEIPT_ROOT: Path := ["verification", "feedback-task-receipts"]
  const TASKS: Path := ["tasks"]

  /** SHA-256 of the bytes of a file, of a plan, and of the body of a receipt. */
  datatype FileDigest = FileDigest(of: Bytes)
  datatype PlanDigest = PlanDigest(of: Payload)
  datatype ReceiptDigest = ReceiptDigest(of: ReceiptPayload)

  /** What is asked for; `taskRoot` is the task directory that the project names, and `details` is everything that
      only the text of the task and the checks look at. */
  datatype Request = Request(
    details: string, taskId: string, dependsOn: set<string>, taskRoot: Path, task: Path, receipt: Path,
    release: Path, deployment: Path)

  datatype Payload = Payload(
    details: string, taskId: string, task: Path, taskDigest: FileDigest, receipt: Path,
    release: Delivery.ExactInput, deployment: Delivery.ExactInput, source: string)

  datatype ReceiptPayload = ReceiptPayload(planDigest: PlanDigest, payload: Payload)

  datatype Receipt = Receipt(receiptDigest: ReceiptDigest, body: ReceiptPayload)

  /** The parts of the tool that planning calls: the rules of what is source, the digest of its entries, how task files
      are read, the text of the task (none if the bindings disagree), the checks on feedback, release, deployment and
      roadmap, and the JSON of receipts. */
  datatype Environment = Environment(
    rules: SourceRules.Rules,
    digest: seq<SourceManifests.SourceEntry> -> string,
    reader: Reader,
    taskText: (Request, Bytes, Bytes) -> Option<Bytes>,
    checks: (Disk, Request) -> bool,
    render: Receipt -> Bytes,
    parse: Bytes -> Option<Receipt>)

  /** Receipts are left out of the source, are read back as they were written, and are text that carries no task
      identifier; the text of a task carries its own. */
  ghost predicate ValidEnvironment(env: Environment) {
    && RECEIPT_ROOT in env.rules.prefixes
    && (forall r :: env.parse(env.render(r)) == Some(r))
    && (forall r :: env.reader.isText(env.render(r)) && env.reader.id(env.render(r)).None?)
    && (forall request, release, deployment ::
          CarriesItsId(env.reader, request, env.taskText(request, release, deployment)))
  }

  predicate CarriesItsId(reader: Reader, request: Request, text: Option<Bytes>) {
    text.Some? ==> reader.isText(text.value) && reader.id(text.value) == Some(request.taskId)
  }

  function WithoutTask(env: Environment, task: Path): Authority {
    SourceWalk.Authority(env.rules, {task})
  }

  /** `current_source_digest_excluding`. */
  function Source(env: Environment, d: Disk, task: Path): Option<string> {
    match SourceEntries(env.rules, d, {task})
    case None => None
    case Some(entries) => Some(env.digest(entries))
  }

  /** The two disks hold the same files and obstacles, apart from those at `paths`. */
  ghost predicate SameBut(d: Disk, d': Disk, paths: set<Path>) {
    forall path :: path != [] && path !in paths ==>
      && FileAt(d, path) == FileAt(d', path)
      && (SpecialAt(d, path) <==> SpecialAt(d', path))
  }

  ghost predicate SpecialAt(d: Disk, path: Path) {
    EntryAt(d, path).Some? && EntryAt(d, path).value in d.nodes && d.nodes[EntryAt(d, path).value].Special?
  }

  /** What stands at `paths` is nothing to the checks. */
  ghost predicate ChecksIgnore(env: Environment, request: Request, paths: set<Path>) {
    forall d, d' :: SameBut(d, d', paths) ==> env.checks(d, request) == env.checks(d', request)
  }

  // ---------- Planning ----------

  datatype Error =
    | ChecksFailed | DependencyMissing | InputMissing | OutsideRoot | TaskIdTaken | BindingsDisagree
    | SourceUnavailable | OutputConflicts | NotApproved | RootUnavailable | InputsChanged | SourceChanged
    | PublicationFailed(error: Delivery.Error)

  datatype Result<+T> = Ok(value: T) | Err(error: Error)

  datatype Planned = Planned(
    payload: Payload, taskBytes: Bytes, receiptBytes: Bytes, idempotent: bool)

  /** `inspect_exact`: is the file there with these bytes?  Anything else in its place is an error. */
  function Inspect(d: Disk, path: Path, expected: Bytes): Option<bool> {
    if !ValidRelative(path) || Blocked(d, d.root, Parent(path)) then None
    else if EntryAt(d, path).None? then Some(false)
    else if FileAt(d, path) == Some(expected) then Some(true)
    else None
  }

  function ReadInput(d: Disk, path: Path): Option<Delivery.ExactInput> {
    if ValidRelative(path) && FileAt(d, path).Some? then Some(Delivery.ExactInput(path, FileAt(d, path).value))
    else None
  }

  function ReceiptFor(payload: Payload): Receipt {
    var body := ReceiptPayload(PlanDigest(payload), payload);
    Receipt(ReceiptDigest(body), body)
  }

  ghost predicate DependenciesKnown(env: Environment, d: Disk, request: Request) {
    request.taskId !in request.dependsOn &&
    forall dependency :: dependency in request.dependsOn ==> Known(env.reader, d, request.taskRoot, dependency)
  }

  /** The plan for the outputs, once everything else is settled. */
  function PlanOutputs(env: Environment, d: Disk, request: Request, release: Delivery.ExactInput,
                       deployment: Delivery.ExactInput): Result<Planned>
  {
    var text := env.taskText(request, release.bytes, deployment.bytes);
    var source := Source(env, d, request.task);
    if text.None? then Err(BindingsDisagree)
    else if source.None? then Err(SourceUnavailable)
    else
      var payload := Payload(request.details, request.taskId, request.task, FileDigest(text.value), request.receipt,
                             release, deployment, source.value);
      var receiptBytes := env.render(ReceiptFor(payload));
      var task, receipt := Inspect(d, request.task, text.value), Inspect(d, request.receipt, receiptBytes);
      if task.None? || receipt.None? then Err(OutputConflicts)
      else Ok(Planned(payload, text.value, receiptBytes, task.value && receipt.value))
  }

  /** What `plan_feedback_task` yields. */
  ghost function PlanFor(env: Environment, d: Disk, request: Request): Result<Planned> {
    var release, deployment := ReadInput(d, request.release), ReadInput(d, request.deployment);
    if !env.checks(d, request) then Err(ChecksFailed)
    else if !DependenciesKnown(env, d, request) then Err(DependencyMissing)
    else if release.None? || deployment.None? then Err(InputMissing)
    else if !StartsWith(request.task, request.taskRoot) then Err(OutsideRoot)
    else if !StartsWith(request.receipt, RECEIPT_ROOT) then Err(OutsideRoot)
    else if !Available(env.reader, d, request.taskRoot, request.taskId, Some(request.task)) then Err(TaskIdTaken)
    else PlanOutputs(env, d, request, release.value, deployment.value)
  }

  /** `plan_feedback_task`. A dependency may be missed behind something that the search for it gives up at, which the
      search for the own identifier would give up at as well. */
  method Plan(env: Environment, d: Disk, request: Request) returns (result: Result<Planned>)
    requires TreeShaped(d)
    ensures result.Ok? <==> PlanFor(env, d, request).Ok?
    ensures result == PlanFor(env, d, request) || result == Err(DependencyMissing)
  {
    hide TreeShaped, Bars, Carries, PlanOutputs;
    if !env.checks(d, request) {
      return Err(ChecksFailed);
    }
    var left := request.dependsOn;
    if request.taskId in left {
      return Err(DependencyMissing);
    }
    while left != {}
      invariant left <= request.dependsOn
      invariant forall dependency :: dependency in request.dependsOn - left ==>
        Known(env.reader, d, request.taskRoot, dependency)
    {
      var dependency :| dependency in left;
      var outcome := Search(env.reader, d, request.taskRoot, dependency, None);
      if !outcome.FoundAt? {
        NotPlannable(env, d, request, dependency);
        return Err(DependencyMissing);
      }
      left := left - {dependency};
    }
    assert DependenciesKnown(env, d, request);
    var release, deployment := ReadInput(d, request.release), ReadInput(d, request.deployment);
    if release.None? || deployment.None? {
      return Err(InputMissing);
    }
    if !StartsWith(request.task, request.taskRoot) || !StartsWith(request.receipt, RECEIPT_ROOT) {
      return Err(OutsideRoot);
    }
    var taken := Search(env.reader, d, request.taskRoot, request.taskId, Some(request.task));
    if !taken.NotFound? {
      return Err(TaskIdTaken);
    }
    result := PlanOutputs(env, d, request, release.value, deployment.value);
  }

  /** A search that gives up, or finds nothing for a dependency, leaves no plan. */
  lemma NotPlannable(env: Environment, d: Disk, request: Request, dependency: string)
    requires dependency in request.dependsOn
    requires || Available(env.reader, d, request.taskRoot, dependency, None)
             || Descend(d, d.root, request.taskRoot).None?
             || exists path :: Bars(env.reader, d, request.taskRoot, path)
    ensures PlanFor(env, d, request).Err?
  {
    hide Bars, Carries, PlanOutputs;
  }

  function Outputs(planned: Planned): seq<Delivery.OutputSpec> {
    [Delivery.OutputSpec(planned.payload.task, planned.taskBytes),
     Delivery.OutputSpec(planned.payload.receipt, planned.receiptBytes)]
  }

  function Inputs(planned: Planned): seq<Delivery.ExactInput> {
    [planned.payload.release, planned.payload.deployment]
  }

  // ---------- Receipts ----------

  /** `verify_feedback_task_receipt`. */
  predicate Verifies(env: Environment, d: Disk, bytes: Bytes) {
    var parsed := env.parse(bytes);
    parsed.Some? &&
    var body := parsed.value.body;
    var payload := body.payload;
    && ReceiptDigest(body) == parsed.value.receiptDigest
    && PlanDigest(payload) == body.planDigest
    && ValidRelative(payload.task)
    && StartsWith(payload.task, TASKS)
    && FileAt(d, payload.task).Some? && FileDigest(FileAt(d, payload.task).value) == payload.taskDigest
    && ReadInput(d, payload.release.path) == Some(payload.release)
    && ReadInput(d, payload.deployment.path) == Some(payload.deployment)
  }

  // ---------- Stability ----------

  lemma ReceiptRootIsPlain()
    ensures RECEIPT_ROOT != [] && SourceRules.Plain(RECEIPT_ROOT)
  {
    SourceRules.PlainReceipts();
    SourceRules.PlainPath(RECEIPT_ROOT);
    hide SourceRules.PlainName, SourceRules.Plain;
  }

  lemma ReceiptsAreNoSource(env: Environment, task: Path, receipt: Path)
    requires RECEIPT_ROOT in env.rules.prefixes && receipt != [] && StartsWith(receipt, RECEIPT_ROOT)
    ensures !Reached(WithoutTask(env, task), receipt)
  {
    hide RECEIPT_ROOT, SourceRules.RustIncludes, SourceRules.Plain;
    ReceiptRootIsPlain();
    SourceRules.BelowPrefix(env.rules, {task}, RECEIPT_ROOT, receipt);
    assert receipt[..|receipt|] == receipt;
  }

  lemma TheTaskIsNoSource(env: Environment, task: Path)
    requires task != []
    ensures !Reached(WithoutTask(env, task), task)
  {
    assert task[..|task|] == task;
  }

  lemma PlanMeans(env: Environment, d: Disk, request: Request, planned: Planned)
    requires PlanFor(env, d, request) == Ok(planned)
    ensures ValidRelative(request.task) && ValidRelative(request.receipt) && StartsWith(request.receipt, RECEIPT_ROOT)
    ensures StartsWith(request.task, request.taskRoot)
    ensures planned.payload.task == request.task && planned.payload.receipt == request.receipt
    ensures Source(env, d, request.task) == Some(planned.payload.source)
    ensures Delivery.InputsHold(d, Inputs(planned))
    ensures env.checks(d, request) && DependenciesKnown(env, d, request)
    ensures Available(env.reader, d, request.taskRoot, request.taskId, Some(request.task))
    ensures env.taskText(request, planned.payload.release.bytes, planned.payload.deployment.bytes) ==
      Some(planned.taskBytes)
    ensures planned.receiptBytes == env.render(ReceiptFor(planned.payload))
    ensures planned.idempotent <==>
      FileAt(d, request.task) == Some(planned.taskBytes) && FileAt(d, request.receipt) == Some(planned.receiptBytes)
  {
    hide Source, DependenciesKnown, Available;
  }

  /** Only the root of a project that is a directory has a source. */
  lemma SourceNeedsDirectory(env: Environment, d: Disk, task: Path)
    requires TreeShaped(d) && Source(env, d, task).Some?
    ensures d.nodes[d.root].Directory?
  {
    ProjectTreeRepresents(d);
    hide ProjectTree;
  }

  /** Delivering the outputs of a plan does not change the source that the plan was made for. */
  lemma PlanSurvivesItsOutputs(
      env: Environment, d: Disk, request: Request, planned: Planned, d': Disk, created: seq<bool>)
    requires ValidEnvironment(env) && TreeShaped(d) && Rooted(d)
    requires PlanFor(env, d, request) == Ok(planned) && Delivery.Delivered(d, d', Outputs(planned), created)
    ensures Source(env, d', request.task) == Source(env, d, request.task)
  {
    hide Source, DependenciesKnown, Available;
    PlanMeans(env, d, request, planned);
    hide PlanFor;
    TheTaskIsNoSource(env, request.task);
    ReceiptsAreNoSource(env, request.task, request.receipt);
    forall o | o in Outputs(planned) ensures !Reached(WithoutTask(env, request.task), o.path) {
      assert o.path == request.task || o.path == request.receipt;
    }
    hide Reached;
    SourceUnchanged(WithoutTask(env, request.task), d, d', Outputs(planned), created);
    SourceNeedsDirectory(env, d, request.task);
    TreeShapeKept(d, d');
    SameDigest(env, d, d', request.task);
  }

  lemma SameDigest(env: Environment, d: Disk, d': Disk, task: Path)
    requires TreeShaped(d) && TreeShaped(d') && d.nodes[d.root].Directory? && d'.nodes[d'.root].Directory?
    requires SameSource(WithoutTask(env, task), d, d')
    ensures Source(env, d', task) == Source(env, d, task)
  {
    SameSourceSameEntries(env.rules, d, d', {task});
    hide SourceEntries, SameSource, TreeShaped;
  }

  // ---------- The task directory after a delivery ----------

  /** What stands below the task directory after a delivery: an output, or what stood there before. */
  lemma EntryAfter(env: Environment, d: Disk, request: Request, planned: Planned, d': Disk, created: seq<bool>,
                   id: string, path: Path)
    requires ValidEnvironment(env) && TreeShaped(d) && Rooted(d)
    requires PlanFor(env, d, request) == Ok(planned) && Delivery.Delivered(d, d', Outputs(planned), created)
    requires path != request.task
    ensures Bars(env.reader, d', request.taskRoot, path) ==> Bars(env.reader, d, request.taskRoot, path)
    ensures Carries(env.reader, d', request.taskRoot, id, path) <==> Carries(env.reader, d, request.taskRoot, id, path)
  {
    hide Source, DependenciesKnown, Available;
    PlanMeans(env, d, request, planned);
    hide PlanFor, TreeShaped;
    var outputs := Outputs(planned);
    if path == request.receipt {
      assert outputs[1].path == path && outputs[1].contents == planned.receiptBytes;
      EntryKept(d, d', path);
    } else if path != [] {
      Besides(d, d', outputs, created, path);
    }
  }

  lemma TaskAfter(env: Environment, d: Disk, request: Request, planned: Planned, d': Disk, created: seq<bool>)
    requires ValidEnvironment(env)
    requires PlanFor(env, d, request) == Ok(planned) && Delivery.Delivered(d, d', Outputs(planned), created)
    ensures !Bars(env.reader, d', request.taskRoot, request.task)
    ensures Carries(env.reader, d', request.taskRoot, request.taskId, request.task) <==>
      request.taskRoot < request.task && IsMarkdown(FileName(request.task))
  {
    hide Source, DependenciesKnown, Available;
    PlanMeans(env, d, request, planned);
    hide PlanFor;
    var outputs := Outputs(planned);
    assert outputs[0].path == request.task && outputs[0].contents == planned.taskBytes;
    assert CarriesItsId(env.reader, request, Some(planned.taskBytes));
  }

  /** A plan does not trip over its own task: the file that it wrote is the one that it may find. */
  lemma StillAvailable(env: Environment, d: Disk, request: Request, planned: Planned, d': Disk, created: seq<bool>)
    requires ValidEnvironment(env) && TreeShaped(d) && Rooted(d)
    requires PlanFor(env, d, request) == Ok(planned) && Delivery.Delivered(d, d', Outputs(planned), created)
    ensures Available(env.reader, d', request.taskRoot, request.taskId, Some(request.task))
  {
    hide Source, DependenciesKnown, ValidEnvironment, Bars, Carries, TreeShaped;
    PlanMeans(env, d, request, planned);
    hide PlanFor;
    DirectoryKept(d, d', request.taskRoot);
    TaskAfter(env, d, request, planned, d', created);
    forall path
      ensures !Bars(env.reader, d', request.taskRoot, path)
      ensures Carries(env.reader, d', request.taskRoot, request.taskId, path) ==> path == request.task
    {
      if path != request.task {
        EntryAfter(env, d, request, planned, d', created, request.taskId, path);
      }
    }
    hide Delivery.Delivered;
  }

  lemma DirectoryKept(d: Disk, d': Disk, path: Path)
    requires Keeps(d, d') && Descend(d, d.root, path).Some?
    ensures Descend(d', d'.root, path).Some?
  {
    KeepsDirectories(d, d');
    DescendKept(d, d', d.root, path);
  }

  /** After a delivery the identifier is taken for every other path, unless the task is no Markdown file: then no
      search ever sees it. */
  lemma TaskIdIsTaken(env: Environment, d: Disk, request: Request, planned: Planned, d': Disk, created: seq<bool>,
                      other: Path)
    requires ValidEnvironment(env) && TreeShaped(d) && Rooted(d) && other != request.task
    requires PlanFor(env, d, request) == Ok(planned) && Delivery.Delivered(d, d', Outputs(planned), created)
    ensures Available(env.reader, d', request.taskRoot, request.taskId, Some(other)) <==>
      !IsMarkdown(FileName(request.task))
  {
    hide Source, DependenciesKnown, ValidEnvironment, Bars, Carries, TreeShaped;
    StillAvailable(env, d, request, planned, d', created);
    TaskAfter(env, d, request, planned, d', created);
    TaskIsBelow(env, d, request, planned, d', created);
    hide PlanFor, Delivery.Delivered;
  }

  /** The task directory itself is never the task. */
  lemma TaskIsBelow(env: Environment, d: Disk, request: Request, planned: Planned, d': Disk, created: seq<bool>)
    requires PlanFor(env, d, request) == Ok(planned) && Delivery.Delivered(d, d', Outputs(planned), created)
    ensures ValidRelative(request.task) && request.taskRoot < request.task
  {
    hide Source, DependenciesKnown;
    PlanMeans(env, d, request, planned);
    hide PlanFor;
    DirectoryKept(d, d', request.taskRoot);
    assert Outputs(planned)[0].path == request.task && FileAt(d', request.task) == Some(planned.taskBytes);
    NoDirectory(d', request.task);
    assert request.taskRoot != request.task;
    assert |request.taskRoot| == |request.task| ==> request.taskRoot == request.task;
  }

  lemma NoDirectory(d: Disk, path: Path)
    requires FileAt(d, path).Some?
    ensures Descend(d, d.root, path).None?
  {
    DescendLast(d, path);
  }

  lemma StillKnown(env: Environment, d: Disk, request: Request, planned: Planned, d': Disk, created: seq<bool>)
    requires ValidEnvironment(env) && TreeShaped(d) && Rooted(d)
    requires PlanFor(env, d, request) == Ok(planned) && Delivery.Delivered(d, d', Outputs(planned), created)
    ensures DependenciesKnown(env, d', request)
  {
    hide Source, Available, ValidEnvironment, Carries, TreeShaped;
    PlanMeans(env, d, request, planned);
    hide PlanFor;
    forall dependency | dependency in request.dependsOn ensures Known(env.reader, d', request.taskRoot, dependency) {
      var path :| Carries(env.reader, d, request.taskRoot, dependency, path);
      CarriesKept(env, d, d', request.taskRoot, dependency, path);
    }
    hide Delivery.Delivered;
  }

  lemma CarriesKept(env: Environment, d: Disk, d': Disk, taskRoot: Path, id: string, path: Path)
    requires Keeps(d, d') && Carries(env.reader, d, taskRoot, id, path)
    ensures Carries(env.reader, d', taskRoot, id, path)
  {
    EntryKept(d, d', path);
  }

  /** Everything but the outputs is as it was to the checks. */
  lemma ChecksStillPass(env: Environment, d: Disk, request: Request, planned: Planned, d': Disk, created: seq<bool>)
    requires TreeShaped(d) && Rooted(d) && ChecksIgnore(env, request, {request.task, request.receipt})
    requires PlanFor(env, d, request) == Ok(planned) && Delivery.Delivered(d, d', Outputs(planned), created)
    ensures env.checks(d', request)
  {
    hide Source, Available, DependenciesKnown;
    PlanMeans(env, d, request, planned);
    hide PlanFor, TreeShaped;
    forall path | path != [] && path !in {request.task, request.receipt}
      ensures FileAt(d, path) == FileAt(d', path) && (SpecialAt(d, path) <==> SpecialAt(d', path))
    {
      Besides(d, d', Outputs(planned), created, path);
    }
    assert SameBut(d, d', {request.task, request.receipt});
  }

  /** Planning again after the plan was applied gives the same plan, now idempotent; all that is asked of the checks on
      feedback, release, deployment and roadmap is that they do not look at the two outputs. */
  lemma ReplanIsIdempotent(
      env: Environment, d: Disk, request: Request, planned: Planned, d': Disk, created: seq<bool>)
    requires ValidEnvironment(env) && TreeShaped(d) && Rooted(d)
    requires ChecksIgnore(env, request, {request.task, request.receipt})
    requires PlanFor(env, d, request) == Ok(planned) && Delivery.Delivered(d, d', Outputs(planned), created)
    ensures PlanFor(env, d', request) == Ok(planned.(idempotent := true))
  {
    hide Source, Available, DependenciesKnown, ValidEnvironment, ChecksIgnore, TreeShaped, Rooted;
    PlanSurvivesItsOutputs(env, d, request, planned, d', created);
    ChecksStillPass(env, d, request, planned, d', created);
    StillAvailable(env, d, request, planned, d', created);
    StillKnown(env, d, request, planned, d', created);
    PlanMeans(env, d, request, planned);
    EntryKept(d, d', request.release);
    EntryKept(d, d', request.deployment);
    var outputs := Outputs(planned);
    assert outputs[0].path == request.task && outputs[1].path == request.receipt;
    FileIsUnblocked(d', request.task);
    FileIsUnblocked(d', request.receipt);
    InputsRead(env, d, d', request, planned);
    hide PlanFor, Blocked, FileAt, EntryAt, StartsWith, ValidRelative, ReadInput;
    SamePlan(env, d, d', request, planned);
  }

  lemma InputsRead(env: Environment, d: Disk, d': Disk, request: Request, planned: Planned)
    requires PlanFor(env, d, request) == Ok(planned)
    requires FileAt(d, request.release).Some? ==> FileAt(d', request.release) == FileAt(d, request.release)
    requires FileAt(d, request.deployment).Some? ==> FileAt(d', request.deployment) == FileAt(d, request.deployment)
    ensures ReadInput(d', request.release) == ReadInput(d, request.release)
    ensures ReadInput(d', request.deployment) == ReadInput(d, request.deployment)
  {
    hide Source, Available, DependenciesKnown, PlanOutputs;
  }

  /** All that a plan depends on. */
  lemma SamePlan(env: Environment, d: Disk, d': Disk, request: Request, planned: Planned)
    requires PlanFor(env, d, request) == Ok(planned) && env.checks(d', request)
    requires DependenciesKnown(env, d', request)
    requires Available(env.reader, d', request.taskRoot, request.taskId, Some(request.task))
    requires ReadInput(d', request.release) == ReadInput(d, request.release)
    requires ReadInput(d', request.deployment) == ReadInput(d, request.deployment)
    requires Source(env, d', request.task) == Source(env, d, request.task)
    requires Inspect(d', request.task, planned.taskBytes) == Some(true)
    requires Inspect(d', request.receipt, planned.receiptBytes) == Some(true)
    ensures PlanFor(env, d', request) == Ok(planned.(idempotent := true))
  {
    hide Inspect, ReadInput, StartsWith, Source, Available, DependenciesKnown;
  }

  lemma FileIsUnblocked(d: Disk, path: Path)
    requires FileAt(d, path).Some?
    ensures !Blocked(d, d.root, Parent(path)) && EntryAt(d, path).Some?
  {
    EntryIsUnblocked(d, path);
  }

  /** The receipt that a plan writes is accepted exactly if the task lies under `tasks`, whatever task directory
      the project names. */
  lemma ReceiptVerifies(env: Environment, d: Disk, request: Request, planned: Planned, d': Disk, created: seq<bool>)
    requires ValidEnvironment(env)
    requires PlanFor(env, d, request) == Ok(planned) && Delivery.Delivered(d, d', Outputs(planned), created)
    ensures Verifies(env, d', planned.receiptBytes) <==> StartsWith(request.task, TASKS)
  {
    hide Source, Available, DependenciesKnown, RECEIPT_ROOT;
    PlanMeans(env, d, request, planned);
    hide PlanFor;
    EntryKept(d, d', request.release);
    EntryKept(d, d', request.deployment);
    var outputs := Outputs(planned);
    assert outputs[0].path == request.task && outputs[0].contents == planned.taskBytes;
    assert env.parse(planned.receiptBytes) == Some(ReceiptFor(planned.payload));
    hide FileAt, EntryAt, SameSource, Blocked;
  }

  // ---------- Applying ----------

  /** `planned` is the plan for the project as it stands on `d`. */
  ghost predicate PlannedOn(env: Environment, d: Disk, request: Request, planned: Planned) {
    TreeShaped(d) && Rooted(d) && PlanFor(env, d, request) == Ok(planned)
  }

  /** What a successful application leaves. */
  ghost predicate Applied(env: Environment, d: Disk, planned: Planned, d': Disk, created: seq<bool>) {
    && Delivery.Delivered(d, d', Outputs(planned), created)
    && Delivery.InputsHold(d', Inputs(planned))
    && Source(env, d', planned.payload.task) == Some(planned.payload.source)
  }

  lemma CheckHolds(env: Environment, d: Disk, request: Request, planned: Planned, d': Disk)
    requires ValidEnvironment(env) && PlannedOn(env, d, request, planned)
    requires d' == d || exists created :: Delivery.Delivered(d, d', Outputs(planned), created)
    ensures Source(env, d', planned.payload.task) == Some(planned.payload.source)
  {
    hide Source, Available, DependenciesKnown, ValidEnvironment, TreeShaped;
    PlanMeans(env, d, request, planned);
    if d' != d {
      var created :| Delivery.Delivered(d, d', Outputs(planned), created);
      PlanSurvivesItsOutputs(env, d, request, planned, d', created);
    }
  }

  lemma AlreadyApplied(env: Environment, d: Disk, request: Request, planned: Planned, check: Disk -> bool)
    requires PlanFor(env, d, request) == Ok(planned) && planned.idempotent && request.task != request.receipt
    requires check(d)
    ensures Delivery.Repeats(d, Inputs(planned), Outputs(planned), check)
  {
    hide Source, Available, DependenciesKnown, PlanOutputs;
    PlanMeans(env, d, request, planned);
  }

  predicate Apart(p: Path, q: Path) {
    !(p <= q) && !(q <= p)
  }

  /** A plan is only made for outputs that can be delivered. */
  lemma PlanIsDeliverable(env: Environment, d: Disk, request: Request, planned: Planned)
    requires PlannedOn(env, d, request, planned) && Apart(request.task, request.receipt)
    ensures Deliverable(d, Outputs(planned)) && Delivery.InputsHold(d, Inputs(planned))
  {
    hide Source, Available, DependenciesKnown;
    PlanMeans(env, d, request, planned);
    OutputsFit(env, d, request, planned);
    hide PlanFor, TreeShaped, Rooted, Fits;
    var outputs := Outputs(planned);
    assert outputs[0].path == request.task && outputs[1].path == request.receipt;
    forall o, p | o in outputs && p in outputs ensures !(o.path < p.path) {
      assert o == outputs[0] || o == outputs[1];
      assert p == outputs[0] || p == outputs[1];
    }
  }

  lemma OutputsFit(env: Environment, d: Disk, request: Request, planned: Planned)
    requires PlanFor(env, d, request) == Ok(planned)
    ensures forall o :: o in Outputs(planned) ==> Fits(d, o)
  {
    hide Source, Available, DependenciesKnown, Blocked, FileAt, EntryAt, ValidRelative;
  }

  /** `apply_feedback_task`: `Ok` carries the idempotent flag of the result. */
  method Apply(p: DeliveryPublication.Publisher, env: Environment, planned: Planned, approved: PlanDigest,
               ghost request: Request)
    returns (result: Result<bool>, ghost created: seq<bool>)
    requires p.fs.Valid() && p.prepared == [] && ValidEnvironment(env)
    requires forall o :: o in Outputs(planned) && o.path != [] ==> FileName(o.path) in p.planned
    modifies p, p.fs
    ensures p.fs.Valid() && old(p.fs.faults) <= p.fs.faults
    ensures result == Err(NotApproved) <==> approved != PlanDigest(planned.payload)
    ensures result.Ok? ==> |created| == 2 && (result.value <==> !created[0] && !created[1])
    ensures !p.fs.shared && result.Ok? ==> Applied(env, old(p.fs.disk), planned, p.fs.disk, created)
    // a plan never trips over the source that it was made for
    ensures !p.fs.shared && PlannedOn(env, old(p.fs.disk), request, planned) ==>
      result != Err(SourceChanged) && result != Err(PublicationFailed(Delivery.CheckFailed))
    // applying it once more changes nothing
    ensures (!p.fs.shared && p.fs.faults == old(p.fs.faults) && approved == PlanDigest(planned.payload) &&
             PlannedOn(env, old(p.fs.disk), request, planned) && planned.idempotent &&
             request.task != request.receipt) ==>
      result == Ok(true) && p.fs.disk == old(p.fs.disk)
    // an approved plan is applied, unless a call fails or one output lies on the way to the other
    ensures (!p.fs.shared && p.fs.faults == old(p.fs.faults) && approved == PlanDigest(planned.payload) &&
             PlannedOn(env, old(p.fs.disk), request, planned) && NamesPlanned(Outputs(planned), p.planned) &&
             Apart(request.task, request.receipt)) ==>
      result.Ok?
  {
    hide FileSystem.Valid, ValidEnvironment, PlanFor, Source, TreeShaped, Rooted, Delivery.InputsHold,
      Delivery.Delivered, Delivery.FailureLeaves, Delivery.Repeats, FileAt, Deliverable, NamesPlanned, Apart;
    created := [];
    ghost var d0 := p.fs.disk;
    if PlannedOn(env, d0, request, planned) {
      PlanMeans(env, d0, request, planned);
    }
    if approved != PlanDigest(planned.payload) {
      return Err(NotApproved), created;
    }
    var root := p.fs.OpenRoot();
    if root.None? {
      return Err(RootUnavailable), created;
    }
    var held := p.VerifyInputs(root.value, Inputs(planned));
    if !held {
      return Err(InputsChanged), created;
    }
    var task, source := planned.payload.task, planned.payload.source;
    if Source(env, p.fs.disk, task) != Some(source) {
      return Err(SourceChanged), created;
    }
    var check := (d: Disk) => Source(env, d, task) == Some(source);
    if !p.fs.shared && PlannedOn(env, d0, request, planned) && planned.idempotent && request.task != request.receipt {
      AlreadyApplied(env, d0, request, planned, check);
    }
    if PlannedOn(env, d0, request, planned) && Apart(request.task, request.receipt) {
      PlanIsDeliverable(env, d0, request, planned);
    }
    var publication;
    ghost var leaked, undone, checked;
    publication, leaked, undone, checked := p.Publish(Inputs(planned), Outputs(planned), check);
    assert |Outputs(planned)| == 2;
    match publication
    case Err(error, _) =>
      if !p.fs.shared && PlannedOn(env, d0, request, planned) && error.CheckFailed? {
        CheckHolds(env, d0, request, planned, checked);
      }
      result := Err(PublicationFailed(error));
    case Ok(flags) =>
      result, created := Ok(!flags[0] && !flags[1]), flags;
  }
}
