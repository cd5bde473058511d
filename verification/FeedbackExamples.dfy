/** The assumptions on feedback tasks can be met, and what the two failing properties look like on a small project. */
module FeedbackExamples {
  import opened Disks
  import opened DiskPaths
  import opened Encodings
  import opened FeedbackTasks
  import opened OpenPaths
  import opened Options
  import opened Paths
  import opened Sorting
  import opened SourceOnDisk
  import opened TaskSearches
  import opened TreeShapes
  import Delivery = DeliveryOutputs
  import SourceManifests
  import SourceRules
  import SourceWalk

  // ---------- Environments ----------

  function OfInput(input: Delivery.ExactInput): Bytes {
    OfPath(input.path) + OfBytes(input.bytes)
  }

  function OfPayload(p: Payload): Bytes {
    OfString(p.details) + (OfString(p.taskId) + (OfPath(p.task) + (OfBytes(p.taskDigest.of) + (OfPath(p.receipt) +
    (OfInput(p.release) + (OfInput(p.deployment) + OfString(p.source)))))))
  }

  function OfReceiptPayload(p: ReceiptPayload): Bytes {
    OfPayload(p.planDigest.of) + OfPayload(p.payload)
  }

  function OfReceipt(r: Receipt): Bytes {
    [0] + (OfReceiptPayload(r.receiptDigest.of) + OfReceiptPayload(r.body))
  }

  lemma InputsEnd()
    ensures Free(OfInput)
  {
    PathsEnd();
    BytesEnd();
    hide OfPath, OfBytes;
    forall x, y, s, t | OfInput(x) + s == OfInput(y) + t ensures x == y && s == t {
      Regroup(OfPath(x.path), OfBytes(x.bytes), s);
      Regroup(OfPath(y.path), OfBytes(y.bytes), t);
      FreeAt(OfPath, x.path, y.path, OfBytes(x.bytes) + s, OfBytes(y.bytes) + t);
      FreeAt(OfBytes, x.bytes, y.bytes, s, t);
    }
  }

  lemma PayloadText(p: Payload, s: Bytes)
    ensures OfPayload(p) + s ==
      OfString(p.details) + (OfString(p.taskId) + (OfPath(p.task) + (OfBytes(p.taskDigest.of) + (OfPath(p.receipt) +
      (OfInput(p.release) + (OfInput(p.deployment) + (OfString(p.source) + s)))))))
  {
    hide OfString, OfPath, OfBytes, OfInput;
    var c7 := OfString(p.source);
    var c6 := OfInput(p.deployment) + c7;
    var c5 := OfInput(p.release) + c6;
    var c4 := OfPath(p.receipt) + c5;
    var c3 := OfBytes(p.taskDigest.of) + c4;
    var c2 := OfPath(p.task) + c3;
    var c1 := OfString(p.taskId) + c2;
    Regroup(OfString(p.details), c1, s);
    Regroup(OfString(p.taskId), c2, s);
    Regroup(OfPath(p.task), c3, s);
    Regroup(OfBytes(p.taskDigest.of), c4, s);
    Regroup(OfPath(p.receipt), c5, s);
    Regroup(OfInput(p.release), c6, s);
    Regroup(OfInput(p.deployment), c7, s);
  }

  lemma PayloadsEnd()
    ensures Free(OfPayload)
  {
    StringsEnd();
    PathsEnd();
    BytesEnd();
    InputsEnd();
    hide Free, OfString, OfPath, OfBytes, OfInput;
    forall x, y, s, t | OfPayload(x) + s == OfPayload(y) + t ensures x == y && s == t {
      PayloadText(x, s);
      PayloadText(y, t);
      hide OfPayload;
      var (x7, y7) := (OfString(x.source) + s, OfString(y.source) + t);
      var (x6, y6) := (OfInput(x.deployment) + x7, OfInput(y.deployment) + y7);
      var (x5, y5) := (OfInput(x.release) + x6, OfInput(y.release) + y6);
      var (x4, y4) := (OfPath(x.receipt) + x5, OfPath(y.receipt) + y5);
      var (x3, y3) := (OfBytes(x.taskDigest.of) + x4, OfBytes(y.taskDigest.of) + y4);
      var (x2, y2) := (OfPath(x.task) + x3, OfPath(y.task) + y3);
      var (x1, y1) := (OfString(x.taskId) + x2, OfString(y.taskId) + y2);
      FreeAt(OfString, x.details, y.details, x1, y1);
      FreeAt(OfString, x.taskId, y.taskId, x2, y2);
      FreeAt(OfPath, x.task, y.task, x3, y3);
      FreeAt(OfBytes, x.taskDigest.of, y.taskDigest.of, x4, y4);
      FreeAt(OfPath, x.receipt, y.receipt, x5, y5);
      FreeAt(OfInput, x.release, y.release, x6, y6);
      FreeAt(OfInput, x.deployment, y.deployment, x7, y7);
      FreeAt(OfString, x.source, y.source, s, t);
    }
    FreeIf(OfPayload);
  }

  lemma FreeIf<T(!new)>(encode: T -> Bytes)
    requires forall x, y, s, t :: encode(x) + s == encode(y) + t ==> x == y && s == t
    ensures Free(encode)
  {
  }

  lemma ReceiptsDiffer(r: Receipt, q: Receipt)
    requires OfReceipt(r) == OfReceipt(q)
    ensures r == q
  {
    PayloadsEnd();
    hide OfPayload;
    var r1, q1 := OfReceiptPayload(r.body), OfReceiptPayload(q.body);
    SameHead(0, OfReceiptPayload(r.receiptDigest.of) + r1, 0, OfReceiptPayload(q.receiptDigest.of) + q1);
    PayloadPairs(r.receiptDigest.of, q.receiptDigest.of, r1, q1);
    assert r1 + [] == r1 && q1 + [] == q1;
    PayloadPairs(r.body, q.body, [], []);
  }

  lemma PayloadPairs(x: ReceiptPayload, y: ReceiptPayload, s: Bytes, t: Bytes)
    requires Free(OfPayload) && OfReceiptPayload(x) + s == OfReceiptPayload(y) + t
    ensures x == y && s == t
  {
    hide OfPayload, Free;
    Regroup(OfPayload(x.planDigest.of), OfPayload(x.payload), s);
    Regroup(OfPayload(y.planDigest.of), OfPayload(y.payload), t);
    FreeAt(OfPayload, x.planDigest.of, y.planDigest.of, OfPayload(x.payload) + s, OfPayload(y.payload) + t);
    FreeAt(OfPayload, x.payload, y.payload, s, t);
  }

  ghost function Read(data: Bytes): (r: Option<Receipt>)
    ensures forall receipt :: OfReceipt(receipt) == data ==> r == Some(receipt)
  {
    if r :| OfReceipt(r) == data then
      assert forall q :: OfReceipt(q) == data ==> q == r by {
        forall q | OfReceipt(q) == data ensures q == r { ReceiptsDiffer(q, r); }
      }
      Some(r)
    else None
  }

  /** A front matter in miniature. */
  function TaskText(request: Request): Bytes {
    [1] + OfString(request.taskId)
  }

  ghost function IdIn(data: Bytes): (r: Option<string>)
    ensures forall id :: [1] + OfString(id) == data ==> r == Some(id)
    ensures data != [] && data[0] == 0 ==> r == None
  {
    if id :| [1] + OfString(id) == data then
      assert forall other :: [1] + OfString(other) == data ==> other == id by {
        forall other | [1] + OfString(other) == data ensures other == id { IdsDiffer(other, id); }
      }
      Some(id)
    else None
  }

  lemma IdsDiffer(a: string, b: string)
    requires [1] + OfString(a) == [1] + OfString(b)
    ensures a == b
  {
    StringsEnd();
    SameHead(1, OfString(a), 1, OfString(b));
    assert OfString(a) + [] == OfString(b) + [];
    FreeAt(OfString, a, b, [], []);
  }

  /** With the rules that the project ships and any digest and checks, an environment can be valid. */
  lemma EnvironmentsExist(digest: seq<SourceManifests.SourceEntry> -> string, checks: (Disk, Request) -> bool)
    returns (env: Environment)
    ensures ValidEnvironment(env) && env.rules == SourceRules.ProjectRules()
    ensures env.digest == digest && env.checks == checks
    ensures forall request, release, deployment :: env.taskText(request, release, deployment).Some?
  {
    SourceRules.ReceiptsAreExcluded();
    hide SourceRules.ProjectRules, OfString, OfReceiptPayload;
    var reader := Reader((data: Bytes) => true, (data: Bytes) => IdIn(data));
    env := Environment(SourceRules.ProjectRules(), digest, reader,
      (request: Request, release: Bytes, deployment: Bytes) => Some(TaskText(request)),
      checks, OfReceipt, (data: Bytes) => Read(data));
    forall r ensures env.parse(env.render(r)) == Some(r) && env.reader.id(env.render(r)).None? {
      assert OfReceipt(r)[0] == 0;
    }
  }

  // ---------- A small project ----------

  /** A project with the empty task directory `work`, a release and a deployment. */
  function SmallProject(release: Bytes, deployment: Bytes): Disk {
    Disk(0,
      map[Slot(0, "work") := 1, Slot(0, "release") := 2, Slot(0, "deployment") := 3],
      map[0 := Node.Directory, 1 := Node.Directory, 2 := Node.File(release), 3 := Node.File(deployment)])
  }

  function SmallRequest(id: string, name: string): Request {
    Request("", id, {}, ["work"], ["work", name], RECEIPT_ROOT + ["f.json"], ["release"], ["deployment"])
  }

  /** A disk with a new file, two new directories and another new file. */
  function Added(d: Disk, file: Slot, outer: Slot, inner: Slot, last: Slot, data: Bytes, lastData: Bytes): Disk {
    d.(names := d.names[file := 4][outer := 5][inner := 6][last := 7],
       nodes := d.nodes[4 := Node.File(data)][5 := Node.Directory][6 := Node.Directory][7 := Node.File(lastData)])
  }

  lemma AddedGrows(d: Disk, file: Slot, outer: Slot, inner: Slot, last: Slot, data: Bytes, lastData: Bytes)
    requires WellFormed(d) && d.nodes.Keys == {0, 1, 2, 3}
    requires file !in d.names && outer !in d.names && inner !in d.names && last !in d.names
    requires file != outer && file != inner && file != last && outer != inner && outer != last && inner != last
    ensures var d' := Added(d, file, outer, inner, last, data, lastData);
      && WellFormed(d') && Keeps(d, d') && NewNamesFresh(d, d')
      && (forall s :: s in d'.names && s !in d.names ==> s == file || s == last || NodeAt(d', s) == Some(Directory))
  {
  }

  /** The small project with a task `name` and its receipt delivered. */
  function SmallDelivery(release: Bytes, deployment: Bytes, name: string, task: Bytes, receipt: Bytes): Disk {
    var d := SmallProject(release, deployment);
    Added(d, Slot(1, name), Slot(0, "verification"), Slot(5, "feedback-task-receipts"), Slot(6, "f.json"), task,
      receipt)
  }

  lemma SmallNames()
    ensures IsNormal("work") && IsNormal("release") && IsNormal("deployment") && IsNormal("f.json")
    ensures IsNormal("verification") && IsNormal("feedback-task-receipts")
    ensures "work" != "verification" && "release" != "verification" && "deployment" != "verification"
    ensures "work" != "release" && "work" != "deployment" && "release" != "deployment" && "work" != "tasks"
  {
    assert "release"[0] == 'r' && "work"[0] == 'w' && "deployment"[0] == 'd' && "verification"[0] == 'v' &&
      "tasks"[0] == 't';
  }

  lemma SmallIsTree(release: Bytes, deployment: Bytes)
    ensures TreeShaped(SmallProject(release, deployment)) && Rooted(SmallProject(release, deployment))
  {
    SmallNames();
    hide IsNormal;
  }

  /** One step down. */
  lemma StepDown(d: Disk, dir: Inode, path: Path)
    requires path != []
    ensures Descend(d, dir, path) ==
      if NodeAt(d, Slot(dir, path[0])) == Some(Directory) then Descend(d, d.names[Slot(dir, path[0])], path[1..])
      else None
  {
  }

  lemma InRoot(d: Disk, name: string)
    ensures SlotOf(d, [name]) == Some(Slot(d.root, name))
    ensures Descend(d, d.root, [name]) ==
      if NodeAt(d, Slot(d.root, name)) == Some(Directory) then Some(d.names[Slot(d.root, name)]) else None
  {
    assert Parent([name]) == [] && [name][1..] == [];
    StepDown(d, d.root, [name]);
  }

  lemma InDirectory(d: Disk, directory: string, name: string)
    ensures Parent([directory, name]) == [directory] && FileName([directory, name]) == name
    ensures SlotOf(d, [directory, name]) ==
      if NodeAt(d, Slot(d.root, directory)) == Some(Directory) then Some(Slot(d.names[Slot(d.root, directory)], name))
      else None
  {
    assert Parent([directory, name]) == [directory];
    InRoot(d, directory);
  }

  lemma InReceipts(d: Disk)
    ensures var p := RECEIPT_ROOT + ["f.json"];
      && Parent(p) == RECEIPT_ROOT && FileName(p) == "f.json"
      && (NodeAt(d, Slot(d.root, "verification")) == Some(Directory) ==>
          var v := d.names[Slot(d.root, "verification")];
          NodeAt(d, Slot(v, "feedback-task-receipts")) == Some(Directory) ==>
            SlotOf(d, p) == Some(Slot(d.names[Slot(v, "feedback-task-receipts")], "f.json")))
      && (NodeAt(d, Slot(d.root, "verification")) != Some(Directory) ==> SlotOf(d, p).None?)
  {
    var p := RECEIPT_ROOT + ["f.json"];
    assert Parent(p) == RECEIPT_ROOT && RECEIPT_ROOT[1..] == ["feedback-task-receipts"];
    StepDown(d, d.root, RECEIPT_ROOT);
    if NodeAt(d, Slot(d.root, "verification")) == Some(Directory) {
      var v := d.names[Slot(d.root, "verification")];
      StepDown(d, v, ["feedback-task-receipts"]);
      assert ["feedback-task-receipts"][1..] == [];
    }
  }

  lemma NoObstacles(release: Bytes, deployment: Bytes)
    ensures SmallProject(release, deployment).nodes[0].Directory?
    ensures SmallProject(release, deployment).root == 0
    ensures forall authority, path :: !Obstacle(authority, SmallProject(release, deployment), path)
  {
    hide EntryAt, Reached;
    var nodes := SmallProject(release, deployment).nodes;
    assert forall i :: i in nodes ==> !nodes[i].Special?;
  }

  /** Where nothing but files and directories stands, nothing is in the way of the walk. */
  lemma SmallSource(env: Environment, release: Bytes, deployment: Bytes, task: Path)
    requires ValidRelative(task)
    ensures Source(env, SmallProject(release, deployment), task).Some?
  {
    var d := SmallProject(release, deployment);
    SmallIsTree(release, deployment);
    NoObstacles(release, deployment);
    hide SourceEntries, TreeShaped, SmallProject, Obstacle;
    SourceIsThere(env.rules, d, {task});
  }

  lemma SmallInputs(release: Bytes, deployment: Bytes, id: string, name: string)
    ensures var d, request := SmallProject(release, deployment), SmallRequest(id, name);
      && ReadInput(d, request.release) == Some(Delivery.ExactInput(request.release, release))
      && ReadInput(d, request.deployment) == Some(Delivery.ExactInput(request.deployment, deployment))
  {
    hide Descend;
    var d := SmallProject(release, deployment);
    SmallNames();
    hide IsNormal;
    InRoot(d, "release");
    InRoot(d, "deployment");
  }

  lemma SmallWays(release: Bytes, deployment: Bytes)
    ensures var d := SmallProject(release, deployment);
      !Blocked(d, d.root, ["work"]) && !Blocked(d, d.root, RECEIPT_ROOT)
  {
    hide Descend;
    var d := SmallProject(release, deployment);
    SmallNames();
    hide IsNormal;
    InRoot(d, "work");
    OpenIsUnblocked(d, d.root, ["work"]);
    assert Slot(0, "verification") !in d.names;
  }

  lemma SmallInspections(release: Bytes, deployment: Bytes, id: string, name: string, task: Bytes, receipt: Bytes)
    requires IsNormal(name)
    ensures var d, request := SmallProject(release, deployment), SmallRequest(id, name);
      Inspect(d, request.task, task) == Some(false) && Inspect(d, request.receipt, receipt) == Some(false)
  {
    var d, request := SmallProject(release, deployment), SmallRequest(id, name);
    hide SmallProject, Blocked, EntryAt, FileAt, ValidRelative;
    SmallPaths(id, name);
    SmallWays(release, deployment);
    SmallBefore(release, deployment, id, name);
    assert Parent(request.task) == ["work"] && Parent(request.receipt) == RECEIPT_ROOT;
  }

  lemma SmallIsAvailable(env: Environment, release: Bytes, deployment: Bytes, id: string, allowed: Option<Path>)
    ensures Available(env.reader, SmallProject(release, deployment), ["work"], id, allowed)
  {
    var d := SmallProject(release, deployment);
    SmallIsTree(release, deployment);
    InRoot(d, "work");
    forall path: Path | ["work"] < path ensures EntryAt(d, path).None? {
      NothingInWork(d, path);
    }
  }

  lemma NothingInWork(d: Disk, path: Path)
    requires ["work"] < path && NodeAt(d, Slot(d.root, "work")) == Some(Directory)
    requires forall s :: s in d.names ==> s.dir != d.names[Slot(d.root, "work")]
    ensures EntryAt(d, path).None?
  {
    var dirs := Parent(path);
    assert path[0] == "work" && dirs[0] == "work";
    StepDown(d, d.root, dirs);
    var work := d.names[Slot(d.root, "work")];
    if |dirs| > 1 {
      StepDown(d, work, dirs[1..]);
    }
  }

  /** An environment in which nothing but the project decides whether there is a plan. */
  ghost predicate Willing(env: Environment) {
    && ValidEnvironment(env)
    && (forall d, request :: env.checks(d, request))
    && (forall request, release, deployment :: env.taskText(request, release, deployment).Some?)
  }

  lemma WillingEnvironmentsExist() returns (env: Environment)
    ensures Willing(env)
  {
    env := EnvironmentsExist((entries: seq<SourceManifests.SourceEntry>) => "", (d: Disk, request: Request) => true);
    hide ValidEnvironment;
  }

  lemma SmallPlan(env: Environment, release: Bytes, deployment: Bytes, id: string, name: string)
    returns (planned: Planned)
    requires Willing(env) && IsNormal(name)
    ensures PlanFor(env, SmallProject(release, deployment), SmallRequest(id, name)) == Ok(planned)
  {
    hide ValidEnvironment, Source, Available, ReadInput, Inspect, SmallProject;
    var d, request := SmallProject(release, deployment), SmallRequest(id, name);
    SmallNames();
    assert ValidRelative(request.task);
    hide IsNormal;
    SmallSource(env, release, deployment, request.task);
    SmallIsAvailable(env, release, deployment, id, Some(request.task));
    var text := env.taskText(request, release, deployment).value;
    var payload := Payload(request.details, id, request.task, FileDigest(text), request.receipt,
      Delivery.ExactInput(request.release, release), Delivery.ExactInput(request.deployment, deployment),
      Source(env, d, request.task).value);
    var receipt := env.render(ReceiptFor(payload));
    SmallInputs(release, deployment, id, name);
    SmallInspections(release, deployment, id, name, text, receipt);
    assert StartsWith(request.task, request.taskRoot) && StartsWith(request.receipt, RECEIPT_ROOT);
    planned := Planned(payload, text, receipt, false);
  }

  lemma SmallBefore(release: Bytes, deployment: Bytes, id: string, name: string)
    ensures var d, request := SmallProject(release, deployment), SmallRequest(id, name);
      EntryAt(d, request.task).None? && EntryAt(d, request.receipt).None?
  {
    hide Descend;
    var d := SmallProject(release, deployment);
    SmallNames();
    InDirectory(d, "work", name);
    InReceipts(d);
  }

  lemma TaskPlace(release: Bytes, deployment: Bytes, id: string, name: string, task: Bytes, receipt: Bytes)
    ensures var d', path := SmallDelivery(release, deployment, name, task, receipt), SmallRequest(id, name).task;
      SlotOf(d', path) == Some(Slot(1, name)) && FileAt(d', path) == Some(task)
  {
    hide Descend;
    SmallNames();
    InDirectory(SmallDelivery(release, deployment, name, task, receipt), "work", name);
  }

  lemma ReceiptPlace(release: Bytes, deployment: Bytes, id: string, name: string, task: Bytes, receipt: Bytes)
    ensures var d', path := SmallDelivery(release, deployment, name, task, receipt), SmallRequest(id, name).receipt;
      SlotOf(d', path) == Some(Slot(6, "f.json")) && FileAt(d', path) == Some(receipt)
  {
    hide Descend;
    SmallNames();
    InReceipts(SmallDelivery(release, deployment, name, task, receipt));
  }

  lemma SmallGrowth(release: Bytes, deployment: Bytes, name: string, task: Bytes, receipt: Bytes)
    ensures var d, d' := SmallProject(release, deployment), SmallDelivery(release, deployment, name, task, receipt);
      && WellFormed(d') && Keeps(d, d') && NewNamesFresh(d, d')
      && (forall s :: s in d'.names && s !in d.names ==>
            s == Slot(1, name) || s == Slot(6, "f.json") || NodeAt(d', s) == Some(Directory))
  {
    SmallNames();
    hide IsNormal, Keeps, NewNamesFresh, Added;
    AddedGrows(SmallProject(release, deployment),
      Slot(1, name), Slot(0, "verification"), Slot(5, "feedback-task-receipts"), Slot(6, "f.json"), task, receipt);
  }

  lemma SmallPaths(id: string, name: string)
    requires IsNormal(name)
    ensures var request := SmallRequest(id, name);
      && ValidRelative(request.task) && ValidRelative(request.receipt) && request.task != request.receipt
      && request.task != [] && request.receipt != []
  {
    SmallNames();
    hide IsNormal;
    assert SmallRequest(id, name).task[0] != SmallRequest(id, name).receipt[0];
  }

  lemma SmallDelivered(release: Bytes, deployment: Bytes, id: string, name: string, task: Bytes, receipt: Bytes)
    requires IsNormal(name)
    ensures var request := SmallRequest(id, name);
      Delivery.Delivered(SmallProject(release, deployment), SmallDelivery(release, deployment, name, task, receipt),
        [Delivery.OutputSpec(request.task, task), Delivery.OutputSpec(request.receipt, receipt)], [true, true])
  {
    var d, d' := SmallProject(release, deployment), SmallDelivery(release, deployment, name, task, receipt);
    var request := SmallRequest(id, name);
    var outputs := [Delivery.OutputSpec(request.task, task), Delivery.OutputSpec(request.receipt, receipt)];
    hide SlotOf, EntryAt, FileAt, ValidRelative, SmallRequest, SmallProject, SmallDelivery, WellFormed, Keeps,
      NewNamesFresh;
    SmallPaths(id, name);
    SmallBefore(release, deployment, id, name);
    TaskPlace(release, deployment, id, name, task, receipt);
    ReceiptPlace(release, deployment, id, name, task, receipt);
    SmallGrowth(release, deployment, name, task, receipt);
    forall s | s in d'.names && s !in d.names
      ensures NodeAt(d', s) == Some(Directory) || Delivery.IsNewOutput(d', outputs, [true, true], s)
    {
      assert s == Slot(1, name) ==> SlotOf(d', outputs[0].path) == Some(s);
      assert s == Slot(6, "f.json") ==> SlotOf(d', outputs[1].path) == Some(s);
    }
  }

  // ---------- Where the properties fail ----------

  /** A project whose task directory is not `tasks`: the plan is made and delivered, and the receipt is refused. */
  lemma ReceiptIsRefused(env: Environment, release: Bytes, deployment: Bytes, id: string, name: string)
    returns (d: Disk, request: Request, planned: Planned, d': Disk)
    requires Willing(env) && IsNormal(name)
    ensures PlanFor(env, d, request) == Ok(planned) && TreeShaped(d) && Rooted(d)
    ensures Delivery.Delivered(d, d', Outputs(planned), [true, true])
    ensures !Verifies(env, d', planned.receiptBytes)
  {
    hide ValidEnvironment, Delivery.Delivered, PlanFor, Verifies, TreeShaped, Rooted, IsNormal;
    d, request := SmallProject(release, deployment), SmallRequest(id, name);
    planned := SmallPlan(env, release, deployment, id, name);
    SmallIsTree(release, deployment);
    d' := SmallDelivery(release, deployment, name, planned.taskBytes, planned.receiptBytes);
    SmallDelivered(release, deployment, id, name, planned.taskBytes, planned.receiptBytes);
    SmallOutputs(env, d, request, planned);
    ReceiptVerifies(env, d, request, planned, d', [true, true]);
    SmallNames();
    assert request.task[0] != TASKS[0];
  }

  /** A task in a file that is no Markdown: its identifier is free for the next one. */
  lemma TaskIsOverlooked(env: Environment, release: Bytes, deployment: Bytes, id: string)
    returns (d: Disk, request: Request, planned: Planned, d': Disk)
    requires Willing(env)
    ensures PlanFor(env, d, request) == Ok(planned) && TreeShaped(d) && Rooted(d) && request.taskId == id
    ensures Delivery.Delivered(d, d', Outputs(planned), [true, true])
    ensures forall other :: other != request.task ==>
      Available(env.reader, d', request.taskRoot, id, Some(other))
  {
    hide ValidEnvironment, Delivery.Delivered, PlanFor, Available, TreeShaped, Rooted;
    assert IsNormal("t") && !IsMarkdown("t") by {
      assert "t" != "." && "t" != "..";
      assert SourceRules.LastDot("t") == -1;
    }
    hide IsNormal, IsMarkdown;
    d, request := SmallProject(release, deployment), SmallRequest(id, "t");
    planned := SmallPlan(env, release, deployment, id, "t");
    SmallIsTree(release, deployment);
    d' := SmallDelivery(release, deployment, "t", planned.taskBytes, planned.receiptBytes);
    SmallDelivered(release, deployment, id, "t", planned.taskBytes, planned.receiptBytes);
    SmallOutputs(env, d, request, planned);
    forall other | other != request.task ensures Available(env.reader, d', request.taskRoot, id, Some(other)) {
      TaskIdIsTaken(env, d, request, planned, d', [true, true], other);
    }
  }

  lemma SmallOutputs(env: Environment, d: Disk, request: Request, planned: Planned)
    requires PlanFor(env, d, request) == Ok(planned)
    ensures Outputs(planned) ==
      [Delivery.OutputSpec(request.task, planned.taskBytes), Delivery.OutputSpec(request.receipt, planned.receiptBytes)]
  {
    PlanMeans(env, d, request, planned);
    hide PlanFor;
  }
}
