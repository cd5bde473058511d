/** The search through the task directory for the file that carries a task identifier
    (feedback_cmd.rs, `require_task_id_exists` and `require_task_id_available`). */
module TaskSearches {
  import opened Disks
  import opened DiskPaths
  import opened OpenPaths
  import opened Options
  import opened Paths
  import opened SourceOnDisk
  import opened TreeShapes
  import SourceRules

  /** How a task file is read: whether it is text at all, and the `id` in its front matter. */
  datatype Reader = Reader(isText: Bytes -> bool, id: Bytes -> Option<string>)

  predicate IsMarkdown(name: string) {
    SourceRules.Extension(name) == Some("md")
  }

  /** What `read` lets pass without a look at its text: a directory, or a file that is not Markdown. */
  predicate Legible(reader: Reader, name: string, node: Node) {
    match node
    case Directory => true
    case File(data) => IsMarkdown(name) ==> reader.isText(data)
    case Special => false
  }

  predicate HasId(reader: Reader, id: string, name: string, node: Node) {
    node.File? && IsMarkdown(name) && reader.isText(node.data) && reader.id(node.data) == Some(id)
  }

  /** What stands at `path` makes the search give up. */
  ghost predicate Bars(reader: Reader, d: Disk, taskRoot: Path, path: Path) {
    taskRoot < path && EntryAt(d, path).Some? && NodeAt(d, SlotOf(d, path).value).Some? &&
    !Legible(reader, FileName(path), NodeAt(d, SlotOf(d, path).value).value)
  }

  /** The file at `path` is a task with the identifier `id`. */
  ghost predicate Carries(reader: Reader, d: Disk, taskRoot: Path, id: string, path: Path) {
    taskRoot < path && EntryAt(d, path).Some? && NodeAt(d, SlotOf(d, path).value).Some? &&
    HasId(reader, id, FileName(path), NodeAt(d, SlotOf(d, path).value).value)
  }

  ghost predicate Known(reader: Reader, d: Disk, taskRoot: Path, id: string) {
    exists path :: Carries(reader, d, taskRoot, id, path)
  }

  /** No task but the one at `allowed` has the identifier, as far as one can see, and one can see everything. */
  ghost predicate Available(reader: Reader, d: Disk, taskRoot: Path, id: string, allowed: Option<Path>) {
    && Descend(d, d.root, taskRoot).Some?
    && (forall path :: !Bars(reader, d, taskRoot, path))
    && (forall path :: Carries(reader, d, taskRoot, id, path) ==> allowed == Some(path))
  }

  // ---------- The state of the search ----------

  /** A directory and the path that leads to it. */
  datatype Place = Place(path: Path, dir: Inode)

  ghost predicate IsPlace(d: Disk, taskRoot: Path, p: Place) {
    taskRoot <= p.path && Descend(d, d.root, p.path) == Some(p.dir)
  }

  ghost predicate Entered(taskRoot: Path, read: set<Place>, p: Place) {
    p.path == taskRoot || (p.path != [] && exists q :: q in read && q.path == Parent(p.path))
  }

  /** The directories already read, and those still pending: no directory is met twice. */
  ghost predicate Frontier(d: Disk, taskRoot: Path, read: set<Place>, pending: seq<Place>) {
    && (forall p :: p in read || p in pending ==> IsPlace(d, taskRoot, p) && Entered(taskRoot, read, p))
    && (forall p :: p in pending ==> p !in read)
    && (forall i, j :: 0 <= i < j < |pending| ==> pending[i] != pending[j])
  }

  function Directories(places: set<Place>): set<Inode> {
    set p | p in places :: p.dir
  }

  /** A pending directory is one that was not read. */
  lemma Unread(d: Disk, taskRoot: Path, read: set<Place>, pending: seq<Place>, p: Place)
    requires TreeShaped(d) && Frontier(d, taskRoot, read, pending) && p in pending
    ensures p.dir in d.nodes && p.dir !in Directories(read) && IsPlace(d, taskRoot, p)
  {
    DirectoriesExist(d, d.root, p.path);
    forall q | q in read && q.dir == p.dir ensures q == p {
      OnePath(d, p.path, q.path);
    }
  }

  /** `children` are subdirectories of `here`, each once. */
  ghost predicate Subdirectories(d: Disk, here: Place, children: seq<Place>) {
    && (forall c :: c in children ==> IsChild(d, here, c))
    && (forall i, j :: 0 <= i < j < |children| ==> children[i] != children[j])
  }

  ghost predicate IsChild(d: Disk, here: Place, c: Place) {
    c.path != [] && Parent(c.path) == here.path &&
    IdentityAt(d, Slot(here.dir, FileName(c.path))) == Some(c.dir) &&
    NodeAt(d, Slot(here.dir, FileName(c.path))) == Some(Directory)
  }

  lemma EachOnce(xs: seq<Place>, ys: seq<Place>)
    requires forall i, j :: 0 <= i < j < |xs| ==> xs[i] != xs[j]
    requires forall i, j :: 0 <= i < j < |ys| ==> ys[i] != ys[j]
    requires forall y :: y in ys ==> y !in xs
    ensures forall i, j :: 0 <= i < j < |xs + ys| ==> (xs + ys)[i] != (xs + ys)[j]
  {
    forall i, j | 0 <= i < j < |xs + ys| ensures (xs + ys)[i] != (xs + ys)[j] {
      if i < |xs| <= j {
        assert xs[i] in xs && ys[j - |xs|] in ys;
      }
    }
  }

  /** The last pending directory is read and its subdirectories become pending. */
  lemma OneMoreRead(d: Disk, taskRoot: Path, read: set<Place>, pending: seq<Place>, children: seq<Place>)
    requires Frontier(d, taskRoot, read, pending) && pending != []
    requires Subdirectories(d, pending[|pending| - 1], children)
    ensures var last := |pending| - 1; Frontier(d, taskRoot, read + {pending[last]}, pending[..last] + children)
  {
    var last := |pending| - 1;
    var here := pending[last];
    var read', pending' := read + {here}, pending[..last] + children;
    forall c | c in children
      ensures IsPlace(d, taskRoot, c) && Entered(taskRoot, read', c) && c !in read && c !in pending
    {
      NewChild(d, taskRoot, read, pending, here, c);
      assert here in read';
    }
    forall p | p in read' || p in pending' ensures IsPlace(d, taskRoot, p) && Entered(taskRoot, read', p) {
      assert p in children || p in read || p in pending;
      if p !in children && p.path != taskRoot {
        var q :| q in read && q.path == Parent(p.path);
        assert q in read';
      }
    }
    forall p | p in pending' ensures p !in read' {
      if p !in children {
        var k :| 0 <= k < last && pending[..last][k] == p;
        assert pending[k] == p && pending[k] != pending[last];
      } else {
        assert here in pending;
      }
    }
    EachOnce(pending[..last], children);
    hide IsPlace, Entered, IsChild;
  }

  lemma NewChild(d: Disk, taskRoot: Path, read: set<Place>, pending: seq<Place>, here: Place, c: Place)
    requires Frontier(d, taskRoot, read, pending) && here in pending && IsChild(d, here, c)
    ensures IsPlace(d, taskRoot, c) && c.path != taskRoot && c !in read && c !in pending
  {
    DescendFurther(d, d.root, here.path, FileName(c.path));
    assert c.path == here.path + [FileName(c.path)];
    forall q | q in read && q.path == Parent(c.path) ensures q == here {
    }
  }

  /** Nothing to object to at `path`; a directory there is known. */
  ghost predicate Clear(reader: Reader, d: Disk, id: string, exempt: Option<Path>, places: set<Place>, path: Path,
                        i: Inode)
    requires path != []
  {
    i in d.nodes ==>
      && Legible(reader, FileName(path), d.nodes[i])
      && (HasId(reader, id, FileName(path), d.nodes[i]) ==> exempt == Some(path))
      && (d.nodes[i].Directory? ==> Place(path, i) in places)
  }

  /** All entries of the directory are clear, up to those in `todo`. */
  ghost predicate Cleared(
      reader: Reader, d: Disk, id: string, exempt: Option<Path>, places: set<Place>, here: Place, todo: set<string>)
  {
    forall name :: Slot(here.dir, name) in d.names && name !in todo ==>
      Clear(reader, d, id, exempt, places, here.path + [name], d.names[Slot(here.dir, name)])
  }

  lemma {:induction false} AllRead(
      reader: Reader, d: Disk, taskRoot: Path, id: string, exempt: Option<Path>, read: set<Place>, path: Path)
    requires TreeShaped(d) && taskRoot <= path && Descend(d, d.root, path).Some?
    requires exists p :: p in read && p.path == taskRoot && IsPlace(d, taskRoot, p)
    requires forall p :: p in read ==> Cleared(reader, d, id, exempt, read, p, {})
    ensures Place(path, Descend(d, d.root, path).value) in read
    decreases |path|
  {
    if path == taskRoot {
      var p :| p in read && p.path == taskRoot && IsPlace(d, taskRoot, p);
      assert p == Place(path, Descend(d, d.root, path).value);
    } else {
      DescendLast(d, path);
      assert taskRoot <= Parent(path);
      AllRead(reader, d, taskRoot, id, exempt, read, Parent(path));
      var above := Descend(d, d.root, Parent(path)).value;
      var i := d.names[Slot(above, FileName(path))];
      assert path == Parent(path) + [FileName(path)];
      assert Clear(reader, d, id, exempt, read, path, i);
    }
  }

  lemma NothingLeft(reader: Reader, d: Disk, taskRoot: Path, id: string, exempt: Option<Path>, read: set<Place>)
    requires TreeShaped(d) && Descend(d, d.root, taskRoot).Some?
    requires exists p :: p in read && p.path == taskRoot && IsPlace(d, taskRoot, p)
    requires forall p :: p in read ==> Cleared(reader, d, id, exempt, read, p, {})
    ensures Available(reader, d, taskRoot, id, exempt)
  {
    forall path | taskRoot < path && EntryAt(d, path).Some?
      ensures !Bars(reader, d, taskRoot, path)
      ensures Carries(reader, d, taskRoot, id, path) ==> exempt == Some(path)
    {
      assert taskRoot <= Parent(path);
      AllRead(reader, d, taskRoot, id, exempt, read, Parent(path));
      assert path == Parent(path) + [FileName(path)];
      var above := Descend(d, d.root, Parent(path)).value;
      assert Cleared(reader, d, id, exempt, read, Place(Parent(path), above), {});
      assert Clear(reader, d, id, exempt, read, path, d.names[Slot(above, FileName(path))]);
    }
  }

  // ---------- The search ----------

  datatype Outcome = FoundAt(path: Path) | NotFound | GaveUp

  /** What one entry of a directory means. */
  lemma EntryMeans(reader: Reader, d: Disk, taskRoot: Path, id: string, here: Place, name: string)
    requires IsPlace(d, taskRoot, here) && Slot(here.dir, name) in d.names && d.names[Slot(here.dir, name)] in d.nodes
    ensures var path, node := here.path + [name], d.nodes[d.names[Slot(here.dir, name)]];
      && (Bars(reader, d, taskRoot, path) <==> !Legible(reader, name, node))
      && (Carries(reader, d, taskRoot, id, path) <==> HasId(reader, id, name, node))
  {
    var path := here.path + [name];
    assert Parent(path) == here.path && FileName(path) == name && taskRoot < path;
  }

  ghost predicate Stops(reader: Reader, d: Disk, taskRoot: Path, id: string, exempt: Option<Path>, outcome: Outcome) {
    match outcome
    case FoundAt(path) => Carries(reader, d, taskRoot, id, path) && exempt != Some(path)
    case GaveUp => exists path :: Bars(reader, d, taskRoot, path)
    case NotFound => false
  }

  /** What is clear among few places is clear among more. */
  lemma StillCleared(reader: Reader, d: Disk, id: string, exempt: Option<Path>, places: set<Place>, places': set<Place>,
                     here: Place)
    requires Cleared(reader, d, id, exempt, places, here, {}) && places <= places'
    ensures Cleared(reader, d, id, exempt, places', here, {})
  {
    forall name | Slot(here.dir, name) in d.names
      ensures Clear(reader, d, id, exempt, places', here.path + [name], d.names[Slot(here.dir, name)])
    {
      assert Clear(reader, d, id, exempt, places, here.path + [name], d.names[Slot(here.dir, name)]);
    }
    hide Legible, HasId;
  }

  /** One name less to look at. */
  lemma OneMoreName(
      reader: Reader, d: Disk, id: string, exempt: Option<Path>, places: set<Place>, places': set<Place>,
      here: Place, todo: set<string>, name: string)
    requires Cleared(reader, d, id, exempt, places, here, todo) && places <= places' && Slot(here.dir, name) in d.names
    requires Clear(reader, d, id, exempt, places', here.path + [name], d.names[Slot(here.dir, name)])
    ensures Cleared(reader, d, id, exempt, places', here, todo - {name})
  {
    forall n | Slot(here.dir, n) in d.names && n !in todo - {name}
      ensures Clear(reader, d, id, exempt, places', here.path + [n], d.names[Slot(here.dir, n)])
    {
      assert n != name ==> Clear(reader, d, id, exempt, places, here.path + [n], d.names[Slot(here.dir, n)]);
    }
    hide Legible, HasId;
  }

  function PlaceSet(places: seq<Place>): set<Place> {
    set p | p in places
  }

  /** One directory: its subdirectories, unless some entry ends the search. */
  method ReadDirectory(reader: Reader, d: Disk, taskRoot: Path, id: string, exempt: Option<Path>, here: Place)
    returns (children: seq<Place>, stop: Option<Outcome>)
    requires WellFormed(d) && IsPlace(d, taskRoot, here)
    ensures stop.None? ==>
      Subdirectories(d, here, children) && Cleared(reader, d, id, exempt, PlaceSet(children), here, {})
    ensures stop.Some? ==> Stops(reader, d, taskRoot, id, exempt, stop.value)
  {
    hide Bars, Carries, IsPlace;
    children, stop := [], None;
    var names := NamesIn(d, here.dir);
    while names != {}
      invariant names <= NamesIn(d, here.dir) && Subdirectories(d, here, children)
      invariant Cleared(reader, d, id, exempt, PlaceSet(children), here, names)
      invariant forall c :: c in children ==> FileName(c.path) !in names
    {
      var name :| name in names;
      var path, i := here.path + [name], d.names[Slot(here.dir, name)];
      EntryMeans(reader, d, taskRoot, id, here, name);
      if !Legible(reader, name, d.nodes[i]) {
        return [], Some(GaveUp);
      }
      if HasId(reader, id, name, d.nodes[i]) && exempt != Some(path) {
        return [], Some(FoundAt(path));
      }
      ghost var places := PlaceSet(children);
      if d.nodes[i].Directory? {
        assert Parent(path) == here.path && FileName(path) == name;
        assert IsChild(d, here, Place(path, i));
        children := children + [Place(path, i)];
      }
      OneMoreName(reader, d, id, exempt, places, PlaceSet(children), here, names, name);
      names := names - {name};
    }
  }

  /** Both searches: the first file that carries the identifier, apart from the exempted one. */
  method Search(reader: Reader, d: Disk, taskRoot: Path, id: string, exempt: Option<Path>) returns (outcome: Outcome)
    requires TreeShaped(d)
    ensures outcome.NotFound? <==> Available(reader, d, taskRoot, id, exempt)
    ensures outcome.GaveUp? ==> Descend(d, d.root, taskRoot).None? || exists path :: Bars(reader, d, taskRoot, path)
    ensures outcome.FoundAt? ==> Carries(reader, d, taskRoot, id, outcome.path) && exempt != Some(outcome.path)
  {
    hide Legible, HasId, Bars, Carries, Frontier, Cleared, TreeShaped, Directories, IsPlace, Subdirectories;
    var start := Descend(d, d.root, taskRoot);
    if start.None? {
      assert !Available(reader, d, taskRoot, id, exempt);
      return GaveUp;
    }
    var pending := [Place(taskRoot, start.value)];
    ghost var read: set<Place> := {};
    StartFrontier(d, taskRoot, start.value);
    while pending != []
      invariant Frontier(d, taskRoot, read, pending)
      invariant Place(taskRoot, start.value) in read + PlaceSet(pending)
      invariant forall p :: p in read ==> Cleared(reader, d, id, exempt, read + PlaceSet(pending), p, {})
      decreases d.nodes.Keys - Directories(read)
    {
      var here := pending[|pending| - 1];
      Unread(d, taskRoot, read, pending, here);
      IsTree(d);
      var children, stop := ReadDirectory(reader, d, taskRoot, id, exempt, here);
      if stop.Some? {
        NotAvailable(reader, d, taskRoot, id, exempt, stop.value);
        return stop.value;
      }
      OneMoreRead(d, taskRoot, read, pending, children);
      ghost var places := read + PlaceSet(pending);
      ghost var read', pending' := read + {here}, pending[..|pending| - 1] + children;
      SplitLast(pending, children);
      assert places <= read' + PlaceSet(pending');
      forall p | p in read' ensures Cleared(reader, d, id, exempt, read' + PlaceSet(pending'), p, {}) {
        ghost var seen := if p == here then PlaceSet(children) else places;
        StillCleared(reader, d, id, exempt, seen, read' + PlaceSet(pending'), p);
      }
      ReadOneMore(read, here);
      read, pending := read', pending[..|pending| - 1] + children;
    }
    assert read + PlaceSet(pending) == read;
    NothingLeft(reader, d, taskRoot, id, exempt, read);
    return NotFound;
  }

  lemma NotAvailable(reader: Reader, d: Disk, taskRoot: Path, id: string, exempt: Option<Path>, outcome: Outcome)
    requires Stops(reader, d, taskRoot, id, exempt, outcome)
    ensures !Available(reader, d, taskRoot, id, exempt)
  {
    hide Bars, Carries;
  }

  lemma StartFrontier(d: Disk, taskRoot: Path, start: Inode)
    requires Descend(d, d.root, taskRoot) == Some(start)
    ensures Frontier(d, taskRoot, {}, [Place(taskRoot, start)])
    ensures IsPlace(d, taskRoot, Place(taskRoot, start))
  {
  }

  lemma IsTree(d: Disk)
    requires TreeShaped(d)
    ensures WellFormed(d)
  {
  }

  lemma SplitLast(pending: seq<Place>, children: seq<Place>)
    requires pending != []
    ensures var last := |pending| - 1;
      PlaceSet(pending[..last] + children) == PlaceSet(pending[..last]) + PlaceSet(children) &&
      PlaceSet(pending) == PlaceSet(pending[..last]) + {pending[last]}
  {
    var last := |pending| - 1;
    assert pending == pending[..last] + [pending[last]];
  }

  lemma ReadOneMore(read: set<Place>, here: Place)
    ensures Directories(read + {here}) == Directories(read) + {here.dir}
  {
  }
}
