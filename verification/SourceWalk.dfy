/** The walk over the project tree that gathers its source files (delivery_evidence.rs,
    `collect_source_directory`), and its agreement with the flat filter of source_manifest.py. */
module SourceWalk {
  import Disks
  import opened Options
  import opened Sorting
  import opened Paths
  import opened SourceRules

  datatype Tree = File(bytes: Disks.Bytes) | Directory(children: map<string, Tree>) | SymbolicLink | Special

  datatype Found = Found(path: Path, bytes: Disks.Bytes)

  datatype WalkError = RefusesSymbolicLink(path: Path) | RefusesNonFile(path: Path)

  /** The rules together with the paths that the caller leaves out as well. */
  datatype Authority = Authority(rules: Rules, extra: set<Path>) {
    predicate Includes(path: Path)
      requires path != []
    {
      RustIncludes(rules, extra, path)
    }
  }

  function Look(tree: Tree, path: Path): Option<Tree>
    decreases path
  {
    if path == [] then Some(tree)
    else if tree.Directory? && path[0] in tree.children then Look(tree.children[path[0]], path[1..])
    else None
  }

  /** The walk from `at` gets to `path`: it includes everything on the way, and `path` itself. */
  ghost predicate Reached(authority: Authority, at: Path, path: Path) {
    forall k :: |at| < k <= |path| ==> authority.Includes(path[..k])
  }

  /** The object at `path`, below the directory `tree` that stands at `at`. */
  function Below(tree: Tree, at: Path, path: Path): Option<Tree> {
    if at < path then Look(tree, path[|at|..]) else None
  }

  ghost predicate Gathered(authority: Authority, tree: Tree, at: Path, f: Found) {
    Below(tree, at, f.path) == Some(File(f.bytes)) && Reached(authority, at, f.path)
  }

  ghost predicate Refused(authority: Authority, tree: Tree, at: Path, path: Path) {
    (Below(tree, at, path) == Some(SymbolicLink) || Below(tree, at, path) == Some(Special)) &&
    Reached(authority, at, path)
  }

  predicate FoundLeq(x: Found, y: Found) {
    PathLeq(x.path, y.path)
  }

  /** Exactly the reached files, in increasing component-wise path order, and nothing reached that is neither
      a file nor a directory. */
  ghost predicate WalkResult(authority: Authority, tree: Tree, at: Path, found: seq<Found>) {
    && Increasing(found, FoundLeq)
    && (forall f :: f in found <==> Gathered(authority, tree, at, f))
    && (forall p :: !Refused(authority, tree, at, p))
  }

  // ---------- Steps of the walk ----------

  /** What lies under the child `name` of the directory is seen from that child. */
  lemma IntoChild(authority: Authority, tree: Tree, at: Path, name: string, path: Path)
    requires tree.Directory? && name in tree.children && at < path && path[|at|] == name
    requires authority.Includes(at + [name])
    ensures |path| > |at| + 1 ==> Below(tree, at, path) == Below(tree.children[name], at + [name], path)
    ensures path == at + [name] ==> Below(tree, at, path) == Some(tree.children[name])
    ensures Reached(authority, at, path) <==> Reached(authority, at + [name], path)
  {
    hide Authority.Includes;
    assert path[|at|..][1..] == path[|at| + 1..];
    assert path[..|at| + 1] == at + [name];
    if |path| == |at| + 1 {
      assert path == at + [name] && path[|at|..] == [name] && path[|at|..][1..] == [];
      assert Look(tree, [name]) == Look(tree.children[name], [name][1..]);
    }
  }

  lemma PrunedChild(authority: Authority, at: Path, name: string, path: Path)
    requires at < path && path[|at|] == name && !authority.Includes(at + [name])
    ensures !Reached(authority, at, path)
  {
    assert path[..|at| + 1] == at + [name];
  }

  /** Children in the order of their names come in the order of their paths. */
  lemma {:induction false} NamesOrderPaths(p: Path, q: Path, k: nat)
    requires k < |p| && k < |q| && p[..k] == q[..k] && p[k] != q[k] && StringLeq(p[k], q[k])
    ensures PathLeq(p, q) && !PathLeq(q, p)
  {
    if k == 0 {
      StringOrder(p[0], q[0]);
    } else {
      assert p[0] == p[..k][0] == q[..k][0] == q[0];
      assert p[1..][..k - 1] == p[..k][1..] == q[..k][1..] == q[1..][..k - 1];
      NamesOrderPaths(p[1..], q[1..], k - 1);
    }
  }

  lemma IncreasingConcat<T>(xs: seq<T>, ys: seq<T>, le: (T, T) -> bool)
    requires Increasing(xs, le) && Increasing(ys, le)
    requires forall x, y :: x in xs && y in ys ==> le(x, y) && !le(y, x)
    ensures Increasing(xs + ys, le)
  {
    forall i, j | 0 <= i < j < |xs + ys| ensures le((xs + ys)[i], (xs + ys)[j]) && !le((xs + ys)[j], (xs + ys)[i]) {
      if i < |xs| <= j {
        assert xs[i] in xs && ys[j - |xs|] in ys;
      }
    }
  }

  /** The state of the walk before the name `names[i]`. */
  ghost predicate WalkedTo(authority: Authority, tree: Tree, at: Path, names: seq<string>, i: nat, found: seq<Found>)
    requires i <= |names|
  {
    && Increasing(found, FoundLeq)
    && (forall f :: f in found <==> Gathered(authority, tree, at, f) && f.path[|at|] in names[..i])
  }

  /** No object that makes the walk give up stands under the names before `i`. */
  ghost predicate NothingRefused(authority: Authority, tree: Tree, at: Path, names: seq<string>, i: nat)
    requires i <= |names|
  {
    forall p :: Refused(authority, tree, at, p) ==> p[|at|] !in names[..i]
  }

  ghost predicate NamesOf(names: seq<string>, tree: Tree)
    requires tree.Directory?
  {
    Increasing(names, StringLeq) && forall n :: n in names <==> n in tree.children
  }

  /** What one child contributes: the files `more` below it, or itself. */
  ghost predicate ChildGathered(authority: Authority, tree: Tree, at: Path, name: string, more: seq<Found>) {
    && Increasing(more, FoundLeq)
    && (forall f :: f in more <==> Gathered(authority, tree, at, f) && f.path[|at|] == name)
    && (forall p :: Refused(authority, tree, at, p) ==> p[|at|] != name)
  }

  lemma OneMoreName(authority: Authority, tree: Tree, at: Path, names: seq<string>, i: nat,
                    found: seq<Found>, more: seq<Found>)
    requires tree.Directory? && NamesOf(names, tree) && i < |names|
    requires WalkedTo(authority, tree, at, names, i, found) && NothingRefused(authority, tree, at, names, i)
    requires ChildGathered(authority, tree, at, names[i], more)
    ensures WalkedTo(authority, tree, at, names, i + 1, found + more)
    ensures NothingRefused(authority, tree, at, names, i + 1)
  {
    hide Reached, Look;
    TakeOneMore(names, i);
    forall x, y | x in found && y in more ensures FoundLeq(x, y) && !FoundLeq(y, x) {
      var j :| 0 <= j < i && names[j] == x.path[|at|];
      NamesOrderPaths(x.path, y.path, |at|);
    }
    IncreasingConcat(found, more, FoundLeq);
  }

  lemma Pruned(authority: Authority, tree: Tree, at: Path, name: string)
    requires tree.Directory? && !authority.Includes(at + [name])
    ensures ChildGathered(authority, tree, at, name, [])
  {
    forall p | at < p && p[|at|] == name ensures !Reached(authority, at, p) {
      PrunedChild(authority, at, name, p);
    }
  }

  lemma OneFile(authority: Authority, tree: Tree, at: Path, name: string)
    requires tree.Directory? && name in tree.children && authority.Includes(at + [name])
    requires tree.children[name].File?
    ensures ChildGathered(authority, tree, at, name, [Found(at + [name], tree.children[name].bytes)])
  {
    var child, relative := tree.children[name], at + [name];
    IntoChild(authority, tree, at, name, relative);
    hide Authority.Includes;
    forall p | at < p && p[|at|] == name && Below(tree, at, p).Some?
      ensures p == relative
    {
      IntoChild(authority, tree, at, name, p);
      assert p[|at|..][1..] == p[|at| + 1..];
      if |p| == |at| + 1 { assert p == relative; }
    }
    assert Gathered(authority, tree, at, Found(relative, child.bytes));
  }

  lemma OneDirectory(authority: Authority, tree: Tree, at: Path, name: string, more: seq<Found>)
    requires tree.Directory? && name in tree.children && authority.Includes(at + [name])
    requires tree.children[name].Directory? && WalkResult(authority, tree.children[name], at + [name], more)
    ensures ChildGathered(authority, tree, at, name, more)
  {
    forall f ensures f in more <==> Gathered(authority, tree, at, f) && f.path[|at|] == name {
      SeenThere(authority, tree, at, name, f.path);
      hide Authority.Includes, Reached, Look, Below;
    }
    forall p | Refused(authority, tree, at, p) ensures p[|at|] != name {
      SeenThere(authority, tree, at, name, p);
      assert !Refused(authority, tree.children[name], at + [name], p);
      hide Authority.Includes, Reached, Look, Below;
    }
    hide Authority.Includes, Reached, Look, Below;
  }

  /** A path seen as a leaf under the child is one under its parent, behind the name of the child. */
  ghost predicate SeenFromChild(authority: Authority, tree: Tree, at: Path, name: string, p: Path)
    requires tree.Directory? && name in tree.children
  {
    var child, relative := tree.children[name], at + [name];
    var here, there := Below(tree, at, p), Below(child, relative, p);
    && (there.Some? ==> there == here && at < p && p[|at|] == name)
    && (here.Some? && p[|at|] == name && !here.value.Directory? ==> there == here)
    && (here.Some? && p[|at|] == name ==> (Reached(authority, at, p) <==> Reached(authority, relative, p)))
  }

  lemma SeenThere(authority: Authority, tree: Tree, at: Path, name: string, p: Path)
    requires tree.Directory? && name in tree.children && authority.Includes(at + [name])
    requires tree.children[name].Directory?
    ensures SeenFromChild(authority, tree, at, name, p)
  {
    var child, relative := tree.children[name], at + [name];
    if Below(child, relative, p).Some? {
      assert p[..|at|] == relative[..|at|] == at && p[|at|] == relative[|at|];
    }
    if Below(tree, at, p).Some? && p[|at|] == name {
      IntoChild(authority, tree, at, name, p);
      assert |p| == |at| + 1 ==> p == relative;
    }
    if at < p && p[|at|] == name {
      IntoChild(authority, tree, at, name, p);
    }
    hide Authority.Includes, Reached, Look;
  }

  /** An object under an included child that is refused there is refused from here. */
  lemma RefusedBelow(authority: Authority, tree: Tree, at: Path, name: string, p: Path)
    requires tree.Directory? && name in tree.children && authority.Includes(at + [name])
    requires tree.children[name].Directory? && Refused(authority, tree.children[name], at + [name], p)
    ensures Refused(authority, tree, at, p) && Below(tree, at, p) == Below(tree.children[name], at + [name], p)
  {
    SeenThere(authority, tree, at, name, p);
    hide Authority.Includes, Reached, Look, Below;
  }

  // ---------- The result of the walk ----------

  predicate IsLeast(name: string, names: set<string>) {
    name in names && forall n :: n in names ==> StringLeq(name, n)
  }

  lemma {:induction false} LeastExists(names: set<string>)
    requires names != {}
    ensures exists m :: IsLeast(m, names)
  {
    hide StringLeq;
    var some :| some in names;
    StringOrder(some, some);
    if names == {some} {
      assert IsLeast(some, names);
    } else {
      assert names - {some} != {};
      LeastExists(names - {some});
      var m :| IsLeast(m, names - {some});
      StringOrder(m, some);
      var least := if StringLeq(m, some) then m else some;
      forall n | n in names ensures StringLeq(least, n) {
        if n != some && least == some {
          StringTransitive(some, m, n);
        }
      }
      assert IsLeast(least, names);
    }
  }

  lemma OneLeast(m: string, n: string, names: set<string>)
    requires IsLeast(m, names) && IsLeast(n, names)
    ensures m == n
  {
    StringOrder(m, n);
    hide StringLeq;
  }

  /** The names in order. */
  function InOrder(names: set<string>): (r: seq<string>)
    ensures Increasing(r, StringLeq) && forall n :: n in r <==> n in names
  {
    if names == {} then []
    else
      LeastExists(names);
      assert forall m, n :: IsLeast(m, names) && IsLeast(n, names) ==> m == n by {
        forall m, n | IsLeast(m, names) && IsLeast(n, names) ensures m == n { OneLeast(m, n, names); }
      }
      var m :| m in names && IsLeast(m, names);
      LeastFirst(m, InOrder(names - {m}), names);
      [m] + InOrder(names - {m})
  }

  lemma LeastFirst(m: string, rest: seq<string>, names: set<string>)
    requires IsLeast(m, names) && Increasing(rest, StringLeq) && forall n :: n in rest <==> n in names - {m}
    ensures Increasing([m] + rest, StringLeq) && forall n :: n in [m] + rest <==> n in names
  {
    forall j | 0 <= j < |rest| ensures StringLeq(m, rest[j]) && !StringLeq(rest[j], m) {
      assert rest[j] in rest;
      StringOrder(m, rest[j]);
    }
    hide StringLeq;
  }

  /** What the walk gathers of one child; nothing if it gives up. */
  function ChildFiles(authority: Authority, tree: Tree, at: Path, name: string): Option<seq<Found>>
    requires tree.Directory? && name in tree.children
    decreases tree, 0
  {
    if !authority.Includes(at + [name]) then Some([])
    else
      match tree.children[name]
      case File(bytes) => Some([Found(at + [name], bytes)])
      case Directory(_) => Walk(authority, tree.children[name], at + [name])
      case _ => None
  }

  /** What it gathers under the first `k` names. */
  function FilesUnder(authority: Authority, tree: Tree, at: Path, names: seq<string>, k: nat): Option<seq<Found>>
    requires tree.Directory? && k <= |names| && forall n :: n in names ==> n in tree.children
    decreases tree, 1, k
  {
    if k == 0 then Some([])
    else
      match FilesUnder(authority, tree, at, names, k - 1)
      case None => None
      case Some(found) =>
        match ChildFiles(authority, tree, at, names[k - 1])
        case None => None
        case Some(more) => Some(found + more)
  }

  /** What it gathers of a directory. */
  function Walk(authority: Authority, tree: Tree, at: Path): Option<seq<Found>>
    requires tree.Directory?
    decreases tree, 2
  {
    var names := InOrder(tree.children.Keys);
    FilesUnder(authority, tree, at, names, |names|)
  }

  lemma {:induction false} ChildWalked(authority: Authority, tree: Tree, at: Path, name: string)
    requires tree.Directory? && name in tree.children
    ensures match ChildFiles(authority, tree, at, name)
      case Some(more) => ChildGathered(authority, tree, at, name, more)
      case None => exists p :: Refused(authority, tree, at, p)
    decreases tree, 0
  {
    hide Authority.Includes, ChildGathered, Refused, WalkResult;
    if !authority.Includes(at + [name]) {
      Pruned(authority, tree, at, name);
    } else {
      var child := tree.children[name];
      if child.File? {
        OneFile(authority, tree, at, name);
      } else if child.Directory? {
        Walked(authority, child, at + [name]);
        match Walk(authority, child, at + [name])
        case Some(more) => OneDirectory(authority, tree, at, name, more);
        case None =>
          var p :| Refused(authority, child, at + [name], p);
          RefusedBelow(authority, tree, at, name, p);
      } else {
        RefusedHere(authority, tree, at, name);
      }
    }
  }

  lemma {:induction false} NamesWalked(authority: Authority, tree: Tree, at: Path, names: seq<string>, k: nat)
    requires tree.Directory? && k <= |names| && NamesOf(names, tree)
    ensures match FilesUnder(authority, tree, at, names, k)
      case Some(found) =>
        WalkedTo(authority, tree, at, names, k, found) && NothingRefused(authority, tree, at, names, k)
      case None => exists p :: Refused(authority, tree, at, p)
    decreases tree, 1, k
  {
    hide ChildGathered, Refused, WalkedTo, NothingRefused, ChildFiles;
    if k == 0 {
      NothingYet(authority, tree, at, names);
    } else {
      NamesWalked(authority, tree, at, names, k - 1);
      ChildWalked(authority, tree, at, names[k - 1]);
      var before, child := FilesUnder(authority, tree, at, names, k - 1), ChildFiles(authority, tree, at, names[k - 1]);
      if before.Some? && child.Some? {
        OneMoreName(authority, tree, at, names, k - 1, before.value, child.value);
      }
    }
  }

  /** The walk yields exactly what it reaches, unless it reaches something that it refuses. */
  lemma {:induction false} Walked(authority: Authority, tree: Tree, at: Path)
    requires tree.Directory?
    ensures match Walk(authority, tree, at)
      case Some(found) => WalkResult(authority, tree, at, found)
      case None => exists p :: Refused(authority, tree, at, p)
    decreases tree, 2
  {
    var names := InOrder(tree.children.Keys);
    hide InOrder, FilesUnder, WalkedTo, NothingRefused, Refused, WalkResult;
    NamesWalked(authority, tree, at, names, |names|);
    var all := FilesUnder(authority, tree, at, names, |names|);
    if all.Some? {
      WalkedAll(authority, tree, at, names, all.value);
    }
  }

  /** There is no other result. */
  lemma OneResult(authority: Authority, tree: Tree, at: Path, found: seq<Found>)
    requires tree.Directory? && WalkResult(authority, tree, at, found)
    ensures Walk(authority, tree, at) == Some(found)
  {
    Walked(authority, tree, at);
    hide Walk, Gathered, Refused;
    var all := Walk(authority, tree, at);
    assert forall p :: !Refused(authority, tree, at, p);
    IncreasingUnique(found, all.value, FoundLeq);
  }

  lemma NoResult(authority: Authority, tree: Tree, at: Path, p: Path)
    requires tree.Directory? && Refused(authority, tree, at, p)
    ensures Walk(authority, tree, at).None?
  {
    Walked(authority, tree, at);
    hide Walk, Refused, Gathered;
  }

  lemma NothingYet(authority: Authority, tree: Tree, at: Path, names: seq<string>)
    ensures WalkedTo(authority, tree, at, names, 0, []) && NothingRefused(authority, tree, at, names, 0)
  {
  }

  lemma WalkedAll(authority: Authority, tree: Tree, at: Path, names: seq<string>, found: seq<Found>)
    requires tree.Directory? && NamesOf(names, tree)
    requires WalkedTo(authority, tree, at, names, |names|, found)
    requires NothingRefused(authority, tree, at, names, |names|)
    ensures WalkResult(authority, tree, at, found)
  {
    TakeAll(names);
    forall p | Below(tree, at, p).Some? ensures p[|at|] in names {
      assert p[|at|..][0] == p[|at|];
    }
    hide Reached, Look;
  }

  lemma RefusedHere(authority: Authority, tree: Tree, at: Path, name: string)
    requires tree.Directory? && name in tree.children && authority.Includes(at + [name])
    requires tree.children[name].SymbolicLink? || tree.children[name].Special?
    ensures Refused(authority, tree, at, at + [name])
    ensures Below(tree, at, at + [name]) == Some(tree.children[name])
  {
    IntoChild(authority, tree, at, name, at + [name]);
    hide Authority.Includes;
  }

  // ---------- The walk ----------

  function Itself(name: string): string {
    name
  }

  /** The names in a directory, in whatever order it gives them. */
  method ReadDirectory(tree: Tree) returns (names: seq<string>)
    requires tree.Directory?
    ensures DistinctBy(names, Itself) && forall n :: n in names <==> n in tree.children
  {
    names := [];
    var left := tree.children.Keys;
    while left != {}
      invariant left <= tree.children.Keys && forall n :: n in names <==> n in tree.children.Keys - left
      invariant DistinctBy(names, Itself)
      decreases left
    {
      var name :| name in left;
      assert name !in names;
      names := names + [name];
      left := left - {name};
    }
  }

  lemma SortedNames(names: seq<string>)
    requires DistinctBy(names, Itself)
    ensures Increasing(Sort(names, StringLeq), StringLeq)
    ensures forall n :: n in Sort(names, StringLeq) <==> n in names
  {
    var sorted := Sort(names, StringLeq);
    StringLeqIsTotalOrder();
    SortSorts(names, StringLeq);
    SortKeepsDistinct(names, StringLeq, Itself);
    forall i, j | 0 <= i < j < |sorted| ensures StringLeq(sorted[i], sorted[j]) && !StringLeq(sorted[j], sorted[i]) {
      SortedPair(sorted, StringLeq, i, j);
      assert Itself(sorted[i]) != Itself(sorted[j]);
      StringOrder(sorted[i], sorted[j]);
    }
  }

  /** `collect_source_directory`: the walk either gathers what it reaches or names something that it refuses. */
  method CollectDirectory(authority: Authority, tree: Tree, at: Path)
    returns (found: seq<Found>, error: Option<WalkError>)
    requires tree.Directory?
    ensures error.None? ==> WalkResult(authority, tree, at, found)
    ensures Walk(authority, tree, at) == if error.None? then Some(found) else None
    ensures error.Some? ==> Refused(authority, tree, at, error.value.path)
    ensures error.Some? ==> (error.value.RefusesSymbolicLink? <==>
      Below(tree, at, error.value.path) == Some(SymbolicLink))
    decreases tree
  {
    hide Authority.Includes, Walk, Reached, Below, Gathered, Refused, WalkResult, WalkedTo, NothingRefused,
      ChildGathered;
    var listed := ReadDirectory(tree);
    var names := Sort(listed, StringLeq);
    SortedNames(listed);
    found, error := [], None;
    NothingYet(authority, tree, at, names);
    var i := 0;
    while i < |names|
      invariant i <= |names| && error.None?
      invariant WalkedTo(authority, tree, at, names, i, found) && NothingRefused(authority, tree, at, names, i)
    {
      var name := names[i];
      var relative := at + [name];
      var more := [];
      if !authority.Includes(relative) {
        Pruned(authority, tree, at, name);
      } else {
        var child := tree.children[name];
        match child {
          case SymbolicLink =>
            RefusedHere(authority, tree, at, name);
            NoResult(authority, tree, at, relative);
            return [], Some(RefusesSymbolicLink(relative));
          case Special =>
            RefusedHere(authority, tree, at, name);
            NoResult(authority, tree, at, relative);
            return [], Some(RefusesNonFile(relative));
          case File(bytes) =>
            more := [Found(relative, bytes)];
            OneFile(authority, tree, at, name);
          case Directory(_) =>
            more, error := CollectDirectory(authority, child, relative);
            if error.Some? {
              RefusedBelow(authority, tree, at, name, error.value.path);
              NoResult(authority, tree, at, error.value.path);
              return [], error;
            }
            OneDirectory(authority, tree, at, name, more);
        }
      }
      OneMoreName(authority, tree, at, names, i, found, more);
      found := found + more;
      i := i + 1;
    }
    WalkedAll(authority, tree, at, names, found);
    OneResult(authority, tree, at, found);
  }
}
