/** The pruned walk against the flat filter of the source report (source_manifest.py, `build_report`), and the
    entries that the digest of the source is taken of (delivery_evidence.rs, `current_source_entries`). */
module SourceManifests {
  import Disks
  import opened Options
  import opened Sorting
  import opened Paths
  import opened SourceRules
  import opened SourceWalk

  /** `rglob` with `is_file`: all files of the tree, in any order. */
  ghost predicate Lists(listing: seq<Found>, tree: Tree) {
    && DistinctBy(listing, (f: Found) => f.path)
    && (forall f :: f in listing <==> Look(tree, f.path) == Some(File(f.bytes)))
  }

  predicate Accepted(authority: Authority, f: Found) {
    f.path != [] && authority.Includes(f.path)
  }

  /** The flat filter over the sorted listing. */
  function Flat(authority: Authority, listing: seq<Found>): seq<Found> {
    Filter(Sort(listing, FoundLeq), f => Accepted(authority, f))
  }

  /** The files of `build_report`. */
  function Report(rules: Rules, listing: seq<Found>): seq<Found> {
    Filter(Sort(listing, FoundLeq), (f: Found) => f.path != [] && PythonIncludes(rules, f.path))
  }

  /** The directory at `d` is left out although `f`, below it, is source. */
  ghost predicate LostBelow(authority: Authority, tree: Tree, d: Path, f: Found) {
    && d != [] && d < f.path
    && Look(tree, f.path) == Some(File(f.bytes)) && Accepted(authority, f)
    && !authority.Includes(d)
  }

  lemma FoundOrder()
    ensures TotalOrder(FoundLeq)
  {
    PathLeqIsTotalOrder();
    forall x, y ensures FoundLeq(x, y) || FoundLeq(y, x) {
      PathOrder(x.path, y.path);
    }
    forall x, y, z | FoundLeq(x, y) && FoundLeq(y, z) ensures FoundLeq(x, z) {
      PathTransitive(x.path, y.path, z.path);
    }
  }

  lemma SortedListing(listing: seq<Found>, tree: Tree)
    requires Lists(listing, tree)
    ensures Increasing(Sort(listing, FoundLeq), FoundLeq)
    ensures forall f :: f in Sort(listing, FoundLeq) <==> f in listing
  {
    var sorted, key := Sort(listing, FoundLeq), (f: Found) => f.path;
    FoundOrder();
    SortSorts(listing, FoundLeq);
    SortKeepsDistinct(listing, FoundLeq, key);
    forall i, j | 0 <= i < j < |sorted| ensures FoundLeq(sorted[i], sorted[j]) && !FoundLeq(sorted[j], sorted[i]) {
      SortedPair(sorted, FoundLeq, i, j);
      PathOrder(sorted[i].path, sorted[j].path);
      assert key(sorted[i]) != key(sorted[j]);
    }
  }

  lemma WalkFinds(authority: Authority, tree: Tree, found: seq<Found>, f: Found)
    requires tree.Directory? && WalkResult(authority, tree, [], found)
    ensures f in found <==> Look(tree, f.path) == Some(File(f.bytes)) && Reached(authority, [], f.path)
    ensures f in found ==> Accepted(authority, f)
  {
    assert f in found <==> Gathered(authority, tree, [], f);
    assert f.path[0..] == f.path && f.path[..|f.path|] == f.path;
  }

  lemma FlatFinds(authority: Authority, tree: Tree, listing: seq<Found>, f: Found)
    requires Lists(listing, tree)
    ensures f in Flat(authority, listing) <==> Look(tree, f.path) == Some(File(f.bytes)) && Accepted(authority, f)
  {
    SortedListing(listing, tree);
  }

  lemma LostIsUnreached(authority: Authority, tree: Tree, d: Path, f: Found)
    requires LostBelow(authority, tree, d, f)
    ensures !Reached(authority, [], f.path)
  {
    assert d == f.path[..|d|];
  }

  /** The pruned walk yields the flat filter of the sorted files, in the same order, exactly if it leaves no
      directory out that has source below it. */
  lemma PrunedWalkIsFlatFilter(authority: Authority, tree: Tree, found: seq<Found>, listing: seq<Found>)
    requires tree.Directory? && WalkResult(authority, tree, [], found) && Lists(listing, tree)
    ensures found == Flat(authority, listing) <==> forall d, f :: !LostBelow(authority, tree, d, f)
  {
    hide Authority.Includes;
    SortedListing(listing, tree);
    FilterKeepsIncreasing(Sort(listing, FoundLeq), f => Accepted(authority, f), FoundLeq);
    forall d, f | found == Flat(authority, listing) ensures !LostBelow(authority, tree, d, f) {
      if LostBelow(authority, tree, d, f) {
        FlatFinds(authority, tree, listing, f);
        WalkFinds(authority, tree, found, f);
        LostIsUnreached(authority, tree, d, f);
      }
    }
    if forall d, f :: !LostBelow(authority, tree, d, f) {
      forall f ensures f in found <==> f in Flat(authority, listing) {
        FlatFinds(authority, tree, listing, f);
        WalkFinds(authority, tree, found, f);
        if Look(tree, f.path) == Some(File(f.bytes)) && Accepted(authority, f) {
          forall k | 0 < k <= |f.path| ensures authority.Includes(f.path[..k]) {
            assert k < |f.path| ==> !LostBelow(authority, tree, f.path[..k], f);
            assert f.path[..|f.path|] == f.path;
          }
        }
      }
      IncreasingUnique(found, Flat(authority, listing), FoundLeq);
    }
  }

  /** The rules that speak of one path only and say nothing of what lies below it. */
  predicate LeftOutAlone(authority: Authority, path: Path)
    requires path != []
  {
    || path in authority.extra
    || (exists e :: e in authority.rules.exact && Slashed(Render(path)) == Render(e))
    || FileName(path) == ".env"
    || (Extension(FileName(path)).Some? && Extension(FileName(path)).value in authority.rules.suffixes)
  }

  lemma {:induction false} OnTheWay(tree: Tree, d: Path, path: Path)
    requires d < path && Look(tree, path).Some?
    ensures Look(tree, d).Some? && Look(tree, d).value.Directory?
  {
    if d != [] {
      OnTheWay(tree.children[path[0]], d[1..], path[1..]);
    }
  }

  /** No directory that a rule names alone: then nothing is lost. */
  lemma GuardSuffices(authority: Authority, tree: Tree)
    requires forall d :: d != [] && LeftOutAlone(authority, d) ==>
      Look(tree, d).None? || !Look(tree, d).value.Directory?
    ensures forall d, f :: !LostBelow(authority, tree, d, f)
  {
    forall d, f ensures !LostBelow(authority, tree, d, f) {
      if LostBelow(authority, tree, d, f) {
        OnTheWay(tree, d, f.path);
        assert !LeftOutAlone(authority, d);
        InheritedBelow(authority.rules, authority.extra, d, f.path);
      }
    }
  }

  /** A source file of the report whose text reads like an excluded path, so that the Rust filter leaves it out. */
  ghost predicate ReadsAway(rules: Rules, listing: seq<Found>, f: Found) {
    f in listing && f.path != [] && PythonIncludes(rules, f.path) && ReadsExcluded(rules, f.path)
  }

  /** The two flat filters give the same list exactly if no source file reads like an excluded path. */
  lemma FlatIsReport(rules: Rules, tree: Tree, listing: seq<Found>)
    requires WellFormed(rules) && Lists(listing, tree)
    ensures Flat(Authority(rules, {}), listing) == Report(rules, listing) <==> forall f :: !ReadsAway(rules, listing, f)
    ensures forall f :: f in Flat(Authority(rules, {}), listing) ==> f in Report(rules, listing)
  {
    var authority := Authority(rules, {});
    SortedListing(listing, tree);
    var sorted := Sort(listing, FoundLeq);
    forall f: Found | f.path != []
      ensures Accepted(authority, f) <==> PythonIncludes(rules, f.path) && !ReadsExcluded(rules, f.path)
    {
      RustFilter(rules, f.path);
    }
    hide Authority.Includes, PythonIncludes, ReadsExcluded, Lists;
    if forall f :: !ReadsAway(rules, listing, f) {
      forall f | f in sorted ensures Accepted(authority, f) <==> (f.path != [] && PythonIncludes(rules, f.path)) {
        assert !ReadsAway(rules, listing, f);
      }
      FilterAlike(sorted, (f: Found) => Accepted(authority, f),
        (f: Found) => f.path != [] && PythonIncludes(rules, f.path));
    }
    forall f | ReadsAway(rules, listing, f) ensures Flat(authority, listing) != Report(rules, listing) {
      assert f in Report(rules, listing) && f !in Flat(authority, listing);
    }
  }

  /** Source authority: the Rust walk gathers what the Python report lists exactly if it leaves no directory out that
      has source below it and no source file reads like an excluded path. */
  lemma WalkAgreesWithReport(rules: Rules, tree: Tree, found: seq<Found>, listing: seq<Found>)
    requires WellFormed(rules) && tree.Directory? && Lists(listing, tree)
    requires WalkResult(Authority(rules, {}), tree, [], found)
    ensures found == Report(rules, listing) <==>
      (forall d, f :: !LostBelow(Authority(rules, {}), tree, d, f)) && (forall f :: !ReadsAway(rules, listing, f))
  {
    var authority := Authority(rules, {});
    PrunedWalkIsFlatFilter(authority, tree, found, listing);
    FlatIsReport(rules, tree, listing);
    hide LostBelow, ReadsAway;
    if found == Report(rules, listing) {
      forall f ensures f in found <==> f in Flat(authority, listing) {
        WalkFinds(authority, tree, found, f);
        FlatFinds(authority, tree, listing, f);
      }
      SortedListing(listing, tree);
      FilterKeepsIncreasing(Sort(listing, FoundLeq), f => Accepted(authority, f), FoundLeq);
      IncreasingUnique(found, Flat(authority, listing), FoundLeq);
    }
  }

  lemma {:induction false} FilterAlike<T(!new)>(xs: seq<T>, p: T -> bool, q: T -> bool)
    requires forall x :: x in xs ==> p(x) == q(x)
    ensures Filter(xs, p) == Filter(xs, q)
  {
    if xs != [] {
      assert xs[0] in xs && forall x :: x in xs[1..] ==> x in xs;
      FilterAlike(xs[1..], p, q);
    }
  }

  /** With the rules that the project ships, over a tree none of whose directories is named by a rule alone. */
  lemma ProjectWalkAgreesWithReport(tree: Tree, found: seq<Found>, listing: seq<Found>)
    requires tree.Directory? && Lists(listing, tree)
    requires WalkResult(Authority(ProjectRules(), {}), tree, [], found)
    requires forall d :: d != [] && LeftOutAlone(Authority(ProjectRules(), {}), d) ==>
      Look(tree, d).None? || !Look(tree, d).value.Directory?
    ensures found == Report(ProjectRules(), listing) <==> forall f :: !ReadsAway(ProjectRules(), listing, f)
    ensures (forall f :: f in listing ==> Plain(f.path)) ==> found == Report(ProjectRules(), listing)
  {
    ProjectRulesAreWellFormed();
    hide ProjectRules, WellFormed, WalkResult, Lists, Look, LeftOutAlone, Report, LostBelow;
    GuardSuffices(Authority(ProjectRules(), {}), tree);
    WalkAgreesWithReport(ProjectRules(), tree, found, listing);
    hide ReadsExcluded, PythonIncludes;
    forall f | ReadsAway(ProjectRules(), listing, f) ensures !Plain(f.path) {
      PlainIsNotReadAway(ProjectRules(), f.path);
    }
  }

  lemma PlainIsNotReadAway(rules: Rules, path: Path)
    requires WellFormed(rules) && path != [] && PythonIncludes(rules, path) && ReadsExcluded(rules, path)
    ensures !Plain(path)
  {
    if Plain(path) {
      PlainReads(rules, path);
    }
    hide ReadsExcluded;
  }

  /** A directory with the name of an archive: its files are source to the filter, and the walk never sees them. */
  lemma PruningLosesFiles()
    ensures var rules := Rules({}, {}, {}, {"zip"});
      var tree := Directory(map["x.zip" := Directory(map["a" := File([])])]);
      LostBelow(Authority(rules, {}), tree, ["x.zip"], Found(["x.zip", "a"], []))
  {
    var rules := Rules({}, {}, {}, {"zip"});
    var tree := Directory(map["x.zip" := Directory(map["a" := File([])])]);
    assert ["x.zip", "a"][1..] == ["a"] && ["a"][1..] == [];
    assert Look(tree, ["x.zip", "a"]) == Some(File([])) by {
      assert Look(tree.children["x.zip"], ["a"]) == Some(File([]));
    }
    LastDotAt("x.zip", 1);
    assert "x.zip"[2..] == "zip";
    assert LastDot("a") == -1;
    assert "a" != ".env";
  }

  lemma {:induction false} LastDotAt(name: string, k: nat)
    requires k < |name| && name[k] == '.' && forall j :: k < j < |name| ==> name[j] != '.'
    ensures LastDot(name) == k
  {
  }

  // ---------- Entries ----------

  /** The components of a path written as text. */
  function Components(text: string): Path {
    if text == "" then []
    else
      var cut := FirstSlash(text);
      (if cut == 0 then [] else [text[..cut]]) + (if cut < |text| then Components(text[cut + 1..]) else [])
  }

  function FirstSlash(text: string): (cut: nat)
    ensures cut <= |text| && (cut < |text| ==> text[cut] == '/') && forall k :: 0 <= k < cut ==> text[k] != '/'
  {
    if text == "" || text[0] == '/' then 0 else 1 + FirstSlash(text[1..])
  }

  lemma FirstSlashAt(a: string, rest: string)
    requires '/' !in a
    ensures FirstSlash(a) == |a| && FirstSlash(a + "/" + rest) == |a|
  {
    var text := a + "/" + rest;
    assert text[|a|] == '/' && forall k :: 0 <= k < |a| ==> text[k] == a[k];
  }

  /** Reading the text of a path gives the path back. */
  lemma {:induction false} ComponentsOfRender(path: Path)
    requires NoSlash(path)
    ensures Components(Render(path)) == path
  {
    if path != [] {
      var first := path[0];
      assert first in path && forall c :: c in path[1..] ==> c in path;
      ComponentsOfRender(path[1..]);
      FirstSlashAt(first, Render(path[1..]));
      if |path| == 1 {
        assert first[..|first|] == first;
      } else {
        var text := first + "/" + Render(path[1..]);
        assert text[..|first|] == first && text[|first| + 1..] == Render(path[1..]);
      }
    }
  }

  /** An entry as the digest sees it; its checksum and its size are functions of the bytes. */
  datatype SourceEntry = SourceEntry(path: string, bytes: Disks.Bytes)

  function EntryOf(f: Found): SourceEntry {
    SourceEntry(Slashed(Render(f.path)), f.bytes)
  }

  function Entries(found: seq<Found>): (r: seq<SourceEntry>)
    ensures |r| == |found| && forall i :: 0 <= i < |r| ==> r[i] == EntryOf(found[i])
  {
    seq(|found|, i requires 0 <= i < |found| => EntryOf(found[i]))
  }

  /** The entries of `build_report`, which writes a path as it is. */
  function ReportEntries(found: seq<Found>): (r: seq<SourceEntry>)
    ensures |r| == |found| && forall i :: 0 <= i < |r| ==> r[i] == SourceEntry(Render(found[i].path), found[i].bytes)
  {
    seq(|found|, i requires 0 <= i < |found| => SourceEntry(Render(found[i].path), found[i].bytes))
  }

  /** Of the same files the two tools write the same entries exactly if every path is plain. */
  lemma EntriesAgree(found: seq<Found>)
    requires forall f :: f in found ==> NoSlash(f.path)
    ensures Entries(found) == ReportEntries(found) <==> forall f :: f in found ==> Plain(f.path)
  {
    forall f | f in found ensures Slashed(Render(f.path)) == Render(f.path) <==> Plain(f.path) {
      if Plain(f.path) {
        RenderPlain(f.path);
        SlashedPlain(Render(f.path));
      } else if Slashed(Render(f.path)) == Render(f.path) {
        SlashedSame(Render(f.path));
        PlainRender(f.path);
      }
    }
    hide Plain, Slashed, Render, NoSlash;
    if Entries(found) == ReportEntries(found) {
      forall f | f in found ensures Plain(f.path) {
        var i :| 0 <= i < |found| && found[i] == f;
        assert Entries(found)[i] == ReportEntries(found)[i];
      }
    }
  }

  lemma SlashedSame(text: string)
    requires Slashed(text) == text
    ensures '\\' !in text
  {
    forall k | 0 <= k < |text| ensures text[k] != '\\' {
      assert Slashed(text)[k] == text[k];
    }
  }

  predicate EntryLeq(x: SourceEntry, y: SourceEntry) {
    PathLeq(Components(x.path), Components(y.path))
  }

  lemma {:induction false} SortSortedIsSame<T>(xs: seq<T>, le: (T, T) -> bool)
    requires SortedBy(xs, le)
    ensures Sort(xs, le) == xs
  {
    if xs != [] {
      SortSortedIsSame(xs[1..], le);
      assert xs == [xs[0]] + xs[1..];
      assert |xs| > 1 ==> le(xs[0], xs[1]);
    }
  }

  lemma EntryOfPlain(f: Found)
    requires Plain(f.path)
    ensures EntryOf(f).path == Render(f.path) && Components(EntryOf(f).path) == f.path
  {
    RenderPlain(f.path);
    SlashedPlain(Render(f.path));
    ComponentsOfRender(f.path);
  }

  datatype EntriesError = InvalidExclusion | GaveUp(error: WalkError)

  /** All that the digest of the source is taken of; nothing if the walk gives up. */
  function CurrentEntries(rules: Rules, tree: Tree, extra: set<Path>): Option<seq<SourceEntry>> {
    if !tree.Directory? || exists p :: p in extra && !ValidRelative(p) then None
    else
      match Walk(Authority(rules, extra), tree, [])
      case None => None
      case Some(found) => Some(Sort(Entries(found), EntryLeq))
  }

  /** `current_source_entries`. The final sort finds the entries of plain paths sorted already. */
  method CurrentSourceEntries(rules: Rules, tree: Tree, extra: set<Path>)
    returns (entries: seq<SourceEntry>, error: Option<EntriesError>, ghost found: seq<Found>)
    requires tree.Directory?
    ensures CurrentEntries(rules, tree, extra) == if error.None? then Some(entries) else None
    ensures error == Some(InvalidExclusion) <==> exists p :: p in extra && !ValidRelative(p)
    ensures error.None? ==> WalkResult(Authority(rules, extra), tree, [], found)
    ensures error.None? && (forall f :: f in found ==> Plain(f.path)) ==> entries == Entries(found)
    ensures error.Some? && error.value.GaveUp? ==>
      Refused(Authority(rules, extra), tree, [], error.value.error.path)
  {
    if exists p :: p in extra && !ValidRelative(p) {
      return [], Some(InvalidExclusion), [];
    }
    var files, failed := CollectDirectory(Authority(rules, extra), tree, []);
    if failed.Some? {
      return [], Some(GaveUp(failed.value)), [];
    }
    found := files;
    entries := Sort(Entries(files), EntryLeq);
    error := None;
    if forall f :: f in found ==> Plain(f.path) {
      SortChangesNothing(found);
    }
  }

  lemma SortChangesNothing(found: seq<Found>)
    requires Increasing(found, FoundLeq) && forall f :: f in found ==> Plain(f.path)
    ensures Sort(Entries(found), EntryLeq) == Entries(found)
  {
    forall i, j | 0 <= i < j < |found| ensures EntryLeq(Entries(found)[i], Entries(found)[j]) {
      EntryOfPlain(found[i]);
      EntryOfPlain(found[j]);
    }
    SortSortedIsSame(Entries(found), EntryLeq);
  }

  /** Entries of plain paths tell the files apart: what the digest sees determines what the walk found. */
  lemma EntriesDetermineFiles(xs: seq<Found>, ys: seq<Found>)
    requires forall f :: f in xs || f in ys ==> Plain(f.path)
    requires Entries(xs) == Entries(ys)
    ensures xs == ys
  {
    assert |xs| == |Entries(xs)| == |ys|;
    forall i | 0 <= i < |xs| ensures xs[i] == ys[i] {
      assert EntryOf(xs[i]) == Entries(xs)[i] == Entries(ys)[i] == EntryOf(ys[i]);
      EntryOfPlain(xs[i]);
      EntryOfPlain(ys[i]);
    }
  }
}
