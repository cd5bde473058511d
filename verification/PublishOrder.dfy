/** The order in which the workspace packages are published (scripts/validate_publish.py,
    `validate_publish_order`) and the selection of scripts/release/publish.py. */
module PublishOrder {
  import opened Options
  import Graphs

  /** A dependency may be given under another name than its package's. */
  datatype Spec = Version(version: string) | Table(package: Option<string>)

  /** `sections` are the dependency tables: `dependencies` and `build-dependencies`. */
  datatype Package = Package(publish: bool, sections: seq<map<string, Spec>>)

  type Workspace = map<string, Package>

  datatype Finding =
    | Duplicates                                          // PUBLISH-040
    | Mismatch(missing: set<string>, extra: set<string>)   // PUBLISH-041
    | TooEarly(package: string, dependency: string)        // PUBLISH-042

  function Publishable(w: Workspace): set<string> {
    set name | name in w && w[name].publish
  }

  function Actual(name: string, spec: Spec): string {
    if spec.Table? then spec.package.GetOr(name) else name
  }

  /** `name` asks for `dependency`, and both are published. */
  ghost predicate DependsOn(w: Workspace, name: string, dependency: string) {
    && name in Publishable(w) && dependency in Publishable(w)
    && exists k, key :: 0 <= k < |w[name].sections| && key in w[name].sections[k] &&
         Actual(key, w[name].sections[k][key]) == dependency
  }

  /** What the tables of one section name. */
  ghost predicate Names(section: map<string, Spec>, dependency: string) {
    exists key :: key in section && Actual(key, section[key]) == dependency
  }

  /** `internal_dependencies`. */
  method InternalDependencies(w: Workspace, name: string) returns (dependencies: set<string>)
    requires name in w
    ensures forall d :: d in dependencies <==> DependsOn(w, name, d)
  {
    dependencies := {};
    if !w[name].publish {
      return;
    }
    var publishable, sections := Publishable(w), w[name].sections;
    var k := 0;
    while k < |sections|
      invariant 0 <= k <= |sections|
      invariant forall d :: d in dependencies <==> d in publishable && exists j :: 0 <= j < k && Names(sections[j], d)
    {
      var section, before := sections[k], dependencies;
      var left := section.Keys;
      while left != {}
        invariant left <= section.Keys
        invariant forall d :: d in dependencies <==>
          d in before ||
            (d in publishable && exists key :: key in section.Keys - left && Actual(key, section[key]) == d)
        decreases left
      {
        var key :| key in left;
        var actual := Actual(key, section[key]);
        if actual in publishable {
          dependencies := dependencies + {actual};
        }
        left := left - {key};
      }
      forall d ensures d in dependencies <==> d in publishable && exists j :: 0 <= j < k + 1 && Names(sections[j], d) {
        assert d in dependencies <==> d in before || (d in publishable && Names(section, d));
      }
      k := k + 1;
    }
    forall d ensures d in dependencies <==> DependsOn(w, name, d) {
      if d in dependencies {
        var j :| 0 <= j < |sections| && Names(sections[j], d);
        var key :| key in sections[j] && Actual(key, sections[j][key]) == d;
      }
      if DependsOn(w, name, d) {
        var j, key :| 0 <= j < |sections| && key in sections[j] && Actual(key, sections[j][key]) == d;
        assert Names(sections[j], d);
      }
    }
  }

  // ---------- Good orders ----------

  ghost predicate NoDuplicates(order: seq<string>) {
    forall i, j :: 0 <= i < j < |order| ==> order[i] != order[j]
  }

  ghost predicate Before(order: seq<string>, a: string, b: string) {
    exists i, j :: 0 <= i < j < |order| && order[i] == a && order[j] == b
  }

  /** A duplicate-free listing of the published packages, each behind its internal dependencies. */
  ghost predicate GoodOrder(w: Workspace, order: seq<string>) {
    && NoDuplicates(order)
    && (forall name :: name in order <==> name in Publishable(w))
    && (forall name, d :: DependsOn(w, name, d) ==> Before(order, d, name))
  }

  /** The index of the last occurrence, as the dictionary comprehension leaves it. */
  function Position(order: seq<string>, name: string): (i: nat)
    requires name in order
    ensures i < |order| && order[i] == name && name !in order[i + 1..]
  {
    if order[|order| - 1] == name then |order| - 1
    else
      var prefix := order[..|order| - 1];
      assert order == prefix + [order[|order| - 1]];
      var i := Position(prefix, name);
      assert order[i + 1..] == prefix[i + 1..] + [order[|order| - 1]];
      i
  }

  lemma PositionUnique(order: seq<string>, i: nat)
    requires NoDuplicates(order) && i < |order|
    ensures Position(order, order[i]) == i
  {
  }

  ghost function Elements(order: seq<string>): set<string> {
    set name | name in order
  }

  lemma {:induction false} SizeOfElements(order: seq<string>)
    ensures |Elements(order)| <= |order|
    ensures |Elements(order)| == |order| <==> NoDuplicates(order)
  {
    if order != [] {
      var last := |order| - 1;
      var prefix := order[..last];
      SizeOfElements(prefix);
      assert order == prefix + [order[last]];
      assert Elements(order) == Elements(prefix) + {order[last]};
      if order[last] in prefix {
        assert Elements(order) == Elements(prefix);
        var i :| 0 <= i < last && prefix[i] == order[last];
        assert order[i] == order[last];
      } else if NoDuplicates(prefix) {
        forall i, j | 0 <= i < j < |order| ensures order[i] != order[j] {
          assert prefix[i] == order[i];
          if j < last { assert prefix[j] == order[j]; }
        }
      } else {
        var i, j :| 0 <= i < j < |prefix| && prefix[i] == prefix[j];
        assert order[i] == order[j];
      }
    }
  }

  lemma BeforeMeansPosition(order: seq<string>, a: string, b: string)
    requires NoDuplicates(order) && a in order && b in order
    ensures Before(order, a, b) <==> Position(order, a) < Position(order, b)
  {
    if Before(order, a, b) {
      var i, j :| 0 <= i < j < |order| && order[i] == a && order[j] == b;
      PositionUnique(order, i);
      PositionUnique(order, j);
    }
  }

  ghost predicate Listed(w: Workspace, order: seq<string>) {
    forall name :: name in order <==> name in Publishable(w)
  }

  /** A dependency that does not stand before its dependent. */
  ghost predicate IsTooEarly(w: Workspace, order: seq<string>, package: string, dependency: string)
    requires Listed(w, order)
  {
    DependsOn(w, package, dependency) && Position(order, dependency) >= Position(order, package)
  }

  /** The findings so far are right, and those for the first `k` packages are all there. */
  ghost predicate FoundSoFar(w: Workspace, order: seq<string>, findings: seq<Finding>, k: nat)
    requires Listed(w, order) && k <= |order|
  {
    && (Duplicates in findings <==> !NoDuplicates(order))
    && (forall f :: f in findings && f.TooEarly? ==> IsTooEarly(w, order, f.package, f.dependency))
    && (forall f :: f in findings ==> !f.Mismatch?)
    && (forall j, d :: 0 <= j < k && IsTooEarly(w, order, order[j], d) ==> TooEarly(order[j], d) in findings)
  }

  /** The inner loop of `validate_publish_order`. */
  method CheckPackage(w: Workspace, order: seq<string>, k: nat, before: seq<Finding>) returns (findings: seq<Finding>)
    requires Listed(w, order) && k < |order| && FoundSoFar(w, order, before, k)
    ensures FoundSoFar(w, order, findings, k + 1)
  {
    var package := order[k];
    assert package in order;
    var dependencies := InternalDependencies(w, package);
    findings := before;
    var left := dependencies;
    while left != {}
      invariant left <= dependencies && FoundSoFar(w, order, findings, k)
      invariant forall d :: d in dependencies - left && IsTooEarly(w, order, package, d) ==>
        TooEarly(package, d) in findings
      decreases left
    {
      var dependency :| dependency in left;
      assert DependsOn(w, package, dependency);
      if Position(order, dependency) >= Position(order, package) {
        findings := findings + [TooEarly(package, dependency)];
      }
      left := left - {dependency};
    }
  }

  lemma AllFound(w: Workspace, order: seq<string>, findings: seq<Finding>)
    requires Listed(w, order) && FoundSoFar(w, order, findings, |order|)
    ensures findings == [] <==> GoodOrder(w, order)
  {
    if findings == [] {
      forall name, d | DependsOn(w, name, d) ensures Before(order, d, name) {
        var j :| 0 <= j < |order| && order[j] == name;
        assert !IsTooEarly(w, order, order[j], d);
        BeforeMeansPosition(order, d, name);
      }
    }
    forall f | f in findings ensures !GoodOrder(w, order) {
      if f.TooEarly? && NoDuplicates(order) {
        assert IsTooEarly(w, order, f.package, f.dependency);
        BeforeMeansPosition(order, f.dependency, f.package);
      }
    }
    if findings != [] {
      assert findings[0] in findings;
    }
  }

  /** `validate_publish_order`: nothing is found exactly if the order is good. */
  method ValidatePublishOrder(w: Workspace, order: seq<string>) returns (findings: seq<Finding>)
    ensures findings == [] <==> GoodOrder(w, order)
    ensures Duplicates in findings <==> !NoDuplicates(order)
    ensures (exists f :: f in findings && f.Mismatch?) <==> !Listed(w, order)
    ensures Listed(w, order) ==>
      forall p, d :: TooEarly(p, d) in findings <==> IsTooEarly(w, order, p, d)
  {
    findings := [];
    var publishable := Publishable(w);
    var listed := set name | name in order;
    SizeOfElements(order);
    if |order| != |listed| {
      findings := [Duplicates];
    }
    if listed != publishable {
      findings := findings + [Mismatch(publishable - listed, listed - publishable)];
      assert findings[|findings| - 1].Mismatch?;
      NotListed(w, order);
      return;
    }
    var k := 0;
    while k < |order|
      invariant 0 <= k <= |order| && FoundSoFar(w, order, findings, k)
    {
      findings := CheckPackage(w, order, k, findings);
      k := k + 1;
    }
    AllFound(w, order, findings);
    forall p, d | IsTooEarly(w, order, p, d) ensures TooEarly(p, d) in findings {
      var j :| 0 <= j < |order| && order[j] == p;
      assert IsTooEarly(w, order, order[j], d);
    }
  }

  lemma NotListed(w: Workspace, order: seq<string>)
    requires (set name | name in order) != Publishable(w)
    ensures !Listed(w, order)
  {
    if Listed(w, order) {
      ListedElements(w, order);
    }
  }

  lemma ListedElements(w: Workspace, order: seq<string>)
    requires Listed(w, order)
    ensures (set name | name in order) == Publishable(w)
  {
  }

  // ---------- What a good order gives ----------

  /** The dependency graph among the published packages. */
  ghost predicate IsDependencyGraph(w: Workspace, graph: Graphs.Graph) {
    forall name, d :: d in Graphs.Next(graph, name) <==> DependsOn(w, name, d)
  }

  /** Packages that can be ordered depend on each other without a cycle. */
  lemma GoodOrderHasNoCycle(w: Workspace, order: seq<string>, graph: Graphs.Graph)
    requires GoodOrder(w, order) && IsDependencyGraph(w, graph)
    ensures !Graphs.HasCycle(graph)
  {
    forall i, v | 0 <= i < |order| && v in Graphs.Next(graph, order[i]) ensures v in order[..i] {
      assert DependsOn(w, order[i], v);
      var j, k :| 0 <= j < k < |order| && order[j] == v && order[k] == order[i];
      assert order[..i][j] == v;
    }
    forall p ensures !Graphs.IsCycle(graph, p) {
      if Graphs.IsCycle(graph, p) {
        assert p[0 + 1] in Graphs.Next(graph, p[0]);
        assert DependsOn(w, p[0], p[1]);
        assert order[..|order|] == order;
        Graphs.CycleDescends(graph, order, p, |order|);
      }
    }
  }

  /** Whatever is published first, its dependencies are published with it. */
  lemma PrefixesAreClosed(w: Workspace, order: seq<string>, n: nat)
    requires GoodOrder(w, order) && n <= |order|
    ensures forall name, d :: name in order[..n] && DependsOn(w, name, d) ==> d in order[..n]
  {
    forall name, d | name in order[..n] && DependsOn(w, name, d) ensures d in order[..n] {
      var k :| 0 <= k < n && order[..n][k] == name;
      var i, j :| 0 <= i < j < |order| && order[i] == d && order[j] == name;
      assert order[k] == order[j];
      assert order[..n][i] == d;
    }
  }

  /** The selection comprehension of `main`. */
  function Select(declared: seq<string>, wanted: seq<string>): (r: seq<string>)
    ensures forall name :: name in r <==> name in declared && name in wanted
  {
    if declared == [] then []
    else (if declared[0] in wanted then [declared[0]] else []) + Select(declared[1..], wanted)
  }

  /** Selecting keeps the order. */
  lemma {:induction false} SelectKeepsOrder(declared: seq<string>, wanted: seq<string>, a: string, b: string)
    requires NoDuplicates(declared) && Before(declared, a, b) && a in wanted && b in wanted
    ensures Before(Select(declared, wanted), a, b) && NoDuplicates(Select(declared, wanted))
  {
    var i, j :| 0 <= i < j < |declared| && declared[i] == a && declared[j] == b;
    var rest := declared[1..];
    SelectHasNoDuplicates(declared, wanted);
    assert rest[j - 1] == b && b in Select(rest, wanted);
    if i == 0 {
      BeforeTheRest(a, Select(rest, wanted), b);
    } else {
      assert rest[i - 1] == a && Before(rest, a, b);
      RestHasNoDuplicates(declared);
      SelectKeepsOrder(rest, wanted, a, b);
      BeforeInFront(declared[0], Select(rest, wanted), a, b);
    }
    hide Before, NoDuplicates;
  }

  lemma BeforeTheRest(a: string, rest: seq<string>, b: string)
    requires b in rest
    ensures Before([a] + rest, a, b)
  {
    var k :| 0 <= k < |rest| && rest[k] == b;
    assert ([a] + rest)[0] == a && ([a] + rest)[k + 1] == b;
  }

  lemma BeforeInFront(x: string, rest: seq<string>, a: string, b: string)
    requires Before(rest, a, b)
    ensures Before([x] + rest, a, b) && Before([] + rest, a, b)
  {
    var i, j :| 0 <= i < j < |rest| && rest[i] == a && rest[j] == b;
    assert ([x] + rest)[i + 1] == a && ([x] + rest)[j + 1] == b;
    assert [] + rest == rest;
  }

  lemma RestHasNoDuplicates(xs: seq<string>)
    requires xs != [] && NoDuplicates(xs)
    ensures NoDuplicates(xs[1..]) && xs[0] !in xs[1..]
  {
    var rest := xs[1..];
    forall x, y | 0 <= x < y < |rest| ensures rest[x] != rest[y] {
      assert rest[x] == xs[x + 1] && rest[y] == xs[y + 1];
    }
    forall x | 0 <= x < |rest| ensures rest[x] != xs[0] {
      assert rest[x] == xs[x + 1];
    }
  }

  lemma {:induction false} SelectHasNoDuplicates(declared: seq<string>, wanted: seq<string>)
    requires NoDuplicates(declared)
    ensures NoDuplicates(Select(declared, wanted))
  {
    if declared != [] {
      RestHasNoDuplicates(declared);
      SelectHasNoDuplicates(declared[1..], wanted);
    }
  }

  /** Nothing twice, and nothing before what `declared` puts before it. */
  ghost predicate InOrderOf(declared: seq<string>, selected: seq<string>) {
    NoDuplicates(selected) &&
    forall a, b :: a in selected && b in selected && Before(declared, a, b) ==> Before(selected, a, b)
  }

  lemma SelectIsInOrder(declared: seq<string>, wanted: seq<string>)
    requires NoDuplicates(declared)
    ensures InOrderOf(declared, Select(declared, wanted))
  {
    hide NoDuplicates, Before;
    SelectHasNoDuplicates(declared, wanted);
    var selected := Select(declared, wanted);
    forall a, b | a in selected && b in selected && Before(declared, a, b) ensures Before(selected, a, b) {
      SelectKeepsOrder(declared, wanted, a, b);
    }
  }

  /** The selection of `main`: nothing unknown, and the wanted packages (all if none is named) in an order in which
      dependencies still come first. */
  method SelectPackages(declared: seq<string>, named: seq<string>)
    returns (selected: Option<seq<string>>)
    ensures selected.None? <==> exists name :: name in named && name !in declared
    ensures selected.Some? ==> selected.value == Select(declared, if named == [] then declared else named)
    // exactly what is wanted, in the declared order, and so behind its dependencies
    ensures selected.Some? ==>
      forall name :: name in selected.value <==> name in declared && (named == [] || name in named)
    ensures selected.Some? && NoDuplicates(declared) ==> InOrderOf(declared, selected.value)
    ensures selected.Some? ==> forall w: Workspace, name, d ::
      GoodOrder(w, declared) && DependsOn(w, name, d) && name in selected.value && d in selected.value ==>
        Before(selected.value, d, name)
  {
    var wanted := if named == [] then declared else named;
    if exists name :: name in wanted && name !in declared {
      return None;
    }
    if NoDuplicates(declared) {
      SelectIsInOrder(declared, wanted);
    }
    forall w: Workspace, name, d |
      GoodOrder(w, declared) && DependsOn(w, name, d) && name in Select(declared, wanted) &&
        d in Select(declared, wanted)
      ensures Before(Select(declared, wanted), d, name)
    {
      SelectionRespectsDependencies(w, declared, wanted, name, d);
    }
    return Some(Select(declared, wanted));
  }

  lemma SelectionRespectsDependencies(w: Workspace, declared: seq<string>, wanted: seq<string>, name: string, d: string)
    requires GoodOrder(w, declared) && DependsOn(w, name, d) && name in wanted && d in wanted
    ensures Before(Select(declared, wanted), d, name)
  {
    SelectKeepsOrder(declared, wanted, d, name);
  }
}
