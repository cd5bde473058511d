/** The graph walks of the static validator (scripts/validate_static.py, `_check_cycles` and
    `feature_closure_tokens`). */
module Graphs {

  type Graph = map<string, seq<string>>

  /** A node that is no key has no edges. */
  function Next(graph: Graph, node: string): seq<string> {
    if node in graph then graph[node] else []
  }

  ghost predicate IsWalk(graph: Graph, p: seq<string>) {
    p != [] && forall k :: 0 <= k < |p| - 1 ==> p[k + 1] in Next(graph, p[k])
  }

  /** A walk of at least one edge that comes back to where it began. */
  ghost predicate IsCycle(graph: Graph, p: seq<string>) {
    IsWalk(graph, p) && |p| > 1 && p[0] == p[|p| - 1]
  }

  ghost predicate HasCycle(graph: Graph) {
    exists p :: IsCycle(graph, p)
  }

  ghost predicate OnCycle(graph: Graph, node: string) {
    exists p :: IsCycle(graph, p) && node in p
  }

  /** Every node that the graph mentions. */
  ghost function Nodes(graph: Graph): set<string> {
    graph.Keys + set u, v | u in graph && v in graph[u] :: v
  }

  lemma NextIsNode(graph: Graph, u: string, v: string)
    requires v in Next(graph, u)
    ensures v in Nodes(graph)
  {
  }

  ghost function Elements(path: seq<string>): set<string> {
    set u | u in path
  }

  // ---------- Cycles ----------

  /** Every node comes after the nodes that it leads to. */
  ghost predicate Finished(graph: Graph, order: seq<string>) {
    forall i, v :: 0 <= i < |order| && v in Next(graph, order[i]) ==> v in order[..i]
  }

  /** A step along a cycle goes back in such an order. */
  lemma {:induction false} WalkGoesBack(graph: Graph, order: seq<string>, p: seq<string>, k: nat)
    returns (i: nat, j: nat)
    requires Finished(graph, order) && IsWalk(graph, p) && k < |p| && p[0] in order
    ensures i < |order| && order[i] == p[0] && j < |order| && order[j] == p[k]
    ensures j <= i && (k > 0 ==> j < i)
  {
    i := FirstIndex(order, p[0]);
    j := i;
    var n := 0;
    while n < k
      invariant n <= k && j <= i < |order| && order[i] == p[0] && order[j] == p[n]
      invariant n > 0 ==> j < i
    {
      assert p[n + 1] in order[..j];
      var m :| 0 <= m < j && order[..j][m] == p[n + 1];
      j, n := m, n + 1;
    }
  }

  lemma FirstIndex(order: seq<string>, x: string) returns (i: nat)
    requires x in order
    ensures i < |order| && order[i] == x && x !in order[..i]
  {
    i := 0;
    while order[i] != x
      invariant i < |order| && x !in order[..i] && x in order[i..]
      decreases |order| - i
    {
      assert order[i + 1..] == order[i..][1..];
      i := i + 1;
    }
  }

  /** A graph whose nodes can be ordered like this has no cycle. */
  lemma {:induction false} FinishedHasNoCycle(graph: Graph, order: seq<string>)
    requires Finished(graph, order) && graph.Keys <= Elements(order)
    ensures !HasCycle(graph)
  {
    forall p ensures !IsCycle(graph, p) {
      if IsCycle(graph, p) {
        assert p[1] in Next(graph, p[0]);
        CycleDescends(graph, order, p, |order|);
      }
    }
  }

  /** Going round a cycle once leads to an earlier place of its first node, over and over. */
  lemma {:induction false} CycleDescends(graph: Graph, order: seq<string>, p: seq<string>, n: nat)
    requires Finished(graph, order) && n <= |order| && p != [] && p[0] in order[..n]
    ensures !IsCycle(graph, p)
    decreases n
  {
    if IsCycle(graph, p) {
      var prefix := order[..n];
      assert Finished(graph, prefix) by {
        forall i, v | 0 <= i < |prefix| && v in Next(graph, prefix[i]) ensures v in prefix[..i] {
          assert prefix[..i] == order[..i] && prefix[i] == order[i];
        }
      }
      var i, j := WalkGoesBack(graph, prefix, p, |p| - 1);
      assert order[..i][j] == p[0];
      CycleDescends(graph, order, p, i);
    }
  }

  ghost predicate Colours(graph: Graph, visiting: set<string>, visited: set<string>) {
    visiting + visited <= Nodes(graph) && visiting !! visited
  }

  lemma Entered(graph: Graph, visiting: set<string>, visited: set<string>, node: string)
    requires Colours(graph, visiting, visited) && node in Nodes(graph) && node !in visiting && node !in visited
    ensures Colours(graph, visiting + {node}, visited)
    ensures |Nodes(graph) - (visiting + {node}) - visited| < |Nodes(graph) - visiting - visited|
  {
    OneFewer(Nodes(graph), visiting, visited, node);
  }

  lemma Left(graph: Graph, visiting: set<string>, visited: set<string>, node: string)
    requires Colours(graph, visiting + {node}, visited) && node !in visiting
    ensures (visiting + {node}) - {node} == visiting && Colours(graph, visiting, visited + {node})
    ensures visited <= visited + {node}
  {
  }

  lemma Unseen(graph: Graph, visiting: set<string>, visited: set<string>, visited': set<string>)
    requires visited <= visited'
    ensures |Nodes(graph) - visiting - visited'| <= |Nodes(graph) - visiting - visited|
  {
    NoLarger(Nodes(graph) - visiting - visited', Nodes(graph) - visiting - visited);
  }

  ghost predicate IsStack(graph: Graph, visiting: set<string>, path: seq<string>) {
    visiting == Elements(path) && (path != [] ==> IsWalk(graph, path))
  }

  ghost predicate AllOnCycles(graph: Graph, errors: seq<string>) {
    forall e :: e in errors ==> OnCycle(graph, e)
  }

  ghost predicate AreFinished(graph: Graph, visited: set<string>, order: seq<string>) {
    visited == Elements(order) && Finished(graph, order)
  }

  lemma Pushed(graph: Graph, visiting: set<string>, path: seq<string>, node: string)
    requires IsStack(graph, visiting, path) && (path != [] ==> node in Next(graph, path[|path| - 1]))
    ensures IsStack(graph, visiting + {node}, path + [node])
  {
  }

  lemma OneMoreFinished(graph: Graph, visited: set<string>, order: seq<string>, node: string)
    requires AreFinished(graph, visited, order)
    requires forall i :: 0 <= i < |Next(graph, node)| ==> Next(graph, node)[i] in visited
    ensures AreFinished(graph, visited + {node}, order + [node])
  {
    FinishedFurther(graph, order, node);
  }

  lemma OneMoreError(graph: Graph, visiting: set<string>, path: seq<string>, errors: seq<string>, node: string)
    requires IsStack(graph, visiting, path) && AllOnCycles(graph, errors) && node in visiting
    requires path != [] ==> node in Next(graph, path[|path| - 1])
    ensures AllOnCycles(graph, errors + [node])
  {
    assert node in path;
    CycleFound(graph, path, node);
  }

  /** `_check_cycles` with the sets that its inner function `visit` updates. */
  class CycleChecker {
    const graph: Graph
    var visiting: set<string>
    var visited: set<string>
    var errors: seq<string>            // the nodes that the findings name
    ghost var path: seq<string>        // the nodes being visited, the outermost first
    ghost var order: seq<string>       // the visited nodes, as long as no error was found

    constructor (graph: Graph)
      ensures Valid() && this.graph == graph && path == [] && errors == []
    {
      this.graph := graph;
      visiting, visited, errors, path, order := {}, {}, [], [], [];
    }

    ghost predicate Valid()
      reads this
    {
      && Colours(graph, visiting, visited)
      && IsStack(graph, visiting, path)
      && AllOnCycles(graph, errors)
      && (errors == [] ==> AreFinished(graph, visited, order))
    }

    /** The start of `visit`, for a node that was not seen before. */
    method Enter(node: string)
      requires Valid() && node in Nodes(graph) && node !in visiting && node !in visited
      requires path != [] ==> node in Next(graph, path[|path| - 1])
      modifies this
      ensures Valid() && visiting == old(visiting) + {node} && path == old(path) + [node]
      ensures visited == old(visited) && errors == old(errors)
      ensures |Nodes(graph) - visiting - visited| < old(|Nodes(graph) - visiting - visited|)
    {
      hide Colours, IsStack, AllOnCycles, AreFinished, Nodes, Elements, Next;
      Pushed(graph, visiting, path, node);
      Entered(graph, visiting, visited, node);
      path := path + [node];
      visiting := visiting + {node};
    }

    /** The end of `visit`, when all that the node leads to was visited. */
    method Leave(node: string, ghost grey: set<string>, ghost before: seq<string>)
      requires Valid() && visiting == grey + {node} && node !in grey && IsStack(graph, grey, before)
      requires errors == [] ==> forall i :: 0 <= i < |Next(graph, node)| ==> Next(graph, node)[i] in visited
      modifies this
      ensures Valid() && visiting == grey && path == before
      ensures visited == old(visited) + {node} && errors == old(errors)
    {
      hide Colours, IsStack, AllOnCycles, AreFinished, Nodes, Elements;
      if errors == [] {
        OneMoreFinished(graph, visited, order, node);
        order := order + [node];
      }
      Left(graph, grey, visited, node);
      visiting := visiting - {node};
      visited := visited + {node};
      path := before;
    }

    /** The inner function `visit`. */
    method Visit(node: string)
      requires Valid() && node in Nodes(graph)
      requires path != [] ==> node in Next(graph, path[|path| - 1])
      modifies this
      ensures Valid() && visiting == old(visiting) && path == old(path)
      ensures old(visited) <= visited && old(errors) <= errors
      ensures errors == [] ==> node in visited
      decreases |Nodes(graph) - visiting - visited|
    {
      hide Colours, IsStack, AllOnCycles, AreFinished, Nodes, Elements, Next;
      if node in visiting {
        OneMoreError(graph, visiting, path, errors, node);
        errors := errors + [node];
        return;
      }
      if node in visited {
        return;
      }
      ghost var grey, done, before := visiting, visited, path;
      Enter(node);
      var next := Next(graph, node);
      var k := 0;
      while k < |next|
        invariant 0 <= k <= |next|
        invariant Valid() && visiting == grey + {node} && path == before + [node]
        invariant done <= visited && old(errors) <= errors
        invariant errors == [] ==> forall i :: 0 <= i < k ==> next[i] in visited
      {
        NextIsNode(graph, node, next[k]);
        Unseen(graph, visiting, done, visited);
        Visit(next[k]);
        k := k + 1;
      }
      Leave(node, grey, before);
    }

    /** `_check_cycles`: an error is recorded exactly if the graph has a cycle, every error names a node on one, and
        nothing is left being visited. */
    method Check()
      requires Valid() && path == [] && errors == []
      modifies this
      ensures Valid() && visiting == {}
      ensures errors != [] <==> HasCycle(graph)
      ensures forall e :: e in errors ==> OnCycle(graph, e)
    {
      var left := graph.Keys;
      while left != {}
        invariant left <= graph.Keys && Valid() && path == []
        invariant errors == [] ==> graph.Keys - left <= visited
        decreases left
      {
        var node :| node in left;
        Visit(node);
        left := left - {node};
      }
      if errors == [] {
        assert graph.Keys <= Elements(order);
        FinishedHasNoCycle(graph, order);
      } else {
        assert OnCycle(graph, errors[0]);
      }
      assert visiting == {};
    }
  }

  lemma NoLarger(a: set<string>, b: set<string>)
    requires a <= b
    ensures |a| <= |b|
  {
    assert b == a + (b - a);
  }

  lemma OneFewer(all: set<string>, visiting: set<string>, visited: set<string>, node: string)
    requires node in all && node !in visiting && node !in visited
    ensures |all - (visiting + {node}) - visited| < |all - visiting - visited|
  {
    assert all - visiting - visited == (all - (visiting + {node}) - visited) + {node};
  }

  lemma CycleFound(graph: Graph, path: seq<string>, node: string)
    requires path != [] && IsWalk(graph, path) && node in path && node in Next(graph, path[|path| - 1])
    ensures OnCycle(graph, node)
  {
    var i :| 0 <= i < |path| && path[i] == node;
    var p := path[i..] + [node];
    forall k | 0 <= k < |p| - 1 ensures p[k + 1] in Next(graph, p[k]) {
      assert p[k] == path[i + k];
      if k + 1 < |path| - i {
        assert p[k + 1] == path[i + k + 1];
      }
    }
    assert IsCycle(graph, p) && node in p;
  }

  lemma FinishedFurther(graph: Graph, order: seq<string>, node: string)
    requires Finished(graph, order) && forall v :: v in Next(graph, node) ==> v in order
    ensures Finished(graph, order + [node])
  {
    var longer := order + [node];
    forall i, v | 0 <= i < |longer| && v in Next(graph, longer[i]) ensures v in longer[..i] {
      assert longer[..i] == order[..i];
      assert order[..|order|] == order;
    }
  }

  // ---------- Closures ----------

  /** With a node, `s` has all that it leads to. */
  ghost predicate Closed(graph: Graph, s: set<string>) {
    forall u, v :: u in s && v in Next(graph, u) ==> v in s
  }

  ghost predicate Covers(s: set<string>, roots: seq<string>) {
    forall r :: r in roots ==> r in s
  }

  /** `s` is the least closed set with all roots. */
  ghost predicate IsClosure(graph: Graph, roots: seq<string>, s: set<string>) {
    && Closed(graph, s) && Covers(s, roots)
    && forall other: set<string> :: Closed(graph, other) && Covers(other, roots) ==> s <= other
  }

  /** A walk leads from a root to `node`. */
  ghost predicate Reachable(graph: Graph, roots: seq<string>, node: string) {
    exists p :: IsWalk(graph, p) && p[0] in roots && p[|p| - 1] == node
  }

  lemma {:induction false} ClosedUnderWalks(graph: Graph, s: set<string>, p: seq<string>)
    requires Closed(graph, s) && IsWalk(graph, p) && p[0] in s
    ensures p[|p| - 1] in s
    decreases |p|
  {
    if |p| > 1 {
      assert IsWalk(graph, p[1..]) by {
        forall k | 0 <= k < |p[1..]| - 1 ensures p[1..][k + 1] in Next(graph, p[1..][k]) {
          assert p[1..][k + 1] == p[k + 2] && p[1..][k] == p[k + 1];
        }
      }
      assert p[0 + 1] in Next(graph, p[0]);
      ClosedUnderWalks(graph, s, p[1..]);
    }
  }

  lemma WalkFurther(graph: Graph, roots: seq<string>, u: string, v: string)
    requires Reachable(graph, roots, u) && v in Next(graph, u)
    ensures Reachable(graph, roots, v)
  {
    var p :| IsWalk(graph, p) && p[0] in roots && p[|p| - 1] == u;
    var q := p + [v];
    forall k | 0 <= k < |q| - 1 ensures q[k + 1] in Next(graph, q[k]) {
      if k + 1 < |p| {
        assert q[k + 1] == p[k + 1] && q[k] == p[k];
      }
    }
    assert IsWalk(graph, q) && q[0] in roots && q[|q| - 1] == v;
  }

  /** The closure is exactly what can be reached. */
  lemma ClosureIsReachable(graph: Graph, roots: seq<string>, s: set<string>)
    requires IsClosure(graph, roots, s)
    ensures forall node :: node in s <==> Reachable(graph, roots, node)
  {
    var reached := set node | node in s && Reachable(graph, roots, node);
    forall u, v | u in reached && v in Next(graph, u) ensures v in reached {
      WalkFurther(graph, roots, u, v);
    }
    forall r | r in roots ensures r in reached {
      assert IsWalk(graph, [r]) && [r][0] in roots && [r][|[r]| - 1] == r;
    }
    assert Closed(graph, reached) && Covers(reached, roots);
    forall node | Reachable(graph, roots, node) ensures node in s {
      var p :| IsWalk(graph, p) && p[0] in roots && p[|p| - 1] == node;
      ClosedUnderWalks(graph, s, p);
    }
  }

  /** The closure of a closure, in any listing, is that closure. */
  lemma ClosureIsIdempotent(graph: Graph, roots: seq<string>, s: set<string>, listing: seq<string>, t: set<string>)
    requires IsClosure(graph, roots, s) && (forall u :: u in listing <==> u in s) && IsClosure(graph, listing, t)
    ensures t == s
  {
    assert Covers(s, listing);
  }

  /** The closure of two lists of roots together is the union of their closures. */
  lemma ClosureDistributes(graph: Graph, a: seq<string>, b: seq<string>, s: set<string>, t: set<string>)
    requires IsClosure(graph, a, s) && IsClosure(graph, b, t)
    ensures IsClosure(graph, a + b, s + t)
  {
    forall other: set<string> | Closed(graph, other) && Covers(other, a + b) ensures s + t <= other {
      assert Covers(other, a) && Covers(other, b);
    }
  }

  /** Every token that is done leads to seen ones only; the `pending` ones are being visited. */
  ghost predicate Settled(graph: Graph, seen: set<string>, pending: set<string>) {
    pending <= seen && forall u, v :: u in seen && u !in pending && v in Next(graph, u) ==> v in seen
  }

  /** Whatever is closed and holds `from` holds `seen`. */
  ghost predicate Forced(graph: Graph, from: set<string>, seen: set<string>) {
    forall other: set<string> :: Closed(graph, other) && from <= other ==> seen <= other
  }

  lemma Opening(graph: Graph, seen: set<string>, pending: set<string>, token: string)
    requires Settled(graph, seen, pending)
    ensures Settled(graph, seen + {token}, pending + {token}) && Forced(graph, seen + {token}, seen + {token})
  {
  }

  lemma Closing(graph: Graph, seen: set<string>, pending: set<string>, token: string)
    requires Settled(graph, seen, pending + {token})
    requires Covers(seen, Next(graph, token))
    ensures Settled(graph, seen, pending)
  {
  }

  lemma CoversFurther(now: set<string>, seen: set<string>, children: seq<string>, k: nat)
    requires k < |children| && Covers(now, children[..k]) && now <= seen && children[k] in seen
    ensures Covers(seen, children[..k + 1])
  {
  }

  lemma ForcedFurther(graph: Graph, from: set<string>, token: string, seen: set<string>, child: string,
                      seen': set<string>)
    requires token in from && Forced(graph, from, seen) && child in Next(graph, token)
    requires Forced(graph, seen + {child}, seen')
    ensures Forced(graph, from, seen')
  {
    forall other: set<string> | Closed(graph, other) && from <= other ensures seen' <= other {
      assert child in other && seen + {child} <= other;
    }
  }

  /** `feature_closure_tokens` with the set that its inner function `visit` updates. */
  class FeatureClosure {
    const features: Graph
    var seen: set<string>

    constructor (features: Graph)
      ensures this.features == features && seen == {}
    {
      this.features, seen := features, {};
    }

    /** The inner function `visit`. */
    method Visit(token: string, ghost pending: set<string>, ghost bound: set<string>)
      requires Settled(features, seen, pending) && token in bound && seen <= bound && Closed(features, bound)
      modifies this
      ensures Settled(features, seen, pending) && token in seen && old(seen) <= seen <= bound
      ensures Forced(features, old(seen) + {token}, seen)
      decreases |bound - seen|
    {
      if token in seen {
        return;
      }
      ghost var from := seen + {token};
      Fewer(bound, seen, token);
      Opening(features, seen, pending, token);
      seen := seen + {token};
      var children := Next(features, token);
      assert forall child :: child in children ==> child in bound;
      assert Covers(seen, children[..0]);
      hide Settled, Forced, Closed, Next, Covers;
      var k := 0;
      while k < |children|
        invariant 0 <= k <= |children|
        invariant Settled(features, seen, pending + {token}) && from <= seen <= bound
        invariant Covers(seen, children[..k])
        invariant Forced(features, from, seen)
      {
        NoLarger(bound - seen, bound - from);
        ghost var now := seen;
        Visit(children[k], pending + {token}, bound);
        CoversFurther(now, seen, children, k);
        ForcedFurther(features, from, token, now, children[k], seen);
        k := k + 1;
      }
      assert children[..k] == children;
      Closing(features, seen, pending, token);
    }
  }

  lemma Fewer(bound: set<string>, seen: set<string>, token: string)
    requires token in bound && token !in seen
    ensures |bound - (seen + {token})| < |bound - seen|
  {
    assert bound - seen == (bound - (seen + {token})) + {token};
  }

  /** All tokens there are. */
  lemma BoundIsClosed(graph: Graph, roots: seq<string>)
    ensures Closed(graph, Nodes(graph) + Elements(roots))
  {
  }

  /** `feature_closure_tokens`: the least closed set with all roots. */
  method FeatureClosureTokens(features: Graph, roots: seq<string>) returns (seen: set<string>)
    ensures IsClosure(features, roots, seen)
  {
    var closure := new FeatureClosure(features);
    ghost var bound := Nodes(features) + Elements(roots);
    BoundIsClosed(features, roots);
    var k := 0;
    while k < |roots|
      invariant 0 <= k <= |roots| && closure.features == features
      invariant Settled(features, closure.seen, {}) && closure.seen <= bound && Covers(closure.seen, roots[..k])
      invariant forall other: set<string> :: Closed(features, other) && Covers(other, roots) ==> closure.seen <= other
    {
      assert roots[k] in roots && roots[k] in Elements(roots);
      ghost var now := closure.seen;
      closure.Visit(roots[k], {}, bound);
      forall other: set<string> | Closed(features, other) && Covers(other, roots) ensures closure.seen <= other {
        assert now + {roots[k]} <= other;
      }
      k := k + 1;
    }
    assert roots[..k] == roots;
    seen := closure.seen;
  }
}
