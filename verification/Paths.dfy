/** Project-relative paths as component lists, and the component-wise order in which the source
    sorts them. */
module Paths {
  import opened Sorting

  type Path = seq<string>

  /** `Component::Normal`. */
  predicate IsNormal(component: string) {
    component != "" && component != "." && component != ".." && '/' !in component
  }

  predicate ValidRelative(path: Path) {
    path != [] && forall c :: c in path ==> IsNormal(c)
  }

  function Parent(path: Path): Path
    requires path != []
  {
    path[..|path| - 1]
  }

  function FileName(path: Path): string
    requires path != []
  {
    path[|path| - 1]
  }

  predicate StartsWith(path: Path, prefix: Path) {
    prefix <= path
  }

  // ---------- Order ----------

  predicate StringLeq(a: string, b: string) {
    a == [] || (b != [] && (a[0] < b[0] || (a[0] == b[0] && StringLeq(a[1..], b[1..]))))
  }

  predicate PathLeq(p: Path, q: Path) {
    p == [] || (q != [] && (if p[0] == q[0] then PathLeq(p[1..], q[1..]) else StringLeq(p[0], q[0])))
  }

  lemma {:induction false} StringOrder(a: string, b: string)
    ensures StringLeq(a, b) || StringLeq(b, a)
    ensures StringLeq(a, b) && StringLeq(b, a) ==> a == b
  {
    if a != [] && b != [] && a[0] == b[0] {
      StringOrder(a[1..], b[1..]);
      assert a == [a[0]] + a[1..] && b == [b[0]] + b[1..];
    }
  }

  lemma {:induction false} StringTransitive(a: string, b: string, c: string)
    requires StringLeq(a, b) && StringLeq(b, c)
    ensures StringLeq(a, c)
  {
    if a != [] && a[0] == b[0] == c[0] {
      StringTransitive(a[1..], b[1..], c[1..]);
    }
  }

  lemma {:induction false} PathOrder(p: Path, q: Path)
    ensures PathLeq(p, q) || PathLeq(q, p)
    ensures PathLeq(p, q) && PathLeq(q, p) ==> p == q
  {
    if p != [] && q != [] {
      StringOrder(p[0], q[0]);
      PathOrder(p[1..], q[1..]);
      assert p == [p[0]] + p[1..] && q == [q[0]] + q[1..];
    }
  }

  lemma {:induction false} PathTransitive(p: Path, q: Path, r: Path)
    requires PathLeq(p, q) && PathLeq(q, r)
    ensures PathLeq(p, r)
  {
    if p != [] {
      if p[0] == q[0] == r[0] {
        PathTransitive(p[1..], q[1..], r[1..]);
      } else {
        StringOrder(p[0], q[0]);
        StringOrder(q[0], r[0]);
        StringOrder(p[0], r[0]);
        if p[0] != q[0] && q[0] != r[0] { StringTransitive(p[0], q[0], r[0]); }
      }
    }
  }

  lemma PathLeqIsTotalOrder()
    ensures TotalOrder(PathLeq)
    ensures forall p, q :: PathLeq(p, q) && PathLeq(q, p) ==> p == q
  {
    forall p, q ensures PathLeq(p, q) || PathLeq(q, p)
                ensures PathLeq(p, q) && PathLeq(q, p) ==> p == q {
      PathOrder(p, q);
    }
    forall p, q, r | PathLeq(p, q) && PathLeq(q, r) ensures PathLeq(p, r) {
      PathTransitive(p, q, r);
    }
  }

  lemma StringLeqIsTotalOrder()
    ensures TotalOrder(StringLeq)
    ensures forall a, b :: StringLeq(a, b) && StringLeq(b, a) ==> a == b
  {
    forall a, b ensures StringLeq(a, b) || StringLeq(b, a)
                ensures StringLeq(a, b) && StringLeq(b, a) ==> a == b {
      StringOrder(a, b);
    }
    forall a, b, c | StringLeq(a, b) && StringLeq(b, c) ensures StringLeq(a, c) {
      StringTransitive(a, b, c);
    }
  }

  // ---------- Text ----------

  /** The path as text, components joined by `/`. */
  function Render(path: Path): string {
    if path == [] then ""
    else if |path| == 1 then path[0]
    else path[0] + "/" + Render(path[1..])
  }

  predicate NoSlash(path: Path) {
    forall c :: c in path ==> c != "" && '/' !in c
  }

  lemma SlashInLonger(a: string, b: string, s: string, t: string)
    requires a + "/" + s == b + "/" + t && |a| < |b|
    ensures '/' in b
  {
    assert (a + "/" + s)[|a|] == '/' && (b + "/" + t)[|a|] == b[|a|];
  }

  lemma SplitUnique(a: string, b: string, s: string, t: string)
    requires '/' !in a && '/' !in b && a + "/" + s == b + "/" + t
    ensures a == b && s == t
  {
    if |a| < |b| {
      SlashInLonger(a, b, s, t);
    } else if |b| < |a| {
      SlashInLonger(b, a, t, s);
    } else {
      var x, y := a + "/" + s, b + "/" + t;
      assert a == x[..|a|] && b == y[..|b|];
      assert s == x[|a| + 1..] && t == y[|b| + 1..];
    }
  }

  lemma RenderLong(p: Path)
    requires |p| > 1
    ensures '/' in Render(p)
  {
    assert Render(p)[|p[0]|] == '/';
  }

  /** Distinct paths read differently. */
  lemma {:induction false} RenderInjective(p: Path, q: Path)
    requires NoSlash(p) && NoSlash(q) && Render(p) == Render(q)
    ensures p == q
  {
    if |p| > 1 && |q| > 1 {
      SplitUnique(p[0], q[0], Render(p[1..]), Render(q[1..]));
      assert forall c :: c in p[1..] ==> c in p;
      assert forall c :: c in q[1..] ==> c in q;
      RenderInjective(p[1..], q[1..]);
      assert p == [p[0]] + p[1..] && q == [q[0]] + q[1..];
    } else {
      if |p| > 1 { RenderLong(p); }
      if |q| > 1 { RenderLong(q); }
      assert |p| == 1 ==> p[0] in p && Render(p) != "";
      assert |q| == 1 ==> q[0] in q && Render(q) != "";
    }
  }

  // ---------- Fresh names ----------

  /** A name longer than every name in `taken`. */
  method NameLongerThanAll(taken: set<string>) returns (name: string)
    ensures forall t :: t in taken ==> |t| < |name|
  {
    var rest := taken;
    var n: nat := 0;
    while rest != {}
      invariant rest <= taken
      invariant forall t :: t in taken - rest ==> |t| <= n
    {
      var t :| t in rest;
      rest := rest - {t};
      n := if |t| > n then |t| else n;
    }
    name := seq(n + 1, _ => '0');
  }
}
