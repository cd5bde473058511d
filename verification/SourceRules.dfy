/** Which project files are source: the exclusion rules, as the Rust walk and as the Python report write them
    (delivery_evidence.rs `source_path_included`, source_manifest.py `included`). */
module SourceRules {
  import opened Options
  import opened Paths

  datatype Rules = Rules(exact: set<Path>, prefixes: set<Path>, parts: set<string>, suffixes: set<string>)

  function CandidateVersions(): set<string> {
    {"1.0", "1.2", "1.3", "1.4", "1.5", "1.6", "1.7", "1.8", "1.10", "1.12"}
  }

  function CandidateReports(): set<string> {
    {"-candidate-load.json", "-candidate-recovery.json", "-candidate-release-gates.json"}
  }

  function BaselineVersions(): set<string> {
    {"1.2", "1.3", "1.4", "1.5", "1.6", "1.7", "1.8", "1.9"}
  }

  function ValidationReports(): set<string> {
    {"operational-evidence-validation.json", "static-validation.json", "publish-validation.json"}
  }

  function OtherReports(): set<string> {
    {"source-manifest.json", "adoption-measurements.json", "deep-review.json", "quality-assurance.json",
     "handover.json", "handover.md"}
  }

  /** The reports below `verification` that are generated from the source. */
  function GeneratedReports(): set<string> {
    (set v, report | v in CandidateVersions() && report in CandidateReports() :: v + report) +
    (set v | v in BaselineVersions() :: v + "-performance-baseline.json") +
    ValidationReports() + OtherReports()
  }

  function ExcludedDirectories(): set<Path> {
    { ["verification", "feedback-task-receipts"],
      ["verification", "handover"],
      ["verification", "provider-evidence-receipts"],
      ["docs-site", ".vitepress", "cache"],
      ["docs-site", ".vitepress", "dist"],
      ["proofs", "realtime-pusher", "appsync-plan", "generated"] }
  }

  /** The rules of the project; both languages list them. */
  function ProjectRules(): Rules {
    Rules(
      set name | name in GeneratedReports() :: ["verification", name],
      ExcludedDirectories(),
      {".git", ".jj", ".venv", "target", "node_modules", "__pycache__", ".mimosa"},
      {"pyc", "zip", "db", "sqlite"})
  }

  lemma ReceiptsAreExcluded()
    ensures ["verification", "feedback-task-receipts"] in ProjectRules().prefixes
  {
    hide GeneratedReports;
  }

  // ---------- Names ----------

  /** The position of the last dot, or -1. */
  function LastDot(name: string): (r: int)
    ensures -1 <= r < |name|
    ensures r >= 0 ==> name[r] == '.'
    ensures forall k :: r < k < |name| ==> name[k] != '.'
  {
    if name == "" then -1
    else if name[|name| - 1] == '.' then |name| - 1
    else LastDot(name[..|name| - 1])
  }

  /** Rust `Path::extension`: what follows the last dot, unless that dot comes first. */
  function Extension(name: string): Option<string> {
    var dot := LastDot(name);
    if dot > 0 then Some(name[dot + 1..]) else None
  }

  /** Python `PurePath.suffix`: from the last dot on, unless that dot comes first or last. */
  function Suffix(name: string): string {
    var dot := LastDot(name);
    if 0 < dot < |name| - 1 then name[dot..] else ""
  }

  // ---------- Text ----------

  /** `replace('\\', "/")`. */
  function Slashed(text: string): (r: string)
    ensures |r| == |text|
    ensures forall k :: 0 <= k < |text| ==> r[k] == if text[k] == '\\' then '/' else text[k]
  {
    seq(|text|, k requires 0 <= k < |text| => if text[k] == '\\' then '/' else text[k])
  }

  /** No component is empty or holds a separator of either kind. */
  predicate Plain(path: Path) {
    NoSlash(path) && forall c :: c in path ==> '\\' !in c
  }

  ghost predicate WellFormed(rules: Rules) {
    && (forall p :: p in rules.exact || p in rules.prefixes ==> p != [] && Plain(p))
    && "" !in rules.suffixes
  }

  predicate PlainName(name: string) {
    name != "" && '/' !in name && '\\' !in name
  }

  lemma PlainConcat(a: string, b: string)
    requires PlainName(a) && PlainName(b)
    ensures PlainName(a + b)
  {
  }

  lemma PlainPrefixes(name: string)
    ensures name in CandidateVersions() || name in BaselineVersions() ==> PlainName(name)
    ensures PlainName("-performance-baseline.json")
  {
  }

  lemma PlainReports(name: string)
    ensures name in CandidateReports() ==> PlainName(name)
  {
  }

  lemma PlainValidations(name: string)
    ensures name in ValidationReports() ==> PlainName(name)
  {
  }

  lemma PlainOthers(name: string)
    ensures name in OtherReports() ==> PlainName(name)
  {
  }

  lemma PlainGenerated(name: string)
    requires name in GeneratedReports()
    ensures PlainName(name)
  {
    PlainValidations(name);
    PlainOthers(name);
    PlainPrefixes(name);
    hide CandidateReports, CandidateVersions, BaselineVersions, ValidationReports, OtherReports, PlainName;
    if v, report :| v in CandidateVersions() && report in CandidateReports() && name == v + report {
      PlainPrefixes(v);
      PlainReports(report);
      PlainConcat(v, report);
    } else if v :| v in BaselineVersions() && name == v + "-performance-baseline.json" {
      PlainPrefixes(v);
      PlainConcat(v, "-performance-baseline.json");
    }
  }

  lemma PlainPath(p: Path)
    requires forall c :: c in p ==> PlainName(c)
    ensures Plain(p)
  {
  }

  lemma PlainSites()
    ensures PlainName("docs-site") && PlainName(".vitepress") && PlainName("cache") && PlainName("dist")
    ensures PlainName("proofs") && PlainName("realtime-pusher") && PlainName("appsync-plan") && PlainName("generated")
  {
  }

  lemma PlainReceipts()
    ensures PlainName("verification") && PlainName("feedback-task-receipts") && PlainName("handover")
    ensures PlainName("provider-evidence-receipts")
  {
  }

  lemma PlainDirectories(p: Path)
    requires p in ExcludedDirectories()
    ensures p != [] && Plain(p)
  {
    PlainSites();
    PlainReceipts();
    hide PlainName, Plain;
    PlainPath(p);
  }

  /** The rules of the project are well formed. */
  lemma ProjectRulesAreWellFormed()
    ensures WellFormed(ProjectRules())
  {
    hide GeneratedReports, ExcludedDirectories;
    forall p | p in ProjectRules().exact || p in ProjectRules().prefixes ensures p != [] && Plain(p) {
      if p in ProjectRules().exact {
        var name :| name in GeneratedReports() && p == ["verification", name];
        PlainGenerated(name);
        assert PlainName("verification");
      } else {
        PlainDirectories(p);
      }
    }
  }

  // ---------- The two filters ----------

  /** `source_path_included`, on the rendered path. */
  predicate RustIncludes(rules: Rules, extra: set<Path>, path: Path)
    requires path != []
  {
    && path !in extra
    && var text := Slashed(Render(path));
    && (forall e :: e in rules.exact ==> text != Render(e))
    && (forall p :: p in rules.prefixes ==> text != Render(p) && !(Render(p) + "/" <= text))
    && (forall c :: c in path ==> c !in rules.parts)
    && FileName(path) != ".env"
    && (Extension(FileName(path)).Some? ==> Extension(FileName(path)).value !in rules.suffixes)
  }

  /** `included`, on path components; its suffixes are written with their dot. */
  predicate PythonIncludes(rules: Rules, path: Path)
    requires path != []
  {
    && path !in rules.exact
    && (forall p :: p in rules.prefixes ==> !StartsWith(path, p))
    && (forall c :: c in path ==> c !in rules.parts)
    && FileName(path) != ".env"
    && (forall s :: s in rules.suffixes ==> Suffix(FileName(path)) != "." + s)
  }

  lemma {:induction false} RenderPlain(path: Path)
    requires Plain(path)
    ensures '\\' !in Render(path)
  {
    if |path| > 1 {
      assert path[0] in path && forall c :: c in path[1..] ==> c in path;
      RenderPlain(path[1..]);
    } else if |path| == 1 {
      assert path[0] in path;
    }
  }

  lemma SlashedPlain(text: string)
    requires '\\' !in text
    ensures Slashed(text) == text
  {
  }

  lemma {:induction false} RenderConcat(p: Path, q: Path)
    requires p != [] && q != []
    ensures Render(p + q) == Render(p) + "/" + Render(q)
  {
    if |p| == 1 {
      assert (p + q)[1..] == q;
    } else {
      assert (p + q)[1..] == p[1..] + q;
      RenderConcat(p[1..], q);
      JoinAssociates(p[0], Render(p[1..]), Render(q));
    }
  }

  lemma JoinAssociates(a: string, b: string, c: string)
    ensures a + "/" + (b + "/" + c) == (a + "/" + b) + "/" + c
  {
  }

  /** `p/` is the start of the text of `q` exactly if `p` is an ancestor of `q`. */
  lemma {:induction false} RenderPrefix(p: Path, q: Path)
    requires p != [] && q != [] && NoSlash(p) && NoSlash(q)
    ensures Render(p) + "/" <= Render(q) <==> p < q
  {
    if p < q {
      assert q == p + q[|p|..];
      RenderConcat(p, q[|p|..]);
    }
    if Render(p) + "/" <= Render(q) {
      RenderPrefixOnly(p, q);
    }
  }

  lemma BehindSlash(a: string, b: string)
    requires a + "/" <= b
    ensures b == a + "/" + b[|a| + 1..] && '/' in b
  {
    assert b[|a|] == (a + "/")[|a|] == '/';
  }

  lemma RenderParts(p: Path)
    requires p != [] && NoSlash(p)
    ensures '/' !in p[0] && NoSlash(p[1..])
    ensures Render(p) == if |p| == 1 then p[0] else p[0] + "/" + Render(p[1..])
  {
    assert p[0] in p && forall c :: c in p[1..] ==> c in p;
  }

  lemma {:induction false} RenderPrefixOnly(p: Path, q: Path)
    requires p != [] && q != [] && NoSlash(p) && NoSlash(q) && Render(p) + "/" <= Render(q)
    ensures p < q
  {
    BehindSlash(Render(p), Render(q));
    RenderParts(p);
    RenderParts(q);
    hide Render, NoSlash;
    var rest := Render(q)[|Render(p)| + 1..];
    if |p| == 1 {
      SplitUnique(p[0], q[0], rest, Render(q[1..]));
    } else {
      JoinAssociates(p[0], Render(p[1..]), rest);
      SplitUnique(p[0], q[0], Render(p[1..]) + "/" + rest, Render(q[1..]));
      RenderPrefixOnly(p[1..], q[1..]);
      assert p == [p[0]] + p[1..] && q == [q[0]] + q[1..];
    }
  }

  lemma SuffixIsExtension(name: string, s: string)
    requires s != ""
    ensures Suffix(name) == "." + s <==> Extension(name) == Some(s)
  {
    var dot := LastDot(name);
    if 0 < dot < |name| - 1 {
      assert name[dot..] == "." + name[dot + 1..];
      assert ("." + s)[1..] == s && ("." + name[dot + 1..])[1..] == name[dot + 1..];
    } else if dot > 0 {
      assert name[dot + 1..] == "";
    }
  }

  /** The text of the path, with a slash for each backslash, is that of an excluded path or lies below a prefix. */
  ghost predicate ReadsExcluded(rules: Rules, path: Path)
    requires path != []
  {
    var text := Slashed(Render(path));
    || (exists e :: e in rules.exact && text == Render(e))
    || (exists p :: p in rules.prefixes && (text == Render(p) || Render(p) + "/" <= text))
  }

  /** The path itself is excluded, component by component. */
  ghost predicate ExcludedAt(rules: Rules, path: Path) {
    path in rules.exact || exists p :: p in rules.prefixes && StartsWith(path, p)
  }

  lemma {:induction false} PlainRender(path: Path)
    requires NoSlash(path) && '\\' !in Render(path)
    ensures Plain(path)
  {
    if |path| > 1 {
      assert Render(path) == path[0] + "/" + Render(path[1..]);
      assert path[0] in path && forall c :: c in path[1..] ==> c in path;
      PlainRender(path[1..]);
      assert path == [path[0]] + path[1..];
    } else if |path| == 1 {
      assert Render(path) == path[0];
    }
  }

  /** Of a plain path the text says what the components say. */
  lemma PlainReads(rules: Rules, path: Path)
    requires WellFormed(rules) && path != [] && Plain(path)
    ensures ReadsExcluded(rules, path) <==> ExcludedAt(rules, path)
  {
    RenderPlain(path);
    SlashedPlain(Render(path));
    forall e | e in rules.exact ensures Render(path) == Render(e) <==> path == e {
      if Render(path) == Render(e) { RenderInjective(path, e); }
    }
    forall p | p in rules.prefixes
      ensures StartsWith(path, p) <==> Render(path) == Render(p) || Render(p) + "/" <= Render(path)
    {
      RenderPrefix(p, path);
      if Render(path) == Render(p) { RenderInjective(path, p); }
      assert StartsWith(path, p) <==> path == p || p < path;
    }
  }

  /** Whatever is excluded by its components is excluded by its text. */
  lemma ExcludedReads(rules: Rules, path: Path)
    requires WellFormed(rules) && path != [] && ExcludedAt(rules, path)
    ensures ReadsExcluded(rules, path)
  {
    if path in rules.exact {
      RenderPlain(path);
      SlashedPlain(Render(path));
    } else {
      var p :| p in rules.prefixes && StartsWith(path, p);
      RenderPlain(p);
      SlashedPlain(Render(p));
      if p != path {
        var rest := path[|p|..];
        assert path == p + rest;
        RenderConcat(p, rest);
        SlashedConcat(Render(p) + "/", Render(rest));
        SlashedConcat(Render(p), "/");
        assert Slashed("/") == "/";
      }
    }
  }

  /** What the Rust filter makes of any path: it includes what the Python filter includes, unless the text of the path
      reads like an excluded one. */
  lemma RustFilter(rules: Rules, path: Path)
    requires WellFormed(rules) && path != []
    ensures RustIncludes(rules, {}, path) <==> PythonIncludes(rules, path) && !ReadsExcluded(rules, path)
  {
    if ExcludedAt(rules, path) {
      ExcludedReads(rules, path);
    }
    forall s | s in rules.suffixes
      ensures Suffix(FileName(path)) == "." + s <==> Extension(FileName(path)) == Some(s)
    {
      SuffixIsExtension(FileName(path), s);
    }
    hide Slashed, Render, Suffix, Extension, FileName;
  }

  /** The two filters disagree about a path exactly if it only reads excluded; about plain paths they agree. */
  lemma FiltersAgree(rules: Rules, path: Path)
    requires WellFormed(rules) && path != []
    ensures RustIncludes(rules, {}, path) != PythonIncludes(rules, path) <==>
      PythonIncludes(rules, path) && ReadsExcluded(rules, path)
    ensures Plain(path) ==> (RustIncludes(rules, {}, path) <==> PythonIncludes(rules, path))
  {
    RustFilter(rules, path);
    if Plain(path) {
      PlainReads(rules, path);
    }
    hide RustIncludes, ReadsExcluded;
  }

  /** One component that reads like `path` with backslashes between its components. */
  function Backslashed(path: Path): string {
    var text := Render(path);
    seq(|text|, k requires 0 <= k < |text| => if text[k] == '/' then '\\' else text[k])
  }

  /** Beyond plain paths they differ: to Python on POSIX a backslash is a character of the name, to the Rust
      filter it separates, so that a name can read like an excluded path. */
  lemma BackslashSplitsTheFilters(rules: Rules, e: Path)
    requires WellFormed(rules) && e in rules.exact && |e| > 1
    requires Backslashed(e) !in rules.parts
    requires forall s :: s in rules.suffixes ==> Suffix(Backslashed(e)) != "." + s
    ensures NoSlash([Backslashed(e)]) && PythonIncludes(rules, [Backslashed(e)])
    ensures !RustIncludes(rules, {}, [Backslashed(e)])
  {
    var name := Backslashed(e);
    RenderPlain(e);
    RenderLong(e);
    var k :| 0 <= k < |Render(e)| && Render(e)[k] == '/';
    assert name[k] == '\\' && [name][0] in [name] && !Plain([name]);
    assert Slashed(Render([name])) == Render(e);
    assert ".env"[..] == ".env" && '\\' !in ".env";
    forall p | p in rules.prefixes ensures !StartsWith([name], p) {
      assert p[0] in p;
    }
  }

  /** Excluded wherever it stands in the tree: below it nothing is included either. */
  predicate Inherited(rules: Rules, path: Path)
    requires path != []
  {
    var text := Slashed(Render(path));
    || (exists p :: p in rules.prefixes && (text == Render(p) || Render(p) + "/" <= text))
    || (exists c :: c in path && c in rules.parts)
  }

  lemma SlashedConcat(a: string, b: string)
    ensures Slashed(a + b) == Slashed(a) + Slashed(b)
  {
  }

  lemma InheritedBelow(rules: Rules, extra: set<Path>, d: Path, path: Path)
    requires d != [] && d < path && Inherited(rules, d)
    ensures !RustIncludes(rules, extra, path)
  {
    var rest := path[|d|..];
    assert path == d + rest;
    RenderConcat(d, rest);
    var text, below := Slashed(Render(d)), Slashed(Render(path));
    SlashedConcat(Render(d) + "/", Render(rest));
    SlashedConcat(Render(d), "/");
    assert Slashed("/") == "/";
    assert below == text + "/" + Slashed(Render(rest));
    if p :| p in rules.prefixes && (text == Render(p) || Render(p) + "/" <= text) {
      assert Render(p) + "/" <= below;
    }
    if c :| c in d && c in rules.parts {
      assert c in path;
    }
  }

  /** Nothing at or below an excluded prefix is source. */
  lemma BelowPrefix(rules: Rules, extra: set<Path>, p: Path, path: Path)
    requires p in rules.prefixes && p != [] && Plain(p) && p <= path
    ensures !RustIncludes(rules, extra, path)
  {
    RenderPlain(p);
    SlashedPlain(Render(p));
    assert Inherited(rules, p);
    if p < path {
      InheritedBelow(rules, extra, p, path);
    } else {
      assert path == p;
    }
  }
}
