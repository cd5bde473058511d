/** The file names that a generator derives from an operationId (crates/minco-cli/src/generator_cmd.rs), and the
    constant names that the validator expects (scripts/validate_static.py, `screaming_snake`). */
module OperationNames {
  import opened Options
  import opened Paths
  import opened Sorting

  predicate IsUpper(c: char) { 'A' <= c <= 'Z' }

  predicate IsLower(c: char) { 'a' <= c <= 'z' }

  predicate IsDigit(c: char) { '0' <= c <= '9' }

  function ToLower(c: char): char {
    if IsUpper(c) then (c as int - 'A' as int + 'a' as int) as char else c
  }

  function ToUpper(c: char): char {
    if IsLower(c) then (c as int - 'a' as int + 'A' as int) as char else c
  }

  /** `validate_operation_id`: lowerCamelCase ASCII. */
  predicate IsOperationId(value: string) {
    && value != "" && IsLower(value[0])
    && forall k :: 0 <= k < |value| ==> IsUpper(value[k]) || IsLower(value[k]) || IsDigit(value[k])
  }

  // ---------- Snake case ----------

  function SnakeOf(c: char): string {
    if IsUpper(c) then ['_', ToLower(c)] else [c]
  }

  function Snake(value: string): string {
    if value == "" then "" else SnakeOf(value[0]) + Snake(value[1..])
  }

  lemma {:induction false} SnakeFurther(value: string, k: nat)
    requires k < |value|
    ensures Snake(value[..k + 1]) == Snake(value[..k]) + SnakeOf(value[k])
  {
    if k == 0 {
      assert value[..1][1..] == "" && value[..0] == "";
    } else {
      assert value[..k + 1][1..] == value[1..][..k] && value[..k][1..] == value[1..][..k - 1];
      SnakeFurther(value[1..], k - 1);
      assert SnakeOf(value[0]) + (Snake(value[1..][..k - 1]) + SnakeOf(value[k])) ==
        (SnakeOf(value[0]) + Snake(value[1..][..k - 1])) + SnakeOf(value[k]);
    }
  }

  /** `lower_camel_to_snake`. */
  method LowerCamelToSnake(value: string) returns (output: Option<string>)
    ensures output == if IsOperationId(value) then Some(Snake(value)) else None
  {
    if !IsOperationId(value) {
      return None;
    }
    var buffer := "";
    var k := 0;
    while k < |value|
      invariant 0 <= k <= |value| && buffer == Snake(value[..k])
    {
      SnakeFurther(value, k);
      if IsUpper(value[k]) {
        buffer := buffer + ['_'];
        buffer := buffer + [ToLower(value[k])];
      } else {
        buffer := buffer + [value[k]];
      }
      k := k + 1;
    }
    assert value[..k] == value;
    return Some(buffer);
  }

  /** The left inverse: an underscore marks an upper-case letter. */
  function Camel(snake: string): string {
    if snake == "" then ""
    else if snake[0] == '_' && |snake| > 1 then [ToUpper(snake[1])] + Camel(snake[2..])
    else [snake[0]] + Camel(snake[1..])
  }

  lemma {:induction false} CamelOfSnake(value: string)
    requires '_' !in value
    ensures Camel(Snake(value)) == value
  {
    if value != "" {
      assert value[0] in value;
      CamelOfSnake(value[1..]);
      var rest := Snake(value[1..]);
      if IsUpper(value[0]) {
        assert Snake(value)[0] == '_' && Snake(value)[1] == ToLower(value[0]) && Snake(value)[2..] == rest;
        assert ToUpper(ToLower(value[0])) == value[0];
      } else {
        assert Snake(value)[0] == value[0] && Snake(value)[1..] == rest;
      }
      assert value == [value[0]] + value[1..];
    }
  }

  /** Distinct operationIds have distinct snake-case names. */
  lemma SnakeInjective(a: string, b: string)
    requires IsOperationId(a) && IsOperationId(b) && Snake(a) == Snake(b)
    ensures a == b
  {
    NoUnderscore(a);
    NoUnderscore(b);
    CamelOfSnake(a);
    CamelOfSnake(b);
  }

  lemma NoUnderscore(value: string)
    requires IsOperationId(value)
    ensures '_' !in value
  {
  }

  /** Without the validation they can collide. */
  lemma UnvalidatedNamesCollide()
    ensures Snake("aB") == Snake("a_b") && !IsOperationId("a_b")
  {
    assert "aB"[1..] == "B" && "B"[1..] == "" && "a_b"[1..] == "_b" && "_b"[1..] == "b" && "b"[1..] == "";
    assert Snake("B") == "_b" + "" && Snake("_b") == "_" + Snake("b") && Snake("b") == "b" + "";
    assert "a_b"[1] == '_';
  }

  // ---------- Screaming snake case ----------

  function UpperCase(value: string): (r: string)
    ensures |r| == |value| && forall k :: 0 <= k < |r| ==> r[k] == ToUpper(value[k])
  {
    seq(|value|, k requires 0 <= k < |value| => ToUpper(value[k]))
  }

  /** The substitution: an underscore before every upper-case letter that does not come first. */
  function Separated(value: string, first: bool): string {
    if value == "" then ""
    else (if IsUpper(value[0]) && !first then "_" else "") + [value[0]] + Separated(value[1..], false)
  }

  function Underscored(value: string): (r: string)
    ensures |r| == |value| && forall k :: 0 <= k < |r| ==> r[k] == if value[k] == '-' then '_' else value[k]
  {
    seq(|value|, k requires 0 <= k < |value| => if value[k] == '-' then '_' else value[k])
  }

  /** `screaming_snake`. */
  function ScreamingSnake(value: string): string {
    UpperCase(Underscored(Separated(value, true)))
  }

  lemma UpperCaseConcat(a: string, b: string)
    ensures UpperCase(a + b) == UpperCase(a) + UpperCase(b)
  {
  }

  lemma {:induction false} UpperSnake(value: string, first: bool)
    requires forall k :: 0 <= k < |value| ==> IsUpper(value[k]) || IsLower(value[k]) || IsDigit(value[k])
    requires first && value != "" ==> !IsUpper(value[0])
    ensures UpperCase(Snake(value)) == UpperCase(Underscored(Separated(value, first)))
  {
    if value != "" {
      UpperSnake(value[1..], false);
      var head := (if IsUpper(value[0]) && !first then "_" else "") + [value[0]];
      var rest := Separated(value[1..], false);
      assert Underscored(head + rest) == Underscored(head) + Underscored(rest);
      UpperCaseConcat(SnakeOf(value[0]), Snake(value[1..]));
      UpperCaseConcat(Underscored(head), Underscored(rest));
      assert UpperCase(SnakeOf(value[0])) == UpperCase(Underscored(head));
    }
  }

  /** The two tools agree on the constant of an operation. */
  lemma UpperSnakeIsScreamingSnake(value: string)
    requires IsOperationId(value)
    ensures UpperCase(Snake(value)) == ScreamingSnake(value)
  {
    UpperSnake(value, true);
  }

  // ---------- Targets ----------

  const MANIFEST: Path := ["minco.toml"]

  function ApplicationTest(id: string): Path { ["crates", "application", "tests", Snake(id) + ".rs"] }

  function HttpTest(id: string): Path { ["crates", "api", "tests", Snake(id) + ".rs"] }

  function Documentation(id: string): Path { ["docs", "generated", "operations", Snake(id) + ".md"] }

  /** The targets that `resource_plan` plans for the operations of a resource, before it sorts them. */
  function Targets(ids: seq<string>): seq<Path> {
    if ids == [] then [MANIFEST]
    else [ApplicationTest(ids[0]), HttpTest(ids[0]), Documentation(ids[0])] + Targets(ids[1..])
  }

  function Same(path: Path): Path { path }

  ghost predicate TargetOf(path: Path, id: string) {
    path == ApplicationTest(id) || path == HttpTest(id) || path == Documentation(id)
  }

  lemma {:induction false} TargetsAre(ids: seq<string>, path: Path)
    ensures path in Targets(ids) <==> path == MANIFEST || exists k :: 0 <= k < |ids| && TargetOf(path, ids[k])
  {
    if ids != [] {
      TargetsAre(ids[1..], path);
      assert TargetOf(path, ids[0]) ==> path in [ApplicationTest(ids[0]), HttpTest(ids[0]), Documentation(ids[0])];
      forall k | 0 <= k < |ids| && TargetOf(path, ids[k]) ensures path in Targets(ids) {
        if k > 0 {
          assert ids[1..][k - 1] == ids[k];
        }
      }
      if path in Targets(ids[1..]) && path != MANIFEST {
        var k :| 0 <= k < |ids| - 1 && TargetOf(path, ids[1..][k]);
        assert TargetOf(path, ids[k + 1]);
      }
    }
  }

  lemma OneTarget(path: Path, a: string, b: string)
    requires IsOperationId(a) && IsOperationId(b) && TargetOf(path, a) && TargetOf(path, b)
    ensures a == b
  {
    var x, y := Snake(a), Snake(b);
    assert path[3] == x + ".rs" || path[3] == x + ".md";
    assert path[3] == y + ".rs" || path[3] == y + ".md";
    assert |path[3]| == |x| + 3 == |y| + 3;
    assert path[3][..|x|] == x && path[3][..|y|] == y;
    SnakeInjective(a, b);
  }

  /** `resource_plan` checks for no duplicates, and needs to check for none: distinct operationIds have pairwise
      distinct targets, none of them the project manifest. */
  lemma {:induction false} ResourceTargetsDistinct(ids: seq<string>)
    requires forall id :: id in ids ==> IsOperationId(id)
    requires forall i, j :: 0 <= i < j < |ids| ==> ids[i] != ids[j]
    ensures DistinctBy(Targets(ids), Same)
  {
    if ids != [] {
      var id, rest := ids[0], ids[1..];
      assert id in ids && forall other :: other in rest ==> other in ids;
      forall i, j | 0 <= i < j < |rest| ensures rest[i] != rest[j] {
        assert rest[i] == ids[i + 1] && rest[j] == ids[j + 1];
      }
      ResourceTargetsDistinct(rest);
      var own := [ApplicationTest(id), HttpTest(id), Documentation(id)];
      assert ApplicationTest(id)[1] != HttpTest(id)[1] && ApplicationTest(id)[0] != Documentation(id)[0];
      assert HttpTest(id)[0] != Documentation(id)[0];
      forall x, y | x in own && y in Targets(rest) ensures Same(x) != Same(y) {
        TargetsAre(rest, y);
        assert TargetOf(x, id);
        if y != MANIFEST {
          var k :| 0 <= k < |rest| && TargetOf(y, rest[k]);
          assert rest[k] == ids[k + 1] && rest[k] in ids;
          if x == y {
            OneTarget(x, id, rest[k]);
          }
        }
      }
      DistinctConcat(own, Targets(rest), Same);
    }
  }
}
