/** Words over three kinds of brackets: the stack check and the grammar it decides. */
module Brackets {

  predicate IsOpen(c: char) {
    c == '(' || c == '[' || c == '{'
  }

  predicate IsClose(c: char) {
    c == ')' || c == ']' || c == '}'
  }

  /** The opening bracket that `c` closes. */
  function Opener(c: char): char {
    if c == ')' then '(' else if c == ']' then '[' else '{'
  }

  function Closer(c: char): char {
    if c == '(' then ')' else if c == '[' then ']' else '}'
  }

  predicate IsWord(w: string) {
    forall c :: c in w ==> IsOpen(c) || IsClose(c)
  }

  /** A derivation of `S -> empty | ( S ) S | [ S ] S | { S } S`. */
  datatype Derivation = Empty | Wrap(bracket: char, inner: Derivation, rest: Derivation)

  ghost predicate Proper(d: Derivation) {
    d.Wrap? ==> IsOpen(d.bracket) && Proper(d.inner) && Proper(d.rest)
  }

  ghost function Yield(d: Derivation): string {
    match d
    case Empty => ""
    case Wrap(c, inner, rest) => [c] + Yield(inner) + [Closer(c)] + Yield(rest)
  }

  /** The Dyck language of the three brackets. */
  ghost predicate Dyck(w: string) {
    exists d :: Proper(d) && Yield(d) == w
  }

  datatype Reduction = Unmatched | Open(stack: string)

  /** Runs the stack over `w`; the top of the stack is its last character. */
  function Reduce(stack: string, w: string): Reduction
    decreases w
  {
    if w == "" then Open(stack)
    else if IsOpen(w[0]) then Reduce(stack + [w[0]], w[1..])
    else if stack != "" && stack[|stack| - 1] == Opener(w[0]) then Reduce(stack[..|stack| - 1], w[1..])
    else Unmatched
  }

  lemma {:induction false} ReduceConcat(stack: string, v: string, w: string)
    ensures Reduce(stack, v + w) == match Reduce(stack, v)
      case Unmatched => Unmatched
      case Open(stack') => Reduce(stack', w)
    decreases v
  {
    if v == "" {
      assert v + w == w;
    } else {
      assert (v + w)[1..] == v[1..] + w && (v + w)[0] == v[0];
      if IsOpen(v[0]) {
        ReduceConcat(stack + [v[0]], v[1..], w);
      } else if stack != "" && stack[|stack| - 1] == Opener(v[0]) {
        ReduceConcat(stack[..|stack| - 1], v[1..], w);
      }
    }
  }

  lemma ReduceOpens(stack: string, c: char, w: string)
    requires IsOpen(c)
    ensures Reduce(stack, [c] + w) == Reduce(stack + [c], w)
  {
    assert ([c] + w)[1..] == w;
  }

  lemma ReduceCloses(stack: string, c: char, w: string)
    requires IsOpen(c)
    ensures Reduce(stack + [c], [Closer(c)] + w) == Reduce(stack, w)
  {
    assert ([Closer(c)] + w)[1..] == w && (stack + [c])[..|stack|] == stack;
  }

  lemma Regroup(a: string, x: string, b: string, y: string, z: string)
    ensures (a + x + b + y) + z == a + (x + (b + (y + z)))
  {
  }

  lemma {:induction false} ReduceYield(stack: string, d: Derivation, w: string)
    requires Proper(d)
    ensures Reduce(stack, Yield(d) + w) == Reduce(stack, w)
    decreases d
  {
    match d
    case Empty => assert Yield(d) + w == w;
    case Wrap(c, inner, rest) =>
      var after := [Closer(c)] + (Yield(rest) + w);
      Regroup([c], Yield(inner), [Closer(c)], Yield(rest), w);
      ReduceOpens(stack, c, Yield(inner) + after);
      ReduceYield(stack + [c], inner, after);
      ReduceCloses(stack, c, Yield(rest) + w);
      ReduceYield(stack, rest, w);
      hide Reduce;
  }

  /** The derivations between the closing brackets that a stack still waits for. */
  ghost function Interleave(ds: seq<Derivation>, stack: string): string
    requires |ds| == |stack| + 1
  {
    Yield(ds[0]) +
    (if stack == "" then "" else [Closer(stack[|stack| - 1])] + Interleave(ds[1..], stack[..|stack| - 1]))
  }

  lemma InterleaveWrap(c: char, ds: seq<Derivation>, stack: string)
    requires |ds| == |stack| + 2
    ensures Interleave([Wrap(c, ds[0], ds[1])] + ds[2..], stack) == [c] + Interleave(ds, stack + [c])
  {
    var es := [Wrap(c, ds[0], ds[1])] + ds[2..];
    var rest := if stack == "" then "" else [Closer(stack[|stack| - 1])] + Interleave(ds[2..], stack[..|stack| - 1]);
    assert es[1..] == ds[2..] && ds[1..][0] == ds[1] && ds[1..][1..] == ds[2..];
    assert (stack + [c])[..|stack|] == stack && (stack + [c])[|stack|] == c;
    var y0, y1 := Yield(ds[0]), Yield(ds[1]);
    assert Yield(es[0]) == [c] + y0 + [Closer(c)] + y1;
    assert Interleave(ds[1..], stack) == y1 + rest;
    assert Interleave(ds, stack + [c]) == y0 + ([Closer(c)] + (y1 + rest));
    Regroup([c], y0, [Closer(c)], y1, rest);
    hide Yield;
  }

  lemma InterleaveClose(c: char, ds: seq<Derivation>, stack: string)
    requires |ds| == |stack| + 1
    ensures Interleave([Empty] + ds, stack + [c]) == [Closer(c)] + Interleave(ds, stack)
  {
    assert ([Empty] + ds)[1..] == ds && (stack + [c])[..|stack|] == stack;
    assert Interleave([Empty] + ds, stack + [c]) == "" + ([Closer(c)] + Interleave(ds, stack));
  }

  lemma {:induction false} Derive(stack: string, w: string) returns (ds: seq<Derivation>)
    requires IsWord(w) && (forall c :: c in stack ==> IsOpen(c)) && Reduce(stack, w) == Open("")
    ensures |ds| == |stack| + 1 && (forall d :: d in ds ==> Proper(d)) && Interleave(ds, stack) == w
    decreases |w|
  {
    hide Interleave, Yield;
    if w == "" {
      ds := [Empty];
      InterleaveNothing();
    } else if IsOpen(w[0]) {
      var inner := Derive(stack + [w[0]], w[1..]);
      ds := [Wrap(w[0], inner[0], inner[1])] + inner[2..];
      InterleaveWrap(w[0], inner, stack);
      assert w == [w[0]] + w[1..];
      assert forall d :: d in inner[2..] ==> d in inner;
    } else {
      var top := |stack| - 1;
      var rest := Derive(stack[..top], w[1..]);
      ds := [Empty] + rest;
      assert stack == stack[..top] + [stack[top]] && w[0] in w;
      InterleaveClose(stack[top], rest, stack[..top]);
      assert w == [w[0]] + w[1..];
    }
  }

  lemma InterleaveNothing()
    ensures Interleave([Empty], "") == ""
  {
  }

  /** The stack check decides the Dyck language. */
  lemma StackDecidesDyck(w: string)
    requires IsWord(w)
    ensures Reduce("", w) == Open("") <==> Dyck(w)
  {
    if Reduce("", w) == Open("") {
      var ds := Derive("", w);
      assert Proper(ds[0]) && Yield(ds[0]) == w;
    }
    if Dyck(w) {
      var d :| Proper(d) && Yield(d) == w;
      ReduceYield("", d, "");
      assert w + "" == w;
    }
  }
}
