/** Scanning in pieces: no lookahead of the scanner crosses a newline that ends an accepted source. */
module RustPieces {
  import opened Options
  import opened Brackets
  import opened RustScanner

  /** `s` ends with a newline. */
  predicate EndsLine(s: string) {
    s != "" && s[|s| - 1] == '\n'
  }

  lemma Tail(s: string, n: nat, b: string)
    requires EndsLine(s) && n < |s|
    ensures EndsLine(s[n..]) && (s + b)[n..] == s[n..] + b
  {
  }

  /** The two-character tests never read the newline. */
  lemma ShortPrefix(p: string, s: string, b: string)
    requires EndsLine(s) && 1 <= |p| <= 2 && '\n' !in p
    ensures p <= s + b <==> p <= s
    ensures p <= s ==> |p| < |s|
  {
    assert (s + b)[0] == s[0];
    assert p[0] in p && p[|p| - 1] in p;
    assert p <= s + b ==> (s + b)[0] == p[0];
    assert |s| >= 2 ==> (s + b)[..2] == s[..2];
    if p <= s {
      assert s[|p| - 1] == p[|p| - 1];
    }
  }

  lemma {:induction false} HashCountStops(s: string, b: string)
    requires EndsLine(s)
    ensures HashCount(s + b) == HashCount(s) < |s|
  {
    if s[0] == '#' {
      Tail(s, 1, b);
      HashCountStops(s[1..], b);
    }
  }

  lemma RawOpenStops(s: string, b: string)
    requires EndsLine(s)
    ensures RawOpen(s + b) == RawOpen(s)
    ensures RawOpen(s).Some? ==> RawOpenLength(s + b) == RawOpenLength(s) < |s|
  {
    ShortPrefix("br", s, b);
    ShortPrefix("r", s, b);
    var p := RawPrefix(s);
    if p > 0 {
      Tail(s, p, b);
      HashCountStops(s[p..], b);
      var h := HashCount(s[p..]);
      assert (s + b)[p + h] == s[p + h];
    }
  }

  lemma {:induction false} CharClosesStops(s: string, b: string, first: bool, escaped: bool)
    requires EndsLine(s)
    ensures CharCloses(s + b, first, escaped) <==> CharCloses(s, first, escaped)
    decreases |s|
  {
    assert (s + b)[0] == s[0];
    if |s| > 1 {
      Tail(s, 1, b);
      forall f, e ensures CharCloses(s[1..] + b, f, e) <==> CharCloses(s[1..], f, e) {
        CharClosesStops(s[1..], b, f, e);
      }
    }
  }

  lemma HashesFollowStops(s: string, b: string, h: nat)
    requires EndsLine(s)
    ensures HashesFollow(s + b, h) <==> HashesFollow(s, h)
    ensures HashesFollow(s, h) ==> h < |s|
  {
    if h <= |s| + |b| && h >= |s| {
      assert (s + b)[|s| - 1] == '\n';
    }
    if HashesFollow(s + b, h) && h < |s| {
      forall k | 0 <= k < h ensures s[k] == '#' {
        assert (s + b)[k] == '#';
      }
    }
  }

  lemma OpeningStops(s: string, b: string)
    requires EndsLine(s)
    ensures Opening(s + b) == Opening(s)
    ensures Opening(s).Some? ==> Opening(s).value.0 < |s|
  {
    ShortPrefix("//", s, b);
    ShortPrefix("/*", s, b);
    ShortPrefix("b\"", s, b);
    ShortPrefix("b'", s, b);
    RawOpenStops(s, b);
    assert (s + b)[0] == s[0];
    if |s| > 1 {
      Tail(s, 1, b);
      CharClosesStops(s[1..], b, true, false);
    }
    if |s| > 2 {
      Tail(s, 2, b);
      CharClosesStops(s[2..], b, true, false);
    }
    hide RawOpen, RawOpenLength, CharCloses;
  }

  /** A scan that ends well at the final newline of `a` goes on with `b` as if `b` stood alone. */
  lemma {:induction false} ScanGoesOn(mode: Mode, a: string, b: string)
    requires if a == "" then !mode.LineComment? else EndsLine(a)
    requires Delims(mode, a).Some?
    ensures Delims(mode, a + b) == Prepend(Delims(mode, a).value, Delims(Code, b))
    decreases |a|
  {
    PrependNothing();
    if a == "" {
      assert a + b == b;
    } else {
      match mode
      case LineComment => LineGoesOn(a, b);
      case BlockComment(depth) => BlockGoesOn(depth, a, b);
      case Str => LiteralGoesOn(mode, a, b);
      case Chr => LiteralGoesOn(mode, a, b);
      case RawStr(h) => RawGoesOn(h, a, b);
      case Code => CodeGoesOn(a, b);
    }
  }

  /** The same from one round on. */
  lemma {:induction false} FromRound(mode: Mode, n: nat, a: string, b: string)
    requires EndsLine(a) && 0 < n <= |a|
    requires n == |a| ==> !mode.LineComment?
    requires Delims(mode, a[n..]).Some?
    ensures (a + b)[n..] == a[n..] + b
    ensures Delims(mode, a[n..] + b) == Prepend(Delims(mode, a[n..]).value, Delims(Code, b))
    decreases |a|, 0
  {
    ScanGoesOn(mode, a[n..], b);
    assert (a + b)[n..] == a[n..] + b;
  }

  lemma {:induction false} LineGoesOn(a: string, b: string)
    requires EndsLine(a) && Delims(LineComment, a).Some?
    ensures Delims(LineComment, a + b) == Prepend(Delims(LineComment, a).value, Delims(Code, b))
    decreases |a|, 1
  {
    FromRound(if a[0] == '\n' then Code else LineComment, 1, a, b);
  }

  lemma {:induction false} BlockGoesOn(depth: nat, a: string, b: string)
    requires EndsLine(a) && Delims(BlockComment(depth), a).Some?
    ensures Delims(BlockComment(depth), a + b) == Prepend(Delims(BlockComment(depth), a).value, Delims(Code, b))
    decreases |a|, 1
  {
    ShortPrefix("/*", a, b);
    ShortPrefix("*/", a, b);
    if "/*" <= a {
      FromRound(BlockComment(depth + 1), 2, a, b);
    } else if "*/" <= a {
      FromRound(if depth <= 1 then Code else BlockComment(depth - 1), 2, a, b);
    } else {
      FromRound(BlockComment(depth), 1, a, b);
    }
  }

  lemma {:induction false} LiteralGoesOn(mode: Mode, a: string, b: string)
    requires mode.Str? || mode.Chr?
    requires EndsLine(a) && Delims(mode, a).Some?
    ensures Delims(mode, a + b) == Prepend(Delims(mode, a).value, Delims(Code, b))
    decreases |a|, 1
  {
    assert (a + b)[0] == a[0];
    if a[0] == '\\' {
      FromRound(mode, 2, a, b);
    } else {
      FromRound(if a[0] == (if mode.Str? then '"' else '\'') then Code else mode, 1, a, b);
    }
  }

  lemma {:induction false} RawGoesOn(h: nat, a: string, b: string)
    requires EndsLine(a) && Delims(RawStr(h), a).Some?
    ensures Delims(RawStr(h), a + b) == Prepend(Delims(RawStr(h), a).value, Delims(Code, b))
    decreases |a|, 1
  {
    assert (a + b)[0] == a[0];
    if a[0] == '"' {
      Tail(a, 1, b);
      HashesFollowStops(a[1..], b, h);
    }
    if a[0] == '"' && HashesFollow(a[1..], h) {
      FromRound(Code, 1 + h, a, b);
    } else {
      FromRound(RawStr(h), 1, a, b);
    }
  }

  lemma {:induction false} CodeGoesOn(a: string, b: string)
    requires EndsLine(a) && Delims(Code, a).Some?
    ensures Delims(Code, a + b) == Prepend(Delims(Code, a).value, Delims(Code, b))
    decreases |a|, 1
  {
    OpeningStops(a, b);
    assert (a + b)[0] == a[0];
    if Opening(a).Some? {
      var (n, mode) := Opening(a).value;
      FromRound(mode, n, a, b);
    } else {
      FromRound(Code, 1, a, b);
      if IsOpen(a[0]) || IsClose(a[0]) {
        PrependTwice([a[0]], Delims(Code, a[1..]).value, Delims(Code, b));
      }
    }
  }

  /** Scanner compositionality: behind an accepted source that ends with a newline, the verdict on a longer
      source is the verdict on what was added. */
  lemma AcceptedPieces(a: string, b: string)
    requires EndsLine(a) && Accepts(a)
    ensures Accepts(a + b) <==> Accepts(b)
  {
    ScanGoesOn(Code, a, b);
    if Delims(Code, b).Some? {
      ReduceConcat("", Delims(Code, a).value, Delims(Code, b).value);
    }
  }

  /** Without the newline this fails: a line comment reaches into what is added. */
  lemma NewlineNeeded()
    ensures Accepts("//") && !Accepts("(") && Accepts("//" + "(")
  {
    assert ("//")[2..] == "" && ("//" + "(")[2..] == "(" && ("(")[1..] == "";
    assert Opening("//") == Some((2, LineComment)) == Opening("//" + "(");
    assert !("//" <= "(") && !("/*" <= "(") && !("b\"" <= "(") && !("b'" <= "(");
    assert RawOpen("(").None? by {
      assert "br"[0] == 'b' && "r"[0] == 'r' && "("[0] == '(';
    }
    assert Opening("(").None?;
    assert Delims(Code, "(") == Some("(") by {
      assert Delims(Code, "") == Some("") && "(" + "" == "(";
    }
  }
}
