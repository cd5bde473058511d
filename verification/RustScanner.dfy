/** The delimiter scanner for Rust sources (scripts/validate_static.py, `balanced_rust`): comments and
    literals are skipped, and the brackets that remain must balance. */
module RustScanner {
  import opened Options
  import opened Brackets

  datatype Mode = Code | LineComment | BlockComment(depth: nat) | Str | Chr | RawStr(hashes: nat)

  // ---------- Lookahead ----------

  function HashCount(s: string): (n: nat)
    ensures n <= |s| && (forall k :: 0 <= k < n ==> s[k] == '#') && (n < |s| ==> s[n] != '#')
  {
    if s != "" && s[0] == '#' then 1 + HashCount(s[1..]) else 0
  }

  /** The length of a raw-string prefix `r` or `br`. */
  function RawPrefix(s: string): nat {
    if "br" <= s then 2 else if "r" <= s then 1 else 0
  }

  /** `starts_raw`: the number of hashes of the raw string that opens at the front of `s`. */
  function RawOpen(s: string): Option<nat> {
    var p := RawPrefix(s);
    if p == 0 then None
    else
      var h := HashCount(s[p..]);
      if p + h < |s| && s[p + h] == '"' then Some(h) else None
  }

  /** The length of that opening. */
  function RawOpenLength(s: string): (n: nat)
    requires RawOpen(s).Some?
    ensures 0 < n <= |s|
  {
    RawPrefix(s) + RawOpen(s).value + 1
  }

  const LIFETIME_ENDS := " \t,;:<>[](){}=&|+-*/.!?"

  /** `starts_char` after the opening quote: does a character literal close before the line ends? */
  predicate CharCloses(s: string, first: bool, escaped: bool) {
    if s == "" || s[0] == '\n' then false
    else if escaped then CharCloses(s[1..], false, false)
    else if s[0] == '\\' then CharCloses(s[1..], false, true)
    else if s[0] == '\'' then true
    else if !first && s[0] in LIFETIME_ENDS then false
    else CharCloses(s[1..], false, false)
  }

  predicate HashesFollow(s: string, h: nat) {
    h <= |s| && forall k :: 0 <= k < h ==> s[k] == '#'
  }

  /** What opens at the front of `s`: the length of the opening and the mode behind it. */
  function Opening(s: string): (r: Option<(nat, Mode)>)
    ensures r.Some? ==> 0 < r.value.0 <= |s| && !r.value.1.Code?
  {
    if s == "" then None
    else if "//" <= s then Some((2, LineComment))
    else if "/*" <= s then Some((2, BlockComment(1)))
    else if RawOpen(s).Some? then Some((RawOpenLength(s), RawStr(RawOpen(s).value)))
    else if "b\"" <= s then Some((2, Str))
    else if s[0] == '"' then Some((1, Str))
    else if "b'" <= s && CharCloses(s[2..], true, false) then Some((2, Chr))
    else if s[0] == '\'' && CharCloses(s[1..], true, false) then Some((1, Chr))
    else None
  }

  // ---------- The scan ----------

  function Prepend(v: string, w: Option<string>): Option<string> {
    match w
    case None => None
    case Some(w) => Some(v + w)
  }

  /** The brackets that the scanner sees in code from `s` on, or none if `s` ends inside a literal
      or a block comment. */
  function Delims(mode: Mode, s: string): Option<string>
    decreases |s|
  {
    match mode
    case LineComment =>
      if s == "" then Some("") else Delims(if s[0] == '\n' then Code else LineComment, s[1..])
    case BlockComment(depth) =>
      if s == "" then None
      else if "/*" <= s then Delims(BlockComment(depth + 1), s[2..])
      else if "*/" <= s then Delims(if depth <= 1 then Code else BlockComment(depth - 1), s[2..])
      else Delims(mode, s[1..])
    case Str =>
      if s == "" || s == "\\" then None
      else if s[0] == '\\' then Delims(Str, s[2..])
      else Delims(if s[0] == '"' then Code else Str, s[1..])
    case Chr =>
      if s == "" || s == "\\" || s[0] == '\n' then None
      else if s[0] == '\\' then Delims(Chr, s[2..])
      else Delims(if s[0] == '\'' then Code else Chr, s[1..])
    case RawStr(h) =>
      if s == "" then None
      else if s[0] == '"' && HashesFollow(s[1..], h) then Delims(Code, s[1 + h..])
      else Delims(mode, s[1..])
    case Code =>
      if s == "" then Some("")
      else if Opening(s).Some? then Delims(Opening(s).value.1, s[Opening(s).value.0..])
      else if IsOpen(s[0]) || IsClose(s[0]) then Prepend([s[0]], Delims(Code, s[1..]))
      else Delims(Code, s[1..])
  }

  /** The scanner's verdict. */
  predicate Accepts(s: string) {
    Delims(Code, s).Some? && Reduce("", Delims(Code, s).value) == Open("")
  }

  lemma {:induction false} DelimsIsWord(mode: Mode, s: string)
    ensures Delims(mode, s).Some? ==> IsWord(Delims(mode, s).value)
    decreases |s|
  {
    forall m, k | 1 <= k <= |s| ensures Delims(m, s[k..]).Some? ==> IsWord(Delims(m, s[k..]).value) {
      DelimsIsWord(m, s[k..]);
    }
  }

  // ---------- Lines ----------

  function Newlines(s: string): nat {
    if s == "" then 0 else (if s[0] == '\n' then 1 else 0) + Newlines(s[1..])
  }

  /** The line of a position, counted from one. */
  function LineOf(source: string, i: nat): nat {
    1 + Newlines(if i < |source| then source[..i] else source)
  }

  /** One round of the scan: how far it goes, and the mode behind it. */
  function Round(mode: Mode, s: string): (r: (nat, Mode))
    requires s != ""
    ensures r.0 > 0
  {
    match mode
    case LineComment => (1, if s[0] == '\n' then Code else LineComment)
    case BlockComment(depth) =>
      if "/*" <= s then (2, BlockComment(depth + 1))
      else if "*/" <= s then (2, if depth <= 1 then Code else BlockComment(depth - 1))
      else (1, mode)
    case Str => if s[0] == '\\' then (2, Str) else (1, if s[0] == '"' then Code else Str)
    case Chr => if s[0] == '\\' then (2, Chr) else (1, if s[0] == '\'' then Code else Chr)
    case RawStr(h) => if s[0] == '"' && HashesFollow(s[1..], h) then (1 + h, Code) else (1, mode)
    case Code => if Opening(s).Some? then Opening(s).value else (1, Code)
  }

  /** What is left behind the first `n` characters; an escape may step past the end. */
  function Rest(s: string, n: nat): string {
    if n <= |s| then s[n..] else ""
  }

  /** A string literal escapes a newline at the front of `s`, which is not counted. */
  predicate StepsOver(mode: Mode, s: string) {
    mode.Str? && |s| > 1 && s[0] == '\\' && s[1] == '\n'
  }

  /** The newlines among the first `k` characters of `s` that string literals step over. */
  function Missed(mode: Mode, s: string, k: nat): nat
    decreases |s|
  {
    if s == "" || k == 0 then 0
    else
      var (n, next) := Round(mode, s);
      (if k > 1 && StepsOver(mode, s) then 1 else 0) + (if k <= n then 0 else Missed(next, Rest(s, n), k - n))
  }

  /** The scan reads the character at `k` as code. */
  predicate ReadAsCode(mode: Mode, s: string, k: nat)
    decreases |s|
  {
    if s == "" then false
    else if k == 0 then mode.Code? && Opening(s).None?
    else
      var (n, next) := Round(mode, s);
      n <= k && ReadAsCode(next, Rest(s, n), k - n)
  }

  /** The mode in which the scan ends. */
  function EndMode(mode: Mode, s: string): Mode
    decreases |s|
  {
    if s == "" then mode
    else
      var (n, next) := Round(mode, s);
      EndMode(next, Rest(s, n))
  }

  /** The scanner's line at position `i`: the newlines that string literals step over are missing from it. */
  predicate IsLine(source: string, i: nat, line: nat) {
    line + Missed(Code, source, i) == LineOf(source, i)
  }

  lemma LineIsRight(source: string, i: nat, line: nat)
    requires IsLine(source, i, line)
    ensures line == LineOf(source, i) <==> Missed(Code, source, i) == 0
  {
  }

  /** `line` is reported for a character `c` that the scan read as code. */
  ghost predicate ReportedAt(source: string, c: char, line: nat) {
    exists k :: 0 <= k < |source| && source[k] == c && ReadAsCode(Code, source, k) && IsLine(source, k, line)
  }

  /** The scan of `source` stands at `i` in `mode`. */
  ghost predicate Underway(source: string, i: nat, mode: Mode) {
    && EndMode(Code, source) == EndMode(mode, Rest(source, i))
    && (forall k :: k >= i ==>
          && Missed(Code, source, k) == Missed(Code, source, i) + Missed(mode, Rest(source, i), k - i)
          && (ReadAsCode(Code, source, k) <==> ReadAsCode(mode, Rest(source, i), k - i)))
  }

  /** What lies behind one round. */
  lemma BehindRound(mode: Mode, s: string, k: nat)
    requires s != "" && k >= Round(mode, s).0
    ensures var (n, next) := Round(mode, s);
      && Missed(mode, s, k) == (if StepsOver(mode, s) then 1 else 0) + Missed(next, Rest(s, n), k - n)
      && (ReadAsCode(mode, s, k) <==> ReadAsCode(next, Rest(s, n), k - n))
      && EndMode(mode, s) == EndMode(next, Rest(s, n))
  {
    hide Round, StepsOver, Opening, Rest;
    if StepsOver(mode, s) {
      StepsTwo(mode, s);
    }
  }

  lemma UnderwayGoesOn(source: string, i: nat, mode: Mode)
    requires i < |source| && Underway(source, i, mode)
    ensures var s := source[i..];
      var (n, next) := Round(mode, s);
      && Underway(source, i + n, next)
      && Missed(Code, source, i + n) == Missed(Code, source, i) + if StepsOver(mode, s) then 1 else 0
  {
    hide Round, Missed, ReadAsCode, EndMode, StepsOver, Opening, CharCloses;
    var s := source[i..];
    var (n, next) := Round(mode, s);
    assert Rest(source, i) == s && Rest(s, n) == Rest(source, i + n);
    NothingMissed(next, Rest(s, n));
    forall k | k >= i + n
      ensures Missed(Code, source, k) == Missed(Code, source, i + n) + Missed(next, Rest(source, i + n), k - (i + n))
      ensures ReadAsCode(Code, source, k) <==> ReadAsCode(next, Rest(source, i + n), k - (i + n))
    {
      BehindRound(mode, s, k - i);
      BehindRound(mode, s, n);
      assert k - i - n == k - (i + n) && i + n - i == n;
    }
    BehindRound(mode, s, n);
    assert Missed(Code, source, i + n) == Missed(Code, source, i) + Missed(mode, s, i + n - i);
  }

  lemma NothingMissed(mode: Mode, s: string)
    ensures Missed(mode, s, 0) == 0
  {
  }

  lemma StepsTwo(mode: Mode, s: string)
    requires StepsOver(mode, s)
    ensures Round(mode, s).0 == 2
  {
  }

  lemma {:induction false} NewlinesConcat(a: string, b: string)
    ensures Newlines(a + b) == Newlines(a) + Newlines(b)
  {
    if a == "" {
      assert a + b == b;
    } else {
      assert (a + b)[1..] == a[1..] + b;
      NewlinesConcat(a[1..], b);
    }
  }

  lemma {:induction false} NoNewlines(s: string)
    requires '\n' !in s
    ensures Newlines(s) == 0
  {
    if s != "" {
      NoNewlines(s[1..]);
    }
  }

  /** Behind its first character a round meets no newline but one that a string literal escapes. */
  lemma RoundNewlines(mode: Mode, s: string)
    requires s != "" && (mode.Chr? ==> CharCloses(s, true, false))
    ensures var n := Round(mode, s).0;
      Newlines(s[1..if n <= |s| then n else |s|]) == if StepsOver(mode, s) then 1 else 0
  {
    hide Round, Opening, CharCloses;
    var n := Round(mode, s).0;
    var between := s[1..if n <= |s| then n else |s|];
    if StepsOver(mode, s) {
      StepsTwo(mode, s);
      assert between == "\n" && between[1..] == "";
    } else {
      RoundStaysOnLine(mode, s);
      NoNewlines(between);
    }
  }

  lemma RoundStaysOnLine(mode: Mode, s: string)
    requires s != "" && (mode.Chr? ==> CharCloses(s, true, false)) && !StepsOver(mode, s)
    ensures forall k :: 1 <= k < Round(mode, s).0 && k < |s| ==> s[k] != '\n'
  {
    if mode.Chr? && s[0] == '\\' {
      EscapedCharCloses(s);
    } else if mode.Code? && Opening(s).Some? {
      OpeningHasNoNewline(s);
    } else if mode.BlockComment? {
      assert "/*"[1] == '*' && "*/"[1] == '/';
    } else if mode.RawStr? && s[0] == '"' && HashesFollow(s[1..], mode.hashes) {
      assert forall k :: 1 <= k < 1 + mode.hashes ==> s[k] == s[1..][k - 1];
    }
    hide Opening, CharCloses;
  }

  /** An opening stays on its line. */
  lemma OpeningHasNoNewline(s: string)
    requires Opening(s).Some?
    ensures forall k :: 1 <= k < Opening(s).value.0 ==> s[k] != '\n'
  {
    var n := Opening(s).value.0;
    forall k | 1 <= k < n ensures s[k] != '\n' {
      if n > 2 {
        var p := RawPrefix(s);
        assert k >= p ==> s[p..][k - p] == s[k];
        assert k == 1 && p == 2 ==> s[1] == "br"[1];
      }
    }
  }

  lemma EscapedCharCloses(s: string)
    requires CharCloses(s, true, false) && s[0] == '\\'
    ensures |s| > 1 && s[1] != '\n' && CharCloses(s[2..], false, false) && CharCloses(s[2..], true, false)
  {
    assert CharCloses(s[1..], false, true);
    assert s[1..][1..] == s[2..];
    assert CharCloses(s[2..], false, false);
  }

  /** One round keeps count of the lines. */
  lemma LineMoves(source: string, i: nat, mode: Mode, line: nat)
    requires i < |source| && Underway(source, i, mode) && IsLine(source, i, line)
    requires mode.Chr? ==> CharCloses(source[i..], true, false)
    ensures var (n, next) := Round(mode, source[i..]);
      Underway(source, i + n, next) && IsLine(source, i + n, if source[i] == '\n' then line + 1 else line)
  {
    hide Round, Missed, StepsOver, Underway, Newlines, CharCloses, Opening;
    var s := source[i..];
    var n := Round(mode, s).0;
    UnderwayGoesOn(source, i, mode);
    RoundNewlines(mode, s);
    NewlinesInFront(source[i], s[1..if n <= |s| then n else |s|]);
    var end := if i + n < |source| then i + n else |source|;
    var between := s[1..if n <= |s| then n else |s|];
    assert between == source[i + 1..end];
    assert source[..end] == source[..i] + ([source[i]] + between);
    assert source[..|source|] == source;
    NewlinesConcat(source[..i], [source[i]] + between);
  }

  lemma NewlinesInFront(c: char, s: string)
    ensures Newlines([c] + s) == (if c == '\n' then 1 else 0) + Newlines(s)
  {
    assert ([c] + s)[1..] == s;
  }

  // ---------- The loop ----------

  datatype ScanError =
    | UnmatchedBracket(bracket: char, line: nat)
    | UnclosedBracket(bracket: char, line: nat)
    | UnterminatedBlockComment | UnterminatedString | UnterminatedChar | UnterminatedRawString

  /** The inner function `starts_raw`: the position of the opening quote and the number of hashes. */
  method StartsRaw(source: string, at: nat) returns (open: Option<(nat, nat)>)
    requires at < |source|
    ensures open.Some? <==> RawOpen(source[at..]).Some?
    ensures open.Some? ==>
      && open.value.1 == RawOpen(source[at..]).value
      && open.value.0 + 1 == at + RawOpenLength(source[at..])
  {
    var cursor := at;
    if at + 1 < |source| && source[at] == 'b' && source[at + 1] == 'r' {
      cursor := at + 2;
    } else if source[at] == 'r' {
      cursor := at + 1;
    } else {
      return None;
    }
    ghost var from := cursor;
    var hashes := 0;
    while cursor < |source| && source[cursor] == '#'
      invariant from <= cursor <= |source| && hashes == cursor - from
      invariant HashCount(source[from..]) == hashes + HashCount(source[cursor..])
    {
      assert source[cursor..][1..] == source[cursor + 1..];
      hashes := hashes + 1;
      cursor := cursor + 1;
    }
    assert source[at..][from - at..] == source[from..];
    if cursor < |source| && source[cursor] == '"' {
      return Some((cursor, hashes));
    }
    return None;
  }

  /** The inner function `starts_char`. */
  method StartsChar(source: string, at: nat) returns (closes: bool)
    requires at < |source|
    ensures closes <==> CharCloses(source[at + 1..], true, false)
  {
    var cursor := at + 1;
    var escaped := false;
    while cursor < |source| && source[cursor] != '\n'
      invariant at < cursor <= |source|
      invariant CharCloses(source[at + 1..], true, false) <==> CharCloses(source[cursor..], cursor == at + 1, escaped)
    {
      var current := source[cursor];
      assert source[cursor..][1..] == source[cursor + 1..];
      if escaped {
        escaped := false;
      } else if current == '\\' {
        escaped := true;
      } else if current == '\'' {
        return true;
      } else if cursor > at + 1 && current in LIFETIME_ENDS {
        return false;
      }
      cursor := cursor + 1;
    }
    return false;
  }

  function Chars(stack: seq<(char, nat)>): (r: string)
    ensures |r| == |stack| && forall k :: 0 <= k < |r| ==> r[k] == stack[k].0
  {
    seq(|stack|, k requires 0 <= k < |stack| => stack[k].0)
  }

  /** The scan of `source` has seen the brackets `seen` and stands at `i` in `mode`. */
  ghost predicate ScanState(source: string, i: nat, mode: Mode, seen: string) {
    && Delims(Code, source) == Prepend(seen, Delims(mode, Rest(source, i)))
    && (mode.BlockComment? ==> mode.depth > 0)
    && (mode.Chr? ==> CharCloses(Rest(source, i), true, false))
    && (i > |source| ==> mode.Str?)
  }

  /** One round of the loop: from `i` in `mode` to `i'` in `mode'`, past at most one bracket. */
  ghost predicate Advances(source: string, i: nat, mode: Mode, bracket: string, i': nat, mode': Mode) {
    && i < i'
    && Delims(mode, Rest(source, i)) == Prepend(bracket, Delims(mode', Rest(source, i')))
    && (mode'.BlockComment? ==> mode'.depth > 0)
    && (mode'.Chr? ==> CharCloses(Rest(source, i'), true, false))
    && (i' > |source| ==> mode'.Str?)
  }

  lemma PrependNothing()
    ensures forall w :: Prepend("", w) == w
  {
    forall w ensures Prepend("", w) == w {
      if w.Some? {
        assert "" + w.value == w.value;
      }
    }
  }

  /** A round inside a comment. */
  method SkipInComment(source: string, i: nat, mode: Mode) returns (i': nat, mode': Mode)
    requires i < |source| && (mode.LineComment? || (mode.BlockComment? && mode.depth > 0))
    ensures Advances(source, i, mode, "", i', mode') && (i' - i, mode') == Round(mode, source[i..])
  {
    var c := source[i];
    var two := i + 1 < |source|;
    ghost var s := source[i..];
    assert s[1..] == source[i + 1..] && (two ==> s[2..] == source[i + 2..]);
    PrependNothing();
    if mode.LineComment? {
      return i + 1, if c == '\n' then Code else LineComment;
    }
    if c == '/' && two && source[i + 1] == '*' {
      assert "/*" <= s;
      return i + 2, BlockComment(mode.depth + 1);
    }
    if c == '*' && two && source[i + 1] == '/' {
      assert "*/" <= s;
      return i + 2, if mode.depth - 1 == 0 then Code else BlockComment(mode.depth - 1);
    }
    return i + 1, mode;
  }

  /** A round inside a string or character literal. */
  method SkipInQuotes(source: string, i: nat, mode: Mode) returns (i': nat, mode': Mode)
    requires i < |source| && (mode.Str? || (mode.Chr? && CharCloses(source[i..], true, false)))
    ensures Advances(source, i, mode, "", i', mode') && (i' - i, mode') == Round(mode, source[i..])
  {
    var c := source[i];
    ghost var s := source[i..];
    assert s[1..] == source[i + 1..] && (|s| > 1 ==> s[2..] == source[i + 2..]);
    PrependNothing();
    if c == '\\' {
      if mode.Chr? {
        EscapedCharCloses(s);
      }
      return i + 2, mode;
    }
    return i + 1, if c == (if mode.Str? then '"' else '\'') then Code else mode;
  }

  /** A round inside a raw string literal. */
  method SkipInRaw(source: string, i: nat, hashes: nat) returns (i': nat, mode': Mode)
    requires i < |source|
    ensures Advances(source, i, RawStr(hashes), "", i', mode') && (i' - i, mode') == Round(RawStr(hashes), source[i..])
  {
    ghost var s := source[i..];
    assert s[1..] == source[i + 1..];
    PrependNothing();
    HashesAt(source, i, hashes);
    hide HashesFollow, Opening, CharCloses;
    if source[i] == '"' && i + 1 + hashes <= |source| && forall k :: i + 1 <= k < i + 1 + hashes ==> source[k] == '#' {
      assert s[1 + hashes..] == source[i + 1 + hashes..];
      return i + 1 + hashes, Code;
    }
    return i + 1, RawStr(hashes);
  }

  lemma HashesAt(source: string, i: nat, hashes: nat)
    requires i < |source|
    ensures HashesFollow(source[i + 1..], hashes) <==>
      i + 1 + hashes <= |source| && forall k :: i + 1 <= k < i + 1 + hashes ==> source[k] == '#'
  {
    var t := source[i + 1..];
    if HashesFollow(t, hashes) {
      forall k | i + 1 <= k < i + 1 + hashes ensures source[k] == '#' {
        assert source[k] == t[k - i - 1];
      }
    }
  }

  /** The tests in code for a comment or a raw string. */
  method OpensCommentOrRaw(source: string, i: nat) returns (r: Option<(nat, Mode)>)
    requires i < |source|
    ensures r.Some? ==> Opening(source[i..]) == r
    ensures r.None? ==> !("//" <= source[i..]) && !("/*" <= source[i..]) && RawOpen(source[i..]).None?
  {
    var c := source[i];
    var next := if i + 1 < |source| then Some(source[i + 1]) else None;
    ghost var s := source[i..];
    if c == '/' && next == Some('/') {
      assert "//" <= s;
      return Some((2, LineComment));
    }
    assert !("//" <= s);
    if c == '/' && next == Some('*') {
      assert "/*" <= s;
      return Some((2, BlockComment(1)));
    }
    assert !("/*" <= s);
    var raw := StartsRaw(source, i);
    if raw.Some? {
      return Some((raw.value.0 + 1 - i, RawStr(raw.value.1)));
    }
    return None;
  }

  /** The tests in code for a comment or a literal. */
  method Opens(source: string, i: nat) returns (r: Option<(nat, Mode)>)
    requires i < |source|
    ensures r == Opening(source[i..])
  {
    r := OpensCommentOrRaw(source, i);
    if r.Some? {
      return;
    }
    hide RawOpen, CharCloses;
    var c := source[i];
    var next := if i + 1 < |source| then Some(source[i + 1]) else None;
    ghost var s := source[i..];
    if c == 'b' && next == Some('"') {
      assert "b\"" <= s;
      return Some((2, Str));
    }
    assert !("b\"" <= s);
    if c == '"' {
      return Some((1, Str));
    }
    if c == 'b' && next == Some('\'') {
      assert "b'" <= s && source[i + 1 + 1..] == s[2..];
      var closes := StartsChar(source, i + 1);
      return if closes then Some((2, Chr)) else None;
    }
    assert !("b'" <= s);
    if c == '\'' {
      assert source[i + 1..] == s[1..];
      var closes := StartsChar(source, i);
      return if closes then Some((1, Chr)) else None;
    }
    return None;
  }

  lemma PrependTwice(u: string, v: string, w: Option<string>)
    ensures Prepend(u, Prepend(v, w)) == Prepend(u + v, w)
  {
    if w.Some? {
      assert u + (v + w.value) == (u + v) + w.value;
    }
  }

  lemma OneRound(source: string, i: nat, mode: Mode, seen: string, bracket: string, i': nat, mode': Mode)
    requires ScanState(source, i, mode, seen) && Advances(source, i, mode, bracket, i', mode')
    ensures ScanState(source, i', mode', seen + bracket)
  {
    PrependTwice(seen, bracket, Delims(mode', Rest(source, i')));
  }

  /** A round in code, past what `Opening` finds or past one character. */
  lemma CodeRound(source: string, i: nat)
    requires i < |source|
    ensures var s := source[i..];
      match Opening(s)
      case Some((n, mode)) => Advances(source, i, Code, "", i + n, mode)
      case None => Advances(source, i, Code, if IsOpen(s[0]) || IsClose(s[0]) then [s[0]] else "", i + 1, Code)
  {
    var s := source[i..];
    PrependNothing();
    assert s[1..] == source[i + 1..];
    if Opening(s).Some? {
      var n := Opening(s).value.0;
      assert s[n..] == source[i + n..];
      assert |s| > 1 ==> s[2..] == source[i + 2..];
    }
  }

  /** A bracket that does not match makes every continuation unbalanced. */
  lemma UnmatchedStays(source: string, i: nat, seen: string, stack: string)
    requires i < |source| && ScanState(source, i, Code, seen) && Reduce("", seen) == Open(stack)
    requires Opening(source[i..]).None? && IsClose(source[i])
    requires stack == "" || stack[|stack| - 1] != Opener(source[i])
    ensures Delims(Code, source).Some? ==> Reduce("", Delims(Code, source).value) == Unmatched
  {
    CodeRound(source, i);
    OneRound(source, i, Code, seen, [source[i]], i + 1, Code);
    var rest := Delims(Code, Rest(source, i + 1));
    if rest.Some? {
      var w := [source[i]] + rest.value;
      assert seen + [source[i]] + rest.value == seen + w;
      ReduceConcat("", seen, w);
    }
  }

  lemma AdvanceMoves(source: string, i: nat, mode: Mode, bracket: string, i': nat, mode': Mode)
    requires Advances(source, i, mode, bracket, i', mode')
    ensures i < i'
  {
  }

  /** A character literal that opened has closed by the end. */
  lemma NotInChar(source: string, i: nat, mode: Mode, seen: string)
    requires i >= |source| && ScanState(source, i, mode, seen)
    ensures !mode.Chr?
  {
  }

  lemma ScanEnds(source: string, i: nat, mode: Mode, seen: string, stack: string)
    requires i >= |source| && ScanState(source, i, mode, seen) && Reduce("", seen) == Open(stack)
    ensures if mode.Code? || mode.LineComment? then Delims(Code, source) == Some(seen) else Delims(Code, source).None?
  {
    assert seen + "" == seen;
  }

  lemma PushReduces(seen: string, stack: string, c: char)
    requires Reduce("", seen) == Open(stack) && IsOpen(c)
    ensures Reduce("", seen + [c]) == Open(stack + [c])
  {
    ReduceConcat("", seen, [c]);
    assert [c][1..] == "";
  }

  lemma PopReduces(seen: string, stack: string, c: char)
    requires Reduce("", seen) == Open(stack) && IsClose(c) && stack != "" && stack[|stack| - 1] == Opener(c)
    ensures Reduce("", seen + [c]) == Open(stack[..|stack| - 1])
  {
    ReduceConcat("", seen, [c]);
    assert [c][1..] == "";
  }

  /** Every line on the stack is reported for a bracket of the source. */
  ghost predicate StackLines(source: string, stack: seq<(char, nat)>) {
    forall e :: e in stack ==> ReportedAt(source, e.0, e.1)
  }

  /** The bracket stack meets one character of code. */
  method Bracket(c: char, line: nat, stack: seq<(char, nat)>, ghost seen: string, ghost source: string)
    returns (unmatched: bool, stack': seq<(char, nat)>, ghost bracket: string)
    requires Reduce("", seen) == Open(Chars(stack)) && StackLines(source, stack) && ReportedAt(source, c, line)
    ensures StackLines(source, stack')
    ensures unmatched <==> IsClose(c) && (stack == [] || stack[|stack| - 1].0 != Opener(c))
    ensures bracket == if IsOpen(c) || IsClose(c) then [c] else ""
    ensures !unmatched ==> Reduce("", seen + bracket) == Open(Chars(stack'))
  {
    unmatched, stack', bracket := false, stack, if IsOpen(c) || IsClose(c) then [c] else "";
    assert seen + "" == seen;
    if IsOpen(c) {
      PushReduces(seen, Chars(stack), c);
      assert Chars(stack + [(c, line)]) == Chars(stack) + [c];
      stack' := stack + [(c, line)];
    } else if IsClose(c) {
      if stack == [] || stack[|stack| - 1].0 != Opener(c) {
        unmatched := true;
      } else {
        PopReduces(seen, Chars(stack), c);
        assert Chars(stack[..|stack| - 1]) == Chars(stack)[..|stack| - 1];
        stack' := stack[..|stack| - 1];
      }
    }
  }

  lemma ReportedHere(source: string, i: nat, line: nat)
    requires i < |source| && Underway(source, i, Code) && Opening(source[i..]).None? && IsLine(source, i, line)
    ensures ReportedAt(source, source[i], line)
  {
    assert ReadAsCode(Code, Rest(source, i), i - i);
  }

  lemma RoundInCode(s: string)
    requires s != ""
    ensures Round(Code, s) == if Opening(s).Some? then Opening(s).value else (1, Code)
  {
  }

  lemma OpensOnNoNewline(source: string, i: nat)
    requires i < |source| && Opening(source[i..]).Some?
    ensures source[i] != '\n'
  {
    var s := source[i..];
    assert s[0] == source[i];
    assert "//"[0] == '/' && "/*"[0] == '/' && "br"[0] == 'b' && "r"[0] == 'r' && "b\""[0] == 'b' && "b'"[0] == 'b';
  }

  /** A round in code; an unmatched closing bracket ends the scan. */
  method CodeStep(source: string, i: nat, line: nat, stack: seq<(char, nat)>, ghost seen: string)
    returns (unmatched: bool, i': nat, mode': Mode, line': nat, stack': seq<(char, nat)>, ghost bracket: string)
    requires i < |source| && ScanState(source, i, Code, seen) && Reduce("", seen) == Open(Chars(stack))
    requires StackLines(source, stack) && Underway(source, i, Code) && IsLine(source, i, line)
    ensures StackLines(source, stack')
    ensures unmatched ==>
      && IsClose(source[i]) && ReportedAt(source, source[i], line')
      && (Delims(Code, source).Some? ==> Reduce("", Delims(Code, source).value) == Unmatched)
    ensures !unmatched ==>
      && Advances(source, i, Code, bracket, i', mode') && Reduce("", seen + bracket) == Open(Chars(stack'))
      && Underway(source, i', mode') && IsLine(source, i', line')
  {
    hide *;
    unmatched, i', mode', line', stack', bracket := false, i + 1, Code, line, stack, "";
    var c := source[i];
    assert source[i..][0] == c && seen + "" == seen;
    CodeRound(source, i);
    LineMoves(source, i, Code, line);
    RoundInCode(source[i..]);
    var open := Opens(source, i);
    if open.Some? {
      i', mode' := i + open.value.0, open.value.1;
      OpensOnNoNewline(source, i);
      return;
    }
    ReportedHere(source, i, line);
    unmatched, stack', bracket := Bracket(c, line, stack, seen, source);
    if unmatched {
      UnmatchedStays(source, i, seen, Chars(stack));
      return;
    }
    line' := if c == '\n' then line + 1 else line;
  }

  /** A round in a comment or a literal. */
  method SkipStep(source: string, i: nat, mode: Mode, ghost seen: string) returns (i': nat, mode': Mode)
    requires i < |source| && !mode.Code? && ScanState(source, i, mode, seen)
    ensures Advances(source, i, mode, "", i', mode') && (i' - i, mode') == Round(mode, source[i..])
  {
    match mode
    case LineComment => i', mode' := SkipInComment(source, i, mode);
    case BlockComment(_) => i', mode' := SkipInComment(source, i, mode);
    case Str => i', mode' := SkipInQuotes(source, i, mode);
    case Chr => i', mode' := SkipInQuotes(source, i, mode);
    case RawStr(hashes) => i', mode' := SkipInRaw(source, i, hashes);
  }

  lemma CharStays(source: string, i: nat, mode: Mode, seen: string)
    requires i < |source| && ScanState(source, i, mode, seen)
    ensures mode.Chr? ==> CharCloses(source[i..], true, false)
  {
  }

  lemma NoNewlineInChar(source: string, i: nat, seen: string)
    requires i < |source| && ScanState(source, i, Chr, seen)
    ensures source[i] != '\n'
  {
  }

  /** What an error says of the source. */
  ghost predicate Reports(source: string, error: ScanError) {
    var w := Delims(Code, source);
    match error
    case UnmatchedBracket(c, line) =>
      IsClose(c) && ReportedAt(source, c, line) && (w.Some? ==> Reduce("", w.value) == Unmatched)
    case UnclosedBracket(c, line) =>
      w.Some? && ReportedAt(source, c, line) && exists below :: Reduce("", w.value) == Open(below + [c])
    case UnterminatedBlockComment => w.None? && EndMode(Code, source).BlockComment?
    case UnterminatedString => w.None? && EndMode(Code, source).Str?
    case UnterminatedRawString => w.None? && EndMode(Code, source).RawStr?
    case UnterminatedChar => false
  }

  lemma ScanStarts(source: string)
    ensures ScanState(source, 0, Code, "") && Reduce("", "") == Open(Chars([])) && StackLines(source, [])
    ensures Underway(source, 0, Code) && IsLine(source, 0, 1)
  {
    PrependNothing();
    assert Chars([]) == "" && source[0..] == source;
    hide Opening, CharCloses, Round;
  }

  lemma EndsHere(source: string, i: nat, mode: Mode)
    requires i >= |source| && Underway(source, i, mode)
    ensures EndMode(Code, source) == mode
  {
    assert Rest(source, i) == "";
  }

  lemma ScanFails(source: string)
    ensures Delims(Code, source).None? ==> !Accepts(source)
    ensures Delims(Code, source).None? && EndMode(Code, source).Str? ==> Reports(source, UnterminatedString)
    ensures Delims(Code, source).None? && EndMode(Code, source).BlockComment? ==>
      Reports(source, UnterminatedBlockComment)
    ensures Delims(Code, source).None? && EndMode(Code, source).RawStr? ==> Reports(source, UnterminatedRawString)
    ensures Delims(Code, source).Some? ==> (Accepts(source) <==> Reduce("", Delims(Code, source).value) == Open(""))
  {
    hide Delims, EndMode, Reduce;
  }

  lemma ReportsUnmatched(source: string, c: char, line: nat)
    requires IsClose(c) && ReportedAt(source, c, line)
    requires Delims(Code, source).Some? ==> Reduce("", Delims(Code, source).value) == Unmatched
    ensures Reports(source, UnmatchedBracket(c, line)) && !Accepts(source)
  {
  }

  lemma ReportsUnclosed(source: string, stack: seq<(char, nat)>)
    requires stack != [] && StackLines(source, stack)
    requires Delims(Code, source).Some? && Reduce("", Delims(Code, source).value) == Open(Chars(stack))
    ensures var (c, line) := stack[|stack| - 1];
      Reports(source, UnclosedBracket(c, line)) && !Accepts(source)
  {
    hide Delims, Reduce, ReportedAt;
    var open, top := Chars(stack), stack[|stack| - 1];
    assert top in stack && ReportedAt(source, top.0, top.1);
    var below := open[..|open| - 1];
    assert open == below + [top.0] && open != "";
    assert Reduce("", Delims(Code, source).value) == Open(below + [top.0]);
  }

  /** `balanced_rust`. */
  method BalancedRust(source: string) returns (error: Option<ScanError>)
    ensures error.None? <==> Accepts(source)
    ensures error.Some? ==> Reports(source, error.value)
  {
    hide *;
    var stack: seq<(char, nat)> := [];
    var i: nat, line: nat, mode := 0, 1, Code;
    ghost var seen := "";
    ScanStarts(source);
    while i < |source|
      invariant ScanState(source, i, mode, seen)
      invariant Reduce("", seen) == Open(Chars(stack))
      invariant StackLines(source, stack) && Underway(source, i, mode) && IsLine(source, i, line)
    {
      var c := source[i];
      ghost var from, before, bracket := i, mode, "";
      assert seen + "" == seen;
      if mode.Code? {
        var unmatched;
        unmatched, i, mode, line, stack, bracket := CodeStep(source, i, line, stack, seen);
        if unmatched {
          ReportsUnmatched(source, c, line);
          return Some(UnmatchedBracket(c, line));
        }
      } else {
        if mode.Chr? {
          NoNewlineInChar(source, i, seen);
          if c == '\n' {
            assert false;
          }
        }
        ghost var current := line;
        if c == '\n' {
          line := line + 1;
        }
        i, mode := SkipStep(source, i, mode, seen);
        CharStays(source, from, before, seen);
        LineMoves(source, from, before, current);
      }
      OneRound(source, from, before, seen, bracket, i, mode);
      AdvanceMoves(source, from, before, bracket, i, mode);
      seen := seen + bracket;
    }
    ScanEnds(source, i, mode, seen, Chars(stack));
    NotInChar(source, i, mode, seen);
    if (mode.Code? || mode.LineComment?) && stack != [] {
      ReportsUnclosed(source, stack);
    }
    EndsHere(source, i, mode);
    ScanFails(source);
    match mode
    case BlockComment(_) => return Some(UnterminatedBlockComment);
    case Str => return Some(UnterminatedString);
    case Chr => assert false;
    case RawStr(_) => return Some(UnterminatedRawString);
    case Code => return if stack == [] then None else Some(UnclosedBracket(stack[|stack| - 1].0, stack[|stack| - 1].1));
    case LineComment =>
      return if stack == [] then None else Some(UnclosedBracket(stack[|stack| - 1].0, stack[|stack| - 1].1));
  }
}
