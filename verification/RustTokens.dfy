/** A grammar of the tokens that the scanner skips or reads, independent of its modes, and the proof
    that the scanner accepts exactly the sources that split into such tokens with balanced brackets. */
module RustTokens {
  import opened Options
  import opened Brackets
  import opened RustScanner

  /** The inside of a block comment after its opening, up to its own end. */
  datatype BlockText = BlockEnd | BlockChar(c: char, rest: BlockText) | BlockNest(inner: BlockText, rest: BlockText)

  /** One character of a literal, or a backslash and the character that it escapes. */
  datatype Piece = Lit(c: char) | Esc(c: char)

  datatype Token =
    | Plain(c: char)
    | Line(text: string, ended: bool)
    | Block(inside: BlockText)
    | Quoted(byte: bool, pieces: seq<Piece>)
    | Character(byte: bool, pieces: seq<Piece>)
    | Raw(byte: bool, hashes: nat, body: string)

  // ---------- Text ----------

  function BlockString(b: BlockText): string {
    match b
    case BlockEnd => "*/"
    case BlockChar(c, rest) => [c] + BlockString(rest)
    case BlockNest(inner, rest) => "/*" + (BlockString(inner) + BlockString(rest))
  }

  function PieceString(p: Piece): string {
    match p
    case Lit(c) => [c]
    case Esc(c) => ['\\', c]
  }

  function PiecesString(ps: seq<Piece>): string {
    if ps == [] then "" else PieceString(ps[0]) + PiecesString(ps[1..])
  }

  function Hashes(n: nat): (r: string)
    ensures |r| == n && forall k :: 0 <= k < n ==> r[k] == '#'
  {
    seq(n, _ => '#')
  }

  function Text(t: Token): string {
    match t
    case Plain(c) => [c]
    case Line(text, ended) => "//" + (text + if ended then "\n" else "")
    case Block(body) => "/*" + BlockString(body)
    case Quoted(byte, pieces) => (if byte then "b\"" else "\"") + (PiecesString(pieces) + "\"")
    case Character(byte, pieces) => (if byte then "b'" else "'") + (PiecesString(pieces) + "'")
    case Raw(byte, h, body) => ((if byte then "br" else "r") + Hashes(h) + "\"") + (body + ("\"" + Hashes(h)))
  }

  function AllText(ts: seq<Token>): string {
    if ts == [] then "" else Text(ts[0]) + AllText(ts[1..])
  }

  // ---------- Well-formedness ----------

  /** Every character is taken for itself: none starts a `/*` or `*/`. */
  predicate BlockOk(b: BlockText) {
    match b
    case BlockEnd => true
    case BlockChar(c, rest) => !("/*" <= [c] + BlockString(rest)) && !("*/" <= [c] + BlockString(rest)) && BlockOk(rest)
    case BlockNest(inner, rest) => BlockOk(inner) && BlockOk(rest)
  }

  predicate QuotedOk(ps: seq<Piece>) {
    forall p :: p in ps && p.Lit? ==> p.c != '"' && p.c != '\\'
  }

  /** A character literal stays on its line, and behind its first piece it holds nothing that would
      end a lifetime. */
  predicate CharacterOk(ps: seq<Piece>) {
    && (forall p :: p in ps ==> p.c != '\n' && (p.Lit? ==> p.c != '\'' && p.c != '\\'))
    && (forall k :: 1 <= k < |ps| && ps[k].Lit? ==> ps[k].c !in LIFETIME_ENDS)
  }

  /** The body does not hold its own end. */
  predicate RawOk(h: nat, body: string) {
    forall k :: 0 <= k < |body| && body[k] == '"' ==> !HashesFollow((body + ("\"" + Hashes(h)))[k + 1..], h)
  }

  /** `t` is the token at the front of `Text(t) + after`. */
  predicate TokenOk(t: Token, after: string) {
    match t
    case Plain(c) => Opening([c] + after).None?
    case Line(text, ended) => '\n' !in text && (!ended ==> after == "")
    case Block(body) => BlockOk(body)
    case Quoted(_, pieces) => QuotedOk(pieces)
    case Character(_, pieces) => CharacterOk(pieces)
    case Raw(_, h, body) => RawOk(h, body)
  }

  predicate AllOk(ts: seq<Token>) {
    ts == [] || (TokenOk(ts[0], AllText(ts[1..])) && AllOk(ts[1..]))
  }

  function BracketOf(t: Token): string {
    if t.Plain? && (IsOpen(t.c) || IsClose(t.c)) then [t.c] else ""
  }

  /** The brackets among the plain characters. */
  function BracketsOf(ts: seq<Token>): string {
    if ts == [] then "" else BracketOf(ts[0]) + BracketsOf(ts[1..])
  }

  // ---------- From tokens to the scan ----------

  lemma {:induction false} ScanBlock(b: BlockText, depth: nat, after: string)
    requires BlockOk(b) && depth > 0
    ensures Delims(BlockComment(depth), BlockString(b) + after) ==
      Delims(if depth == 1 then Code else BlockComment(depth - 1), after)
    decreases b
  {
    var s := BlockString(b) + after;
    match b
    case BlockEnd =>
      assert s[0] == '*' && "/*"[0] == '/';
      assert "*/" <= s && !("/*" <= s) && s[2..] == after;
    case BlockChar(c, rest) =>
      var t := BlockString(rest);
      assert s == [c] + (t + after) && |t| >= 1;
      assert s[..2] == ([c] + t)[..2];
      assert "/*" <= s <==> "/*" <= [c] + t;
      assert "*/" <= s <==> "*/" <= [c] + t;
      assert s[1..] == t + after;
      ScanBlock(rest, depth, after);
    case BlockNest(inner, rest) =>
      assert s == "/*" + (BlockString(inner) + (BlockString(rest) + after));
      assert "/*" <= s && s[2..] == BlockString(inner) + (BlockString(rest) + after);
      ScanBlock(inner, depth + 1, BlockString(rest) + after);
      ScanBlock(rest, depth, after);
  }

  lemma {:induction false} ScanLine(text: string, ended: bool, after: string)
    requires '\n' !in text && (!ended ==> after == "")
    ensures Delims(LineComment, text + (if ended then "\n" else "") + after) == Delims(Code, after)
  {
    var s := text + (if ended then "\n" else "") + after;
    if text == "" {
      assert ended ==> s[0] == '\n' && s[1..] == after;
      assert !ended ==> s == after;
    } else {
      assert s[0] == text[0] && s[1..] == text[1..] + (if ended then "\n" else "") + after;
      ScanLine(text[1..], ended, after);
    }
  }

  lemma PiecesSplit(ps: seq<Piece>, after: string)
    requires ps != []
    ensures PiecesString(ps) + after == PieceString(ps[0]) + (PiecesString(ps[1..]) + after)
  {
  }

  lemma StrStep(p: Piece, t: string)
    requires p.Lit? ==> p.c != '"' && p.c != '\\'
    ensures Delims(Str, PieceString(p) + t) == Delims(Str, t)
  {
    var s := PieceString(p) + t;
    assert if p.Lit? then s[0] == p.c && s[1..] == t else s[0] == '\\' && s[2..] == t;
  }

  lemma ChrStep(p: Piece, t: string)
    requires p.c != '\n' && (p.Lit? ==> p.c != '\'' && p.c != '\\')
    ensures Delims(Chr, PieceString(p) + t) == Delims(Chr, t)
  {
    var s := PieceString(p) + t;
    assert if p.Lit? then s[0] == p.c && s[1..] == t else s[0] == '\\' && s[2..] == t;
  }

  lemma StrCloses(after: string)
    ensures Delims(Str, "\"" + after) == Delims(Code, after)
  {
    var s := "\"" + after;
    assert s[0] == '"' && "\\"[0] == '\\' && s != "\\";
    assert s[1..] == after;
  }

  lemma ChrCloses(after: string)
    ensures Delims(Chr, "'" + after) == Delims(Code, after)
  {
    var s := "'" + after;
    assert s[0] == '\'' && "\\"[0] == '\\' && s != "\\";
    assert s[1..] == after;
  }

  lemma {:induction false} ScanQuoted(ps: seq<Piece>, after: string)
    requires QuotedOk(ps)
    ensures Delims(Str, PiecesString(ps) + ("\"" + after)) == Delims(Code, after)
  {
    if ps == [] {
      StrCloses(after);
      assert PiecesString(ps) + ("\"" + after) == "\"" + after;
    } else {
      PiecesSplit(ps, "\"" + after);
      assert ps[0] in ps;
      StrStep(ps[0], PiecesString(ps[1..]) + ("\"" + after));
      ScanQuoted(ps[1..], after);
      hide Delims, PieceString, PiecesString;
    }
  }

  lemma {:induction false} ScanCharacter(ps: seq<Piece>, after: string)
    requires forall p :: p in ps ==> p.c != '\n' && (p.Lit? ==> p.c != '\'' && p.c != '\\')
    ensures Delims(Chr, PiecesString(ps) + ("'" + after)) == Delims(Code, after)
  {
    if ps == [] {
      ChrCloses(after);
      assert PiecesString(ps) + ("'" + after) == "'" + after;
    } else {
      PiecesSplit(ps, "'" + after);
      assert ps[0] in ps;
      ChrStep(ps[0], PiecesString(ps[1..]) + ("'" + after));
      ScanCharacter(ps[1..], after);
      hide Delims, PieceString, PiecesString;
    }
  }

  lemma {:induction false} CharacterCloses(ps: seq<Piece>, first: bool, after: string)
    requires forall p :: p in ps ==> p.c != '\n' && (p.Lit? ==> p.c != '\'' && p.c != '\\')
    requires forall k :: (if first then 1 else 0) <= k < |ps| && ps[k].Lit? ==> ps[k].c !in LIFETIME_ENDS
    ensures CharCloses(PiecesString(ps) + ("'" + after), first, false)
  {
    var s := PiecesString(ps) + ("'" + after);
    if ps == [] {
      assert s == "'" + after;
    } else {
      var t := PiecesString(ps[1..]) + ("'" + after);
      PiecesSplit(ps, "'" + after);
      assert s == PieceString(ps[0]) + t;
      assert ps[0] in ps;
      CharacterCloses(ps[1..], false, after);
      if ps[0].Lit? {
        assert s[0] == ps[0].c && s[1..] == t;
      } else {
        assert s[0] == '\\' && s[1..][0] == ps[0].c && s[1..][1..] == t;
        assert CharCloses(s[1..], false, true);
      }
    }
  }

  lemma {:induction false} ScanRaw(h: nat, body: string, after: string)
    requires RawOk(h, body)
    ensures Delims(RawStr(h), body + ("\"" + Hashes(h)) + after) == Delims(Code, after)
  {
    var end := "\"" + Hashes(h);
    var s := body + end + after;
    if body == "" {
      assert s == end + after && s[0] == '"' && s[1..] == Hashes(h) + after && s[1 + h..] == after;
      assert HashesFollow(s[1..], h);
    } else {
      assert s[0] == body[0] && s[1..] == body[1..] + end + after;
      assert (body + end)[1..] == body[1..] + end;
      if s[0] == '"' {
        assert !HashesFollow((body + end)[1..], h);
        assert forall k :: 0 <= k < h ==> s[1..][k] == (body[1..] + end)[k];
      }
      forall k | 0 <= k < |body[1..]| && body[1..][k] == '"'
        ensures !HashesFollow((body[1..] + end)[k + 1..], h)
      {
        assert (body[1..] + end)[k + 1..] == (body + end)[k + 2..];
      }
      ScanRaw(h, body[1..], after);
    }
  }

  lemma {:induction false} CountsHashes(h: nat, after: string)
    requires after == "" || after[0] != '#'
    ensures HashCount(Hashes(h) + after) == h
  {
    if h == 0 {
      assert Hashes(0) + after == after;
    } else {
      assert (Hashes(h) + after)[1..] == Hashes(h - 1) + after;
      CountsHashes(h - 1, after);
    }
  }

  lemma RawOpens(byte: bool, h: nat, after: string)
    ensures var open := (if byte then "br" else "r") + Hashes(h) + "\"";
      Opening(open + after) == Some((|open|, RawStr(h)))
  {
    var prefix := if byte then "br" else "r";
    var s := prefix + Hashes(h) + "\"" + after;
    assert s == prefix + (Hashes(h) + ("\"" + after));
    assert RawPrefix(s) == |prefix| by {
      assert byte ==> "br" <= s;
      assert !byte ==> s[0] == 'r' && !("br" <= s) && "r" <= s;
    }
    assert s[|prefix|..] == Hashes(h) + ("\"" + after);
    CountsHashes(h, "\"" + after);
    assert s[|prefix| + h] == '"';
    assert s[0] != '/' && "//"[0] == '/' && "/*"[0] == '/';
    assert !("//" <= s) && !("/*" <= s);
  }

  /** What each kind of literal opens with. */
  lemma LiteralOpens(after: string)
    ensures Opening("//" + after) == Some((2, LineComment))
    ensures Opening("/*" + after) == Some((2, BlockComment(1)))
    ensures Opening("b\"" + after) == Some((2, Str))
    ensures Opening("\"" + after) == Some((1, Str))
    ensures CharCloses(after, true, false) ==>
      && Opening("b'" + after) == Some((2, Chr))
      && Opening("'" + after) == Some((1, Chr))
  {
    NotRaw("/" + ("*" + after));
    assert !("//" <= "/*" + after) by { assert ("/*" + after)[1] == '*' && "//"[1] == '/'; }
    forall c, t | c != '/' ensures !("//" <= [c] + t) && !("/*" <= [c] + t) {
      assert ([c] + t)[0] == c && "//"[0] == '/' && "/*"[0] == '/';
    }
    assert "/*" + after == "/" + ("*" + after);
    assert "b\"" + after == "b" + ("\"" + after) && "b'" + after == "b" + ("'" + after);
    NotRaw("\"" + after);
    NotRaw("'" + after);
    NotRawB('"', after);
    NotRawB('\'', after);
    assert !("b\"" <= "b'" + after) by { assert ("b'" + after)[1] == '\'' && "b\""[1] == '"'; }
    assert !("b\"" <= "'" + after) && !("b'" <= "'" + after) && !("b\"" <= "\"" + after) by {
      assert ("'" + after)[0] == '\'' && ("\"" + after)[0] == '"' && "b\""[0] == 'b' && "b'"[0] == 'b';
    }
  }

  lemma NotRaw(s: string)
    requires s != "" && s[0] != 'b' && s[0] != 'r'
    ensures RawOpen(s).None?
  {
    assert "br"[0] == 'b' && "r"[0] == 'r';
  }

  lemma NotRawB(c: char, after: string)
    requires c != 'r'
    ensures RawOpen("b" + ([c] + after)).None?
  {
    var s := "b" + ([c] + after);
    assert s[0] == 'b' && s[1] == c && "br"[1] == 'r' && "r"[0] == 'r';
    assert !("br" <= s) && !("r" <= s);
  }

  lemma BehindOpening(open: string, mode: Mode, after: string)
    requires Opening(open + after) == Some((|open|, mode))
    ensures Delims(Code, open + after) == Delims(mode, after)
  {
    assert (open + after)[|open|..] == after;
  }

  lemma ScanPlain(c: char, after: string)
    requires Opening([c] + after).None?
    ensures Delims(Code, [c] + after) == Prepend(BracketOf(Plain(c)), Delims(Code, after))
  {
    PrependNothing();
    assert ([c] + after)[1..] == after;
  }

  lemma Regroup(x: string, y: string, z: string)
    ensures (x + y) + z == x + (y + z)
  {
  }

  /** The scan reads one token. */
  lemma ScanToken(t: Token, after: string)
    requires TokenOk(t, after)
    ensures Delims(Code, Text(t) + after) == Prepend(BracketOf(t), Delims(Code, after))
  {
    PrependNothing();
    match t {
      case Plain(c) => ScanPlain(c, after);
      case Line(text, ended) => ScanLineToken(text, ended, after);
      case Block(b) =>
        Regroup("/*", BlockString(b), after);
        LiteralOpens(BlockString(b) + after);
        BehindOpening("/*", BlockComment(1), BlockString(b) + after);
        ScanBlock(b, 1, after);
      case Quoted(byte, ps) => ScanQuotedToken(byte, ps, after);
      case Character(byte, ps) => ScanCharacterToken(byte, ps, after);
      case Raw(byte, h, body) => ScanRawToken(byte, h, body, after);
    }
  }

  lemma ScanLineToken(text: string, ended: bool, after: string)
    requires TokenOk(Line(text, ended), after)
    ensures Delims(Code, Text(Line(text, ended)) + after) == Delims(Code, after)
  {
    hide Opening, CharCloses, Delims;
    var end := if ended then "\n" else "";
    Regroup("//", text + end, after);
    LiteralOpens(text + end + after);
    BehindOpening("//", LineComment, text + end + after);
    ScanLine(text, ended, after);
  }

  lemma ScanQuotedToken(byte: bool, ps: seq<Piece>, after: string)
    requires QuotedOk(ps)
    ensures Delims(Code, Text(Quoted(byte, ps)) + after) == Delims(Code, after)
  {
    hide Opening, CharCloses, Delims, PiecesString, QuotedOk;
    var open, body := if byte then "b\"" else "\"", PiecesString(ps);
    Regroup(open, body + "\"", after);
    Regroup(body, "\"", after);
    LiteralOpens(body + ("\"" + after));
    BehindOpening(open, Str, body + ("\"" + after));
    ScanQuoted(ps, after);
  }

  lemma ScanCharacterToken(byte: bool, ps: seq<Piece>, after: string)
    requires CharacterOk(ps)
    ensures Delims(Code, Text(Character(byte, ps)) + after) == Delims(Code, after)
  {
    hide Opening, CharCloses, Delims, PiecesString;
    var open, body := if byte then "b'" else "'", PiecesString(ps);
    Regroup(open, body + "'", after);
    Regroup(body, "'", after);
    CharacterCloses(ps, true, after);
    LiteralOpens(body + ("'" + after));
    BehindOpening(open, Chr, body + ("'" + after));
    ScanCharacter(ps, after);
  }

  lemma ScanRawToken(byte: bool, h: nat, body: string, after: string)
    requires RawOk(h, body)
    ensures Delims(Code, Text(Raw(byte, h, body)) + after) == Delims(Code, after)
  {
    hide Opening, CharCloses, Delims, RawOk, Hashes;
    var open := (if byte then "br" else "r") + Hashes(h) + "\"";
    var inside := body + ("\"" + Hashes(h));
    Regroup(open, inside, after);
    RawOpens(byte, h, inside + after);
    BehindOpening(open, RawStr(h), inside + after);
    ScanRaw(h, body, after);
  }

  lemma {:induction false} TokensScan(ts: seq<Token>)
    requires AllOk(ts)
    ensures Delims(Code, AllText(ts)) == Some(BracketsOf(ts))
  {
    if ts != [] {
      TokensScan(ts[1..]);
      ScanToken(ts[0], AllText(ts[1..]));
    }
  }

  // ---------- From the scan to tokens ----------

  lemma {:induction false} LineToken(s: string) returns (text: string, ended: bool, after: string)
    ensures s == text + (if ended then "\n" else "") + after && '\n' !in text && (!ended ==> after == "")
    ensures Delims(LineComment, s) == Delims(Code, after)
    ensures |after| <= |s|
    decreases |s|
  {
    if s == "" {
      return "", false, "";
    }
    if s[0] == '\n' {
      assert s == "" + "\n" + s[1..];
      return "", true, s[1..];
    }
    text, ended, after := LineToken(s[1..]);
    text := [s[0]] + text;
    assert s == [s[0]] + s[1..];
  }

  /** The block comments that a depth still has open. */
  function BlocksString(bs: seq<BlockText>): string {
    if bs == [] then "" else BlockString(bs[0]) + BlocksString(bs[1..])
  }

  lemma BlocksCons(b: BlockText, bs: seq<BlockText>)
    ensures BlocksString([b] + bs) == BlockString(b) + BlocksString(bs)
  {
    assert ([b] + bs)[1..] == bs;
  }

  lemma NestRegroup(x: string, y: string, z: string, after: string)
    ensures "/*" + ((x + (y + z)) + after) == (("/*" + (x + y)) + z) + after
  {
  }

  lemma TwoBlocks(bs: seq<BlockText>)
    requires |bs| >= 2
    ensures BlocksString(bs) == BlockString(bs[0]) + (BlockString(bs[1]) + BlocksString(bs[2..]))
  {
    assert bs[1..][1..] == bs[2..];
    assert BlocksString(bs[1..]) == BlockString(bs[1]) + BlocksString(bs[2..]);
    hide BlockString;
  }

  lemma NestString(bs: seq<BlockText>, after: string)
    requires |bs| >= 2
    ensures "/*" + (BlocksString(bs) + after) == BlocksString([BlockNest(bs[0], bs[1])] + bs[2..]) + after
  {
    assert BlockString(BlockNest(bs[0], bs[1])) == "/*" + (BlockString(bs[0]) + BlockString(bs[1]));
    hide BlockString, BlocksString;
    BlocksCons(BlockNest(bs[0], bs[1]), bs[2..]);
    TwoBlocks(bs);
    NestRegroup(BlockString(bs[0]), BlockString(bs[1]), BlocksString(bs[2..]), after);
  }

  lemma CharRegroup(c: string, x: string, z: string, after: string)
    ensures c + ((x + z) + after) == ((c + x) + z) + after
  {
  }

  lemma CharString(c: char, bs: seq<BlockText>, after: string)
    requires bs != []
    ensures [c] + (BlocksString(bs) + after) == BlocksString([BlockChar(c, bs[0])] + bs[1..]) + after
  {
    BlocksCons(BlockChar(c, bs[0]), bs[1..]);
    CharRegroup([c], BlockString(bs[0]), BlocksString(bs[1..]), after);
  }

  lemma EndString(bs: seq<BlockText>, after: string)
    ensures "*/" + (BlocksString(bs) + after) == BlocksString([BlockEnd] + bs) + after
  {
    BlocksCons(BlockEnd, bs);
    Regroup("*/", BlocksString(bs), after);
  }

  lemma OneBlock(bs: seq<BlockText>)
    requires |bs| == 1
    ensures BlocksString(bs) == BlockString(bs[0])
  {
    assert BlocksString(bs) == BlockString(bs[0]) + "";
  }

  lemma NoBlocks(after: string)
    ensures BlocksString([]) + after == after
  {
  }

  lemma {:induction false} BlockToken(depth: nat, s: string) returns (bs: seq<BlockText>, after: string)
    requires depth > 0 && Delims(BlockComment(depth), s).Some?
    ensures |bs| == depth && (forall b :: b in bs ==> BlockOk(b)) && s == BlocksString(bs) + after
    ensures Delims(BlockComment(depth), s) == Delims(Code, after)
    ensures |after| <= |s|
    decreases |s|
  {
    hide BlockString, BlocksString;
    if "/*" <= s {
      bs, after := BlockToken(depth + 1, s[2..]);
      assert s == "/*" + s[2..];
      NestString(bs, after);
      bs := [BlockNest(bs[0], bs[1])] + bs[2..];
    } else if "*/" <= s {
      if depth == 1 {
        bs, after := [], s[2..];
        NoBlocks(after);
      } else {
        bs, after := BlockToken(depth - 1, s[2..]);
      }
      assert s == "*/" + s[2..];
      EndString(bs, after);
      bs := [BlockEnd] + bs;
    } else {
      bs, after := BlockToken(depth, s[1..]);
      assert s == [s[0]] + s[1..];
      CharString(s[0], bs, after);
      CharIsPlain(s, bs, after);
      bs := [BlockChar(s[0], bs[0])] + bs[1..];
    }
  }

  lemma NotAtTheFront(open: string, c: string, x: string, z: string, after: string)
    requires !(open <= c + ((x + z) + after))
    ensures !(open <= c + x)
  {
    CharRegroup(c, x, z, after);
  }

  lemma CharIsPlain(s: string, bs: seq<BlockText>, after: string)
    requires s != "" && bs != [] && s[1..] == BlocksString(bs) + after && !("/*" <= s) && !("*/" <= s)
    requires BlockOk(bs[0])
    ensures BlockOk(BlockChar(s[0], bs[0]))
  {
    assert s == [s[0]] + s[1..];
    assert BlocksString(bs) == BlockString(bs[0]) + BlocksString(bs[1..]);
    hide BlockString, BlocksString;
    NotAtTheFront("/*", [s[0]], BlockString(bs[0]), BlocksString(bs[1..]), after);
    NotAtTheFront("*/", [s[0]], BlockString(bs[0]), BlocksString(bs[1..]), after);
  }

  lemma PiecesCons(p: Piece, ps: seq<Piece>)
    ensures PiecesString([p] + ps) == PieceString(p) + PiecesString(ps)
  {
    assert ([p] + ps)[1..] == ps;
  }

  /** One more piece in front of the text of a literal. */
  lemma PieceInFront(p: Piece, ps: seq<Piece>, end: string, after: string)
    ensures PieceString(p) + (PiecesString(ps) + end + after) == PiecesString([p] + ps) + end + after
  {
    PiecesCons(p, ps);
    CharRegroup(PieceString(p), PiecesString(ps), end, after);
  }

  lemma {:induction false} QuotedToken(s: string) returns (ps: seq<Piece>, after: string)
    requires Delims(Str, s).Some?
    ensures QuotedOk(ps) && s == PiecesString(ps) + "\"" + after
    ensures Delims(Str, s) == Delims(Code, after) && |after| < |s|
    decreases |s|
  {
    hide PiecesString;
    if s[0] == '\\' {
      ps, after := QuotedToken(s[2..]);
      PieceInFront(Esc(s[1]), ps, "\"", after);
      assert s == ['\\', s[1]] + s[2..];
      ps := [Esc(s[1])] + ps;
    } else if s[0] == '"' {
      ps, after := [], s[1..];
      NoPieces();
      assert s == "" + "\"" + s[1..];
    } else {
      ps, after := QuotedToken(s[1..]);
      PieceInFront(Lit(s[0]), ps, "\"", after);
      assert s == [s[0]] + s[1..];
      ps := [Lit(s[0])] + ps;
    }
  }

  lemma NoPieces()
    ensures PiecesString([]) == ""
  {
  }

  lemma {:induction false} CharacterToken(s: string, first: bool) returns (ps: seq<Piece>, after: string)
    requires CharCloses(s, first, false)
    ensures s == PiecesString(ps) + "'" + after
    ensures forall p :: p in ps ==> p.c != '\n' && (p.Lit? ==> p.c != '\'' && p.c != '\\')
    ensures forall k :: (if first then 1 else 0) <= k < |ps| && ps[k].Lit? ==> ps[k].c !in LIFETIME_ENDS
    ensures Delims(Chr, s) == Delims(Code, after) && |after| < |s|
    decreases |s|
  {
    hide PiecesString;
    if s[0] == '\\' {
      assert CharCloses(s[1..], false, true) && s[1..][1..] == s[2..];
      ps, after := CharacterToken(s[2..], false);
      PieceInFront(Esc(s[1]), ps, "'", after);
      assert s == ['\\', s[1]] + s[2..];
      ps := [Esc(s[1])] + ps;
    } else if s[0] == '\'' {
      ps, after := [], s[1..];
      NoPieces();
      assert s == "" + "'" + s[1..];
    } else {
      ps, after := CharacterToken(s[1..], false);
      PieceInFront(Lit(s[0]), ps, "'", after);
      assert s == [s[0]] + s[1..];
      ps := [Lit(s[0])] + ps;
    }
  }

  lemma HashesFollowLonger(t: string, u: string, h: nat)
    ensures HashesFollow(t, h) ==> HashesFollow(t + u, h)
  {
  }

  lemma RawInFront(c: char, h: nat, body: string)
    requires RawOk(h, body) && (c == '"' ==> !HashesFollow(body + ("\"" + Hashes(h)), h))
    ensures RawOk(h, [c] + body)
  {
    var all, rest := ([c] + body) + ("\"" + Hashes(h)), body + ("\"" + Hashes(h));
    assert all == [c] + rest;
    forall k | 0 <= k < |[c] + body| && ([c] + body)[k] == '"' ensures !HashesFollow(all[k + 1..], h) {
      assert all[k + 1..] == rest[k..];
      if k == 0 {
        assert rest[0..] == rest;
      } else {
        assert body[k - 1] == '"';
      }
    }
    hide HashesFollow, Hashes;
  }

  lemma {:induction false} RawToken(h: nat, s: string) returns (body: string, after: string)
    requires Delims(RawStr(h), s).Some?
    ensures RawOk(h, body) && s == body + ("\"" + Hashes(h)) + after
    ensures Delims(RawStr(h), s) == Delims(Code, after) && |after| < |s|
    decreases |s|
  {
    var end := "\"" + Hashes(h);
    if s[0] == '"' && HashesFollow(s[1..], h) {
      body, after := "", s[1 + h..];
      assert s == "" + end + after by {
        assert forall k :: 1 <= k < 1 + h ==> s[k] == s[1..][k - 1];
      }
    } else {
      body, after := RawToken(h, s[1..]);
      assert s == [s[0]] + s[1..];
      CharRegroup([s[0]], body, end, after);
      HashesFollowLonger(body + end, after, h);
      RawInFront(s[0], h, body);
      hide HashesFollow, RawOk, Hashes, Opening, CharCloses;
      body := [s[0]] + body;
    }
  }

  /** A source on which the scan ends well splits into tokens. */
  lemma {:induction false} ScanTokens(s: string) returns (ts: seq<Token>)
    requires Delims(Code, s).Some?
    ensures AllOk(ts) && AllText(ts) == s
    decreases |s|
  {
    if s == "" {
      return [];
    }
    var t, after := FirstToken(s);
    ts := ScanTokens(after);
    assert ([t] + ts)[1..] == ts;
    ts := [t] + ts;
  }

  /** Something opens at the front of `s`, and it ends well. */
  predicate EndsWell(s: string) {
    Opening(s).Some? && Delims(Opening(s).value.1, s[Opening(s).value.0..]).Some?
  }

  predicate IsFirst(t: Token, s: string, after: string) {
    TokenOk(t, after) && s == Text(t) + after && |after| < |s| && Delims(Code, after).Some?
  }

  lemma FirstLine(s: string) returns (t: Token, after: string)
    requires EndsWell(s) && Opening(s).value.1.LineComment?
    ensures IsFirst(t, s, after)
  {
    OpeningText(s);
    var (n, mode) := Opening(s).value;
    hide PiecesString, BlockString, BlocksString, QuotedOk, RawOk, Opening, CharCloses, Hashes, Delims;
    var inside := s[n..];
    assert s == s[..n] + inside;
    var text, ended;
    text, ended, after := LineToken(inside);
    t := Line(text, ended);
    Regroup("//", text + if ended then "\n" else "", after);
  }

  lemma FirstBlock(s: string) returns (t: Token, after: string)
    requires EndsWell(s) && Opening(s).value.1.BlockComment?
    ensures IsFirst(t, s, after)
  {
    OpeningText(s);
    var (n, mode) := Opening(s).value;
    hide PiecesString, BlockString, BlocksString, QuotedOk, RawOk, Opening, CharCloses, Hashes, Delims;
    var inside := s[n..];
    assert s == s[..n] + inside;
    var bs;
    bs, after := BlockToken(1, inside);
    t := Block(bs[0]);
    OneBlock(bs);
    Regroup("/*", BlockString(bs[0]), after);
  }

  lemma FirstQuoted(s: string) returns (t: Token, after: string)
    requires EndsWell(s) && Opening(s).value.1.Str?
    ensures IsFirst(t, s, after)
  {
    OpeningText(s);
    var (n, mode) := Opening(s).value;
    hide PiecesString, BlockString, BlocksString, QuotedOk, RawOk, Opening, CharCloses, Hashes, Delims;
    var inside := s[n..];
    assert s == s[..n] + inside;
    var ps;
    ps, after := QuotedToken(inside);
    t := Quoted(n == 2, ps);
    Regroup(s[..n], PiecesString(ps) + "\"", after);
  }

  lemma FirstCharacter(s: string) returns (t: Token, after: string)
    requires EndsWell(s) && Opening(s).value.1.Chr?
    ensures IsFirst(t, s, after)
  {
    OpeningText(s);
    var (n, mode) := Opening(s).value;
    hide PiecesString, BlockString, BlocksString, QuotedOk, RawOk, Opening, CharCloses, Hashes, Delims;
    var inside := s[n..];
    assert s == s[..n] + inside;
    var ps;
    ps, after := CharacterToken(inside, true);
    t := Character(n == 2, ps);
    Regroup(s[..n], PiecesString(ps) + "'", after);
  }

  lemma FirstRaw(s: string) returns (t: Token, after: string)
    requires EndsWell(s) && Opening(s).value.1.RawStr?
    ensures IsFirst(t, s, after)
  {
    OpeningText(s);
    var (n, mode) := Opening(s).value;
    hide PiecesString, BlockString, BlocksString, QuotedOk, RawOk, Opening, CharCloses, Hashes, Delims;
    var inside := s[n..];
    assert s == s[..n] + inside;
    var body;
    body, after := RawToken(mode.hashes, inside);
    t := Raw("br" <= s, mode.hashes, body);
    Regroup(s[..n], body + ("\"" + Hashes(mode.hashes)), after);
  }

  lemma FirstToken(s: string) returns (t: Token, after: string)
    requires s != "" && Delims(Code, s).Some?
    ensures IsFirst(t, s, after)
  {
    if Opening(s).None? {
      assert s == [s[0]] + s[1..];
      return Plain(s[0]), s[1..];
    }
    assert EndsWell(s);
    match Opening(s).value.1 {
      case LineComment => t, after := FirstLine(s);
      case BlockComment(_) => t, after := FirstBlock(s);
      case Str => t, after := FirstQuoted(s);
      case Chr => t, after := FirstCharacter(s);
      case RawStr(_) => t, after := FirstRaw(s);
    }
    hide EndsWell, IsFirst;
  }

  lemma RawOpeningText(s: string)
    requires RawOpen(s).Some?
    ensures s[..RawOpenLength(s)] == (if "br" <= s then "br" else "r") + Hashes(RawOpen(s).value) + "\""
  {
    var p, h, n := RawPrefix(s), RawOpen(s).value, RawOpenLength(s);
    assert s[..p] == if "br" <= s then "br" else "r";
    var hs := s[p..][..h];
    assert hs == Hashes(h);
    assert s[..n] == s[..p] + hs + [s[n - 1]];
  }

  /** The text of an opening. */
  lemma OpeningText(s: string)
    requires Opening(s).Some?
    ensures var (n, mode) := Opening(s).value;
      match mode
      case LineComment => s[..n] == "//"
      case BlockComment(d) => s[..n] == "/*" && d == 1
      case Str => s[..n] == if n == 2 then "b\"" else "\""
      case Chr => s[..n] == (if n == 2 then "b'" else "'") && CharCloses(s[n..], true, false)
      case RawStr(h) => s[..n] == (if "br" <= s then "br" else "r") + Hashes(h) + "\""
  {
    if RawOpen(s).Some? {
      RawOpeningText(s);
    }
    hide RawOpen, RawOpenLength, Hashes;
  }

  /** Scanner correctness: the scan reads `s` to a good end exactly if `s` splits into tokens, and it then
      sees the brackets among their plain characters. */
  lemma ScanIsTokenization(s: string, w: string)
    ensures Delims(Code, s) == Some(w) <==>
      exists ts :: AllOk(ts) && AllText(ts) == s && BracketsOf(ts) == w
  {
    if Delims(Code, s) == Some(w) {
      var ts := ScanTokens(s);
      TokensScan(ts);
      assert AllOk(ts) && AllText(ts) == s && BracketsOf(ts) == w;
    }
    if ts :| AllOk(ts) && AllText(ts) == s && BracketsOf(ts) == w {
      TokensScan(ts);
    }
  }

  /** The sources that `balanced_rust` finds nothing wrong with are those whose tokens leave a word of
      the Dyck language. */
  lemma AcceptedSources(s: string)
    ensures Accepts(s) <==> exists ts :: AllOk(ts) && AllText(ts) == s && Dyck(BracketsOf(ts))
  {
    DelimsIsWord(Code, s);
    if Accepts(s) {
      var w := Delims(Code, s).value;
      StackDecidesDyck(w);
      ScanIsTokenization(s, w);
    }
    if ts :| AllOk(ts) && AllText(ts) == s && Dyck(BracketsOf(ts)) {
      TokensScan(ts);
      StackDecidesDyck(BracketsOf(ts));
    }
  }

  // ---------- Lines ----------

  lemma RoundAt(mode: Mode, s: string, n: nat, next: Mode, rest: string, k: nat)
    requires s != "" && Round(mode, s) == (n, next) && Rest(s, n) == rest && n <= k
    ensures Missed(mode, s, k) == (if StepsOver(mode, s) then 1 else 0) + Missed(next, rest, k - n)
    ensures ReadAsCode(mode, s, k) <==> ReadAsCode(next, rest, k - n)
  {
    BehindRound(mode, s, k);
    hide Round, Opening, Missed, ReadAsCode;
  }

  lemma OpenBracketIsCode()
    ensures Opening("(").None? && ReadAsCode(Code, "(", 0) && Missed(Code, "(", 0) == 0
    ensures Delims(Code, "(") == Some("(")
  {
    NotRaw("(");
    assert "("[0] == '(' && "//"[0] == '/' && "/*"[0] == '/' && "b\""[0] == 'b' && "b'"[0] == 'b';
    assert "("[1..] == "" && ['('] + "" == "(";
  }

  /** A string literal that continues on the next line: the bracket behind it stands on line 2 and is reported for
      line 1. */
  lemma EscapedNewlineIsMissed()
    ensures var s := "\"" + "\\\n\"(";
      && s[4] == '(' && ReadAsCode(Code, s, 4)
      && LineOf(s, 4) == 2 && Missed(Code, s, 4) == 1
      && Delims(Code, s) == Some("(")
      && forall line :: ReportedAt(s, '(', line) ==> line == 1
  {
    var s := "\"" + "\\\n\"(";
    LiteralOpens("\\\n\"(");
    BehindOpening("\"", Str, "\\\n\"(");
    RoundInCode(s);
    assert Rest(s, 1) == "\\\n\"(";
    RoundAt(Code, s, 1, Str, "\\\n\"(", 4);
    assert Rest("\\\n\"(", 2) == "\"(" && StepsOver(Str, "\\\n\"(");
    RoundAt(Str, "\\\n\"(", 2, Str, "\"(", 3);
    assert Rest("\"(", 1) == "(";
    RoundAt(Str, "\"(", 1, Code, "(", 1);
    OpenBracketIsCode();
    EscapedNewlineDelims();
    assert s[..4] == ['"', '\\'] + ['\n', '"'];
    NewlinesConcat(['"', '\\'], ['\n', '"']);
    NewlinesInFront('\n', ['"']);
    NoNewlines(['"']);
    NoNewlines(['"', '\\']);
    forall k | 0 <= k < |s| && s[k] == '(' ensures k == 4 {
    }
    hide Missed, ReadAsCode, Delims, Newlines, Opening, Round;
  }

  lemma EscapedNewlineDelims()
    ensures Delims(Str, "\\\n\"(") == Some("(")
  {
    OpenBracketIsCode();
    var s := "\\\n\"(";
    assert s[0] == '\\' && |s| == 4 && s != "\\" && s[2..] == "\"(";
    StrCloses("(");
    assert "\"" + "(" == "\"(";
    hide Opening;
  }

  /** In a comment a backslash escapes nothing: there the line is right. */
  lemma CommentEscapesNothing()
    ensures var s := "//" + "\\\n(";
      ReadAsCode(Code, s, 4) && LineOf(s, 4) == 2 && forall line :: ReportedAt(s, '(', line) ==> line == 2
  {
    var s := "//" + "\\\n(";
    LiteralOpens("\\\n(");
    RoundInCode(s);
    assert Rest(s, 2) == "\\\n(";
    RoundAt(Code, s, 2, LineComment, "\\\n(", 4);
    assert Rest("\\\n(", 1) == "\n(";
    RoundAt(LineComment, "\\\n(", 1, LineComment, "\n(", 2);
    assert Rest("\n(", 1) == "(";
    RoundAt(LineComment, "\n(", 1, Code, "(", 1);
    OpenBracketIsCode();
    assert s[..4] == ['/', '/', '\\'] + ['\n'];
    NewlinesConcat(['/', '/', '\\'], ['\n']);
    NewlinesInFront('\n', []);
    NoNewlines(['/', '/', '\\']);
    forall k | 0 <= k < |s| && s[k] == '(' ensures k == 4 {
    }
    hide Missed, ReadAsCode, Newlines, Opening, Round;
  }
}
