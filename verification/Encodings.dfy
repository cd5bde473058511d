/** Encodings of values as bytes that can be told apart from whatever follows them: the means to show that records have
    an injective rendering with a reader. */
module Encodings {
  import opened Disks
  import opened Paths

  /** Neither the value nor what follows it is in doubt. */
  ghost predicate Free<T(!new)>(encode: T -> Bytes) {
    forall x, y, s, t :: encode(x) + s == encode(y) + t ==> x == y && s == t
  }

  function OfNat(n: nat): Bytes {
    if n == 0 then [0] else [1] + OfNat(n - 1)
  }

  function OfSeq<T>(xs: seq<T>, encode: T -> Bytes): Bytes {
    if xs == [] then [0] else [1] + (encode(xs[0]) + OfSeq(xs[1..], encode))
  }

  lemma Regroup(a: Bytes, b: Bytes, s: Bytes)
    ensures (a + b) + s == a + (b + s)
  {
  }

  lemma SameHead(b: byte, s: Bytes, c: byte, t: Bytes)
    requires [b] + s == [c] + t
    ensures b == c && s == t
  {
    assert ([b] + s)[0] == b && ([b] + s)[1..] == s && ([c] + t)[0] == c && ([c] + t)[1..] == t;
  }

  lemma {:induction false} NatEnds(m: nat, n: nat, s: Bytes, t: Bytes)
    requires OfNat(m) + s == OfNat(n) + t
    ensures m == n && s == t
  {
    var x := if m == 0 then s else OfNat(m - 1) + s;
    var y := if n == 0 then t else OfNat(n - 1) + t;
    if m > 0 {
      Regroup([1], OfNat(m - 1), s);
    }
    if n > 0 {
      Regroup([1], OfNat(n - 1), t);
    }
    SameHead(OfNat(m)[0], x, OfNat(n)[0], y);
    if m > 0 && n > 0 {
      NatEnds(m - 1, n - 1, s, t);
    }
  }

  lemma {:induction false} SeqEnds<T(!new)>(encode: T -> Bytes, xs: seq<T>, ys: seq<T>, s: Bytes, t: Bytes)
    requires Free(encode) && OfSeq(xs, encode) + s == OfSeq(ys, encode) + t
    ensures xs == ys && s == t
    decreases |xs|
  {
    var x := if xs == [] then s else encode(xs[0]) + (OfSeq(xs[1..], encode) + s);
    var y := if ys == [] then t else encode(ys[0]) + (OfSeq(ys[1..], encode) + t);
    if xs != [] {
      SeqHead(encode, xs, s);
    }
    if ys != [] {
      SeqHead(encode, ys, t);
    }
    SameHead(OfSeq(xs, encode)[0], x, OfSeq(ys, encode)[0], y);
    if xs != [] && ys != [] {
      SeqEnds(encode, xs[1..], ys[1..], s, t);
      assert xs == [xs[0]] + xs[1..] && ys == [ys[0]] + ys[1..];
    }
  }

  lemma SeqHead<T>(encode: T -> Bytes, xs: seq<T>, s: Bytes)
    requires xs != []
    ensures OfSeq(xs, encode) + s == [1] + (encode(xs[0]) + (OfSeq(xs[1..], encode) + s))
  {
    Regroup([1], encode(xs[0]) + OfSeq(xs[1..], encode), s);
    Regroup(encode(xs[0]), OfSeq(xs[1..], encode), s);
  }

  // ---------- Bytes and text ----------

  function OfChar(c: char): Bytes { OfNat(c as nat) }

  function OfByte(b: byte): Bytes { [b] }

  function OfBytes(data: Bytes): Bytes { OfSeq(data, OfByte) }

  function OfString(s: string): Bytes { OfSeq(s, OfChar) }

  function OfPath(p: Path): Bytes { OfSeq(p, OfString) }

  lemma StringsEnd()
    ensures Free(OfString)
  {
    forall c, d, s, t | OfChar(c) + s == OfChar(d) + t ensures c == d && s == t {
      NatEnds(c as nat, d as nat, s, t);
    }
    assert Free(OfChar);
    forall x, y, s, t | OfString(x) + s == OfString(y) + t ensures x == y && s == t {
      SeqEnds(OfChar, x, y, s, t);
    }
  }

  lemma BytesEnd()
    ensures Free(OfBytes)
  {
    forall b, c, s, t | OfByte(b) + s == OfByte(c) + t ensures b == c && s == t {
      SameHead(b, s, c, t);
    }
    assert Free(OfByte);
    forall x, y, s, t | OfBytes(x) + s == OfBytes(y) + t ensures x == y && s == t {
      SeqEnds(OfByte, x, y, s, t);
    }
  }

  lemma PathsEnd()
    ensures Free(OfPath)
  {
    StringsEnd();
    forall x, y, s, t | OfPath(x) + s == OfPath(y) + t ensures x == y && s == t {
      SeqEnds(OfString, x, y, s, t);
    }
  }

  lemma FreeAt<T(!new)>(encode: T -> Bytes, x: T, y: T, s: Bytes, t: Bytes)
    requires Free(encode) && encode(x) + s == encode(y) + t
    ensures x == y && s == t
  {
  }
}
