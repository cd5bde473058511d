/** Sorting by a comparison function, as the library sorts of the source do: stable insertion.
    The two facts used everywhere are that sorting permutes and that a strictly increasing
    sequence is determined by its elements. */
module Sorting {

  ghost predicate TotalOrder<T(!new)>(le: (T, T) -> bool) {
    && (forall x, y :: le(x, y) || le(y, x))
    && (forall x, y, z :: le(x, y) && le(y, z) ==> le(x, z))
  }

  ghost predicate SortedBy<T>(xs: seq<T>, le: (T, T) -> bool) {
    forall i, j :: 0 <= i < j < |xs| ==> le(xs[i], xs[j])
  }

  lemma SortedPair<T>(xs: seq<T>, le: (T, T) -> bool, i: nat, j: nat)
    requires SortedBy(xs, le) && i < j < |xs|
    ensures le(xs[i], xs[j])
  {
  }

  /** Later elements are never below earlier ones, and no two elements tie. */
  ghost predicate Increasing<T>(xs: seq<T>, le: (T, T) -> bool) {
    forall i, j :: 0 <= i < j < |xs| ==> le(xs[i], xs[j]) && !le(xs[j], xs[i])
  }

  function Insert<T>(x: T, xs: seq<T>, le: (T, T) -> bool): (r: seq<T>)
    ensures multiset(r) == multiset(xs) + multiset{x}
  {
    if xs == [] then [x]
    else if le(x, xs[0]) then [x] + xs
    else
      assert xs == [xs[0]] + xs[1..];
      [xs[0]] + Insert(x, xs[1..], le)
  }

  function Sort<T>(xs: seq<T>, le: (T, T) -> bool): (r: seq<T>)
    ensures multiset(r) == multiset(xs)
  {
    if xs == [] then []
    else
      assert xs == [xs[0]] + xs[1..];
      Insert(xs[0], Sort(xs[1..], le), le)
  }

  lemma SamePermutation<T>(xs: seq<T>, ys: seq<T>)
    requires multiset(xs) == multiset(ys)
    ensures |xs| == |ys| && forall x :: x in xs <==> x in ys
  {
    assert |multiset(xs)| == |xs| && |multiset(ys)| == |ys|;
    forall x ensures x in xs <==> x in ys {
      assert x in xs <==> x in multiset(xs);
      assert x in ys <==> x in multiset(ys);
    }
  }

  lemma {:induction false} InsertKeepsSorted<T(!new)>(x: T, xs: seq<T>, le: (T, T) -> bool)
    requires TotalOrder(le) && SortedBy(xs, le)
    ensures SortedBy(Insert(x, xs, le), le)
  {
    if xs != [] && !le(x, xs[0]) {
      var rest := Insert(x, xs[1..], le);
      InsertKeepsSorted(x, xs[1..], le);
      forall y | y in rest ensures le(xs[0], y) {
        assert y in multiset(rest);
        assert y == x || y in xs[1..];
      }
    }
  }

  lemma {:induction false} SortSorts<T(!new)>(xs: seq<T>, le: (T, T) -> bool)
    requires TotalOrder(le)
    ensures SortedBy(Sort(xs, le), le)
    ensures |Sort(xs, le)| == |xs| && forall x :: x in Sort(xs, le) <==> x in xs
  {
    SamePermutation(xs, Sort(xs, le));
    if xs != [] {
      SortSorts(xs[1..], le);
      InsertKeepsSorted(xs[0], Sort(xs[1..], le), le);
    }
  }

  ghost predicate DistinctBy<T, K>(xs: seq<T>, key: T -> K) {
    forall i, j :: 0 <= i < j < |xs| ==> key(xs[i]) != key(xs[j])
  }

  lemma DistinctConcat<T, K>(xs: seq<T>, ys: seq<T>, key: T -> K)
    requires DistinctBy(xs, key) && DistinctBy(ys, key)
    requires forall x, y :: x in xs && y in ys ==> key(x) != key(y)
    ensures DistinctBy(xs + ys, key)
  {
  }

  lemma DistinctOneMore<T, K>(xs: seq<T>, k: nat, key: T -> K)
    requires k < |xs| && DistinctBy(xs[..k], key) && forall j :: 0 <= j < k ==> key(xs[j]) != key(xs[k])
    ensures DistinctBy(xs[..k + 1], key)
  {
    var longer, shorter := xs[..k + 1], xs[..k];
    forall i, j | 0 <= i < j < k + 1 ensures key(longer[i]) != key(longer[j]) {
      if j < k {
        assert key(shorter[i]) != key(shorter[j]);
      }
    }
  }

  lemma {:induction false} FilterKeepsDistinct<T(!new), K>(xs: seq<T>, keep: T -> bool, key: T -> K)
    requires DistinctBy(xs, key)
    ensures DistinctBy(Filter(xs, keep), key)
  {
    if xs != [] {
      FilterKeepsDistinct(xs[1..], keep, key);
      var rest := Filter(xs[1..], keep);
      forall y | y in rest ensures key(y) != key(xs[0]) {
        assert y in xs[1..];
        var i :| 0 <= i < |xs| - 1 && xs[1..][i] == y;
        assert y == xs[i + 1];
      }
    }
  }

  lemma {:induction false} InsertKeepsDistinct<T, K>(x: T, xs: seq<T>, le: (T, T) -> bool, key: T -> K)
    requires DistinctBy(xs, key) && forall y :: y in xs ==> key(y) != key(x)
    ensures DistinctBy(Insert(x, xs, le), key)
  {
    if xs != [] && !le(x, xs[0]) {
      var rest := Insert(x, xs[1..], le);
      InsertKeepsDistinct(x, xs[1..], le, key);
      forall y | y in rest ensures key(y) != key(xs[0]) {
        assert y in multiset(rest);
        assert y == x || y in xs[1..];
      }
    }
  }

  lemma {:induction false} SortKeepsDistinct<T, K>(xs: seq<T>, le: (T, T) -> bool, key: T -> K)
    requires DistinctBy(xs, key)
    ensures DistinctBy(Sort(xs, le), key)
  {
    if xs != [] {
      SortKeepsDistinct(xs[1..], le, key);
      SamePermutation(xs[1..], Sort(xs[1..], le));
      forall y | y in Sort(xs[1..], le) ensures key(y) != key(xs[0]) {
        assert y in multiset(Sort(xs[1..], le)) && y in multiset(xs[1..]);
        var i :| 0 <= i < |xs| - 1 && xs[1..][i] == y;
        assert y == xs[i + 1];
      }
      InsertKeepsDistinct(xs[0], Sort(xs[1..], le), le, key);
    }
  }

  lemma InsertMembers<T>(x: T, xs: seq<T>, le: (T, T) -> bool)
    ensures forall y :: y in Insert(x, xs, le) <==> y in xs || y == x
  {
    assert multiset(xs + [x]) == multiset(Insert(x, xs, le));
    SamePermutation(xs + [x], Insert(x, xs, le));
  }

  lemma DistinctTail<T, K>(x: T, rest: seq<T>, key: T -> K)
    requires DistinctBy([x] + rest, key)
    ensures DistinctBy(rest, key) && forall y :: y in rest ==> key(y) != key(x)
  {
    var all := [x] + rest;
    forall i, j | 0 <= i < j < |rest| ensures key(rest[i]) != key(rest[j]) {
      assert all[i + 1] == rest[i] && all[j + 1] == rest[j];
    }
    forall y | y in rest ensures key(y) != key(x) {
      var i :| 0 <= i < |rest| && rest[i] == y;
      assert all[0] == x && all[i + 1] == y;
    }
  }

  lemma {:induction false} InsertReflectsDistinct<T, K>(x: T, xs: seq<T>, le: (T, T) -> bool, key: T -> K)
    requires DistinctBy(Insert(x, xs, le), key)
    ensures DistinctBy(xs, key) && forall y :: y in xs ==> key(y) != key(x)
  {
    if xs != [] {
      if le(x, xs[0]) {
        DistinctTail(x, xs, key);
      } else {
        var rest := Insert(x, xs[1..], le);
        DistinctTail(xs[0], rest, key);
        InsertReflectsDistinct(x, xs[1..], le, key);
        InsertMembers(x, xs[1..], le);
        assert xs == [xs[0]] + xs[1..];
      }
    }
  }

  lemma {:induction false} SortReflectsDistinct<T, K>(xs: seq<T>, le: (T, T) -> bool, key: T -> K)
    requires DistinctBy(Sort(xs, le), key)
    ensures DistinctBy(xs, key)
  {
    if xs != [] {
      InsertReflectsDistinct(xs[0], Sort(xs[1..], le), le, key);
      SortReflectsDistinct(xs[1..], le, key);
      SamePermutation(xs[1..], Sort(xs[1..], le));
      forall i, j | 0 <= i < j < |xs| ensures key(xs[i]) != key(xs[j]) {
        assert xs[j] == xs[1..][j - 1];
        if i > 0 {
          assert xs[i] == xs[1..][i - 1];
        } else {
          assert xs[j] in xs[1..];
        }
      }
    }
  }

  /** A strictly increasing sequence is determined by its elements. */
  lemma {:induction false} IncreasingUnique<T(!new)>(xs: seq<T>, ys: seq<T>, le: (T, T) -> bool)
    requires Increasing(xs, le) && Increasing(ys, le) && forall x :: x in xs <==> x in ys
    ensures xs == ys
  {
    assert ys != [] ==> ys[0] in ys;
    if xs != [] {
      assert xs[0] in ys;
      assert ys != [] && ys[0] in xs;
      var i :| 0 <= i < |ys| && ys[i] == xs[0];
      var j :| 0 <= j < |xs| && xs[j] == ys[0];
      assert xs[0] == ys[0];
      forall x ensures x in xs[1..] <==> x in ys[1..] {
        if x in xs[1..] {
          var k :| 0 <= k < |xs| - 1 && xs[1..][k] == x;
          assert x == xs[k + 1] && x != xs[0] by { assert le(xs[0], xs[k + 1]) && !le(xs[k + 1], xs[0]); }
          assert x in ys;
        }
        if x in ys[1..] {
          var k :| 0 <= k < |ys| - 1 && ys[1..][k] == x;
          assert x == ys[k + 1] && x != ys[0] by { assert le(ys[0], ys[k + 1]) && !le(ys[k + 1], ys[0]); }
          assert x in xs;
        }
      }
      IncreasingUnique(xs[1..], ys[1..], le);
    }
  }

  lemma SomeElement<T>(xs: seq<T>) returns (x: T)
    requires xs != []
    ensures x in xs
  {
    x := xs[0];
  }

  lemma TakeOneMore<T>(xs: seq<T>, k: nat)
    requires k < |xs|
    ensures xs[..k + 1] == xs[..k] + [xs[k]]
  {
  }

  lemma TakeAll<T>(xs: seq<T>)
    ensures xs[..|xs|] == xs
  {
  }

  function Filter<T(!new)>(xs: seq<T>, keep: T -> bool): (r: seq<T>)
    ensures forall x :: x in r <==> x in xs && keep(x)
  {
    if xs == [] then []
    else
      var rest := Filter(xs[1..], keep);
      if keep(xs[0]) then [xs[0]] + rest else rest
  }

  lemma {:induction false} FilterKeepsIncreasing<T(!new)>(xs: seq<T>, keep: T -> bool, le: (T, T) -> bool)
    requires Increasing(xs, le)
    ensures Increasing(Filter(xs, keep), le)
  {
    if xs != [] {
      FilterKeepsIncreasing(xs[1..], keep, le);
      var rest := Filter(xs[1..], keep);
      forall y | y in rest ensures le(xs[0], y) && !le(y, xs[0]) {
        assert y in xs[1..];
        var k :| 0 <= k < |xs| - 1 && xs[1..][k] == y;
        assert y == xs[k + 1];
      }
    }
  }

  // ---------- Alike lists ----------

  ghost predicate Alike<A, B>(xs: seq<A>, ys: seq<B>, rel: (A, B) -> bool) {
    |xs| == |ys| && forall i :: 0 <= i < |xs| ==> rel(xs[i], ys[i])
  }

  ghost predicate OrdersAlike<A(!new), B(!new)>(leA: (A, A) -> bool, leB: (B, B) -> bool, rel: (A, B) -> bool) {
    forall x, x', y, y' :: rel(x, y) && rel(x', y') ==> leA(x, x') == leB(y, y')
  }

  lemma AlikeFurther<A, B>(x: A, xs: seq<A>, y: B, ys: seq<B>, rel: (A, B) -> bool)
    requires Alike(xs, ys, rel) && rel(x, y)
    ensures Alike([x] + xs, [y] + ys, rel)
  {
  }

  lemma {:induction false} InsertAlike<A(!new), B(!new)>(
      x: A, xs: seq<A>, y: B, ys: seq<B>, leA: (A, A) -> bool, leB: (B, B) -> bool, rel: (A, B) -> bool)
    requires Alike(xs, ys, rel) && rel(x, y) && OrdersAlike(leA, leB, rel)
    ensures Alike(Insert(x, xs, leA), Insert(y, ys, leB), rel)
  {
    if xs != [] {
      assert rel(xs[0], ys[0]) && leA(x, xs[0]) == leB(y, ys[0]);
      hide OrdersAlike;
      if !leA(x, xs[0]) {
        InsertAlike(x, xs[1..], y, ys[1..], leA, leB, rel);
        AlikeFurther(xs[0], Insert(x, xs[1..], leA), ys[0], Insert(y, ys[1..], leB), rel);
      } else {
        AlikeFurther(x, xs, y, ys, rel);
      }
      hide Alike;
    }
  }

  /** Lists that are alike, sorted alike, are alike. */
  lemma {:induction false} SortAlike<A(!new), B(!new)>(
      xs: seq<A>, ys: seq<B>, leA: (A, A) -> bool, leB: (B, B) -> bool, rel: (A, B) -> bool)
    requires Alike(xs, ys, rel) && OrdersAlike(leA, leB, rel)
    ensures Alike(Sort(xs, leA), Sort(ys, leB), rel)
  {
    if xs != [] {
      SortAlike(xs[1..], ys[1..], leA, leB, rel);
      InsertAlike(xs[0], Sort(xs[1..], leA), ys[0], Sort(ys[1..], leB), leA, leB, rel);
    }
  }
}
