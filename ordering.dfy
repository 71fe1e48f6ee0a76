/** Sequence helpers shared by the analytics pipelines and the listing route:
    a stable sort by an integer rank (the `$sort` stage and `.sort()`), sums
    over a sequence, and distinctness of a projection. */
module Ordering {

  /** Every element ranks at least as high as every later one. */
  predicate NonIncreasing<T>(xs: seq<T>, rank: T -> int)
  {
    forall i, j :: 0 <= i < j < |xs| ==> rank(xs[i]) >= rank(xs[j])
  }

  /** No two elements share a key. */
  predicate DistinctBy<T, K(==)>(xs: seq<T>, key: T -> K)
  {
    forall i, j :: 0 <= i < j < |xs| ==> key(xs[i]) != key(xs[j])
  }

  /** Sum of `f` over the elements. */
  function SumBy<T>(xs: seq<T>, f: T -> int): int
  {
    if xs == [] then 0 else f(xs[0]) + SumBy(xs[1..], f)
  }

  /** Places `x` before the first element it ranks at least as high as. */
  function Insert<T>(x: T, xs: seq<T>, rank: T -> int): (r: seq<T>)
    ensures |r| == |xs| + 1
    ensures multiset(r) == multiset(xs) + multiset{x}
  {
    if xs == [] || rank(x) >= rank(xs[0]) then [x] + xs
    else
      assert xs == [xs[0]] + xs[1..];
      [xs[0]] + Insert(x, xs[1..], rank)
  }

  /** Insertion sort: a permutation of `xs`, highest rank first. Elements of
      equal rank keep their relative order. */
  function SortByRank<T>(xs: seq<T>, rank: T -> int): (r: seq<T>)
    ensures |r| == |xs|
    ensures multiset(r) == multiset(xs)
    ensures NonIncreasing(r, rank)
  {
    if xs == [] then []
    else
      var rest := SortByRank(xs[1..], rank);
      InsertKeepsOrder(xs[0], rest, rank);
      SplitHead(xs);
      Insert(xs[0], rest, rank)
  }

  /** The first element and the rest make up the whole multiset. */
  lemma SplitHead<T>(xs: seq<T>)
    requires xs != []
    ensures multiset(xs) == multiset{xs[0]} + multiset(xs[1..])
  {
    assert xs == [xs[0]] + xs[1..];
  }

  /** The elements of `Insert(x, xs, rank)` are `x` and those of `xs`. */
  lemma InsertElement<T>(x: T, xs: seq<T>, rank: T -> int, y: T)
    ensures y in Insert(x, xs, rank) <==> y == x || y in xs
  {
    assert y in Insert(x, xs, rank) <==> y in multiset(Insert(x, xs, rank));
    assert y in xs <==> y in multiset(xs);
  }

  lemma {:induction false} InsertKeepsOrder<T>(x: T, xs: seq<T>, rank: T -> int)
    requires NonIncreasing(xs, rank)
    ensures NonIncreasing(Insert(x, xs, rank), rank)
  {
    if xs == [] || rank(x) >= rank(xs[0]) {
      var r := [x] + xs;
      forall i, j | 0 <= i < j < |r| ensures rank(r[i]) >= rank(r[j]) {
        if i > 0 {
          assert r[i] == xs[i - 1] && r[j] == xs[j - 1];
        } else {
          assert r[j] == xs[j - 1];
        }
      }
    } else {
      var tail := Insert(x, xs[1..], rank);
      InsertKeepsOrder(x, xs[1..], rank);
      var r := [xs[0]] + tail;
      forall i, j | 0 <= i < j < |r| ensures rank(r[i]) >= rank(r[j]) {
        if i > 0 {
          assert r[i] == tail[i - 1] && r[j] == tail[j - 1];
        } else {
          assert r[j] == tail[j - 1] && r[j] in tail;
          InsertElement(x, xs[1..], rank, r[j]);
          if r[j] != x {
            var k :| 0 <= k < |xs[1..]| && xs[1..][k] == r[j];
            assert xs[k + 1] == r[j];
          }
        }
      }
    }
  }

  /** Sorting keeps exactly the same elements. */
  lemma SortKeepsElement<T>(xs: seq<T>, rank: T -> int, x: T)
    ensures x in SortByRank(xs, rank) <==> x in xs
  {
    assert x in SortByRank(xs, rank) <==> x in multiset(SortByRank(xs, rank));
  }

  lemma {:induction false} SumByInsert<T>(x: T, xs: seq<T>, rank: T -> int, f: T -> int)
    ensures SumBy(Insert(x, xs, rank), f) == f(x) + SumBy(xs, f)
  {
    if xs == [] || rank(x) >= rank(xs[0]) {
      assert ([x] + xs)[1..] == xs;
    } else {
      var tail := Insert(x, xs[1..], rank);
      assert ([xs[0]] + tail)[1..] == tail;
      SumByInsert(x, xs[1..], rank, f);
    }
  }

  /** Sorting does not change a sum over the elements. */
  lemma {:induction false} SumBySort<T>(xs: seq<T>, rank: T -> int, f: T -> int)
    ensures SumBy(SortByRank(xs, rank), f) == SumBy(xs, f)
  {
    if xs != [] {
      SumBySort(xs[1..], rank, f);
      SumByInsert(xs[0], SortByRank(xs[1..], rank), rank, f);
    }
  }

  lemma {:induction false} InsertKeepsDistinct<T, K>(x: T, xs: seq<T>, rank: T -> int, key: T -> K)
    requires DistinctBy(xs, key)
    requires forall y :: y in xs ==> key(y) != key(x)
    ensures DistinctBy(Insert(x, xs, rank), key)
  {
    if xs == [] || rank(x) >= rank(xs[0]) {
      var r := [x] + xs;
      forall i, j | 0 <= i < j < |r| ensures key(r[i]) != key(r[j]) {
        if i == 0 { assert r[j] == xs[j - 1]; }
      }
    } else {
      var tail := Insert(x, xs[1..], rank);
      InsertKeepsDistinct(x, xs[1..], rank, key);
      var r := [xs[0]] + tail;
      forall i, j | 0 <= i < j < |r| ensures key(r[i]) != key(r[j]) {
        if i == 0 {
          assert r[j] == tail[j - 1];
          assert tail[j - 1] in multiset(tail);
          assert r[j] == x || r[j] in xs[1..];
        }
      }
    }
  }

  /** Sorting keeps the keys of the elements distinct. */
  lemma {:induction false} SortKeepsDistinct<T, K>(xs: seq<T>, rank: T -> int, key: T -> K)
    requires DistinctBy(xs, key)
    ensures DistinctBy(SortByRank(xs, rank), key)
  {
    if xs != [] {
      var rest := SortByRank(xs[1..], rank);
      SortKeepsDistinct(xs[1..], rank, key);
      forall y | y in rest ensures key(y) != key(xs[0]) {
        assert y in multiset(rest);
        assert y in xs[1..];
      }
      InsertKeepsDistinct(xs[0], rest, rank, key);
    }
  }
}
