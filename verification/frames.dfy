/** Row selection. A filtered frame is represented by its index: the
    increasing sequence of positions, in the loaded table, of the rows that
    survive. Filtering narrows the index and never touches the rows
    themselves; a derived series is re-aligned by looking it up at the
    surviving positions (pandas `.loc[df_f.index]`).
 */
module Frames {

  /** `a` is `b` with some elements left out, order kept. */
  predicate Subseq<T(==)>(a: seq<T>, b: seq<T>)
    decreases |b|
  {
    if |a| == 0 then true
    else if |b| == 0 then false
    else if a[0] == b[0] then Subseq(a[1..], b[1..])
    else Subseq(a, b[1..])
  }

  /** Keeps, in order, the elements that satisfy `p` (a boolean mask). */
  function Keep<T(!new)>(xs: seq<T>, p: T -> bool): (r: seq<T>)
    ensures |r| <= |xs|
    ensures forall x :: x in r <==> x in xs && p(x)
    ensures Subseq(r, xs)
    decreases |xs|
  {
    if |xs| == 0 then []
    else
      var rest := Keep(xs[1..], p);
      assert forall x :: x in xs <==> x == xs[0] || x in xs[1..];
      if p(xs[0]) then [xs[0]] + rest else rest
  }

  /** A mask keeps every copy of a selected element and no copy of any other:
      duplicates survive as often as they occur. */
  lemma {:induction false} KeepCount<T(!new)>(xs: seq<T>, p: T -> bool)
    ensures forall x :: multiset(Keep(xs, p))[x] == if p(x) then multiset(xs)[x] else 0
    decreases |xs|
  {
    if |xs| > 0 {
      KeepCount(xs[1..], p);
      assert xs == [xs[0]] + xs[1..];
      assert multiset(xs) == multiset{xs[0]} + multiset(xs[1..]);
    }
  }

  /** Strictly increasing positions: a valid pandas index order. */
  predicate Increasing(idx: seq<nat>)
  {
    forall j, k :: 0 <= j < k < |idx| ==> idx[j] < idx[k]
  }

  /** Every position of the index names a row of a table with `n` rows. */
  predicate Within(idx: seq<nat>, n: nat)
  {
    forall k :: 0 <= k < |idx| ==> idx[k] < n
  }

  /** The index of a freshly loaded table with `n` rows: 0, 1, ..., n-1. */
  function AllRows(n: nat): (idx: seq<nat>)
    ensures |idx| == n
    ensures Increasing(idx) && Within(idx, n)
    ensures forall i :: 0 <= i < n ==> idx[i] == i
  {
    seq(n, i requires 0 <= i < n => i)
  }

  /** Every position below `n` is in the index of a fresh table. */
  lemma AllRowsMember(n: nat)
    ensures forall i: nat :: i < n ==> i in AllRows(n)
  {
    forall i: nat | i < n
      ensures i in AllRows(n)
    {
      assert AllRows(n)[i] == i;
    }
  }

  /** The rows (or series entries) at the given positions, in index order. */
  function Select<T>(xs: seq<T>, idx: seq<nat>): (r: seq<T>)
    requires Within(idx, |xs|)
    ensures |r| == |idx|
    ensures forall k :: 0 <= k < |idx| ==> r[k] == xs[idx[k]]
  {
    seq(|idx|, k requires 0 <= k < |idx| => xs[idx[k]])
  }

  /** Applies a row-local computation to every row. */
  function MapSeq<T, U>(xs: seq<T>, f: T -> U): (r: seq<U>)
    ensures |r| == |xs|
    ensures forall i :: 0 <= i < |xs| ==> r[i] == f(xs[i])
  {
    seq(|xs|, i requires 0 <= i < |xs| => f(xs[i]))
  }

  /** Filtering an increasing index yields an increasing index inside the
      same table. */
  lemma {:induction false} KeepIncreasing(idx: seq<nat>, p: nat -> bool, n: nat)
    requires Increasing(idx) && Within(idx, n)
    ensures Increasing(Keep(idx, p)) && Within(Keep(idx, p), n)
    decreases |idx|
  {
    if |idx| > 0 {
      var tail := idx[1..];
      assert Increasing(tail);
      KeepIncreasing(tail, p, n);
      var rest := Keep(tail, p);
      TailAbove(idx, p);
      KeepWithin(idx, p, n);
      if p(idx[0]) {
        var r := Keep(idx, p);
        assert r == [idx[0]] + rest;
        forall j, k | 0 <= j < k < |r|
          ensures r[j] < r[k]
        {
          if j > 0 {
            assert r[j] == rest[j - 1] && r[k] == rest[k - 1];
          } else {
            assert r[k] in rest;
          }
        }
      }
    }
  }

  /** What an increasing index keeps after its head lies above the head. */
  lemma TailAbove(idx: seq<nat>, p: nat -> bool)
    requires Increasing(idx) && |idx| > 0
    ensures forall y :: y in Keep(idx[1..], p) ==> idx[0] < y
  {
    var tail := idx[1..];
    forall y | y in Keep(tail, p)
      ensures idx[0] < y
    {
      var k :| 0 <= k < |tail| && tail[k] == y;
      assert idx[k + 1] == y;
    }
  }

  /** Filtering keeps every member below the bound the index respects. */
  lemma KeepWithin(idx: seq<nat>, p: nat -> bool, n: nat)
    requires Within(idx, n)
    ensures Within(Keep(idx, p), n)
  {
    var r := Keep(idx, p);
    forall k | 0 <= k < |r|
      ensures r[k] < n
    {
      assert r[k] in idx;
    }
  }

  /** A mask that holds on every element is a no-op. */
  lemma {:induction false} KeepAll<T(!new)>(xs: seq<T>, p: T -> bool)
    requires forall x :: x in xs ==> p(x)
    ensures Keep(xs, p) == xs
    decreases |xs|
  {
    if |xs| > 0 {
      assert xs[0] in xs;
      KeepAll(xs[1..], p);
      assert [xs[0]] + xs[1..] == xs;
    }
  }

  /** A mask that holds on no element keeps nothing. */
  lemma {:induction false} KeepNone<T(!new)>(xs: seq<T>, p: T -> bool)
    requires forall x :: x in xs ==> !p(x)
    ensures Keep(xs, p) == []
    decreases |xs|
  {
    if |xs| > 0 {
      assert xs[0] in xs;
      KeepNone(xs[1..], p);
    }
  }

  /** Consecutive positions of an increasing index are at least one apart,
      so the last lies at least |idx| - 1 above the first. */
  lemma {:induction false} IncreasingSpread(idx: seq<nat>)
    requires Increasing(idx) && |idx| > 0
    ensures idx[|idx| - 1] >= idx[0] + |idx| - 1
    decreases |idx|
  {
    if |idx| > 1 {
      var init := idx[..|idx| - 1];
      assert Increasing(init);
      IncreasingSpread(init);
    }
  }

  /** An increasing index whose only member below 2 is 0, inside a two-row
      table, is exactly [0]. */
  lemma OnlyFirst(idx: seq<nat>)
    requires Increasing(idx) && Within(idx, 2) && 0 in idx && 1 !in idx
    ensures idx == [0]
  {
    assert forall k :: 0 <= k < |idx| ==> idx[k] == 0 by {
      forall k | 0 <= k < |idx|
        ensures idx[k] == 0
      {
        assert idx[k] in idx;
      }
    }
    assert |idx| > 0;
    IncreasingSpread(idx);
  }

  /** Applying the same mask twice is the same as applying it once. */
  lemma KeepIdempotent<T(!new)>(xs: seq<T>, p: T -> bool)
    ensures Keep(Keep(xs, p), p) == Keep(xs, p)
  {
    KeepAll(Keep(xs, p), p);
  }

  /** Two masks applied one after the other give the same rows in either order. */
  lemma {:induction false} KeepCommute<T(!new)>(xs: seq<T>, p: T -> bool, q: T -> bool)
    ensures Keep(Keep(xs, p), q) == Keep(Keep(xs, q), p)
    decreases |xs|
  {
    if |xs| > 0 {
      KeepCommute(xs[1..], p, q);
      var x := xs[0];
      var a := Keep(xs[1..], p);
      var b := Keep(xs[1..], q);
      if p(x) {
        assert ([x] + a)[1..] == a;
      }
      if q(x) {
        assert ([x] + b)[1..] == b;
      }
    }
  }

  /** Masking after appending one element masks that element on its own. */
  lemma {:induction false} KeepSnoc<T(!new)>(xs: seq<T>, x: T, p: T -> bool)
    ensures Keep(xs + [x], p) == Keep(xs, p) + (if p(x) then [x] else [])
    decreases |xs|
  {
    if |xs| == 0 {
      assert xs + [x] == [x];
      assert [x][1..] == [];
    } else {
      assert (xs + [x])[1..] == xs[1..] + [x];
      KeepSnoc(xs[1..], x, p);
    }
  }

  /** Re-alignment agrees with recomputation: since a derived series is
      computed row by row, looking it up at the surviving positions gives
      the same entries as computing it afresh on the filtered rows, with
      each row still paired with its own value. */
  lemma SelectMap<T, U>(xs: seq<T>, f: T -> U, idx: seq<nat>)
    requires Within(idx, |xs|)
    ensures Select(MapSeq(xs, f), idx) == MapSeq(Select(xs, idx), f)
  {
    assert forall k :: 0 <= k < |idx| ==> idx[k] < |xs|;
  }

  /** Selecting a selection is selecting the composed positions. */
  lemma SelectSelect<T>(xs: seq<T>, idx: seq<nat>, jdx: seq<nat>)
    requires Within(idx, |xs|) && Within(jdx, |idx|)
    ensures Within(Select(idx, jdx), |xs|)
    ensures Select(Select(xs, idx), jdx) == Select(xs, Select(idx, jdx))
  {
    var s := Select(idx, jdx);
    forall k | 0 <= k < |s|
      ensures s[k] < |xs|
    {
      assert jdx[k] < |idx|;
    }
  }
}
