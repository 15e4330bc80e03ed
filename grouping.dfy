/**
  Grouping of a sequence by a key, the way a data-frame `groupby` splits a
  table: the distinct keys, the rows that carry one key, and sums of a
  per-row weight over the rows and over the groups.
 */
module Grouping {

  /** No key occurs twice. */
  predicate Distinct<K(==)>(ks: seq<K>) {
    forall i, j :: 0 <= i < j < |ks| ==> ks[i] != ks[j]
  }

  /** The distinct keys of `xs`, in order of first appearance. */
  function Keys<T(!new), K(!new, ==)>(xs: seq<T>, key: T -> K): (ks: seq<K>)
    ensures Distinct(ks)
    ensures forall k :: k in ks <==> exists x :: x in xs && key(x) == k
    decreases |xs|
  {
    if xs == [] then []
    else
      var front := xs[..|xs| - 1];
      var ks0 := Keys(front, key);
      var k := key(xs[|xs| - 1]);
      assert forall x :: x in xs <==> x in front || x == xs[|xs| - 1];
      if k in ks0 then ks0 else ks0 + [k]
  }

  /** The rows of `xs` whose key is `k`, in their original order. */
  function Select<T(!new), K(!new, ==)>(xs: seq<T>, key: T -> K, k: K): (r: seq<T>)
    ensures |r| <= |xs|
    ensures forall x :: x in r <==> x in xs && key(x) == k
    decreases |xs|
  {
    if xs == [] then []
    else
      var front := xs[..|xs| - 1];
      var last := xs[|xs| - 1];
      assert forall x :: x in xs <==> x in front || x == last;
      Select(front, key, k) + (if key(last) == k then [last] else [])
  }

  /** The sum of `w` over the rows of `xs`. */
  function Total<T(!new)>(xs: seq<T>, w: T -> int): int
    decreases |xs|
  {
    if xs == [] then 0 else Total(xs[..|xs| - 1], w) + w(xs[|xs| - 1])
  }

  /** The sum, over the keys `ks`, of the total of `w` within each key's group. */
  function GroupTotals<T(!new), K(!new, ==)>(xs: seq<T>, key: T -> K, w: T -> int, ks: seq<K>): int
    decreases |ks|
  {
    if ks == [] then 0
    else GroupTotals(xs, key, w, ks[..|ks| - 1]) + Total(Select(xs, key, ks[|ks| - 1]), w)
  }

  lemma {:induction false} SelectSnoc<T(!new), K(!new)>(xs: seq<T>, key: T -> K, k: K, x: T)
    ensures Select(xs + [x], key, k) == Select(xs, key, k) + (if key(x) == k then [x] else [])
  {
    assert (xs + [x])[..|xs|] == xs;
  }

  lemma {:induction false} TotalSnoc<T(!new)>(xs: seq<T>, w: T -> int, x: T)
    ensures Total(xs + [x], w) == Total(xs, w) + w(x)
  {
    assert (xs + [x])[..|xs|] == xs;
  }

  /** Totals add up over a concatenation. */
  lemma {:induction false} TotalAppend<T(!new)>(a: seq<T>, b: seq<T>, w: T -> int)
    ensures Total(a + b, w) == Total(a, w) + Total(b, w)
    decreases |b|
  {
    if b == [] {
      assert a + b == a;
    } else {
      var front := b[..|b| - 1];
      assert a + b == (a + front) + [b[|b| - 1]];
      TotalSnoc(a + front, w, b[|b| - 1]);
      TotalAppend(a, front, w);
    }
  }

  /** Filtering distributes over a concatenation. */
  lemma {:induction false} SelectAppend<T(!new), K(!new)>(a: seq<T>, b: seq<T>, key: T -> K, k: K)
    ensures Select(a + b, key, k) == Select(a, key, k) + Select(b, key, k)
    decreases |b|
  {
    if b == [] {
      assert a + b == a;
      assert Select(a, key, k) + [] == Select(a, key, k);
    } else {
      var front := b[..|b| - 1];
      var last := b[|b| - 1];
      var tail := if key(last) == k then [last] else [];
      assert a + b == (a + front) + [last];
      assert b == front + [last];
      calc {
        Select(a + b, key, k);
        { SelectSnoc(a + front, key, k, last); }
        Select(a + front, key, k) + tail;
        { SelectAppend(a, front, key, k); }
        (Select(a, key, k) + Select(front, key, k)) + tail;
        Select(a, key, k) + (Select(front, key, k) + tail);
        { SelectSnoc(front, key, k, last); }
        Select(a, key, k) + Select(b, key, k);
      }
    }
  }

  /** A sequence whose rows all carry key `q` is kept whole by `q` and emptied by any other key. */
  lemma {:induction false} SelectUniform<T(!new), K(!new)>(xs: seq<T>, key: T -> K, q: K, k: K)
    requires forall x :: x in xs ==> key(x) == q
    ensures Select(xs, key, k) == if k == q then xs else []
    decreases |xs|
  {
    if xs != [] {
      var front := xs[..|xs| - 1];
      var last := xs[|xs| - 1];
      assert xs == front + [last];
      assert forall x :: x in front ==> x in xs;
      SelectUniform(front, key, q, k);
      SelectSnoc(front, key, k, last);
    }
  }

  /** A key that no row carries selects nothing. */
  lemma {:induction false} SelectAbsent<T(!new), K(!new)>(xs: seq<T>, key: T -> K, k: K)
    requires forall x :: x in xs ==> key(x) != k
    ensures Select(xs, key, k) == []
    decreases |xs|
  {
    if xs != [] {
      var front := xs[..|xs| - 1];
      assert forall x :: x in front ==> x in xs;
      SelectAbsent(front, key, k);
    }
  }

  /** Appending rows that all carry key `q` extends the group of `q` and no other. */
  lemma SelectAppendUniform<T(!new), K(!new)>(a: seq<T>, b: seq<T>, key: T -> K, q: K, k: K)
    requires forall x :: x in b ==> key(x) == q
    ensures Select(a + b, key, k) == Select(a, key, k) + (if k == q then b else [])
  {
    SelectAppend(a, b, key, k);
    SelectUniform(b, key, q, k);
    if k != q {
      assert Select(a, key, k) + [] == Select(a, key, k);
    }
  }

  /** Taking out the row at `j` takes its weight out of the total. */
  lemma TotalRemove<T(!new)>(b: seq<T>, j: nat, w: T -> int)
    requires j < |b|
    ensures Total(b, w) == Total(b[..j] + b[j + 1..], w) + w(b[j])
  {
    var left, x, right := b[..j], b[j], b[j + 1..];
    assert b == (left + [x]) + right;
    calc {
      Total(b, w);
      { TotalAppend(left + [x], right, w); }
      Total(left + [x], w) + Total(right, w);
      { TotalSnoc(left, w, x); }
      Total(left, w) + w(x) + Total(right, w);
      { TotalAppend(left, right, w); }
      Total(left + right, w) + w(x);
    }
  }

  lemma MultisetRemove<T>(b: seq<T>, j: nat)
    requires j < |b|
    ensures multiset(b[..j] + b[j + 1..]) == multiset(b) - multiset{b[j]}
  {
    assert b == b[..j] + [b[j]] + b[j + 1..];
  }

  /** A total depends only on the multiset of rows, not on their order. */
  lemma {:induction false} TotalPermutation<T(!new)>(a: seq<T>, b: seq<T>, w: T -> int)
    requires multiset(a) == multiset(b)
    ensures Total(a, w) == Total(b, w)
    decreases |a|
  {
    if a != [] {
      var front := a[..|a| - 1];
      var x := a[|a| - 1];
      assert a == front + [x];
      assert x in multiset(b);
      var j :| 0 <= j < |b| && b[j] == x;
      MultisetRemove(b, j);
      assert multiset(front) == multiset(a) - multiset{x};
      TotalPermutation(front, b[..j] + b[j + 1..], w);
      TotalRemove(b, j, w);
      TotalSnoc(front, w, x);
    }
  }

  lemma DistinctFront<K(!new)>(ks: seq<K>)
    requires Distinct(ks) && ks != []
    ensures Distinct(ks[..|ks| - 1]) && ks[|ks| - 1] !in ks[..|ks| - 1]
  {
  }

  lemma TotalSelectSnoc<T(!new), K(!new)>(xs: seq<T>, key: T -> K, w: T -> int, k: K, x: T)
    ensures Total(Select(xs + [x], key, k), w) == Total(Select(xs, key, k), w) + (if key(x) == k then w(x) else 0)
  {
    SelectSnoc(xs, key, k, x);
    var kept := Select(xs, key, k);
    if key(x) == k {
      TotalSnoc(kept, w, x);
    } else {
      assert kept + [] == kept;
    }
  }

  lemma {:induction false} GroupTotalsSnoc<T(!new), K(!new)>(xs: seq<T>, key: T -> K, w: T -> int, ks: seq<K>, x: T)
    requires Distinct(ks)
    ensures GroupTotals(xs + [x], key, w, ks)
         == GroupTotals(xs, key, w, ks) + (if key(x) in ks then w(x) else 0)
    decreases |ks|
  {
    if ks != [] {
      var front := ks[..|ks| - 1];
      var k := ks[|ks| - 1];
      DistinctFront(ks);
      GroupTotalsSnoc(xs, key, w, front, x);
      TotalSelectSnoc(xs, key, w, k, x);
      assert ks == front + [k];
      assert key(x) in ks <==> key(x) in front || key(x) == k;
    }
  }

  /**
    Summing the group totals over a list of distinct keys that covers every
    row's key gives the total over all rows: grouping neither drops nor
    double-counts a row.
   */
  lemma {:induction false} GroupTotalsCover<T(!new), K(!new)>(xs: seq<T>, key: T -> K, w: T -> int, ks: seq<K>)
    requires Distinct(ks)
    requires forall x :: x in xs ==> key(x) in ks
    ensures GroupTotals(xs, key, w, ks) == Total(xs, w)
    decreases |xs|
  {
    if xs == [] {
      GroupTotalsEmpty(key, w, ks);
    } else {
      var front := xs[..|xs| - 1];
      var x := xs[|xs| - 1];
      assert xs == front + [x];
      assert forall y :: y in front ==> y in xs;
      GroupTotalsCover(front, key, w, ks);
      GroupTotalsSnoc(front, key, w, ks, x);
      TotalSnoc(front, w, x);
    }
  }

  lemma {:induction false} GroupTotalsEmpty<T(!new), K(!new)>(key: T -> K, w: T -> int, ks: seq<K>)
    ensures GroupTotals([], key, w, ks) == 0
    decreases |ks|
  {
    if ks != [] {
      GroupTotalsEmpty(key, w, ks[..|ks| - 1]);
    }
  }
}
