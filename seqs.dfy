/** Generic sequence operations shared by the models of the pages: filtering
    (a Boolean row mask, `Array.prototype.filter`), subsequences, removal of
    duplicates in first-occurrence order (`new Set(...)`, `unique()`), a
    stable sort by an integer key, and counting. */
module Seqs {

  function Min(a: int, b: int): int { if a <= b then a else b }

  function Max(a: int, b: int): int { if a >= b then a else b }

  // ---------------------------------------------------------------------
  // Subsequences and filtering

  /** `a` is obtained from `b` by deleting elements (order kept). */
  predicate IsSubseq<T(==)>(a: seq<T>, b: seq<T>)
    decreases |b|
  {
    a == [] || (b != [] && ((a[0] == b[0] && IsSubseq(a[1..], b[1..])) || IsSubseq(a, b[1..])))
  }

  lemma {:induction false} SubseqRefl<T(!new)>(s: seq<T>)
    ensures IsSubseq(s, s)
    decreases |s|
  {
    if s != [] {
      SubseqRefl(s[1..]);
    }
  }

  lemma ConsAppend<T>(a: seq<T>, b: seq<T>)
    requires a != []
    ensures a == [a[0]] + a[1..]
    ensures a + b == [a[0]] + (a[1..] + b)
  {
  }

  lemma AppendAssoc<T>(a: seq<T>, b: seq<T>, c: seq<T>)
    ensures a + (b + c) == (a + b) + c
  {
  }

  lemma CountAppend<T>(a: seq<T>, b: seq<T>, x: T)
    ensures multiset(a + b)[x] == multiset(a)[x] + multiset(b)[x]
  {
  }

  lemma SplitAt<T>(s: seq<T>, i: int)
    requires 0 <= i < |s|
    ensures s == s[..i] + [s[i]] + s[i + 1..]
  {
    assert s[i..] == [s[i]] + s[i + 1..];
    assert s == s[..i] + s[i..];
  }

  /** The elements of `s` that satisfy `p`, in their original order. */
  function Filter<T>(s: seq<T>, p: T -> bool): (r: seq<T>)
    ensures |r| <= |s|
    decreases |s|
  {
    if s == [] then []
    else
      var rest := Filter(s[1..], p);
      if p(s[0]) then [s[0]] + rest else rest
  }

  /** What a filter keeps: exactly the occurrences of the elements that
      satisfy the mask, and only those. */
  lemma {:induction false} FilterSpec<T(!new)>(s: seq<T>, p: T -> bool)
    ensures forall i :: 0 <= i < |Filter(s, p)| ==> p(Filter(s, p)[i])
    ensures forall x {:trigger multiset(Filter(s, p))[x]} ::
      multiset(Filter(s, p))[x] == if p(x) then multiset(s)[x] else 0
    ensures forall x :: x in Filter(s, p) <==> x in s && p(x)
    decreases |s|
  {
    if s != [] {
      FilterSpec(s[1..], p);
      assert s == [s[0]] + s[1..];
      var rest := Filter(s[1..], p);
      var r := Filter(s, p);
      if p(s[0]) {
        assert r == [s[0]] + rest;
        assert forall i :: 1 <= i < |r| ==> r[i] == rest[i - 1];
      }
      assert forall x :: x in s <==> x == s[0] || x in s[1..];
      assert forall x :: multiset(r)[x] == (if p(s[0]) && x == s[0] then 1 else 0) + multiset(rest)[x];
    }
  }

  lemma {:induction false} FilterIsSubseq<T(!new)>(s: seq<T>, p: T -> bool)
    ensures IsSubseq(Filter(s, p), s)
    decreases |s|
  {
    if s != [] {
      FilterIsSubseq(s[1..], p);
      var r := Filter(s, p);
      if p(s[0]) {
        assert r[0] == s[0] && r[1..] == Filter(s[1..], p);
      }
    }
  }

  lemma FilterCons<T(!new)>(x: T, s: seq<T>, p: T -> bool)
    ensures Filter([x] + s, p) == (if p(x) then [x] else []) + Filter(s, p)
  {
    assert ([x] + s)[0] == x && ([x] + s)[1..] == s;
  }

  lemma {:induction false} FilterAppend<T(!new)>(a: seq<T>, b: seq<T>, p: T -> bool)
    ensures Filter(a + b, p) == Filter(a, p) + Filter(b, p)
    decreases |a|
  {
    if a == [] {
      assert a + b == b;
    } else {
      FilterAppend(a[1..], b, p);
      ConsAppend(a, b);
      FilterCons(a[0], a[1..] + b, p);
      FilterCons(a[0], a[1..], p);
    }
  }

  /** Filtering twice is filtering once by the conjunction. */
  lemma {:induction false} FilterFuse<T(!new)>(s: seq<T>, p: T -> bool, q: T -> bool, both: T -> bool)
    requires forall x :: both(x) == (p(x) && q(x))
    ensures Filter(Filter(s, p), q) == Filter(s, both)
    decreases |s|
  {
    if s != [] {
      FilterFuse(s[1..], p, q, both);
      if p(s[0]) {
        assert Filter(s, p) == [s[0]] + Filter(s[1..], p);
        assert ([s[0]] + Filter(s[1..], p))[1..] == Filter(s[1..], p);
      }
    }
  }

  /** A mask that accepts every element keeps the sequence as it is. */
  lemma {:induction false} FilterKeepsAll<T(!new)>(s: seq<T>, p: T -> bool)
    requires forall i :: 0 <= i < |s| ==> p(s[i])
    ensures Filter(s, p) == s
    decreases |s|
  {
    if s != [] {
      FilterKeepsAll(s[1..], p);
      assert s == [s[0]] + s[1..];
    }
  }

  /** Two masks that agree everywhere select the same elements. */
  lemma {:induction false} FilterExt<T(!new)>(s: seq<T>, p: T -> bool, q: T -> bool)
    requires forall x :: p(x) == q(x)
    ensures Filter(s, p) == Filter(s, q)
    decreases |s|
  {
    if s != [] {
      FilterExt(s[1..], p, q);
    }
  }

  /** A mask and its negation split a sequence into two parts whose sizes add up. */
  lemma {:induction false} FilterPartition<T(!new)>(s: seq<T>, p: T -> bool, q: T -> bool)
    requires forall x :: q(x) == !p(x)
    ensures |Filter(s, p)| + |Filter(s, q)| == |s|
    decreases |s|
  {
    if s != [] {
      FilterPartition(s[1..], p, q);
    }
  }

  // ---------------------------------------------------------------------
  // Counting

  lemma {:induction false} CountAtMostLength<T(!new)>(s: seq<T>, x: T)
    ensures multiset(s)[x] <= |s|
    decreases |s|
  {
    if s != [] {
      CountAtMostLength(s[1..], x);
      assert s == [s[0]] + s[1..];
    }
  }

  predicate NoDup<T(==)>(s: seq<T>) {
    forall i, j :: 0 <= i < j < |s| ==> s[i] != s[j]
  }

  lemma {:induction false} NoDupCount<T(!new)>(s: seq<T>, x: T)
    requires NoDup(s)
    ensures multiset(s)[x] == if x in s then 1 else 0
    decreases |s|
  {
    if s != [] {
      assert NoDup(s[1..]) by {
        forall i, j | 0 <= i < j < |s[1..]| ensures s[1..][i] != s[1..][j] {
          assert s[1..][i] == s[i + 1] && s[1..][j] == s[j + 1];
        }
      }
      NoDupCount(s[1..], x);
      assert s == [s[0]] + s[1..];
      assert forall k :: 0 <= k < |s[1..]| ==> s[1..][k] == s[k + 1] && s[k + 1] != s[0];
    }
  }

  lemma TwiceCounted<T(!new)>(s: seq<T>, i: int, j: int)
    requires 0 <= i < j < |s| && s[i] == s[j]
    ensures multiset(s)[s[i]] >= 2
  {
    assert s == s[..j] + s[j..];
    assert s[i] in s[..j];
    assert s[j..][0] == s[j];
  }

  /** A rearrangement of a sequence without duplicates has none either. */
  lemma NoDupPermutation<T(!new)>(a: seq<T>, b: seq<T>)
    requires NoDup(a) && multiset(a) == multiset(b)
    ensures NoDup(b)
  {
    forall i, j | 0 <= i < j < |b| ensures b[i] != b[j] {
      if b[i] == b[j] {
        TwiceCounted(b, i, j);
        NoDupCount(a, b[i]);
      }
    }
  }

  lemma {:induction false} SetOfSeqSize<T(!new)>(s: seq<T>)
    ensures |set x | x in s| <= |s|
    decreases |s|
  {
    if s != [] {
      SetOfSeqSize(s[1..]);
      assert (set x | x in s) == (set x | x in s[1..]) + {s[0]};
    }
  }

  // ---------------------------------------------------------------------
  // Duplicates removed, first occurrence kept

  /** The distinct elements of `s` in the order of their first occurrence. */
  function Distinct<T(==,!new)>(s: seq<T>): (r: seq<T>)
    ensures NoDup(r)
    ensures forall x :: x in r <==> x in s
    decreases |s|
  {
    if s == [] then []
    else
      assert s == s[..|s| - 1] + [s[|s| - 1]];
      var d := Distinct(s[..|s| - 1]);
      if s[|s| - 1] in d then d else d + [s[|s| - 1]]
  }

  /** The position of the first occurrence of `x`. */
  function IndexOf<T(==)>(s: seq<T>, x: T): (i: nat)
    requires x in s
    ensures i < |s| && s[i] == x && x !in s[..i]
  {
    if s[0] == x then 0
    else
      var i := IndexOf(s[1..], x);
      assert s[..i + 1] == [s[0]] + s[1..][..i];
      i + 1
  }

  lemma IndexOfUnique<T(!new)>(s: seq<T>, x: T, i: int)
    requires 0 <= i < |s| && s[i] == x && x !in s[..i]
    ensures IndexOf(s, x) == i
  {
    var k := IndexOf(s, x);
    assert forall m :: 0 <= m < i ==> s[..i][m] == s[m];
    assert forall m :: 0 <= m < k ==> s[..k][m] == s[m];
  }

  /** The elements of `Distinct(s)` appear in the order in which they first occur in `s`. */
  lemma {:induction false} DistinctFirstOccurrenceOrder<T(!new)>(s: seq<T>)
    ensures forall i, j :: 0 <= i < j < |Distinct(s)| ==>
      IndexOf(s, Distinct(s)[i]) < IndexOf(s, Distinct(s)[j])
    decreases |s|
  {
    if s != [] {
      var t, x := s[..|s| - 1], s[|s| - 1];
      assert s == t + [x];
      DistinctFirstOccurrenceOrder(t);
      var d := Distinct(t);
      forall y | y in t ensures IndexOf(s, y) == IndexOf(t, y) {
        var k := IndexOf(t, y);
        assert s[..k] == t[..k];
        IndexOfUnique(s, y, k);
      }
      if x !in d {
        assert x !in t && s[..|t|] == t;
        IndexOfUnique(s, x, |t|);
      }
    }
  }

  // ---------------------------------------------------------------------
  // Sorting by an integer key

  predicate SortedBy<T>(s: seq<T>, key: T -> int) {
    forall i, j :: 0 <= i < j < |s| ==> key(s[i]) <= key(s[j])
  }

  /** A lower bound on the keys of `s` and of `x` bounds every key of a
      sequence holding the elements of `s` and `x`. */
  lemma BoundKept<T>(lo: int, x: T, s: seq<T>, r: seq<T>, key: T -> int)
    requires lo <= key(x)
    requires forall k :: 0 <= k < |s| ==> lo <= key(s[k])
    requires multiset(r) == multiset(s) + multiset{x}
    ensures forall k :: 0 <= k < |r| ==> lo <= key(r[k])
  {
    forall k | 0 <= k < |r| ensures lo <= key(r[k]) {
      assert r[k] in multiset(r);
      if r[k] != x {
        assert r[k] in multiset(s);
      }
    }
  }

  lemma SortedCons<T>(x: T, s: seq<T>, key: T -> int)
    requires SortedBy(s, key)
    requires forall k :: 0 <= k < |s| ==> key(x) <= key(s[k])
    ensures SortedBy([x] + s, key)
  {
    var r := [x] + s;
    assert forall k :: 1 <= k < |r| ==> r[k] == s[k - 1];
  }

  function InsertBy<T>(x: T, s: seq<T>, key: T -> int): (r: seq<T>)
    requires SortedBy(s, key)
    ensures SortedBy(r, key)
    ensures multiset(r) == multiset(s) + multiset{x}
    decreases |s|
  {
    if s == [] || key(x) <= key(s[0]) then [x] + s
    else
      var rest := InsertBy(x, s[1..], key);
      BoundKept(key(s[0]), x, s[1..], rest, key);
      SortedCons(s[0], rest, key);
      assert s == [s[0]] + s[1..];
      [s[0]] + rest
  }

  /** A permutation of `s` ordered by non-decreasing `key`; equal keys keep their input order. */
  function SortBy<T>(s: seq<T>, key: T -> int): (r: seq<T>)
    ensures SortedBy(r, key)
    ensures multiset(r) == multiset(s)
    decreases |s|
  {
    if s == [] then []
    else
      assert s == [s[0]] + s[1..];
      InsertBy(s[0], SortBy(s[1..], key), key)
  }

  // ---------------------------------------------------------------------
  // Sums of counts

  /** The occurrences in `s` of each element of `ks`, added up. */
  function SumCounts<T(==)>(s: seq<T>, ks: seq<T>): nat
    decreases |ks|
  {
    if ks == [] then 0 else multiset(s)[ks[0]] + SumCounts(s, ks[1..])
  }

  lemma {:induction false} SumCountsSnoc<T(!new)>(s: seq<T>, x: T, ks: seq<T>)
    ensures SumCounts(s + [x], ks) == SumCounts(s, ks) + multiset(ks)[x]
    decreases |ks|
  {
    if ks != [] {
      SumCountsSnoc(s, x, ks[1..]);
      assert ks == [ks[0]] + ks[1..];
    }
  }

  lemma {:induction false} SumCountsAppend<T(!new)>(s: seq<T>, ks: seq<T>, k: T)
    ensures SumCounts(s, ks + [k]) == SumCounts(s, ks) + multiset(s)[k]
    decreases |ks|
  {
    if ks == [] {
      assert ks + [k] == [k];
    } else {
      SumCountsAppend(s, ks[1..], k);
      assert (ks + [k])[1..] == ks[1..] + [k];
    }
  }

  /** Each element counted once per occurrence: the counts of the distinct
      elements add up to the length. */
  lemma {:induction false} DistinctCountsSum<T(!new)>(s: seq<T>)
    ensures SumCounts(s, Distinct(s)) == |s|
    decreases |s|
  {
    if s != [] {
      var t, x := s[..|s| - 1], s[|s| - 1];
      assert s == t + [x];
      DistinctCountsSum(t);
      var d := Distinct(t);
      SumCountsSnoc(t, x, d);
      NoDupCount(d, x);
      if x !in d {
        SumCountsAppend(s, d, x);
        assert x !in t;
        assert multiset(s)[x] == 1;
      }
    }
  }

  /** The concatenation of `f(x)` for every element `x` of `s`, in order. */
  function FlatMap<T, U>(s: seq<T>, f: T -> seq<U>): seq<U>
    decreases |s|
  {
    if s == [] then [] else f(s[0]) + FlatMap(s[1..], f)
  }

  lemma FlatMapCons<T, U>(x: T, s: seq<T>, f: T -> seq<U>)
    ensures FlatMap([x] + s, f) == f(x) + FlatMap(s, f)
  {
    var q := [x] + s;
    assert q[0] == x && q[1..] == s;
  }

  /** Every element of a flat map comes from the image of some element. */
  lemma {:induction false} FlatMapSource<T, U>(s: seq<T>, f: T -> seq<U>, y: U) returns (k: nat)
    requires y in FlatMap(s, f)
    ensures k < |s| && y in f(s[k])
    decreases |s|
  {
    if y in f(s[0]) {
      k := 0;
    } else {
      var k1 := FlatMapSource(s[1..], f, y);
      k := k1 + 1;
    }
  }

  /** Every element of every image is in the flat map. */
  lemma {:induction false} FlatMapHas<T, U>(s: seq<T>, f: T -> seq<U>, k: nat, y: U)
    requires k < |s| && y in f(s[k])
    ensures y in FlatMap(s, f)
    decreases |s|
  {
    if k > 0 {
      FlatMapHas(s[1..], f, k - 1, y);
    }
  }
}
