/**
 * Generic sequence vocabulary shared by the photon-list and spectrum-list
 * models: boolean-mask filtering (what indexing a table with a numpy mask
 * does), subsequences, integer sums, and the sorting and de-duplication that
 * `np.unique` and `sorted` perform.
 */
module Sequences {

  // ---------------------------------------------------------------------------
  // Mask filtering
  // ---------------------------------------------------------------------------

  /** The elements of `s` for which `keep` holds, in their original order. */
  function Filter<T>(s: seq<T>, keep: T -> bool): (r: seq<T>)
    ensures |r| <= |s|
    ensures forall x :: x in r ==> x in s && keep(x)
    decreases |s|
  {
    if s == [] then []
    else (if keep(s[0]) then [s[0]] else []) + Filter(s[1..], keep)
  }

  /** `a` occurs in `b` with its order kept, possibly with gaps. */
  predicate IsSubsequence<T(==)>(a: seq<T>, b: seq<T>)
    decreases |b|
  {
    if a == [] then true
    else if b == [] then false
    else if a[0] == b[0] then IsSubsequence(a[1..], b[1..])
    else IsSubsequence(a, b[1..])
  }

  /** Filtering distributes over concatenation: it keeps the relative order. */
  lemma {:induction false} FilterConcat<T>(a: seq<T>, b: seq<T>, keep: T -> bool)
    ensures Filter(a + b, keep) == Filter(a, keep) + Filter(b, keep)
    decreases |a|
  {
    if a == [] {
      assert a + b == b;
    } else {
      assert (a + b)[0] == a[0];
      assert (a + b)[1..] == a[1..] + b;
      FilterConcat(a[1..], b, keep);
    }
  }

  /** Filtering a sequence extended by one element. */
  lemma FilterSnoc<T>(s: seq<T>, x: T, keep: T -> bool)
    ensures Filter(s + [x], keep) == Filter(s, keep) + (if keep(x) then [x] else [])
  {
    FilterConcat(s, [x], keep);
    assert [x][1..] == [];
  }

  /** An element survives the filter iff it was in the input and satisfies `keep`. */
  lemma {:induction false} FilterMembership<T>(s: seq<T>, keep: T -> bool, x: T)
    ensures x in Filter(s, keep) <==> x in s && keep(x)
    decreases |s|
  {
    if s != [] {
      FilterMembership(s[1..], keep, x);
      assert s == [s[0]] + s[1..];
    }
  }

  /** Filtering keeps every kept element exactly as often as it occurred. */
  lemma {:induction false} FilterMultiplicity<T>(s: seq<T>, keep: T -> bool, x: T)
    ensures multiset(Filter(s, keep))[x] == if keep(x) then multiset(s)[x] else 0
    decreases |s|
  {
    if s != [] {
      FilterMultiplicity(s[1..], keep, x);
      assert s == [s[0]] + s[1..];
      assert multiset(s) == multiset([s[0]]) + multiset(s[1..]);
    }
  }

  /** The filtered sequence is an order-preserving subsequence of the input. */
  lemma {:induction false} FilterIsSubsequence<T>(s: seq<T>, keep: T -> bool)
    ensures IsSubsequence(Filter(s, keep), s)
    decreases |s|
  {
    if s != [] {
      var rest := Filter(s[1..], keep);
      FilterIsSubsequence(s[1..], keep);
      if keep(s[0]) {
        assert Filter(s, keep) == [s[0]] + rest;
        assert ([s[0]] + rest)[1..] == rest;
      } else {
        assert Filter(s, keep) == rest;
        if rest != [] {
          assert rest[0] in rest;
          assert rest[0] != s[0];
        }
      }
    }
  }

  /** Filtering twice is filtering once by the conjunction. */
  lemma {:induction false} FilterFilter<T>(s: seq<T>, p: T -> bool, q: T -> bool, both: T -> bool)
    requires forall x :: both(x) == (p(x) && q(x))
    ensures Filter(Filter(s, p), q) == Filter(s, both)
    decreases |s|
  {
    if s != [] {
      FilterFilter(s[1..], p, q, both);
      var head := if p(s[0]) then [s[0]] else [];
      FilterConcat(head, Filter(s[1..], p), q);
      if p(s[0]) {
        assert head[1..] == [];
      }
    }
  }

  /** A filter that keeps nothing gives the empty sequence. */
  lemma {:induction false} FilterKeepsNone<T>(s: seq<T>, keep: T -> bool)
    requires forall i :: 0 <= i < |s| ==> !keep(s[i])
    ensures Filter(s, keep) == []
    decreases |s|
  {
    if s != [] {
      FilterKeepsNone(s[1..], keep);
    }
  }

  /** Filters that agree on every element give the same result. */
  lemma {:induction false} FilterExtensional<T>(s: seq<T>, p: T -> bool, q: T -> bool)
    requires forall x :: p(x) == q(x)
    ensures Filter(s, p) == Filter(s, q)
    decreases |s|
  {
    if s != [] {
      FilterExtensional(s[1..], p, q);
    }
  }

  /** `f` applied to every element (selecting one column of a table). */
  function Map<T, U>(s: seq<T>, f: T -> U): (r: seq<U>)
    ensures |r| == |s|
    ensures forall i :: 0 <= i < |s| ==> r[i] == f(s[i])
    decreases |s|
  {
    if s == [] then [] else [f(s[0])] + Map(s[1..], f)
  }

  /** Filtering a column by `p` keeps as many entries as filtering the rows by `p` of that column. */
  lemma {:induction false} FilterMapLength<T, U>(s: seq<T>, f: T -> U, p: U -> bool, pf: T -> bool)
    requires forall x :: pf(x) == p(f(x))
    ensures |Filter(Map(s, f), p)| == |Filter(s, pf)|
    decreases |s|
  {
    if s != [] {
      FilterMapLength(s[1..], f, p, pf);
      assert Map(s, f)[1..] == Map(s[1..], f);
    }
  }

  // ---------------------------------------------------------------------------
  // Sums
  // ---------------------------------------------------------------------------

  /** The sum of a sequence of integers, accumulated from the front as a loop would. */
  function Sum(s: seq<int>): int
    decreases |s|
  {
    if s == [] then 0 else Sum(s[..|s| - 1]) + s[|s| - 1]
  }

  lemma {:induction false} SumConcat(a: seq<int>, b: seq<int>)
    ensures Sum(a + b) == Sum(a) + Sum(b)
    decreases |b|
  {
    if b == [] {
      assert a + b == a;
    } else {
      assert (a + b)[..|a + b| - 1] == a + b[..|b| - 1];
      SumConcat(a, b[..|b| - 1]);
    }
  }

  // ---------------------------------------------------------------------------
  // Sorting and de-duplication
  // ---------------------------------------------------------------------------

  predicate IsSorted(s: seq<int>) {
    forall i, j :: 0 <= i < j < |s| ==> s[i] <= s[j]
  }

  predicate IsStrictlySorted(s: seq<int>) {
    forall i, j :: 0 <= i < j < |s| ==> s[i] < s[j]
  }

  /** `x` placed before the first element of `s` that is not smaller than it. */
  function Insert(x: int, s: seq<int>): seq<int>
    decreases |s|
  {
    if s == [] || x <= s[0] then [x] + s else [s[0]] + Insert(x, s[1..])
  }

  /** Inserting into a sorted sequence keeps it sorted and adds exactly `x`. */
  lemma {:induction false} InsertSpec(x: int, s: seq<int>)
    requires IsSorted(s)
    ensures IsSorted(Insert(x, s))
    ensures multiset(Insert(x, s)) == multiset(s) + multiset{x}
    decreases |s|
  {
    if s != [] && x > s[0] {
      var tail := s[1..];
      assert IsSorted(tail);
      InsertSpec(x, tail);
      var rest := Insert(x, tail);
      assert forall k :: 0 <= k < |tail| ==> s[0] <= tail[k];
      InsertHeadBound(s[0], x, tail, rest);
      assert s == [s[0]] + tail;
      assert Insert(x, s) == [s[0]] + rest;
    } else {
      assert Insert(x, s) == [x] + s;
      InsertFrontSorted(x, s);
    }
  }

  lemma InsertFrontSorted(x: int, s: seq<int>)
    requires IsSorted(s) && (s == [] || x <= s[0])
    ensures IsSorted([x] + s)
  {
  }

  lemma InsertHeadBound(h: int, x: int, tail: seq<int>, rest: seq<int>)
    requires h < x && (forall k :: 0 <= k < |tail| ==> h <= tail[k])
    requires multiset(rest) == multiset(tail) + multiset{x}
    requires IsSorted(rest)
    ensures IsSorted([h] + rest)
  {
    forall k | 0 <= k < |rest| ensures h <= rest[k] {
      assert rest[k] in multiset(rest);
      if rest[k] != x {
        assert rest[k] in multiset(tail);
        assert rest[k] in tail;
      }
    }
  }

  /** The elements of `s` in ascending order (Python's `sorted`), by insertion. */
  function SortSeq(s: seq<int>): seq<int>
    decreases |s|
  {
    if s == [] then [] else Insert(s[0], SortSeq(s[1..]))
  }

  /** Sorting yields an ascending permutation of its input. */
  lemma {:induction false} SortSeqSpec(s: seq<int>)
    ensures IsSorted(SortSeq(s))
    ensures multiset(SortSeq(s)) == multiset(s)
    decreases |s|
  {
    if s != [] {
      SortSeqSpec(s[1..]);
      InsertSpec(s[0], SortSeq(s[1..]));
      assert s == [s[0]] + s[1..];
    }
  }

  /** The set of elements of a sequence. */
  function Elements<T>(s: seq<T>): set<T> {
    set x | x in s
  }

  lemma ElementsConcat<T>(a: seq<T>, b: seq<T>)
    ensures Elements(a + b) == Elements(a) + Elements(b)
  {
  }

  lemma ElementsEmpty<T>(s: seq<T>)
    ensures Elements(s) == {} <==> s == []
  {
    if s != [] {
      assert s[0] in Elements(s);
    }
  }

  /** A sorted sequence with adjacent repeats dropped. */
  function Dedup(s: seq<int>): (r: seq<int>)
    requires IsSorted(s)
    ensures IsStrictlySorted(r)
    ensures Elements(r) == Elements(s)
    ensures s != [] ==> r != [] && r[0] == s[0]
    decreases |s|
  {
    if |s| <= 1 then s
    else
      var rest := Dedup(s[1..]);
      assert s == [s[0]] + s[1..];
      assert Elements(s) == {s[0]} + Elements(s[1..]);
      if s[0] == s[1] then
        assert s[1] in Elements(s[1..]);
        rest
      else
        assert forall k :: 0 <= k < |rest| ==> rest[k] in Elements(rest);
        assert Elements([s[0]] + rest) == {s[0]} + Elements(rest);
        [s[0]] + rest
  }

  /** The distinct elements of `s` in ascending order (`np.unique`). */
  function Unique(s: seq<int>): (r: seq<int>)
    ensures IsStrictlySorted(r)
    ensures Elements(r) == Elements(s)
  {
    var sorted := SortSeq(s);
    SortSeqSpec(s);
    assert forall x :: x in sorted <==> x in multiset(sorted);
    assert forall x :: x in s <==> x in multiset(s);
    Dedup(sorted)
  }

  /** Two ascending sequences without repeats that hold the same elements are equal. */
  lemma {:induction false} StrictlySortedUnique(a: seq<int>, b: seq<int>)
    requires IsStrictlySorted(a) && IsStrictlySorted(b)
    requires Elements(a) == Elements(b)
    ensures a == b
    decreases |a|
  {
    if a != [] && b != [] {
      assert a[0] in Elements(a) && b[0] in Elements(b);
      assert a[0] == b[0];
      assert a == [a[0]] + a[1..] && b == [b[0]] + b[1..];
      assert Elements(a) == {a[0]} + Elements(a[1..]);
      assert Elements(b) == {b[0]} + Elements(b[1..]);
      assert a[0] !in Elements(a[1..]) && b[0] !in Elements(b[1..]);
      assert Elements(a[1..]) == Elements(b[1..]);
      StrictlySortedUnique(a[1..], b[1..]);
    } else {
      ElementsEmpty(a);
      ElementsEmpty(b);
    }
  }

  /** No element occurs twice in `s`. */
  predicate NoDuplicates<T(==)>(s: seq<T>) {
    forall i, j :: 0 <= i < j < |s| ==> s[i] != s[j]
  }

  /** Sorting keeps repeats: the sorted copy is strictly ascending iff the input has none. */
  lemma SortStrictIffNoDuplicates(s: seq<int>)
    ensures IsStrictlySorted(SortSeq(s)) <==> NoDuplicates(s)
  {
    var r := SortSeq(s);
    SortSeqSpec(s);
    if IsStrictlySorted(r) {
      forall x ensures multiset(r)[x] <= 1 {
        StrictlySortedCountsAtMostOne(r, x);
      }
      forall i, j | 0 <= i < j < |s| ensures s[i] != s[j] {
        if s[i] == s[j] {
          TwoIndicesCountTwice(s, i, j);
        }
      }
    }
    if NoDuplicates(s) {
      forall i, j | 0 <= i < j < |r| ensures r[i] < r[j] {
        if r[i] == r[j] {
          TwoIndicesCountTwice(r, i, j);
          NoDuplicatesCountsAtMostOne(s, r[i]);
        }
      }
    }
  }

  lemma {:induction false} StrictlySortedCountsAtMostOne(s: seq<int>, x: int)
    requires IsStrictlySorted(s)
    ensures multiset(s)[x] <= 1
    decreases |s|
  {
    if s != [] {
      assert s == [s[0]] + s[1..];
      StrictlySortedCountsAtMostOne(s[1..], x);
      if s[0] == x {
        assert x !in s[1..];
      }
    }
  }

  lemma {:induction false} NoDuplicatesCountsAtMostOne<T>(s: seq<T>, x: T)
    requires NoDuplicates(s)
    ensures multiset(s)[x] <= 1
    decreases |s|
  {
    if s != [] {
      assert s == [s[0]] + s[1..];
      NoDuplicatesCountsAtMostOne(s[1..], x);
      if s[0] == x {
        assert x !in s[1..];
      }
    }
  }

  lemma TwoIndicesCountTwice<T>(s: seq<T>, i: int, j: int)
    requires 0 <= i < j < |s| && s[i] == s[j]
    ensures multiset(s)[s[i]] >= 2
  {
    assert s == s[..i] + [s[i]] + s[i + 1..j] + [s[j]] + s[j + 1..];
  }
}
