/**
 * Accumulation of weighted samples into numbered bins, and the bin rule of
 * `np.histogram` for an explicit array of edges. The photon-list spectrum is
 * a histogram of raw channel values; the photon-list data rate accumulates
 * packet sizes into one-second bins.
 */
module Binning {
  import opened Sequences

  /** A sample destined for bin `bin` (possibly outside every bin) with weight `weight`. */
  datatype Entry = Entry(bin: int, weight: int)

  /** `n` bins, each the running total of the weights of the entries that fall into it. */
  function Accumulate(entries: seq<Entry>, n: nat): (r: seq<int>)
    ensures |r| == n
    decreases |entries|
  {
    if entries == [] then seq(n, _ => 0)
    else
      var prev := Accumulate(entries[..|entries| - 1], n);
      var e := entries[|entries| - 1];
      if 0 <= e.bin < n then prev[e.bin := prev[e.bin] + e.weight] else prev
  }

  /** Reference definition: the total weight of the entries addressed to bin `b`. */
  function BinWeight(entries: seq<Entry>, b: int): int
    decreases |entries|
  {
    if entries == [] then 0
    else
      var e := entries[|entries| - 1];
      BinWeight(entries[..|entries| - 1], b) + (if e.bin == b then e.weight else 0)
  }

  /** Reference definition: the total weight of the entries addressed to some bin below `n`. */
  function InRangeWeight(entries: seq<Entry>, n: nat): int
    decreases |entries|
  {
    if entries == [] then 0
    else
      var e := entries[|entries| - 1];
      InRangeWeight(entries[..|entries| - 1], n) + (if 0 <= e.bin < n then e.weight else 0)
  }

  /** Bin `b` of the accumulation holds exactly the weight addressed to `b`. */
  lemma {:induction false} AccumulateAt(entries: seq<Entry>, n: nat, b: int)
    requires 0 <= b < n
    ensures Accumulate(entries, n)[b] == BinWeight(entries, b)
    decreases |entries|
  {
    if entries != [] {
      AccumulateAt(entries[..|entries| - 1], n, b);
    }
  }

  lemma {:induction false} SumUpdate(s: seq<int>, i: int, d: int)
    requires 0 <= i < |s|
    ensures Sum(s[i := s[i] + d]) == Sum(s) + d
    decreases |s|
  {
    var t := s[i := s[i] + d];
    assert t[..|t| - 1] == if i < |s| - 1 then s[..|s| - 1][i := s[i] + d] else s[..|s| - 1];
    if i < |s| - 1 {
      SumUpdate(s[..|s| - 1], i, d);
    }
  }

  lemma {:induction false} SumZeros(n: nat)
    ensures Sum(seq(n, _ => 0)) == 0
    decreases n
  {
    if n > 0 {
      assert seq(n, _ => 0)[..n - 1] == seq(n - 1, _ => 0);
      SumZeros(n - 1);
    }
  }

  /** Conservation: the bins together hold the weight of every entry that falls into one of them. */
  lemma {:induction false} AccumulateTotal(entries: seq<Entry>, n: nat)
    ensures Sum(Accumulate(entries, n)) == InRangeWeight(entries, n)
    decreases |entries|
  {
    if entries == [] {
      SumZeros(n);
    } else {
      var e := entries[|entries| - 1];
      AccumulateTotal(entries[..|entries| - 1], n);
      if 0 <= e.bin < n {
        SumUpdate(Accumulate(entries[..|entries| - 1], n), e.bin, e.weight);
      }
    }
  }

  // ---------------------------------------------------------------------------
  // The histogram rule for explicit edges
  // ---------------------------------------------------------------------------

  /** Edges that `np.histogram` accepts as an array: none decreasing (an empty array included). */
  predicate ValidEdges(edges: seq<int>) {
    forall i, j :: 0 <= i < j < |edges| ==> edges[i] <= edges[j]
  }

  /** The number of bins an edge array defines: one fewer than the edges, none for no edges. */
  function BinCount(edges: seq<int>): nat {
    if |edges| == 0 then 0 else |edges| - 1
  }

  /**
   * Bin `k` covers `edges[k] <= v < edges[k + 1]`, except the last bin, which
   * also takes `v == edges[k + 1]` (numpy's closed last bin).
   */
  predicate InBin(v: int, edges: seq<int>, k: int) {
    0 <= k && k + 1 < |edges| &&
    edges[k] <= v && (v < edges[k + 1] || (k + 2 == |edges| && v == edges[k + 1]))
  }

  /** `v` lies between the first and the last edge, both included. */
  predicate InEdgeRange(v: int, edges: seq<int>) {
    |edges| >= 2 && edges[0] <= v <= edges[|edges| - 1]
  }

  /** The first bin at or after `k` that holds `v`, or -1 when there is none. */
  function FindBin(v: int, edges: seq<int>, k: nat): int
    decreases |edges| - k
  {
    if k + 1 >= |edges| then -1
    else if InBin(v, edges, k) then k
    else FindBin(v, edges, k + 1)
  }

  /** The bin that holds `v`, or -1 when `v` lies outside the edges. */
  function BinOf(v: int, edges: seq<int>): int {
    FindBin(v, edges, 0)
  }

  /** With non-decreasing edges, no value lies in two bins. */
  lemma InBinUnique(v: int, edges: seq<int>, j: int, k: int)
    requires ValidEdges(edges)
    requires InBin(v, edges, j) && InBin(v, edges, k)
    ensures j == k
  {
  }

  lemma {:induction false} FindBinSpec(v: int, edges: seq<int>, k: nat)
    requires ValidEdges(edges)
    ensures var r := FindBin(v, edges, k);
            (r == -1 || (k <= r && InBin(v, edges, r))) &&
            (r == -1 ==> forall j :: k <= j ==> !InBin(v, edges, j))
    decreases |edges| - k
  {
    if k + 1 < |edges| && !InBin(v, edges, k) {
      FindBinSpec(v, edges, k + 1);
      var r := FindBin(v, edges, k + 1);
      if r == -1 {
        assert forall j :: k + 1 <= j ==> !InBin(v, edges, j);
      }
    }
  }

  /** `BinOf` names exactly the bin that holds the value. */
  lemma BinOfIsInBin(v: int, edges: seq<int>, k: int)
    requires ValidEdges(edges)
    ensures BinOf(v, edges) == k && k >= 0 <==> InBin(v, edges, k)
  {
    FindBinSpec(v, edges, 0);
    var r := BinOf(v, edges);
    if InBin(v, edges, k) && r != -1 {
      InBinUnique(v, edges, r, k);
    }
  }

  /** Some bin holds `v` iff `v` lies within the first and last edges. */
  lemma {:induction false} BinOfFound(v: int, edges: seq<int>)
    requires ValidEdges(edges)
    ensures BinOf(v, edges) >= 0 <==> InEdgeRange(v, edges)
  {
    FindBinSpec(v, edges, 0);
    var r := BinOf(v, edges);
    if r >= 0 {
      assert edges[0] <= edges[r] && edges[r + 1] <= edges[|edges| - 1];
    } else if InEdgeRange(v, edges) {
      CoveringBin(v, edges, 0);
    }
  }

  /** A value between `edges[k]` and the last edge lies in some bin at or after `k`. */
  lemma {:induction false} CoveringBin(v: int, edges: seq<int>, k: nat)
    requires ValidEdges(edges) && k + 1 < |edges|
    requires edges[k] <= v <= edges[|edges| - 1]
    ensures exists j :: k <= j && InBin(v, edges, j)
    decreases |edges| - k
  {
    if !InBin(v, edges, k) {
      CoveringBin(v, edges, k + 1);
    }
  }

  /** The bin entries of a list of values, each with weight one. */
  function HistogramEntries(values: seq<int>, edges: seq<int>): (r: seq<Entry>)
    ensures |r| == |values|
    decreases |values|
  {
    if values == [] then []
    else
      HistogramEntries(values[..|values| - 1], edges) + [Entry(BinOf(values[|values| - 1], edges), 1)]
  }

  /** `np.histogram(values, bins=edges)[0]` for an array of edges. */
  function Histogram(values: seq<int>, edges: seq<int>): seq<int> {
    Accumulate(HistogramEntries(values, edges), BinCount(edges))
  }

  /** Bin `k` of the histogram counts exactly the values that lie in bin `k`. */
  lemma HistogramCounts(values: seq<int>, edges: seq<int>, k: int)
    requires ValidEdges(edges) && 0 <= k < |edges| - 1
    ensures |Histogram(values, edges)| == |edges| - 1
    ensures Histogram(values, edges)[k] == |Filter(values, v => InBin(v, edges, k))|
  {
    AccumulateAt(HistogramEntries(values, edges), |edges| - 1, k);
    HistogramBinWeight(values, edges, k);
  }

  lemma {:induction false} HistogramBinWeight(values: seq<int>, edges: seq<int>, k: int)
    requires ValidEdges(edges) && 0 <= k < |edges| - 1
    ensures BinWeight(HistogramEntries(values, edges), k) == |Filter(values, v => InBin(v, edges, k))|
    decreases |values|
  {
    if values != [] {
      var init, last := values[..|values| - 1], values[|values| - 1];
      var es := HistogramEntries(values, edges);
      assert es[..|es| - 1] == HistogramEntries(init, edges);
      HistogramBinWeight(init, edges, k);
      assert values == init + [last];
      FilterSnoc(init, last, v => InBin(v, edges, k));
      BinOfIsInBin(last, edges, k);
    }
  }

  /** The histogram's counts add up to the number of values between the first and last edge. */
  lemma HistogramTotal(values: seq<int>, edges: seq<int>)
    requires ValidEdges(edges)
    ensures Sum(Histogram(values, edges)) == |Filter(values, v => InEdgeRange(v, edges))|
  {
    AccumulateTotal(HistogramEntries(values, edges), BinCount(edges));
    HistogramInRangeWeight(values, edges);
  }

  lemma {:induction false} HistogramInRangeWeight(values: seq<int>, edges: seq<int>)
    requires ValidEdges(edges)
    ensures InRangeWeight(HistogramEntries(values, edges), BinCount(edges))
            == |Filter(values, v => InEdgeRange(v, edges))|
    decreases |values|
  {
    if values != [] {
      var init, last := values[..|values| - 1], values[|values| - 1];
      var es := HistogramEntries(values, edges);
      assert es[..|es| - 1] == HistogramEntries(init, edges);
      HistogramInRangeWeight(init, edges);
      assert values == init + [last];
      FilterSnoc(init, last, v => InEdgeRange(v, edges));
      BinOfFound(last, edges);
      FindBinSpec(last, edges, 0);
    }
  }
}
