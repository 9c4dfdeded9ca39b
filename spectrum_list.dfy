/**
 * The MeDDEA summary-spectrum list: a cube of pre-binned counts indexed
 * [packet row, pixel slot, spectral bin], the packet times, the spectral axis
 * shared by every slot, and the pixel list recovered from the per-packet
 * pixel-id rows. `spectrum` integrates requested pixels over time,
 * `lightcurve` integrates requested pixels over the bins inside each spectral
 * region, row by row, and `[key]` picks a row or cuts the list by time.
 *
 * The first half states what these compute as functions of the cube's value;
 * the class below computes them with loops over the count array and is proved
 * against those functions.
 */
module SpectrumLists {
  import opened Sequences
  import opened Pixels
  import opened Regions
  import opened Indexing
  import opened Outcomes
  import PA = PixelAssignment

  /** The edges stored in `bins`: 0 to 4096 in steps of 8. */
  const SummaryBinEdges: seq<int> := seq(513, k => 8 * k)

  // ---------------------------------------------------------------------------
  // The counts as a value
  // ---------------------------------------------------------------------------

  /** Counts indexed [row][slot][bin]. */
  type Cube = seq<seq<seq<int>>>

  /** The count at [t, s, b], or 0 outside the cube. */
  function Count(c: Cube, t: int, s: int, b: int): int {
    if 0 <= t < |c| && 0 <= s < |c[t]| && 0 <= b < |c[t][s]| then c[t][s][b] else 0
  }

  /** The slot of the first occurrence of `p` in the pixel list, or -1 when `p` is absent. */
  function SlotOf(list: seq<PixelId>, p: PixelId): (k: int)
    ensures -1 <= k < |list|
    ensures k == -1 <==> p !in list
    ensures k >= 0 ==> list[k] == p && forall j :: 0 <= j < k ==> list[j] != p
    decreases |list|
  {
    if list == [] then -1
    else if list[0] == p then 0
    else
      var k := SlotOf(list[1..], p);
      assert list == [list[0]] + list[1..];
      if k == -1 then -1 else k + 1
  }

  /** Counts of slot `s`, bin `b`, summed over the first `n` rows. */
  function TimeSum(c: Cube, s: int, b: int, n: nat): int
    decreases n
  {
    if n == 0 then 0 else TimeSum(c, s, b, n - 1) + Count(c, n - 1, s, b)
  }

  /** Time-integrated counts of bin `b` for one requested pixel: its first slot, or nothing. */
  function PixelTotal(c: Cube, list: seq<PixelId>, p: PixelId, b: int): int {
    var k := SlotOf(list, p);
    if k >= 0 then TimeSum(c, k, b, |c|) else 0
  }

  /** Bin `b` of the spectrum of the requested pixels, each request counted once per occurrence. */
  function SpectrumBin(c: Cube, list: seq<PixelId>, pixels: seq<PixelId>, b: int): int
    decreases |pixels|
  {
    if pixels == [] then 0
    else SpectrumBin(c, list, pixels[..|pixels| - 1], b) + PixelTotal(c, list, pixels[|pixels| - 1], b)
  }

  /** Counts of row `t`, bin `b`, summed over the requested pixels' slots. */
  function RowBin(c: Cube, list: seq<PixelId>, pixels: seq<PixelId>, t: int, b: int): int
    decreases |pixels|
  {
    if pixels == [] then 0
    else
      var k := SlotOf(list, pixels[|pixels| - 1]);
      RowBin(c, list, pixels[..|pixels| - 1], t, b) + (if k >= 0 then Count(c, t, k, b) else 0)
  }

  /** Row `t` of the light curve over the first `m` bins: requested counts in bins strictly inside the region. */
  function BandRow(c: Cube, list: seq<PixelId>, pixels: seq<PixelId>, axis: seq<int>, r: SubRegion,
                   t: int, m: nat): int
    requires m <= |axis|
    decreases m
  {
    if m == 0 then 0
    else
      BandRow(c, list, pixels, axis, r, t, m - 1) +
      (if Inside(axis[m - 1], r) then RowBin(c, list, pixels, t, m - 1) else 0)
  }

  /** The light-curve column of one region: one value per row. */
  function LightcurveColumn(c: Cube, list: seq<PixelId>, pixels: seq<PixelId>, axis: seq<int>,
                            r: SubRegion): seq<int>
  {
    seq(|c|, t => BandRow(c, list, pixels, axis, r, t, |axis|))
  }

  // ---------------------------------------------------------------------------
  // Properties of the spectrum and the light curve
  // ---------------------------------------------------------------------------

  /** The spectrum of a concatenated request is the sum of the spectra of its parts. */
  lemma {:induction false} SpectrumBinConcat(c: Cube, list: seq<PixelId>, a: seq<PixelId>, d: seq<PixelId>, b: int)
    ensures SpectrumBin(c, list, a + d, b) == SpectrumBin(c, list, a, b) + SpectrumBin(c, list, d, b)
    decreases |d|
  {
    if d == [] {
      assert a + d == a;
    } else {
      assert (a + d)[..|a + d| - 1] == a + d[..|d| - 1];
      SpectrumBinConcat(c, list, a, d[..|d| - 1], b);
    }
  }

  /** The spectra of the requested pixels taken one at a time, added up. */
  function PerPixelSum(c: Cube, list: seq<PixelId>, pixels: seq<PixelId>, b: int): int
    decreases |pixels|
  {
    if pixels == [] then 0
    else PerPixelSum(c, list, pixels[..|pixels| - 1], b) + SpectrumBin(c, list, [pixels[|pixels| - 1]], b)
  }

  /** The spectrum of a pixel list equals the sum of the spectra of its pixels taken one by one. */
  lemma {:induction false} SpectrumIsSumOfPixels(c: Cube, list: seq<PixelId>, pixels: seq<PixelId>, b: int)
    ensures SpectrumBin(c, list, pixels, b) == PerPixelSum(c, list, pixels, b)
    decreases |pixels|
  {
    if pixels != [] {
      var init, last := pixels[..|pixels| - 1], pixels[|pixels| - 1];
      SpectrumIsSumOfPixels(c, list, init, b);
      assert [last][..0] == [];
      assert SpectrumBin(c, list, [last], b) == PixelTotal(c, list, last, b);
    }
  }

  /** The requested pixels that the pixel list holds, in request order. */
  function Present(list: seq<PixelId>, pixels: seq<PixelId>): seq<PixelId> {
    Filter(pixels, p => p in list)
  }

  lemma PresentSnoc(list: seq<PixelId>, pixels: seq<PixelId>, p: PixelId)
    ensures Present(list, pixels + [p]) == Present(list, pixels) + (if p in list then [p] else [])
  {
    FilterSnoc(pixels, p, p => p in list);
  }

  /** Requested pixels that are not in the pixel list contribute nothing. */
  lemma {:induction false} AbsentPixelsIgnored(c: Cube, list: seq<PixelId>, pixels: seq<PixelId>, b: int)
    ensures SpectrumBin(c, list, pixels, b) == SpectrumBin(c, list, Present(list, pixels), b)
    decreases |pixels|
  {
    if pixels != [] {
      var init, last := pixels[..|pixels| - 1], pixels[|pixels| - 1];
      AbsentPixelsIgnored(c, list, init, b);
      assert pixels == init + [last];
      PresentSnoc(list, init, last);
      var kept := Present(list, init);
      if last in list {
        var both := kept + [last];
        assert Present(list, pixels) == both;
        assert both[..|both| - 1] == kept && both[|both| - 1] == last;
        assert SpectrumBin(c, list, both, b) == SpectrumBin(c, list, kept, b) + PixelTotal(c, list, last, b);
      } else {
        assert Present(list, pixels) == kept;
        assert PixelTotal(c, list, last, b) == 0;
      }
    }
  }

  /** A request none of whose pixels is in the pixel list has an all-zero spectrum. */
  lemma NoPresentPixels(c: Cube, list: seq<PixelId>, pixels: seq<PixelId>, b: int)
    requires forall i :: 0 <= i < |pixels| ==> pixels[i] !in list
    ensures SpectrumBin(c, list, pixels, b) == 0
  {
    AbsentPixelsIgnored(c, list, pixels, b);
    FilterKeepsNone(pixels, p => p in list);
  }

  /** The per-row counts of bin `b`, summed over the first `n` rows. */
  function RowsTotal(c: Cube, list: seq<PixelId>, pixels: seq<PixelId>, b: int, n: nat): int
    decreases n
  {
    if n == 0 then 0 else RowsTotal(c, list, pixels, b, n - 1) + RowBin(c, list, pixels, n - 1, b)
  }

  lemma {:induction false} RowsTotalSnoc(c: Cube, list: seq<PixelId>, pixels: seq<PixelId>, p: PixelId,
                                         b: int, n: nat)
    ensures var k := SlotOf(list, p);
            RowsTotal(c, list, pixels + [p], b, n)
            == RowsTotal(c, list, pixels, b, n) + (if k >= 0 then TimeSum(c, k, b, n) else 0)
    decreases n
  {
    assert (pixels + [p])[..|pixels + [p]| - 1] == pixels;
    if n > 0 {
      RowsTotalSnoc(c, list, pixels, p, b, n - 1);
    }
  }

  /**
   * Summing the light-curve flux of a bin over every row gives the spectrum of
   * that bin: the two products integrate the same counts in the two orders.
   */
  lemma {:induction false} SpectrumIsTimeIntegral(c: Cube, list: seq<PixelId>, pixels: seq<PixelId>, b: int)
    ensures SpectrumBin(c, list, pixels, b) == RowsTotal(c, list, pixels, b, |c|)
    decreases |pixels|
  {
    if pixels == [] {
      RowsTotalEmpty(c, list, b, |c|);
    } else {
      var init, last := pixels[..|pixels| - 1], pixels[|pixels| - 1];
      SpectrumIsTimeIntegral(c, list, init, b);
      assert pixels == init + [last];
      RowsTotalSnoc(c, list, init, last, b, |c|);
    }
  }

  lemma {:induction false} RowsTotalEmpty(c: Cube, list: seq<PixelId>, b: int, n: nat)
    ensures RowsTotal(c, list, [], b, n) == 0
    decreases n
  {
    if n > 0 {
      RowsTotalEmpty(c, list, b, n - 1);
    }
  }

  /** The spectrum summed over the first `m` bins that lie strictly inside the region. */
  function BandSpectrum(c: Cube, list: seq<PixelId>, pixels: seq<PixelId>, axis: seq<int>, r: SubRegion,
                        m: nat): int
    requires m <= |axis|
    decreases m
  {
    if m == 0 then 0
    else
      BandSpectrum(c, list, pixels, axis, r, m - 1) +
      (if Inside(axis[m - 1], r) then SpectrumBin(c, list, pixels, m - 1) else 0)
  }

  /** The light-curve rows below `n`, each over the first `m` bins, added up. */
  function BandRows(c: Cube, list: seq<PixelId>, pixels: seq<PixelId>, axis: seq<int>, r: SubRegion,
                    n: nat, m: nat): int
    requires m <= |axis|
    decreases n
  {
    if n == 0 then 0 else BandRows(c, list, pixels, axis, r, n - 1, m) + BandRow(c, list, pixels, axis, r, n - 1, m)
  }

  lemma {:induction false} BandRowsStep(c: Cube, list: seq<PixelId>, pixels: seq<PixelId>, axis: seq<int>,
                                        r: SubRegion, n: nat, m: nat)
    requires 0 < m <= |axis|
    ensures BandRows(c, list, pixels, axis, r, n, m)
            == BandRows(c, list, pixels, axis, r, n, m - 1) +
               (if Inside(axis[m - 1], r) then RowsTotal(c, list, pixels, m - 1, n) else 0)
    decreases n
  {
    if n > 0 {
      BandRowsStep(c, list, pixels, axis, r, n - 1, m);
    }
  }

  lemma {:induction false} BandRowsSpectrum(c: Cube, list: seq<PixelId>, pixels: seq<PixelId>, axis: seq<int>,
                                            r: SubRegion, m: nat)
    requires m <= |axis|
    ensures BandRows(c, list, pixels, axis, r, |c|, m) == BandSpectrum(c, list, pixels, axis, r, m)
    decreases m
  {
    if m == 0 {
      BandRowsZero(c, list, pixels, axis, r, |c|);
    } else {
      BandRowsSpectrum(c, list, pixels, axis, r, m - 1);
      BandRowsStep(c, list, pixels, axis, r, |c|, m);
      SpectrumIsTimeIntegral(c, list, pixels, m - 1);
    }
  }

  lemma {:induction false} BandRowsZero(c: Cube, list: seq<PixelId>, pixels: seq<PixelId>, axis: seq<int>,
                                        r: SubRegion, n: nat)
    ensures BandRows(c, list, pixels, axis, r, n, 0) == 0
    decreases n
  {
    if n > 0 {
      BandRowsZero(c, list, pixels, axis, r, n - 1);
    }
  }

  lemma {:induction false} SumColumn(c: Cube, list: seq<PixelId>, pixels: seq<PixelId>, axis: seq<int>,
                                     r: SubRegion, n: nat)
    requires n <= |c|
    ensures Sum(LightcurveColumn(c, list, pixels, axis, r)[..n]) == BandRows(c, list, pixels, axis, r, n, |axis|)
    decreases n
  {
    var col := LightcurveColumn(c, list, pixels, axis, r);
    if n > 0 {
      assert col[..n][..n - 1] == col[..n - 1];
      SumColumn(c, list, pixels, axis, r, n - 1);
    }
  }

  /**
   * A light-curve column adds up, over all rows, to the spectrum summed over
   * the bins strictly inside the region: no count is lost or counted twice.
   */
  lemma LightcurveTotal(c: Cube, list: seq<PixelId>, pixels: seq<PixelId>, axis: seq<int>, r: SubRegion)
    ensures |LightcurveColumn(c, list, pixels, axis, r)| == |c|
    ensures Sum(LightcurveColumn(c, list, pixels, axis, r)) == BandSpectrum(c, list, pixels, axis, r, |axis|)
  {
    var col := LightcurveColumn(c, list, pixels, axis, r);
    SumColumn(c, list, pixels, axis, r, |c|);
    assert col[..|c|] == col;
    BandRowsSpectrum(c, list, pixels, axis, r, |axis|);
  }

  // ---------------------------------------------------------------------------
  // Time slicing
  // ---------------------------------------------------------------------------

  /** The indices of the rows whose time lies strictly inside (start, stop), ascending. */
  function KeptRows(times: seq<int>, start: int, stop: int): (r: seq<int>)
    ensures forall j :: 0 <= j < |r| ==> 0 <= r[j] < |times|
    decreases |times|
  {
    if times == [] then []
    else
      var n := |times| - 1;
      KeptRows(times[..n], start, stop) + (if start < times[n] < stop then [n] else [])
  }

  /** The entries of `s` at the given indices, in that order. */
  function Pick<T>(s: seq<T>, idx: seq<int>): (r: seq<T>)
    requires forall j :: 0 <= j < |idx| ==> 0 <= idx[j] < |s|
    ensures |r| == |idx|
  {
    seq(|idx|, j requires 0 <= j < |idx| => s[idx[j]])
  }

  /** The kept rows are, in ascending order, exactly the rows whose time is inside the interval. */
  lemma {:induction false} KeptRowsSpec(times: seq<int>, start: int, stop: int)
    ensures IsStrictlySorted(KeptRows(times, start, stop))
    ensures forall t :: 0 <= t < |times| ==> (t in KeptRows(times, start, stop) <==> start < times[t] < stop)
    decreases |times|
  {
    if times != [] {
      var n := |times| - 1;
      var init := times[..n];
      KeptRowsSpec(init, start, stop);
      forall t | 0 <= t < n
        ensures times[t] == init[t]
      {
      }
    }
  }

  /** The kept times are the time column filtered to the open interval, as the photon list slices. */
  lemma {:induction false} KeptTimesFiltered(times: seq<int>, start: int, stop: int)
    ensures Pick(times, KeptRows(times, start, stop)) == Filter(times, t => start < t < stop)
    decreases |times|
  {
    if times != [] {
      var n := |times| - 1;
      var init := times[..n];
      var k0 := KeptRows(init, start, stop);
      KeptTimesFiltered(init, start, stop);
      assert times == init + [times[n]];
      FilterSnoc(init, times[n], t => start < t < stop);
      assert Pick(times, k0) == Pick(init, k0);
    }
  }

  /** Bin-by-bin sum of two spectra of one length (numpy's `+=` on arrays). */
  function AddBins(x: seq<int>, y: seq<int>): (r: seq<int>)
    requires |x| == |y|
    ensures |r| == |x| && forall b :: 0 <= b < |r| ==> r[b] == x[b] + y[b]
  {
    seq(|x|, b requires 0 <= b < |x| => x[b] + y[b])
  }

  /** Entries `[t, 0]` to `[t, m - 1]` of a two-dimensional array, added up. */
  ghost function ArrayRowSum(a: array2<int>, t: int, m: nat): int
    reads a
    requires 0 <= t < a.Length0 && m <= a.Length1
    decreases m
  {
    if m == 0 then 0 else ArrayRowSum(a, t, m - 1) + a[t, m - 1]
  }

  /** `np.sum(a, axis=1)`: one total per row. */
  method RowTotals(a: array2<int>) returns (v: seq<int>)
    ensures |v| == a.Length0
    ensures forall t :: 0 <= t < |v| ==> v[t] == ArrayRowSum(a, t, a.Length1)
  {
    v := [];
    for t := 0 to a.Length0
      invariant |v| == t
      invariant forall t' :: 0 <= t' < t ==> v[t'] == ArrayRowSum(a, t', a.Length1)
    {
      var total := 0;
      for b := 0 to a.Length1
        invariant total == ArrayRowSum(a, t, b)
      {
        total := total + a[t, b];
      }
      v := v + [total];
    }
  }

  /** Row sums of the masked flux are the rows of the region's light-curve column. */
  lemma MaskedRowsAreBandRows(a: array2<int>, c: Cube, list: seq<PixelId>, pixels: seq<PixelId>,
                              axis: seq<int>, sr: SubRegion)
    requires a.Length0 == |c| && a.Length1 == |axis|
    requires forall t, b :: 0 <= t < a.Length0 && 0 <= b < a.Length1 ==>
               a[t, b] == if Inside(axis[b], sr) then RowBin(c, list, pixels, t, b) else 0
    ensures forall t :: 0 <= t < a.Length0 ==>
              ArrayRowSum(a, t, a.Length1) == LightcurveColumn(c, list, pixels, axis, sr)[t]
  {
    forall t | 0 <= t < a.Length0
      ensures ArrayRowSum(a, t, a.Length1) == LightcurveColumn(c, list, pixels, axis, sr)[t]
    {
      MaskedRowIsBandRow(a, c, list, pixels, axis, sr, t, a.Length1);
    }
  }

  lemma {:induction false} MaskedRowIsBandRow(a: array2<int>, c: Cube, list: seq<PixelId>, pixels: seq<PixelId>,
                                              axis: seq<int>, sr: SubRegion, t: int, m: nat)
    requires 0 <= t < a.Length0 && m <= a.Length1 == |axis|
    requires forall b :: 0 <= b < a.Length1 ==>
               a[t, b] == if Inside(axis[b], sr) then RowBin(c, list, pixels, t, b) else 0
    ensures ArrayRowSum(a, t, m) == BandRow(c, list, pixels, axis, sr, t, m)
    decreases m
  {
    if m > 0 {
      MaskedRowIsBandRow(a, c, list, pixels, axis, sr, t, m - 1);
    }
  }

  /** The pixel-id rows have one id per cube slot. */
  predicate SlotRows(pixelIds: seq<seq<PixelId>>) {
    forall t :: 0 <= t < |pixelIds| ==> |pixelIds[t]| == SlotCount
  }

  /** `container[key]` for an integer key: one row of the cube. */
  datatype Item = Row(spectra: seq<seq<int>>) | Listed(list: SpectrumList)

  // ---------------------------------------------------------------------------
  // The container
  // ---------------------------------------------------------------------------

  class SpectrumList {
    /** Packet times, one per row. */
    var time: seq<int>
    /** Counts indexed [row, slot, bin]. */
    var specs: array3<int>
    /** The spectral axis shared by every slot, one value per bin, and its unit. */
    var axis: seq<int>
    var axisUnit: Unit
    /** The per-packet pixel-id rows as given, and the pixel list recovered from them. */
    var pixelIds: seq<seq<PixelId>>
    var pixelList: seq<PixelId>
    var bins: seq<int>
    var index: int

    /** The dimensions agree: one time per row, one pixel per slot, one axis value per bin. */
    ghost predicate Shaped()
      reads this
    {
      && |time| == specs.Length0
      && specs.Length1 == SlotCount
      && |axis| == specs.Length2
      && SlotRows(pixelIds)
      && PA.Rectangular(pixelIds)
      && |pixelList| == SlotCount
      && bins == SummaryBinEdges
      && index == |time|
    }

    /** Shaped, and the pixel list is the one the pixel-id rows resolve to. */
    ghost predicate Valid()
      reads this
    {
      Shaped() && PA.ResolvePixelList(pixelIds) == Ok(pixelList)
    }

    /** The counts as a value. */
    ghost function Cube(): (c: Cube)
      reads this, specs
      ensures |c| == specs.Length0
      ensures forall t :: 0 <= t < |c| ==> |c[t]| == specs.Length1
      ensures forall t, s :: 0 <= t < |c| && 0 <= s < |c[t]| ==> |c[t][s]| == specs.Length2
      ensures forall t, s, b :: 0 <= t < specs.Length0 && 0 <= s < specs.Length1 && 0 <= b < specs.Length2 ==>
                Count(c, t, s, b) == specs[t, s, b]
    {
      var a := specs;
      seq(a.Length0, t requires 0 <= t < a.Length0 reads a =>
        seq(a.Length1, s requires 0 <= s < a.Length1 reads a =>
          seq(a.Length2, b requires 0 <= b < a.Length2 reads a => a[t, s, b])))
    }

    /** Construction once the pixel ids are known to resolve. */
    constructor (time: seq<int>, specs: array3<int>, axis: seq<int>, axisUnit: Unit,
                 pixelIds: seq<seq<PixelId>>)
      requires |time| == specs.Length0 && specs.Length1 == SlotCount && |axis| == specs.Length2
      requires SlotRows(pixelIds) && PA.Rectangular(pixelIds)
      requires PA.ResolvePixelList(pixelIds).Ok?
      ensures Valid()
      ensures this.time == time && this.specs == specs && this.axis == axis && this.axisUnit == axisUnit
      ensures this.pixelIds == pixelIds && pixelList == PA.ResolvePixelList(pixelIds).value
    {
      this.bins := SummaryBinEdges;
      this.time := time;
      this.specs := specs;
      this.axis := axis;
      this.axisUnit := axisUnit;
      this.pixelIds := pixelIds;
      this.pixelList := PA.ResolvePixelList(pixelIds).value;
      this.index := |time|;
      PA.ResolvedLength(pixelIds);
    }

    /**
     * `SpectrumList(pkt_list, specs, pixel_ids)`: the list, or the error its
     * pixel-id validation raises.
     */
    static method Make(time: seq<int>, specs: array3<int>, axis: seq<int>, axisUnit: Unit,
                       pixelIds: seq<seq<PixelId>>) returns (r: Result<SpectrumList>)
      requires |time| == specs.Length0 && specs.Length1 == SlotCount && |axis| == specs.Length2
      requires SlotRows(pixelIds)
      ensures PA.Rectangular(pixelIds)
      ensures r.Ok? <==> PA.ResolvePixelList(pixelIds).Ok?
      ensures r.Err? ==> r.error == PA.ResolvePixelList(pixelIds).error
      ensures r.Ok? ==> fresh(r.value) && r.value.Valid() && r.value.specs == specs && r.value.time == time &&
                        r.value.axis == axis && r.value.axisUnit == axisUnit && r.value.pixelIds == pixelIds &&
                        r.value.pixelList == PA.ResolvePixelList(pixelIds).value
    {
      var resolved := PA.ResolvePixelList(pixelIds);
      if resolved.Err? {
        r := Err(resolved.error);
      } else {
        var list := new SpectrumList(time, specs, axis, axisUnit, pixelIds);
        r := Ok(list);
      }
    }

    /** The counts of slot `k` summed over every row, one total per bin (`np.sum(specs[:, k, :], axis=0)`). */
    method SlotTotals(k: int) returns (v: seq<int>)
      requires Shaped() && 0 <= k < specs.Length1
      ensures |v| == specs.Length2
      ensures forall b :: 0 <= b < |v| ==> v[b] == TimeSum(Cube(), k, b, specs.Length0)
    {
      ghost var c := Cube();
      var a := specs;
      v := [];
      for b := 0 to a.Length2
        invariant |v| == b
        invariant forall b' :: 0 <= b' < b ==> v[b'] == TimeSum(c, k, b', a.Length0)
      {
        var total := 0;
        for t := 0 to a.Length0
          invariant total == TimeSum(c, k, b, t)
        {
          total := total + a[t, k, b];
        }
        v := v + [total];
      }
    }

    /**
     * `spectrum(pixel_list)`: for every bin, the counts of each requested
     * pixel's slot summed over all rows, added up over the requests. Reading
     * the spectral axis fails when there are no rows.
     */
    method Spectrum(pixels: seq<PixelId>) returns (r: Result<seq<int>>)
      requires Shaped()
      ensures r.Err? <==> specs.Length0 == 0
      ensures r.Err? ==> r.error == IndexOutOfRange
      ensures r.Ok? ==> |r.value| == specs.Length2
      ensures r.Ok? ==> forall b :: 0 <= b < specs.Length2 ==> r.value[b] == SpectrumBin(Cube(), pixelList, pixels, b)
    {
      ghost var c := Cube();
      var flux: seq<int> := seq(specs.Length2, _ => 0);
      for i := 0 to |pixels|
        invariant |flux| == specs.Length2
        invariant forall b :: 0 <= b < |flux| ==> flux[b] == SpectrumBin(c, pixelList, pixels[..i], b)
      {
        ghost var before, after := pixels[..i], pixels[..i + 1];
        assert after == before + [pixels[i]];
        assert forall b :: SpectrumBin(c, pixelList, after, b)
                           == SpectrumBin(c, pixelList, before, b) + PixelTotal(c, pixelList, pixels[i], b);
        if pixels[i] in pixelList {
          var k := SlotOf(pixelList, pixels[i]);
          var totals := SlotTotals(k);
          flux := AddBins(flux, totals);
        }
      }
      assert pixels[..|pixels|] == pixels;
      if specs.Length0 == 0 {
        r := Err(IndexOutOfRange);
      } else {
        r := Ok(flux);
      }
    }

    /** `flux += specs[:, k, :]`: add slot `k` of every row into the row's flux. */
    method AddSlot(flux: array2<int>, k: int)
      requires Shaped() && 0 <= k < specs.Length1
      requires flux.Length0 == specs.Length0 && flux.Length1 == specs.Length2
      modifies flux
      ensures forall t, b :: 0 <= t < flux.Length0 && 0 <= b < flux.Length1 ==>
                flux[t, b] == old(flux[t, b]) + Count(Cube(), t, k, b)
    {
      ghost var c := Cube();
      var a := specs;
      for t := 0 to flux.Length0
        invariant forall t', b :: 0 <= t' < t && 0 <= b < flux.Length1 ==>
                    flux[t', b] == old(flux[t', b]) + Count(c, t', k, b)
        invariant forall t', b :: t <= t' < flux.Length0 && 0 <= b < flux.Length1 ==> flux[t', b] == old(flux[t', b])
      {
        for b := 0 to flux.Length1
          invariant forall t', b' :: 0 <= t' < t && 0 <= b' < flux.Length1 ==>
                      flux[t', b'] == old(flux[t', b']) + Count(c, t', k, b')
          invariant forall b' :: 0 <= b' < b ==> flux[t, b'] == old(flux[t, b']) + Count(c, t, k, b')
          invariant forall t', b' :: t <= t' < flux.Length0 && 0 <= b' < flux.Length1 && (t' > t || b' >= b) ==>
                      flux[t', b'] == old(flux[t', b'])
        {
          flux[t, b] := flux[t, b] + a[t, k, b];
        }
      }
    }

    /** `this_flux[:, ~ind] = 0`: zero every bin whose axis value is not strictly inside the region. */
    method ZeroOutside(flux: array2<int>, sr: SubRegion)
      requires Shaped() && flux.Length1 == |axis|
      modifies flux
      ensures forall t, b :: 0 <= t < flux.Length0 && 0 <= b < flux.Length1 ==>
                flux[t, b] == if Inside(axis[b], sr) then old(flux[t, b]) else 0
    {
      for b := 0 to flux.Length1
        invariant forall t, b' :: 0 <= t < flux.Length0 && 0 <= b' < flux.Length1 ==>
                    flux[t, b'] == if b' < b && !Inside(axis[b'], sr) then 0 else old(flux[t, b'])
      {
        if !(sr.lower < axis[b] < sr.upper) {
          for t := 0 to flux.Length0
            invariant forall t', b' :: 0 <= t' < flux.Length0 && 0 <= b' < flux.Length1 ==>
                        flux[t', b'] == if (b' < b && !Inside(axis[b'], sr)) || (b' == b && t' < t) then 0
                                        else old(flux[t', b'])
          {
            flux[t, b] := 0;
          }
        }
      }
    }

    /** The `flux` of `lightcurve`: per row and bin, the counts of the requested pixels' slots added up. */
    method AccumulatePixels(pixels: seq<PixelId>) returns (flux: array2<int>)
      requires Shaped()
      ensures fresh(flux)
      ensures flux.Length0 == specs.Length0 && flux.Length1 == specs.Length2
      ensures forall t, b :: 0 <= t < flux.Length0 && 0 <= b < flux.Length1 ==>
                flux[t, b] == RowBin(Cube(), pixelList, pixels, t, b)
    {
      ghost var c := Cube();
      flux := new int[specs.Length0, specs.Length2]((_, _) => 0);
      for i := 0 to |pixels|
        invariant fresh(flux)
        invariant forall t, b :: 0 <= t < flux.Length0 && 0 <= b < flux.Length1 ==>
                    flux[t, b] == RowBin(c, pixelList, pixels[..i], t, b)
      {
        ghost var before, after := pixels[..i], pixels[..i + 1];
        assert after == before + [pixels[i]];
        ghost var slot := SlotOf(pixelList, pixels[i]);
        assert forall t, b :: RowBin(c, pixelList, after, t, b)
                              == RowBin(c, pixelList, before, t, b) + (if slot >= 0 then Count(c, t, slot, b) else 0);
        if pixels[i] in pixelList {
          var k := SlotOf(pixelList, pixels[i]);
          AddSlot(flux, k);
        }
      }
      assert pixels[..|pixels|] == pixels;
    }

    /**
     * One light-curve column: a copy of `flux` with the bins outside the
     * region zeroed, summed per row. The accumulated `flux` itself is left
     * as it was, so every region starts from the same counts.
     */
    method RegionColumn(flux: array2<int>, pixels: seq<PixelId>, sr: SubRegion) returns (totals: seq<int>)
      requires Shaped()
      requires flux.Length0 == specs.Length0 && flux.Length1 == specs.Length2
      requires forall t, b :: 0 <= t < flux.Length0 && 0 <= b < flux.Length1 ==>
                 flux[t, b] == RowBin(Cube(), pixelList, pixels, t, b)
      ensures totals == LightcurveColumn(Cube(), pixelList, pixels, axis, sr)
    {
      ghost var c := Cube();
      var thisFlux := new int[flux.Length0, flux.Length1](
        (t, b) reads flux requires 0 <= t < flux.Length0 && 0 <= b < flux.Length1 => flux[t, b]);
      ZeroOutside(thisFlux, sr);
      totals := RowTotals(thisFlux);
      MaskedRowsAreBandRows(thisFlux, c, pixelList, pixels, axis, sr);
    }

    /**
     * `lightcurve(pixel_list, sr)`: one column per region, keyed by the
     * region's bounds, each holding one value per row. Each region needs the
     * spectral axis, which fails with no rows, and a unit comparable with it.
     */
    method Lightcurve(pixels: seq<PixelId>, regions: seq<SubRegion>) returns (r: Result<map<(int, int), seq<int>>>)
      requires Shaped()
      ensures r.Err? <==>
                regions != [] &&
                (specs.Length0 == 0 || exists i :: 0 <= i < |regions| && regions[i].unit != axisUnit)
      ensures r.Err? ==> r.error == if specs.Length0 == 0 then IndexOutOfRange else UnitMismatch
      ensures r.Ok? ==> forall key :: key in r.value <==>
                exists i :: 0 <= i < |regions| && key == (regions[i].lower, regions[i].upper)
      ensures r.Ok? ==> forall i :: 0 <= i < |regions| ==>
                r.value[(regions[i].lower, regions[i].upper)] == LightcurveColumn(Cube(), pixelList, pixels, axis, regions[i])
    {
      ghost var c := Cube();
      var flux := AccumulatePixels(pixels);
      var lc: map<(int, int), seq<int>> := map[];
      for j := 0 to |regions|
        invariant forall t, b :: 0 <= t < flux.Length0 && 0 <= b < flux.Length1 ==>
                    flux[t, b] == RowBin(c, pixelList, pixels, t, b)
        invariant j > 0 ==> specs.Length0 > 0
        invariant forall i :: 0 <= i < j ==> regions[i].unit == axisUnit
        invariant forall key :: key in lc <==> exists i :: 0 <= i < j && key == (regions[i].lower, regions[i].upper)
        invariant forall i :: 0 <= i < j ==>
                    lc[(regions[i].lower, regions[i].upper)] == LightcurveColumn(c, pixelList, pixels, axis, regions[i])
      {
        var sr := regions[j];
        if specs.Length0 == 0 {
          return Err(IndexOutOfRange);
        }
        if sr.unit != axisUnit {
          return Err(UnitMismatch);
        }
        var totals := RegionColumn(flux, pixels, sr);
        forall i | 0 <= i < j && (regions[i].lower, regions[i].upper) == (sr.lower, sr.upper)
          ensures regions[i] == sr
        {
        }
        lc := lc[(sr.lower, sr.upper) := totals];
      }
      r := Ok(lc);
    }

    /** `specs[ind, :, :]`: a new cube holding the given rows, in the given order. */
    method PickRows(kept: seq<int>) returns (sliced: array3<int>)
      requires forall j :: 0 <= j < |kept| ==> 0 <= kept[j] < specs.Length0
      ensures fresh(sliced)
      ensures sliced.Length0 == |kept| && sliced.Length1 == specs.Length1 && sliced.Length2 == specs.Length2
      ensures forall j, s, b :: 0 <= j < |kept| && 0 <= s < specs.Length1 && 0 <= b < specs.Length2 ==>
                sliced[j, s, b] == specs[kept[j], s, b]
    {
      var a := specs;
      sliced := new int[|kept|, a.Length1, a.Length2](
        (j, s, b) reads a requires 0 <= j < |kept| && 0 <= s < a.Length1 && 0 <= b < a.Length2 =>
          a[kept[j], s, b]);
    }

    /** A list whose counts are the given rows of this one has those rows of this cube as its cube. */
    lemma PickedCube(other: SpectrumList, kept: seq<int>)
      requires forall j :: 0 <= j < |kept| ==> 0 <= kept[j] < specs.Length0
      requires other.specs.Length0 == |kept| && other.specs.Length1 == specs.Length1
      requires other.specs.Length2 == specs.Length2
      requires forall j, s, b :: 0 <= j < |kept| && 0 <= s < specs.Length1 && 0 <= b < specs.Length2 ==>
                 other.specs[j, s, b] == specs[kept[j], s, b]
      ensures other.Cube() == Pick(Cube(), kept)
    {
      var c, d := Cube(), other.Cube();
      forall j | 0 <= j < |kept|
        ensures d[j] == c[kept[j]]
      {
        forall s | 0 <= s < specs.Length1
          ensures d[j][s] == c[kept[j]][s]
        {
          assert forall b :: 0 <= b < specs.Length2 ==> Count(d, j, s, b) == Count(c, kept[j], s, b);
        }
      }
    }

    /** The list cut to the rows whose time lies strictly inside (start, stop), with the original pixel-id rows. */
    method SliceByTime(start: int, stop: int) returns (list: SpectrumList)
      requires Valid()
      ensures fresh(list) && list.Valid()
      ensures var kept := KeptRows(time, start, stop);
              && list.time == Pick(time, kept)
              && list.Cube() == Pick(Cube(), kept)
              && list.axis == axis && list.axisUnit == axisUnit
              && list.pixelIds == pixelIds && list.pixelList == pixelList
    {
      var kept := KeptRows(time, start, stop);
      var sliced := PickRows(kept);
      list := new SpectrumList(Pick(time, kept), sliced, axis, axisUnit, pixelIds);
      PickedCube(list, kept);
    }

    /**
     * `container[key]`: an integer key picks one row of the cube (negative
     * counts from the end); a slice with a time at both ends builds a new list
     * from the rows strictly inside the interval and the original, unsliced
     * pixel-id rows; any other key gives the list itself.
     */
    method GetItem(key: Key) returns (r: Result<Item>)
      requires Valid()
      ensures key.IntKey? ==> (r.Ok? <==> -specs.Length0 <= key.i < specs.Length0)
      ensures key.IntKey? && r.Err? ==> r.error == IndexOutOfRange
      ensures key.IntKey? && r.Ok? ==>
                r.value == Row(Cube()[if key.i < 0 then key.i + specs.Length0 else key.i])
      ensures !key.IntKey? && !IsTimeSlice(key) ==> r == Ok(Listed(this))
      ensures IsTimeSlice(key) ==>
                var kept := KeptRows(time, key.start.t, key.stop.t);
                && r.Ok? && r.value.Listed? && fresh(r.value.list) && r.value.list.Valid()
                && r.value.list.time == Pick(time, kept)
                && r.value.list.Cube() == Pick(Cube(), kept)
                && r.value.list.axis == axis && r.value.list.axisUnit == axisUnit
                && r.value.list.pixelIds == pixelIds && r.value.list.pixelList == pixelList
    {
      match key
      case IntKey(i) =>
        var n := specs.Length0;
        if -n <= i < n {
          var row := if i < 0 then i + n else i;
          var a := specs;
          var spectra := seq(a.Length1, s requires 0 <= s < a.Length1 reads a =>
                           seq(a.Length2, b requires 0 <= b < a.Length2 reads a => a[row, s, b]));
          assert spectra == Cube()[row];
          r := Ok(Row(spectra));
        } else {
          r := Err(IndexOutOfRange);
        }
      case SliceKey(start, stop) =>
        if start.At? && stop.At? {
          var list := SliceByTime(start.t, stop.t);
          r := Ok(Listed(list));
        } else {
          r := Ok(Listed(this));
        }
      case OtherKey =>
        r := Ok(Listed(this));
    }
  }
}
