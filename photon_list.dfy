/**
 * The MeDDEA photon (event) list: a time series of packet headers and a time
 * series of detected events, with the selections and derived products the
 * `PhotonList` container offers: time slicing, pixel selection, spectral-region
 * selection, the uncalibrated or calibrated spectrum, and the data rate.
 *
 * Times are integer clock ticks (`TicksPerSecond` of them per second); raw
 * channel values (`atod`) are integers; calibrated energies are integers on a
 * grid of 0.1 keV.
 */
module PhotonLists {
  import opened Sequences
  import opened Binning
  import opened Pixels
  import opened Regions
  import opened Indexing
  import opened Outcomes

  /** One detected photon. `energy` is meaningful only when the list is calibrated. */
  datatype Event = Event(time: int, asic: int, pixel: int, atod: int, energy: int)

  /** One photon packet header; `pktlength` is the CCSDS Packet Data Length field. */
  datatype Packet = Packet(time: int, pktlength: int)

  /** The container: packet headers, events, and whether the events carry an energy column. */
  datatype PhotonList = PhotonList(pkts: seq<Packet>, events: seq<Event>, hasEnergy: bool)

  const TicksPerSecond: nat := 1_000_000

  /** A calibrated list carries energies, so the keV paths are open to it. */
  predicate Calibrated(pl: PhotonList) {
    pl.hasEnergy
  }

  // ---------------------------------------------------------------------------
  // Indexing and time slicing (__getitem__)
  // ---------------------------------------------------------------------------

  datatype Item = EventRow(event: Event) | Sliced(list: PhotonList)

  function EventsBetween(events: seq<Event>, start: int, stop: int): seq<Event> {
    Filter(events, (e: Event) => start < e.time < stop)
  }

  function PacketsBetween(pkts: seq<Packet>, start: int, stop: int): seq<Packet> {
    Filter(pkts, (p: Packet) => start < p.time < stop)
  }

  /** Both series cut independently, each by its own time column, to the open interval. */
  function TimeSlice(pl: PhotonList, start: int, stop: int): PhotonList {
    PhotonList(PacketsBetween(pl.pkts, start, stop), EventsBetween(pl.events, start, stop), pl.hasEnergy)
  }

  /** `list[key]`: an integer (negative counts from the end) picks an event; two time bounds slice; anything else is the list itself. */
  function GetItem(pl: PhotonList, key: Key): (r: Result<Item>)
    ensures key.IntKey? ==> (r.Ok? <==> -|pl.events| <= key.i < |pl.events|)
    ensures key.IntKey? && r.Err? ==> r.error == IndexOutOfRange
    ensures key.IntKey? && r.Ok? ==>
              r.value.EventRow? && r.value.event == pl.events[if key.i < 0 then key.i + |pl.events| else key.i]
    ensures !key.IntKey? ==> r.Ok? && r.value.Sliced?
    ensures !key.IntKey? && !IsTimeSlice(key) ==> r == Ok(Sliced(pl))
    ensures IsTimeSlice(key) ==> r == Ok(Sliced(TimeSlice(pl, key.start.t, key.stop.t)))
  {
    match key
    case IntKey(i) =>
      if 0 <= i < |pl.events| then Ok(EventRow(pl.events[i]))
      else if -|pl.events| <= i < 0 then Ok(EventRow(pl.events[i + |pl.events|]))
      else Err(IndexOutOfRange)
    case SliceKey(start, stop) =>
      if start.At? && stop.At? then Ok(Sliced(TimeSlice(pl, start.t, stop.t))) else Ok(Sliced(pl))
    case OtherKey => Ok(Sliced(pl))
  }

  /** Time slicing keeps exactly the rows strictly inside the interval, in their order, and the energy column. */
  lemma TimeSliceSpec(pl: PhotonList, start: int, stop: int, e: Event, p: Packet)
    ensures var r := TimeSlice(pl, start, stop);
            && (e in r.events <==> e in pl.events && start < e.time < stop)
            && (p in r.pkts <==> p in pl.pkts && start < p.time < stop)
            && IsSubsequence(r.events, pl.events)
            && IsSubsequence(r.pkts, pl.pkts)
            && multiset(r.events)[e] == (if start < e.time < stop then multiset(pl.events)[e] else 0)
            && multiset(r.pkts)[p] == (if start < p.time < stop then multiset(pl.pkts)[p] else 0)
            && r.hasEnergy == pl.hasEnergy
  {
    FilterMembership(pl.events, (e: Event) => start < e.time < stop, e);
    FilterMembership(pl.pkts, (p: Packet) => start < p.time < stop, p);
    FilterMultiplicity(pl.events, (e: Event) => start < e.time < stop, e);
    FilterMultiplicity(pl.pkts, (p: Packet) => start < p.time < stop, p);
    FilterIsSubsequence(pl.events, (e: Event) => start < e.time < stop);
    FilterIsSubsequence(pl.pkts, (p: Packet) => start < p.time < stop);
  }

  /** Slicing a slice is slicing once by the intersection of the two intervals. */
  lemma TimeSliceTwice(pl: PhotonList, a: int, b: int, c: int, d: int)
    ensures TimeSlice(TimeSlice(pl, a, b), c, d)
            == TimeSlice(pl, if a < c then c else a, if b < d then b else d)
  {
    var lo, hi := if a < c then c else a, if b < d then b else d;
    FilterFilter(pl.events, (e: Event) => a < e.time < b, (e: Event) => c < e.time < d,
                 (e: Event) => lo < e.time < hi);
    FilterFilter(pl.pkts, (p: Packet) => a < p.time < b, (p: Packet) => c < p.time < d,
                 (p: Packet) => lo < p.time < hi);
  }

  /** Re-slicing with an enclosing interval changes nothing. */
  lemma TimeSliceSuperset(pl: PhotonList, a: int, b: int, c: int, d: int)
    requires c <= a && b <= d
    ensures TimeSlice(TimeSlice(pl, a, b), c, d) == TimeSlice(pl, a, b)
  {
    TimeSliceTwice(pl, a, b, c, d);
  }

  // ---------------------------------------------------------------------------
  // Pixel selection (_slice_event_list_pixels)
  // ---------------------------------------------------------------------------

  /** The requested pixels: one pixel-list row, or a pixel list. */
  datatype PixelRequest = OneRow(row: Pixel) | Rows(rows: seq<Pixel>)

  function RequestedPixels(req: PixelRequest): seq<Pixel> {
    match req
    case OneRow(p) => [p]
    case Rows(ps) => ps
  }

  predicate Matches(e: Event, p: Pixel) {
    e.pixel == p.pixel && e.asic == p.asic
  }

  predicate MatchesAny(e: Event, pixels: seq<Pixel>) {
    exists k :: 0 <= k < |pixels| && Matches(e, pixels[k])
  }

  /** Specification: the events of any requested pixel, in event order. */
  function SelectPixels(events: seq<Event>, pixels: seq<Pixel>): seq<Event> {
    Filter(events, (e: Event) => MatchesAny(e, pixels))
  }

  /**
   * The source's masks: a single pixel-list row is one match mask; a pixel list
   * ORs one pixel's match mask into `ind` per requested pixel. The mask is then
   * applied to the events.
   */
  method SliceEventListPixels(events: seq<Event>, req: PixelRequest) returns (r: seq<Event>)
    ensures r == SelectPixels(events, RequestedPixels(req))
  {
    var pixels := RequestedPixels(req);
    var ind := new bool[|events|](_ => false);
    match req {
      case OneRow(p) =>
        for i := 0 to |events|
          invariant forall k :: 0 <= k < i ==> ind[k] == Matches(events[k], p)
          invariant forall k :: i <= k < |events| ==> !ind[k]
        {
          ind[i] := ind[i] || Matches(events[i], p);
        }
        forall k | 0 <= k < |events|
          ensures ind[k] == MatchesAny(events[k], pixels)
        {
          assert pixels[0] == p;
        }
      case Rows(_) =>
        for j := 0 to |pixels|
          invariant forall i :: 0 <= i < |events| ==> ind[i] == MatchesAny(events[i], pixels[..j])
        {
          for i := 0 to |events|
            invariant forall k :: 0 <= k < i ==> ind[k] == MatchesAny(events[k], pixels[..j + 1])
            invariant forall k :: i <= k < |events| ==> ind[k] == MatchesAny(events[k], pixels[..j])
          {
            ind[i] := ind[i] || Matches(events[i], pixels[j]);
            MatchesAnyExtend(events[i], pixels, j);
          }
        }
        assert pixels[..|pixels|] == pixels;
    }
    r := [];
    for i := 0 to |events|
      invariant forall k :: 0 <= k < |events| ==> ind[k] == MatchesAny(events[k], pixels)
      invariant r == SelectPixels(events[..i], pixels)
    {
      assert events[..i + 1] == events[..i] + [events[i]];
      SelectPixelsSnoc(events[..i], events[i], pixels);
      if ind[i] {
        r := r + [events[i]];
      }
    }
    assert events[..|events|] == events;
  }

  lemma SelectPixelsSnoc(events: seq<Event>, e: Event, pixels: seq<Pixel>)
    ensures SelectPixels(events + [e], pixels)
            == SelectPixels(events, pixels) + (if MatchesAny(e, pixels) then [e] else [])
  {
    FilterSnoc(events, e, (e: Event) => MatchesAny(e, pixels));
  }

  lemma MatchesAnyExtend(e: Event, pixels: seq<Pixel>, j: int)
    requires 0 <= j < |pixels|
    ensures MatchesAny(e, pixels[..j + 1]) == (MatchesAny(e, pixels[..j]) || Matches(e, pixels[j]))
  {
    if MatchesAny(e, pixels[..j + 1]) && !Matches(e, pixels[j]) {
      var k :| 0 <= k < j + 1 && Matches(e, pixels[..j + 1][k]);
      assert pixels[..j][k] == pixels[k];
    }
    if Matches(e, pixels[j]) {
      assert pixels[..j + 1][j] == pixels[j];
    }
    if MatchesAny(e, pixels[..j]) {
      var k :| 0 <= k < j && Matches(e, pixels[..j][k]);
      assert pixels[..j + 1][k] == pixels[k];
    }
  }

  /** An event is selected iff it is in the list and matches some requested pixel; order is kept. */
  lemma SelectPixelsSpec(events: seq<Event>, pixels: seq<Pixel>, e: Event)
    ensures e in SelectPixels(events, pixels) <==> e in events && exists p :: p in pixels && Matches(e, p)
    ensures IsSubsequence(SelectPixels(events, pixels), events)
    ensures multiset(SelectPixels(events, pixels))[e]
            == if MatchesAny(e, pixels) then multiset(events)[e] else 0
  {
    FilterMembership(events, (e: Event) => MatchesAny(e, pixels), e);
    FilterIsSubsequence(events, (e: Event) => MatchesAny(e, pixels));
    FilterMultiplicity(events, (e: Event) => MatchesAny(e, pixels), e);
    if exists p :: p in pixels && Matches(e, p) {
      var p :| p in pixels && Matches(e, p);
      var k :| 0 <= k < |pixels| && pixels[k] == p;
    }
  }

  /** Requesting no pixel selects no event. */
  lemma SelectNoPixels(events: seq<Event>)
    ensures SelectPixels(events, []) == []
  {
    FilterKeepsNone(events, (e: Event) => MatchesAny(e, []));
  }

  /** Only the set of requested pixels matters, not their order or repeats. */
  lemma SelectPixelsBySet(events: seq<Event>, a: seq<Pixel>, b: seq<Pixel>)
    requires Elements(a) == Elements(b)
    ensures SelectPixels(events, a) == SelectPixels(events, b)
  {
    forall e ensures MatchesAny(e, a) == MatchesAny(e, b) {
      if MatchesAny(e, a) {
        var k :| 0 <= k < |a| && Matches(e, a[k]);
        assert a[k] in Elements(b);
        var j :| 0 <= j < |b| && b[j] == a[k];
      }
      if MatchesAny(e, b) {
        var k :| 0 <= k < |b| && Matches(e, b[k]);
        assert b[k] in Elements(a);
        var j :| 0 <= j < |a| && a[j] == b[k];
      }
    }
    FilterExtensional(events, (e: Event) => MatchesAny(e, a), (e: Event) => MatchesAny(e, b));
  }

  // ---------------------------------------------------------------------------
  // Spectral-region selection (_slide_event_list_sr)
  // ---------------------------------------------------------------------------

  /** The events strictly inside a single-sub-region spectral region, by energy (keV) or by channel (pix). */
  function SelectRegion(pl: PhotonList, sr: seq<SubRegion>): Result<seq<Event>> {
    if |sr| > 1 then Err(TooManySubRegions)
    else if |sr| == 0 then Err(IndexOutOfRange)
    else
      var lower, upper := sr[0].lower, sr[0].upper;
      match sr[0].unit
      case KeV =>
        if !pl.hasEnergy then Err(MissingEnergyColumn)
        else Ok(Filter(pl.events, (e: Event) => lower < e.energy < upper))
      case Pix => Ok(Filter(pl.events, (e: Event) => lower < e.atod < upper))
      case OtherUnit(_) => Err(UnrecognizedUnit)
  }

  /** The value a region of unit `u` compares: energy for keV, raw channel otherwise. */
  function RegionValue(e: Event, u: Unit): int {
    if u == KeV then e.energy else e.atod
  }

  /** Region selection fails exactly on the source's error cases, and otherwise keeps the events strictly inside. */
  lemma SelectRegionSpec(pl: PhotonList, sr: seq<SubRegion>, e: Event)
    ensures SelectRegion(pl, sr).Ok?
            <==> |sr| == 1 && (sr[0].unit == Pix || (sr[0].unit == KeV && Calibrated(pl)))
    ensures |sr| > 1 ==> SelectRegion(pl, sr) == Err(TooManySubRegions)
    ensures sr == [] ==> SelectRegion(pl, sr) == Err(IndexOutOfRange)
    ensures |sr| == 1 && sr[0].unit.OtherUnit? ==> SelectRegion(pl, sr) == Err(UnrecognizedUnit)
    ensures |sr| == 1 && sr[0].unit == KeV && !Calibrated(pl) ==> SelectRegion(pl, sr) == Err(MissingEnergyColumn)
    ensures SelectRegion(pl, sr).Ok? ==>
              var r := SelectRegion(pl, sr).value;
              var inside := sr[0].lower < RegionValue(e, sr[0].unit) < sr[0].upper;
              && (e in r <==> e in pl.events && inside)
              && multiset(r)[e] == (if inside then multiset(pl.events)[e] else 0)
              && IsSubsequence(r, pl.events)
  {
    if SelectRegion(pl, sr).Ok? {
      var lower, upper := sr[0].lower, sr[0].upper;
      if sr[0].unit == KeV {
        FilterMembership(pl.events, (e: Event) => lower < e.energy < upper, e);
        FilterMultiplicity(pl.events, (e: Event) => lower < e.energy < upper, e);
        FilterIsSubsequence(pl.events, (e: Event) => lower < e.energy < upper);
      } else {
        FilterMembership(pl.events, (e: Event) => lower < e.atod < upper, e);
        FilterMultiplicity(pl.events, (e: Event) => lower < e.atod < upper, e);
        FilterIsSubsequence(pl.events, (e: Event) => lower < e.atod < upper);
      }
    }
  }

  // ---------------------------------------------------------------------------
  // Spectrum
  // ---------------------------------------------------------------------------

  /** Bin counts and the edges they were counted against. */
  datatype Spectrum = Spectrum(counts: seq<int>, edges: seq<int>)

  /** `np.arange(0, 2**12 - 1)`: the default raw-channel edges 0, 1, ..., 4094. */
  const DefaultAtodEdges: seq<int> := seq(4095, k => k)

  /** `np.arange(0, 100, 0.1)` keV on the 0.1 keV grid: edges 0, 1, ..., 999. */
  const DefaultEnergyEdges: seq<int> := seq(1000, k => k)

  function Atod(e: Event): int { e.atod }

  function Energy(e: Event): int { e.energy }

  /**
   * `spectrum(pixel_list, bins, baseline_sub, calibrate)`: select the requested
   * pixels' events and histogram their channel (or energy) into the edges.
   * `baselineSub` is accepted and ignored, as in the source.
   */
  function PhotonSpectrum(pl: PhotonList, req: PixelRequest, bins: seq<int>, binsGiven: bool,
                          baselineSub: bool, calibrate: bool): Result<Spectrum>
  {
    var edges := if binsGiven then bins else if calibrate then DefaultEnergyEdges else DefaultAtodEdges;
    var selected := SelectPixels(pl.events, RequestedPixels(req));
    if calibrate && !pl.hasEnergy then Err(MissingEnergyColumn)
    else if !ValidEdges(edges) then Err(InvalidBins)
    else
      var values := if calibrate then Map(selected, Energy) else Map(selected, Atod);
      Ok(Spectrum(Histogram(values, edges), edges))
  }

  lemma DefaultAtodEdgesValid()
    ensures ValidEdges(DefaultAtodEdges)
    ensures |DefaultAtodEdges| == 4095
  {
  }

  /**
   * With the default edges every channel 0..4092 has a bin of its own, the
   * last bin takes channels 4093 and 4094, and channel 4095 is not counted.
   */
  lemma DefaultAtodBins(v: int, k: int)
    ensures InBin(v, DefaultAtodEdges, k) <==> (0 <= k < 4093 && v == k) || (k == 4093 && (v == 4093 || v == 4094))
    ensures InEdgeRange(v, DefaultAtodEdges) <==> 0 <= v <= 4094
  {
  }

  /**
   * Uncalibrated spectrum: one bin per pair of adjacent edges, bin `k` counts
   * the selected events whose channel lies in bin `k`, and the counts add up to
   * the selected events whose channel lies between the first and last edge.
   */
  lemma PhotonSpectrumUncalibrated(pl: PhotonList, req: PixelRequest, bins: seq<int>, binsGiven: bool,
                                   baselineSub: bool, k: int)
    requires ValidEdges(if binsGiven then bins else DefaultAtodEdges)
    ensures var r := PhotonSpectrum(pl, req, bins, binsGiven, baselineSub, false);
            var edges := if binsGiven then bins else DefaultAtodEdges;
            var selected := SelectPixels(pl.events, RequestedPixels(req));
            && r.Ok?
            && r.value.edges == edges
            && |r.value.counts| == BinCount(edges)
            && (0 <= k < |edges| - 1 ==>
                  r.value.counts[k] == |Filter(selected, (e: Event) => InBin(e.atod, edges, k))|)
            && Sum(r.value.counts) == |Filter(selected, (e: Event) => InEdgeRange(e.atod, edges))|
  {
    var edges := if binsGiven then bins else DefaultAtodEdges;
    var selected := SelectPixels(pl.events, RequestedPixels(req));
    var values := Map(selected, Atod);
    if 0 <= k < |edges| - 1 {
      HistogramCounts(values, edges, k);
      FilterMapLength(selected, Atod, (v: int) => InBin(v, edges, k), (e: Event) => InBin(e.atod, edges, k));
    }
    HistogramTotal(values, edges);
    FilterMapLength(selected, Atod, (v: int) => InEdgeRange(v, edges), (e: Event) => InEdgeRange(e.atod, edges));
  }

  /** Default uncalibrated spectrum: 4094 bins whose total is the number of selected events with channel 0..4094. */
  lemma PhotonSpectrumDefaultTotal(pl: PhotonList, req: PixelRequest, baselineSub: bool)
    ensures var r := PhotonSpectrum(pl, req, [], false, baselineSub, false);
            && r.Ok? && |r.value.counts| == 4094
            && Sum(r.value.counts)
               == |Filter(SelectPixels(pl.events, RequestedPixels(req)), (e: Event) => 0 <= e.atod <= 4094)|
  {
    var selected := SelectPixels(pl.events, RequestedPixels(req));
    PhotonSpectrumUncalibrated(pl, req, [], false, baselineSub, 0);
    FilterExtensional(selected, (e: Event) => InEdgeRange(e.atod, DefaultAtodEdges), (e: Event) => 0 <= e.atod <= 4094);
  }

  /** The baseline-subtraction flag has no effect. */
  lemma BaselineSubIgnored(pl: PhotonList, req: PixelRequest, bins: seq<int>, binsGiven: bool, calibrate: bool)
    ensures PhotonSpectrum(pl, req, bins, binsGiven, true, calibrate)
            == PhotonSpectrum(pl, req, bins, binsGiven, false, calibrate)
  {
  }

  /**
   * The calibrated spectrum needs the energy column; edges that decrease are
   * refused; an empty or one-edge array is accepted and gives no bin at all.
   */
  lemma PhotonSpectrumErrors(pl: PhotonList, req: PixelRequest, bins: seq<int>, binsGiven: bool,
                             baselineSub: bool, calibrate: bool)
    ensures calibrate && !Calibrated(pl) ==>
              PhotonSpectrum(pl, req, bins, binsGiven, baselineSub, calibrate) == Err(MissingEnergyColumn)
    ensures (!calibrate || Calibrated(pl)) && binsGiven ==>
              (PhotonSpectrum(pl, req, bins, binsGiven, baselineSub, calibrate).Ok? <==> ValidEdges(bins))
    ensures (!calibrate || Calibrated(pl)) && binsGiven && |bins| <= 1 ==>
              PhotonSpectrum(pl, req, bins, binsGiven, baselineSub, calibrate) == Ok(Spectrum([], bins))
  {
  }

  // ---------------------------------------------------------------------------
  // Data rate
  // ---------------------------------------------------------------------------

  /** CCSDS primary header length in octets: three 16-bit words. */
  const PrimaryHeaderOctets: int := 3 * 2

  /** Packet size in bytes: the length field holds the data-field length minus one, and the header is added back. */
  function PacketSize(p: Packet): int {
    (p.pktlength + 1) + PrimaryHeaderOctets
  }

  /** Per-second byte totals starting at `start`: bin `k` covers `[start + k s, start + (k + 1) s)`. */
  datatype RateBins = RateBins(start: int, rates: seq<int>)

  /** The packets whose time is strictly after the first packet's time. */
  function GoodPackets(pkts: seq<Packet>): seq<Packet>
    requires pkts != []
  {
    Filter(pkts, (p: Packet) => p.time > pkts[0].time)
  }

  function SizeEntries(good: seq<Packet>, start: int): (r: seq<Entry>)
    ensures |r| == |good|
    ensures forall i :: 0 <= i < |good| ==>
              r[i] == Entry((good[i].time - start) / TicksPerSecond, PacketSize(good[i]))
    decreases |good|
  {
    if good == [] then []
    else
      var p := good[|good| - 1];
      SizeEntries(good[..|good| - 1], start) + [Entry((p.time - start) / TicksPerSecond, PacketSize(p))]
  }

  /**
   * `data_rate()`: corrected sizes of the packets after the first timestamp,
   * summed into one-second bins that start at the first such packet and end
   * with the bin of the last one.
   */
  function DataRate(pkts: seq<Packet>): Result<RateBins> {
    if pkts == [] then Err(IndexOutOfRange)
    else
      var good := GoodPackets(pkts);
      if good == [] then Err(IndexOutOfRange)
      else
        var start := good[0].time;
        var n := (good[|good| - 1].time - start) / TicksPerSecond + 1;
        if n <= 0 then Ok(RateBins(start, []))
        else Ok(RateBins(start, Accumulate(SizeEntries(good, start), n)))
  }

  predicate TimeOrdered(pkts: seq<Packet>) {
    forall i, j :: 0 <= i < j < |pkts| ==> pkts[i].time <= pkts[j].time
  }

  function TotalSize(pkts: seq<Packet>): int
    decreases |pkts|
  {
    if pkts == [] then 0 else TotalSize(pkts[..|pkts| - 1]) + PacketSize(pkts[|pkts| - 1])
  }

  /**
   * The data rate exists iff some packet is later than the first one; its bins
   * then start at the first such packet and, for a time-ordered list, run up to
   * the bin of the last one.
   */
  lemma DataRateDefined(pkts: seq<Packet>)
    ensures DataRate(pkts).Ok? <==> pkts != [] && exists i :: 0 <= i < |pkts| && pkts[i].time > pkts[0].time
    ensures DataRate(pkts).Ok? ==>
              pkts != [] && GoodPackets(pkts) != [] &&
              DataRate(pkts).value.start == GoodPackets(pkts)[0].time
    ensures DataRate(pkts).Ok? && TimeOrdered(pkts) ==>
              var good := GoodPackets(pkts);
              |DataRate(pkts).value.rates| == (good[|good| - 1].time - good[0].time) / TicksPerSecond + 1
  {
    if pkts != [] {
      var keep := (p: Packet) => p.time > pkts[0].time;
      if TimeOrdered(pkts) && GoodPackets(pkts) != [] {
        var good := GoodPackets(pkts);
        FilterIsSubsequence(pkts, keep);
        SubsequenceOrdered(good, pkts);
        DivMonotone(0, good[|good| - 1].time - good[0].time);
      }
      forall i | 0 <= i < |pkts| && keep(pkts[i]) ensures GoodPackets(pkts) != [] {
        FilterMembership(pkts, keep, pkts[i]);
      }
      if GoodPackets(pkts) != [] {
        var g := GoodPackets(pkts)[0];
        assert g in GoodPackets(pkts);
        FilterMembership(pkts, keep, g);
      }
    }
  }

  /** For a time-ordered list, the rate bins hold every byte of every packet after the first timestamp. */
  lemma DataRateConserved(pkts: seq<Packet>)
    requires TimeOrdered(pkts)
    ensures DataRate(pkts).Ok? ==> Sum(DataRate(pkts).value.rates) == TotalSize(GoodPackets(pkts))
  {
    if DataRate(pkts).Ok? {
      var good := GoodPackets(pkts);
      FilterIsSubsequence(pkts, (p: Packet) => p.time > pkts[0].time);
      SubsequenceOrdered(good, pkts);
      GoodRateConserved(good);
    }
  }

  /** The packets among `good` whose time falls in second `k` counted from `start`. */
  function InSecond(good: seq<Packet>, start: int, k: int): seq<Packet> {
    Filter(good, (p: Packet) => (p.time - start) / TicksPerSecond == k)
  }

  /** Rate bin `k` holds exactly the bytes of the good packets whose time falls in second `k`. */
  lemma DataRateBin(pkts: seq<Packet>, k: int)
    requires DataRate(pkts).Ok?
    requires 0 <= k < |DataRate(pkts).value.rates|
    ensures var r := DataRate(pkts).value;
            r.rates[k] == TotalSize(InSecond(GoodPackets(pkts), r.start, k))
  {
    var good := GoodPackets(pkts);
    var start := good[0].time;
    var n := (good[|good| - 1].time - start) / TicksPerSecond + 1;
    AccumulateAt(SizeEntries(good, start), n, k);
    SizeEntriesBinWeight(good, start, k);
  }

  lemma {:induction false} SizeEntriesBinWeight(good: seq<Packet>, start: int, k: int)
    ensures BinWeight(SizeEntries(good, start), k) == TotalSize(InSecond(good, start, k))
    decreases |good|
  {
    if good != [] {
      var init, last := good[..|good| - 1], good[|good| - 1];
      assert good == init + [last];
      SizeEntriesBinWeight(init, start, k);
      var ei := SizeEntries(init, start);
      var e := Entry((last.time - start) / TicksPerSecond, PacketSize(last));
      assert SizeEntries(good, start) == ei + [e];
      BinWeightSnoc(ei, e, k);
      InSecondSnoc(init, last, start, k);
      var sel := InSecond(init, start, k);
      if e.bin == k {
        assert InSecond(good, start, k) == sel + [last];
        TotalSizeSnoc(sel, last);
      } else {
        assert InSecond(good, start, k) == sel + [];
        assert sel + [] == sel;
      }
    }
  }

  lemma BinWeightSnoc(es: seq<Entry>, e: Entry, k: int)
    ensures BinWeight(es + [e], k) == BinWeight(es, k) + (if e.bin == k then e.weight else 0)
  {
    assert (es + [e])[..|es|] == es;
  }

  lemma InSecondSnoc(init: seq<Packet>, last: Packet, start: int, k: int)
    ensures InSecond(init + [last], start, k) ==
            InSecond(init, start, k) + (if (last.time - start) / TicksPerSecond == k then [last] else [])
  {
    FilterSnoc(init, last, (p: Packet) => (p.time - start) / TicksPerSecond == k);
  }

  lemma TotalSizeSnoc(s: seq<Packet>, p: Packet)
    ensures TotalSize(s + [p]) == TotalSize(s) + PacketSize(p)
  {
    assert (s + [p])[..|s|] == s;
  }

  lemma GoodRateConserved(good: seq<Packet>)
    requires good != [] && TimeOrdered(good)
    ensures var start := good[0].time;
            var n := (good[|good| - 1].time - start) / TicksPerSecond + 1;
            n >= 1 && Sum(Accumulate(SizeEntries(good, start), n)) == TotalSize(good)
  {
    var start := good[0].time;
    var n := (good[|good| - 1].time - start) / TicksPerSecond + 1;
    DivMonotone(0, good[|good| - 1].time - start);
    AccumulateTotal(SizeEntries(good, start), n);
    SizeEntriesInRange(good, start, n);
  }

  lemma {:induction false} SubsequenceOrdered(a: seq<Packet>, b: seq<Packet>)
    requires IsSubsequence(a, b) && TimeOrdered(b)
    ensures TimeOrdered(a)
    decreases |b|
  {
    if a != [] && b != [] {
      if a[0] == b[0] {
        SubsequenceOrdered(a[1..], b[1..]);
        SubsequenceElements(a[1..], b[1..]);
        forall j | 0 < j < |a| ensures a[0].time <= a[j].time {
          assert a[j] == a[1..][j - 1];
          assert a[j] in b[1..];
          var m :| 0 <= m < |b[1..]| && b[1..][m] == a[j];
          assert b[m + 1] == a[j];
        }
      } else {
        SubsequenceOrdered(a, b[1..]);
      }
    }
  }

  lemma {:induction false} SubsequenceElements<T>(a: seq<T>, b: seq<T>)
    requires IsSubsequence(a, b)
    ensures forall x :: x in a ==> x in b
    decreases |b|
  {
    if a != [] && b != [] {
      if a[0] == b[0] {
        SubsequenceElements(a[1..], b[1..]);
        assert a == [a[0]] + a[1..];
      } else {
        SubsequenceElements(a, b[1..]);
      }
    }
  }

  /** In a time-ordered list, every size entry lands in one of the `n` bins. */
  lemma {:induction false} SizeEntriesInRange(good: seq<Packet>, start: int, n: int)
    requires TimeOrdered(good) && good != [] && start == good[0].time
    requires n == (good[|good| - 1].time - start) / TicksPerSecond + 1
    ensures InRangeWeight(SizeEntries(good, start), n) == TotalSize(good)
    decreases |good|
  {
    forall i | 0 <= i < |good| ensures 0 <= (good[i].time - start) / TicksPerSecond < n {
      DivMonotone(good[i].time - start, good[|good| - 1].time - start);
    }
    var es := SizeEntries(good, start);
    assert es[..|es| - 1] == SizeEntries(good[..|good| - 1], start);
    var t := good[|good| - 1].time;
    assert 0 <= (t - start) / TicksPerSecond < n;
    if |good| > 1 {
      var init := good[..|good| - 1];
      var m := (init[|init| - 1].time - start) / TicksPerSecond + 1;
      SizeEntriesInRange(init, start, m);
      InRangeWeightGrow(SizeEntries(init, start), m, n);
    }
  }

  lemma DivMonotone(x: int, y: int)
    requires 0 <= x <= y
    ensures 0 <= x / TicksPerSecond <= y / TicksPerSecond
  {
  }

  /** Growing the number of bins keeps every entry that was already in range. */
  lemma {:induction false} InRangeWeightGrow(es: seq<Entry>, m: int, n: int)
    requires 0 <= m <= n
    requires forall i :: 0 <= i < |es| ==> 0 <= es[i].bin < m
    ensures InRangeWeight(es, n) == InRangeWeight(es, m)
    decreases |es|
  {
    if es != [] {
      InRangeWeightGrow(es[..|es| - 1], m, n);
    }
  }
}
