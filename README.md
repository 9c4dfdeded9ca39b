# PADRE MeDDEA spectrum containers in Dafny

This project models the two spectrum containers of the MeDDEA instrument
pipeline (`padre_meddea/spectrum/spectrum.py`) and proves what they compute.

- **PhotonList** holds a packet list (CCSDS headers: time and packet length)
  and an event list (time, asic, pixel, raw channel `atod`, and optionally a
  calibrated `energy`). It is a value. It is modelled as a datatype with pure
  functions:
  - time slicing (`__getitem__`);
  - pixel selection (`_slice_event_list_pixels`, a loop that ORs one mask per
    requested pixel, kept as a method over an array of booleans);
  - spectral-region selection (`_slide_event_list_sr`);
  - the histogram spectrum (`spectrum`), with numpy's binning rules: half-open
    bins, the last bin closed, edges that must be non-decreasing;
  - the per-second data rate (`data_rate`).
- **SpectrumList** holds a time series of summed spectra `specs[time, slot,
  bin]` for 24 detector slots, plus the pixel-id table the instrument reported
  with every spectrum. It is a class over an `array3`:
  - the constructor validates the pixel ids. It falls back to the default 24
    ids when there are more than 24 distinct ids. It rejects a table whose ids
    changed, including numpy's broadcast of `np.unique(ids) == sorted(row0)`.
    It takes the per-column median as the pixel list.
  - `spectrum` and `lightcurve` are loops over the array and are proved
    against pure specification functions of the cube.
  - `__getitem__` indexes one time row (Python negative indexing included) or
    builds a new list from the rows strictly inside a time interval.

Times are integer ticks, with `TicksPerSecond` ticks per second. Energies are
integers on the 0.1 keV grid that the default calibrated edges use. Pixels are
identified by `(asic, pixel)` for events and by their 16-bit pixel id for
spectra.

Modules:
- `Sequences`: filter, sum, insertion sort, unique.
- `Binning`: histograms and binned sums.
- `Pixels`: pixel ids and the default id table.
- `Regions`: spectral sub-regions.
- `Indexing`: `__getitem__` keys.
- `PhotonLists`: the photon list.
- `PixelAssignment`: pixel-id validation and medians.
- `SpectrumLists`: the spectrum list class.

Three consequences of the code that the model makes explicit:
- The default raw-channel edges `np.arange(0, 2**12 - 1)` are the 4095 values
  0..4094. They give 4094 bins, and numpy's closed last bin holds both channel
  4093 and channel 4094.
- Spectral regions select values strictly between `lower` and `upper`, as
  both `(data > lower) * (data < upper)` expressions do.
- `SpectrumList.spectrum` reads `specs[0, 0]` for its axis and unit, so on a
  list with no rows it raises an index error (`IndexOutOfRange`). So does
  `lightcurve` when it is given at least one region.

## Model

| member | source | states |
|---|---|---|
| Pixels.DefaultSpecPixelIdsDistinct | padre_meddea/spectrum/spectrum.py:18-46 | the default pixel-id table has 24 entries, all distinct |
| PhotonLists.GetItem | padre_meddea/spectrum/spectrum.py:73-85 | an integer key succeeds iff `-len <= i < len` and returns that event, counting from the end when negative, and otherwise raises an index error; a slice of two times returns the time-sliced list; every other key returns the list unchanged |
| PhotonLists.TimeSlice | padre_meddea/spectrum/spectrum.py:76-84 | no contract of its own: TimeSliceSpec, TimeSliceTwice and TimeSliceSuperset state its meaning |
| PhotonLists.TimeSliceSpec | padre_meddea/spectrum/spectrum.py:76-84 | an event or packet survives the time slice iff it was in the list and its time is strictly inside (start, stop); every copy of a surviving row survives, so each row keeps its multiplicity or drops to zero copies; both results keep the original order; the energy column is kept |
| PhotonLists.TimeSliceTwice | padre_meddea/spectrum/spectrum.py:76-84 | slicing twice equals one slice by the intersection of the two open intervals |
| PhotonLists.TimeSliceSuperset | padre_meddea/spectrum/spectrum.py:76-84 | re-slicing by an enclosing interval changes nothing |
| PhotonLists.SliceEventListPixels | padre_meddea/spectrum/spectrum.py:230-246 | a single table row takes its own one-mask branch (lines 233-238), a pixel list ORs one mask per pixel (lines 239-245); either way the result is exactly the events matching some requested (asic, pixel), in their original order, as SelectPixelsSpec spells out |
| PhotonLists.SelectPixelsSnoc | padre_meddea/spectrum/spectrum.py:240-246 | appending an event appends it to the selection iff it matches a requested pixel |
| PhotonLists.MatchesAnyExtend | padre_meddea/spectrum/spectrum.py:240-245 | one more loop iteration ORs in exactly one more pixel's match |
| PhotonLists.SelectPixelsSpec | padre_meddea/spectrum/spectrum.py:230-246 | an event is selected iff it is in the list and matches some requested pixel; the selection is an ordered subsequence; each event keeps its full multiplicity or is dropped entirely |
| PhotonLists.SelectNoPixels | padre_meddea/spectrum/spectrum.py:232-246 | an empty pixel request selects no event (the mask starts all false) |
| PhotonLists.SelectPixelsBySet | padre_meddea/spectrum/spectrum.py:240-246 | the selection depends only on the set of requested pixels, not on their order or repetition |
| PhotonLists.SelectRegion | padre_meddea/spectrum/spectrum.py:248-261 | no contract of its own: SelectRegionSpec states its meaning |
| PhotonLists.SelectRegionSpec | padre_meddea/spectrum/spectrum.py:248-261 | more than one sub-region is an error, no sub-region is an index error; a keV region reads `energy` and fails without an energy column, a pix region reads `atod`, any other unit is an error; on success an event is kept iff its value is strictly between lower and upper, with all its copies, in order |
| PhotonLists.Calibrated | padre_meddea/spectrum/spectrum.py:103-108 | no contract of its own (true iff the events carry energies); SelectRegionSpec and PhotonSpectrumErrors state what it gates |
| PhotonLists.PhotonSpectrum | padre_meddea/spectrum/spectrum.py:119-164 | no contract of its own: PhotonSpectrumUncalibrated, PhotonSpectrumDefaultTotal, PhotonSpectrumErrors and BaselineSubIgnored state its meaning |
| PhotonLists.DefaultAtodEdgesValid | padre_meddea/spectrum/spectrum.py:146-147 | the default raw-channel edges are valid histogram edges, 4095 of them |
| PhotonLists.DefaultAtodBins | padre_meddea/spectrum/spectrum.py:146-155 | with the default edges, channel v falls in bin v for v < 4093, channels 4093 and 4094 share the last bin, and only channels 0..4094 are counted |
| PhotonLists.PhotonSpectrumUncalibrated | padre_meddea/spectrum/spectrum.py:146-155 | an uncalibrated spectrum has one count per bin, that is one fewer than the edges and none for no edges; bin k counts the selected events whose atod lies in bin k; the total is the number of selected events inside the edge range |
| PhotonLists.PhotonSpectrumDefaultTotal | padre_meddea/spectrum/spectrum.py:146-155 | with default bins the spectrum has 4094 bins and counts every selected event with 0 <= atod <= 4094 |
| PhotonLists.BaselineSubIgnored | padre_meddea/spectrum/spectrum.py:119-155 | the `baseline_sub` flag does not change the result |
| PhotonLists.PhotonSpectrumErrors | padre_meddea/spectrum/spectrum.py:150-155 | asking for a calibrated spectrum without an energy column fails; otherwise, with given bins, the spectrum exists iff no edge decreases, and an empty or one-edge array gives a spectrum with no bins |
| Binning.Histogram | padre_meddea/spectrum/spectrum.py:155 | no contract of its own: HistogramCounts and HistogramTotal state its meaning |
| Binning.HistogramCounts | padre_meddea/spectrum/spectrum.py:155 | `np.histogram` yields one count per bin, and count k is the number of values in bin k |
| Binning.HistogramTotal | padre_meddea/spectrum/spectrum.py:155 | the histogram counts sum to the number of values inside the edge range |
| Binning.FindBinSpec | padre_meddea/spectrum/spectrum.py:155 | the bin search from bin k returns a bin at or after k that holds the value, and -1 only when no bin from k on holds it |
| PhotonLists.DataRate | padre_meddea/spectrum/spectrum.py:206-228 | no contract of its own: DataRateDefined, DataRateConserved and DataRateBin state its meaning |
| PhotonLists.DataRateDefined | padre_meddea/spectrum/spectrum.py:215-225 | a data rate exists iff some packet is strictly later than the first packet; its one-second bins then start at the first such packet, and for time-ordered packets they run up to the bin of the last one |
| PhotonLists.DataRateConserved | padre_meddea/spectrum/spectrum.py:214-227 | for time-ordered packets, the per-second rates sum to the total size of the good packets |
| PhotonLists.DataRateBin | padre_meddea/spectrum/spectrum.py:214-227 | rate bin k is the total size of the good packets whose time falls in the k-th second after the first good packet |
| PixelAssignment.ResolvePixelList | padre_meddea/spectrum/spectrum.py:297-307 | no contract of its own: TooManyIdsFallsBack, AcceptedIff, ResolvedLength, ConsistentRowsAccepted and IdenticalRowsGiveFirstRow state its meaning |
| PixelAssignment.TooManyIdsFallsBack | padre_meddea/spectrum/spectrum.py:297-300 | more than 24 distinct ids yields the default table, 24 distinct ids |
| PixelAssignment.AcceptedIff | padre_meddea/spectrum/spectrum.py:301-307 | with at most 24 distinct ids, the table is accepted iff it has a row and either there is one distinct id (numpy broadcasts the comparison) or the first row has no repeats and holds exactly the distinct ids; no rows is an index error; any other rejection is "pixel ids changed" |
| PixelAssignment.BroadcastMatch | padre_meddea/spectrum/spectrum.py:302 | the element-wise comparison of the unique ids with the sorted first row holds iff one id broadcasts or the row is a repeat-free permutation of the unique ids |
| PixelAssignment.ConsistentRowsAccepted | padre_meddea/spectrum/spectrum.py:301-305 | a table of identical repeat-free rows of at most 24 ids is accepted with that row as the pixel list |
| PixelAssignment.IdenticalRowsGiveFirstRow | padre_meddea/spectrum/spectrum.py:303-305 | when every row is the same and the table is accepted, the column medians are that row |
| PixelAssignment.Median | padre_meddea/spectrum/spectrum.py:304 | no contract of its own: MedianWithinColumn and MedianOfConstant state its meaning |
| PixelAssignment.MedianWithinColumn | padre_meddea/spectrum/spectrum.py:304 | the uint16 median of a column lies between two of its entries, and is one of its entries when the column has odd length |
| PixelAssignment.MedianOfConstant | padre_meddea/spectrum/spectrum.py:304 | the uint16 median of a constant column is that constant |
| PixelAssignment.Medians | padre_meddea/spectrum/spectrum.py:304 | `np.median(ids, axis=0)` gives one median per column |
| PixelAssignment.SameRowsMedians | padre_meddea/spectrum/spectrum.py:304 | the column medians of identical rows are that row |
| PixelAssignment.ResolvedLength | padre_meddea/spectrum/spectrum.py:297-305 | an accepted table has a row, and its pixel list has 24 entries on fallback, otherwise one per column |
| SpectrumLists.SlotOf | padre_meddea/spectrum/spectrum.py:357-358 | the slot of a pixel is the first index holding it, and none iff it is not in the pixel list |
| SpectrumLists.SpectrumList.constructor | padre_meddea/spectrum/spectrum.py:290-308 | building from accepted ids stores the time, spectra, axis and ids and sets the pixel list to the resolved ids |
| SpectrumLists.SpectrumList.Make | padre_meddea/spectrum/spectrum.py:290-308 | construction succeeds iff the pixel ids are accepted; otherwise it fails with the validation's error; on success the list is valid and holds its inputs |
| SpectrumLists.SpectrumList.SlotTotals | padre_meddea/spectrum/spectrum.py:359-364 | `np.sum(specs[:, k, :], axis=0)`: bin b is the sum over all times of slot k's bin b |
| SpectrumLists.SpectrumList.Spectrum | padre_meddea/spectrum/spectrum.py:355-371 | fails iff the list has no rows; otherwise bin b is the time-integrated count of bin b over the slots of the requested pixels that are in the pixel list |
| SpectrumLists.SpectrumBinConcat | padre_meddea/spectrum/spectrum.py:361-364 | the spectrum of two pixel requests together is the sum of their spectra |
| SpectrumLists.SpectrumIsSumOfPixels | padre_meddea/spectrum/spectrum.py:361-364 | the spectrum is the sum of the single-pixel spectra of the requested pixels |
| SpectrumLists.AbsentPixelsIgnored | padre_meddea/spectrum/spectrum.py:362 | requested pixels that are not in the pixel list contribute nothing |
| SpectrumLists.NoPresentPixels | padre_meddea/spectrum/spectrum.py:355-364 | a request with no known pixel gives an all-zero spectrum |
| SpectrumLists.SpectrumIsTimeIntegral | padre_meddea/spectrum/spectrum.py:333-364 | the spectrum equals the sum over all time rows of the per-row pixel sums |
| SpectrumLists.SpectrumList.AccumulatePixels | padre_meddea/spectrum/spectrum.py:389-398 | the accumulated flux at (t, b) is the sum over the known requested pixels of their count at time t, bin b |
| SpectrumLists.SpectrumList.AddSlot | padre_meddea/spectrum/spectrum.py:398 | `flux += specs[:, k, :]` adds slot k's count at every (time, bin) and changes nothing else |
| SpectrumLists.SpectrumList.ZeroOutside | padre_meddea/spectrum/spectrum.py:401-404 | `this_flux[:, ~ind] = 0` zeroes every bin whose axis value is not strictly inside the region and keeps the others |
| SpectrumLists.RowTotals | padre_meddea/spectrum/spectrum.py:406 | `np.sum(this_flux, axis=1)` gives one total per time row, the sum of that row's bins |
| SpectrumLists.SpectrumList.RegionColumn | padre_meddea/spectrum/spectrum.py:400-406 | masking bins outside the open region and summing each row gives the region's light-curve column |
| SpectrumLists.SpectrumList.Lightcurve | padre_meddea/spectrum/spectrum.py:388-408 | fails iff there is a region and either no rows or a region unit differs from the axis unit; on success there is one column per region, keyed by its bounds, equal to that region's light-curve column |
| SpectrumLists.LightcurveTotal | padre_meddea/spectrum/spectrum.py:399-407 | a light-curve column has one entry per time row and sums to the time-integrated spectrum restricted to the region's bins |
| SpectrumLists.KeptRowsSpec | padre_meddea/spectrum/spectrum.py:441 | the kept row indices are increasing, and row t is kept iff its time is strictly inside (start, stop) |
| SpectrumLists.KeptTimesFiltered | padre_meddea/spectrum/spectrum.py:441-443 | the kept times are exactly the times strictly inside the interval, in order |
| SpectrumLists.SpectrumList.PickRows | padre_meddea/spectrum/spectrum.py:443 | `specs[ind, :, :]` is a new array whose row j is the kept row `kept[j]`, with the same slots and bins |
| SpectrumLists.SpectrumList.SliceByTime | padre_meddea/spectrum/spectrum.py:440-444 | the new list holds the kept times and the kept spectra rows, the same axis and unit, and the original pixel ids, so the same pixel list |
| SpectrumLists.SpectrumList.GetItem | padre_meddea/spectrum/spectrum.py:436-445 | an integer key succeeds iff `-n <= i < n` and returns that row of spectra; a slice of two times returns the time-sliced list; every other key returns the list itself |

## Left out

- `PhotonList.lightcurve` (lines 166-204) is not modelled, because it cannot return a value. Line 195 discards the pixel selection. Line 197 calls `_slice_event_list_sr`, but the method is named `_slide_event_list_sr`, so any non-empty region raises an attribute error. An empty region reaches `return ts` with `ts` unbound.
- `PhotonList.pixel_list` (via `util.get_pixelid`) and `SpectrumList.calibrated` are not modelled: both read a single attribute or call a helper outside this module.
- `__str__`, `__repr__`, `_text_summary` and `plot_spectrogram` are left out: they only format text or draw.
- Physical units are reduced to tags. Counts are plain integers. Uncertainties (`np.sqrt(flux)`) are left out. A light-curve column is keyed by its `(lower, upper)` bounds rather than by its label string, and the light curve's time column is not repeated.
- SpectrumLists.SpectrumList.Lightcurve: astropy can convert between compatible units. The model treats only equal units as comparable, and any other pair as the unit error astropy raises for keV against pix.
- Energies are fixed-point on the 0.1 keV grid. Floating-point edges such as `np.arange(0, 100, 0.1)` become the integers 0..999.
- PhotonLists.DataRateBin: the number of bins is taken as the last good packet's second plus one. astropy's `aggregate_downsample` exact bin count, its masking of empty bins and its sorting of unordered times are left out. The rate's division by one second is numerically the identity and is not written.
- The two `print` warnings on the default-ids path (lines 298-299) are left out: they only write to the console.
- PhotonLists.PhotonSpectrum takes its bins as plain edge values. Line 155 reads `bins.value`, so a plain `np.array` of edges, which the docstring at line 133 asks for, raises an attribute error in the source; only a `Quantity` gets through. The model does not reproduce that error.
- SpectrumLists.SpectrumList.Make: requires every pixel-id row to have 24 entries, matching the 24 spectrum slots. The source assumes this of its input files and does not check it.
- The unique ids and the sorted first row may have different lengths with neither of length one. numpy 2 then raises its own broadcasting error, and older numpy compares unequal and so reaches "Found change in pixel ids". The model reports `PixelIdsChanged` in both cases. A length-one side is broadcast, as `BroadcastAllEqual` states.
- SpectrumLists.SpectrumList.Spectrum and SpectrumLists.SpectrumList.Lightcurve take a list of pixel ids. The source's separate `Table.Row` branches (lines 356-359 and 390-393) run the loop body once for that row, so they are the one-element list and have no path of their own in the model.
- SpectrumLists.SpectrumList.Lightcurve returns a map keyed by each region's bounds, so it does not keep the order of the TimeSeries columns. Regions with the same bounds yield the same column and collapse to one key, as a repeated column label does in the source.
- SpectrumLists.SpectrumList.Spectrum: a requested pixel is found by its id. `np.where(this_pixel == self.pixel_list)` compares table rows, which for a pixel list built from ids amounts to the same thing.
- The default calibrated spectrum (keV edges 0..999 on the 0.1 keV grid) is defined but has no lemma of its own beyond PhotonSpectrumErrors.
