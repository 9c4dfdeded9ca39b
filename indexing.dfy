/**
 * The keys both containers accept in `container[key]`: an integer row index
 * (negative values count from the end, as in Python), a slice whose two
 * bounds may or may not be times, or anything else.
 */
module Indexing {

  /** A slice bound: a time (in clock ticks), or anything else. */
  datatype Bound = At(t: int) | NotATime

  /** The key of `container[key]`. */
  datatype Key = IntKey(i: int) | SliceKey(start: Bound, stop: Bound) | OtherKey

  /** A slice with a time at both ends; only these cut a container by time. */
  predicate IsTimeSlice(key: Key) {
    key.SliceKey? && key.start.At? && key.stop.At?
  }
}
