/**
 * Spectral regions as the two containers use them: each sub-region is an
 * open interval of the spectral axis, tagged with its unit.
 */
module Regions {

  /** The units the containers tell apart: energy (keV), raw channel (pix), or any other. */
  datatype Unit = KeV | Pix | OtherUnit(name: string)

  /** One sub-region: the values strictly between `lower` and `upper`, in `unit`. */
  datatype SubRegion = SubRegion(lower: int, upper: int, unit: Unit)

  predicate Inside(v: int, sr: SubRegion) {
    sr.lower < v < sr.upper
  }
}
