/**
 * Detector pixel addressing as the spectrum containers see it: an event names
 * its pixel by ASIC number and pixel number, a summary spectrum names the
 * pixel in each of its slots by a 16-bit pixel id.
 */
module Pixels {
  import opened Sequences

  /** The (asic, pixel) pair an event row and a pixel-list row both carry. */
  datatype Pixel = Pixel(asic: int, pixel: int)

  /** A pixel id as stored in the `uint16` pixel-id arrays of the summary spectra. */
  newtype PixelId = x: int | 0 <= x < 0x1_0000

  /** Number of pixel slots in a summary spectrum packet (one per spectrum pixel). */
  const SlotCount: nat := 24

  /** The pixel ids assigned to the 24 summary-spectrum slots when telemetry is unusable. */
  const DefaultSpecPixelIds: seq<PixelId> := [
    51738, 51720, 51730, 51712, 51733, 51715,
    51770, 51752, 51762, 51744, 51765, 51747,
    51802, 51784, 51794, 51776, 51797, 51779,
    51834, 51816, 51826, 51808, 51829, 51811
  ]

  /** The default assignment fills every slot, and no pixel id occupies two slots. */
  lemma DefaultSpecPixelIdsDistinct()
    ensures |DefaultSpecPixelIds| == SlotCount
    ensures NoDuplicates(DefaultSpecPixelIds)
  {
  }
}
