/**
 * The exceptions the spectrum containers raise, and the result of an
 * operation that either returns a value or raises one of them.
 */
module Outcomes {

  datatype Error =
    | IndexOutOfRange        // IndexError: an index past the end, or no first row to read
    | MissingEnergyColumn    // KeyError: the event list has no "energy" column
    | TooManySubRegions      // ValueError: more than one sub-region
    | UnrecognizedUnit       // ValueError: a region unit other than keV or pix
    | InvalidBins            // ValueError from np.histogram: an edge array that decreases
    | PixelIdsChanged        // ValueError: the pixel-id rows disagree with the first row
    | UnitMismatch           // a region whose unit cannot be compared with the spectral axis

  datatype Result<T> = Ok(value: T) | Err(error: Error)
}
