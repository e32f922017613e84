/** Failure-compatible wrappers and the error taxonomy of the transit pipeline.

    Every exception the analysis code can raise on a reachable input (and every
    place where IEEE arithmetic would silently produce inf or NaN) is reported
    as an explicit `Err` carrying one of the `Error` values below.
 */
module Outcomes {

  datatype Option<+T> = None | Some(value: T)

  datatype Error =
    | EmptyCurve       // LightCurve([]): no point to take as first/last point
    | NoSeparators     // split with an empty separator list indexes separators[0]
    | TooFewPoints     // the 3rd-smallest value of fewer than 3 samples
    | ZeroBaseline     // normalising by an out-of-transit level of 0
    | ZeroObscuration  // centroid with zero total obscuration
    | NoEvents         // period of an empty list of transit mid-times
    | SingleEvent      // period of a single transit: 0 / 0

  datatype Result<+T> = Ok(value: T) | Err(error: Error) {

    predicate IsFailure() {
      Err?
    }

    function PropagateFailure<U>(): Result<U>
      requires Err?
    {
      Err(error)
    }

    function Extract(): T
      requires Ok?
    {
      value
    }
  }
}
