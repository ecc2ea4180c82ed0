/** Failure-carrying results shared by the four queue calculators.

    Every failure of the calculators is a `ValueError`; the constructors of
    `QueueError` tell apart the distinct messages it is raised with.
 */
module Outcomes {

  /** The distinct `ValueError`s the calculators raise. */
  datatype QueueError =
    | Unstable              // construction with an arrival rate the servers cannot keep up with
    | NegativeUnits         // an occupancy index below zero
    | UnitsAboveCapacity    // an occupancy index above the capacity limit M
    | UnitsAbovePopulation  // an occupancy index above the population size m
    | NegativeTime          // a waiting-time threshold below zero
    | NegativeFactorial     // `math.factorial` applied to a negative index

  /** Either the value an accessor returns or the error it raises. */
  datatype Result<+T> = Ok(value: T) | Err(error: QueueError)

  /** A value, or Python's `None` when a function falls off its end. */
  datatype Option<+T> = None | Some(value: T)
}
