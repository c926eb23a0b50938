/** The ways the quantiser can stop early: the three runtime panics of the
    program, returned as values instead of aborting the process. */
module Panics {

  /** The panics the clustering code can hit. */
  datatype Panic =
    | RemainderByZero  // `rng.next() as usize % pixels.len()` with no pixels
    | EmptyCenters     // `min_by_key` over no centres, then `.expect(...)`
    | DivideByZero     // `rs / n` for a cluster with no pixels

  /** Either the value an operation returns or the panic it stops with. */
  datatype Result<T> = Ok(value: T) | Err(panic: Panic)
}
