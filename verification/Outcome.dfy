/** Results of operations that can fail, and of operations that can halt the chain. */
module Outcome {

  datatype Option<+T> = None | Some(value: T)

  datatype Result<+T, +E> = Ok(value: T) | Err(error: E)

  /** The run-time panics the modelled code can raise. */
  datatype Fault =
    | BallotNotSorted
    | DivisionByZero
    | InsufficientRewards
    | MissingValidator
    | NilBalance
    | ShortDenom

  type Halting<+T> = Result<T, Fault>
}
