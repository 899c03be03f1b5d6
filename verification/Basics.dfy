/** Small types shared by the models. */
module Basics {

  /** std::optional, Rust's Option and a nullable column. */
  datatype Option<+T> = None | Some(value: T)

  /** A call that may throw: the model only needs to know that it did. */
  datatype Attempt<+T> = Done(value: T) | Threw

  /** Readings of the steady clock, in nanoseconds since its epoch. */
  type Time = nat

  const MILLISECOND: int := 1_000_000
  const SECOND: int := 1_000_000_000

  type EmployeeId = int

  function Min(a: int, b: int): int { if a < b then a else b }

  function Max(a: int, b: int): int { if a > b then a else b }
}
