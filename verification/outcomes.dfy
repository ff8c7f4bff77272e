/** Failure values shared by the three solvers: each stands for the JVM
    exception the original code throws on that path. */
module Outcomes {

  /** The exceptions the solvers can raise, named after their JVM classes. */
  datatype Failure =
    | IllegalArgument   // a vent line that the segment pattern does not match
    | NoSuchElement     // maxOf / first on an empty collection
    | NumberFormat      // Integer.parseInt on an empty bit string

  /** A computation that either yields a value or throws. */
  datatype Result<T> = Ok(value: T) | Err(failure: Failure)

  /** Kotlin's nullable value (`T?`). */
  datatype Option<T> = None | Some(value: T)
}
