/** Optional values, the processor's error kinds and a result type carrying them. */
module Outcomes {

  datatype Option<T> = None | Some(value: T)

  /** The ways the processor stops with an exception instead of a value. */
  datatype Error =
    | MissingVariable(name: string)  // indexing a dataset by a variable it lacks (KeyError)
    | ZeroDivision(name: string)     // the variable's leading dimension has length 0
    | NoCandidates                   // empty grid: the scan loop never binds a selection

  datatype Result<T> = Ok(value: T) | Err(error: Error)
}
