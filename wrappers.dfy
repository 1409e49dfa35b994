/** Option and Result, standing for C#'s nullable references and thrown exceptions. */
module Wrappers {

  datatype Option<+T> = None | Some(value: T)

  datatype Result<+T, +E> = Success(value: T) | Failure(error: E)

  /** The argument checks the source performs before doing anything else. */
  datatype ArgumentError =
    | ArgumentNull(parameter: string)   // ArgumentUtility.CheckNotNull
    | ArgumentEmpty(parameter: string)  // ArgumentUtility.CheckNotNullOrEmpty
    | ArgumentInvalid(parameter: string)
}
