/** Error values and the two wrappers the client returns them in. */
module Outcomes {

  /** The errors the client surfaces. Errors of the store and of the route
      parser are carried through unchanged; only MissingRouteId is raised
      by the client itself. */
  datatype Error =
    | MissingRouteId
    | StoreError(message: string)
    | ParseError(message: string)

  /** A Go `error` result: None stands for nil. */
  datatype Option<+T> = None | Some(value: T)

  /** A value together with a nil error, or a non-nil error and no value. */
  datatype Result<+T> = Success(value: T) | Failure(error: Error)

  /** The error half of a result, as Go's `_, err := ...` sees it. */
  function ErrorOf<T>(r: Result<T>): (e: Option<Error>)
    ensures e.None? <==> r.Success?
    ensures r.Failure? ==> e == Some(r.error)
  {
    match r
    case Success(_) => None
    case Failure(err) => Some(err)
  }
}
