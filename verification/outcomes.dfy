/** Failure-carrying values shared by the ingestion and segmentation models.
    The source reports failures by raising exceptions; the model returns
    them as values instead. */
module Outcomes {

  /** A value that may be absent (a decode that failed, a name that does not parse). */
  datatype Option<+T> = None | Some(value: T)

  /** Either the value an operation computed or the error it raised. */
  datatype Result<+T, +E> = Success(value: T) | Failure(error: E)
}
