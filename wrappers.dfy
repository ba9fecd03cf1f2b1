/** Optional values and results with an error, shared by every module of the model. */
module Wrappers {

  /** A value that may be absent: a JSON field that was not sent, a lookup that found nothing. */
  datatype Option<+T> = None | Some(value: T)

  /** The outcome of a request handler: the value it answers with, or the error it reports. */
  datatype Result<+T, +E> = Ok(value: T) | Err(error: E)
}
