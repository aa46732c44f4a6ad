/** Option and Result datatypes shared by the crawler model. */
module Wrappers {

  /** A value that may be absent: a DOM query that matched nothing, a null
      text content, a persisted blob that does not exist yet. */
  datatype Option<+T> = None | Some(value: T)

  /** The outcome of a step that may throw. */
  datatype Result<+T, +E> = Ok(value: T) | Err(error: E)
}
