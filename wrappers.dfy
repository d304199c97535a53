/** Optional values and results with an error value, for lookups that can fail. */
module Wrappers {

  datatype Option<+T> = None | Some(value: T)

  /** `Err` carries what Python would raise; in this model always the name of a missing glyph. */
  datatype Result<+T, +E> = Ok(value: T) | Err(error: E)
}
