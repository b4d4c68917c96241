/** Option and Result, the two wrappers the model uses for absent request
    fields, failed lookups and failed schema validation. */
module Wrappers {

  datatype Option<+T> = None | Some(value: T)

  datatype Result<+T, +E> = Ok(value: T) | Err(error: E)
}
