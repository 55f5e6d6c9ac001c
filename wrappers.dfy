/** Option and Result, the shapes used for nullable columns and for the services' thrown errors. */
module Wrappers {

  datatype Option<+T> = None | Some(value: T)

  /** `Err` stands for an exception the TypeScript code throws; `Ok` for a returned value. */
  datatype Result<+T, +E> = Ok(value: T) | Err(error: E)
}
