/** Option and Result, the stock failure-carrying datatypes.
    `Option<string>` stands for a C# `string` reference that may be null. */
module Wrappers {

  datatype Option<T> = None | Some(value: T)

  datatype Result<T, E> = Ok(value: T) | Err(error: E)
}
