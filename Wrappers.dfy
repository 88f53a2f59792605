/** Optional values and results, standing for the LanguageExt `Option` type
    and for the .NET exceptions that the core lets escape. */
module Wrappers {

  /** `None` or `Some(value)`: the model of a LanguageExt `Option<T>`. */
  datatype Option<+T> = None | Some(value: T)

  /** The value of a computation, or the exception it raised. */
  datatype Result<+T, +E> = Ok(value: T) | Err(error: E)
}
