/** Result and Option values standing for the exceptions the modelled Python code raises. */
module Wrappers {

  /** The built-in Python exceptions raised by the modelled functions. */
  datatype Exception = ValueError | TypeError | NotADirectoryError | KeyError

  /** A value, or the exception raised instead of returning one. */
  datatype Result<+T> = Ok(value: T) | Err(error: Exception)

  /** A value or Python's None. */
  datatype Option<+T> = None | Some(value: T)
}
