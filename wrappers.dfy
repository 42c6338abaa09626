/** The two failure-carrying datatypes the model uses: `Option` for Python's
    "value or None", `Result` for "value or raised exception". */
module Wrappers {

  datatype Option<+T> = None | Some(value: T)

  datatype Result<+T, +E> = Ok(value: T) | Err(error: E)
}
