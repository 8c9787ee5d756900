/** Option and Result values shared by the agents' models: a Python `None`
    or a missing dictionary key becomes `None`, a raised exception becomes `Err`. */
module Wrappers {

  datatype Option<+T> = None | Some(value: T)

  datatype Result<+T, +E> = Ok(value: T) | Err(error: E)
}
