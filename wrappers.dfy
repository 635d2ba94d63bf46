/** Optional values and success-or-error results, used wherever the scripts
    either return a value or raise, and the byte strings files hold. */
module Wrappers {

  datatype Option<+T> = None | Some(value: T)

  datatype Result<+T, +E> = Ok(value: T) | Err(error: E)

  type Bytes = seq<bv8>
}
