/** Optional values and fallible results, as the drive's operations return them. */
module Wrappers {

  datatype Option<+T> = None | Some(value: T)

  /** `Result<T, String>` of the canister: a value or an error message. */
  datatype Result<+T> = Ok(value: T) | Err(msg: string)
}
