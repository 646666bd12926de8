/** Optional values, results that may be errors, and truth values as numbers. */
module Wrappers {
  datatype Option<+T> = None | Some(value: T)

  datatype Result<+T> = Ok(value: T) | Err(message: string)

  function Count(b: bool): nat { if b then 1 else 0 }
}
