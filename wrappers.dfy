/** Option and Result, used for the assertion failures of utils.py and for "no shard found". */
module Wrappers {

  datatype Option<+T> = None | Some(value: T)

  /** `Err` carries the message of a failed `assert` in the source. */
  datatype Result<+T> = Ok(value: T) | Err(message: string)
}
