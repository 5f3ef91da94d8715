/** Option and Result, the two failure shapes the backend uses: `None` returns and raised errors. */
module Wrappers {

  datatype Option<+T> = None | Some(value: T)

  /** A computation that either yields a value or raises with a message. */
  datatype Result<+T> = Ok(value: T) | Err(msg: string)
}
