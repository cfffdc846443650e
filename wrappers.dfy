/** The two wrappers through which the model returns optional values and errors. */
module Wrappers {
  /** Rust's `Option<T>`. */
  datatype Option<T> = None | Some(value: T)

  /** rustfst's `anyhow::Result<T>`: `Err` carries the message of the `bail!`/`ensure!`. */
  datatype Result<T> = Ok(value: T) | Err(error: string)
}
