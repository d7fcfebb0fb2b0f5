/** Result shapes shared by every module: `Option` for Rust's `Option`, and
    `Outcome` for the `Result<_, JsValue>` the exported methods return, whose
    error side is a message string. */
module Wrappers {
  datatype Option<T> = None | Some(value: T)

  datatype Outcome<T> = Ok(value: T) | Err(msg: string)
}
