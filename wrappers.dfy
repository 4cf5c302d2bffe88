/** Failure-carrying wrappers shared by the other modules: JavaScript's
    `undefined`/`null` results become `None`, thrown errors become `Err`. */
module Wrappers {

  datatype Option<+T> = None | Some(value: T)

  datatype Result<+T> = Ok(value: T) | Err(msg: string)
}
