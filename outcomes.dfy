/** Small failure-carrying datatypes shared by the whole model. */
module Outcomes {

  datatype Option<+T> = None | Some(value: T)

  /** The reply of an HTTP handler: a JSON body on success, otherwise a status code and a message. */
  datatype Reply<+T> = Ok(body: T) | Fail(code: nat, message: string)

  /** A field of a JSON request body that is either left out (`undefined`) or carries a value. */
  datatype Patch<+T> = Keep | Set(value: T)

  /** The value a patch leaves in place of `current`. */
  function Patched<T>(p: Patch<T>, current: T): T
  {
    match p
    case Keep => current
    case Set(v) => v
  }
}
