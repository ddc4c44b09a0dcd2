/** Failure-carrying results, used wherever the source throws or returns null. */
module Wrappers {

  datatype Option<+T> = None | Some(value: T)

  /** `Err` carries the message the source throws with. */
  datatype Result<+T> = Ok(value: T) | Err(msg: string)
}
