/** Failure-carrying results shared by every component. */
module Wrappers {
  datatype Option<+T> = None | Some(value: T)

  datatype Result<+T, +E> = Ok(value: T) | Err(error: E)

  /** How a write ended: acknowledged, landed without the caller learning it, or not landed. */
  datatype Ack = Acked | Unacked | Dropped {
    predicate Landed() { !Dropped? }
  }
}
