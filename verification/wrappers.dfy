/** The optional value used throughout the model: None stands for a JavaScript
    `null`/`undefined` or for an exception that aborts the computation. */
module Wrappers {

  datatype Option<+T> = None | Some(value: T)

  /** `o || 0` on a count that may be absent. */
  function OrZero(o: Option<nat>): nat
  {
    match o
    case Some(n) => n
    case None => 0
  }
}
