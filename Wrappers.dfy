/** Small value wrappers shared by the scanner modules. */
module Wrappers {

  /** An optional value: Python's `None` or a present value. */
  datatype Option<+T> = None | Some(value: T)

  /** A best-effort step's result together with the external calls it made, in order. */
  datatype Attempted<+T> = Attempted(result: T, tried: seq<string>)
}
