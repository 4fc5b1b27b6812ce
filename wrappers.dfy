/** The Option and Result datatypes shared by the modules of this project. */
module Wrappers {

  /** An optional value: `None` stands for an absent property or argument
   *  (JavaScript's `undefined`); an explicit `null` is not modelled. */
  datatype Option<+T> = None | Some(value: T)

  /** The outcome of a call that may throw: `Throws(origin)` names the function whose guard threw. */
  datatype Result<+T> = Ok(value: T) | Throws(origin: string)
}
