/** Values shared by every module of the project. */
module Common {
  datatype Option<+T> = None | Some(value: T)

  /** Subtraction that stops at zero. */
  function SatSub(a: nat, b: nat): nat {
    if a >= b then a - b else 0
  }
}
