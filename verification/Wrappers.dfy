/** The two failure-carrying datatypes the modules share. */
module Wrappers {

  datatype Option<+T> = None | Some(value: T)

  /** The error values a walk can end with; `Math` carries a code of the external price library. */
  datatype WalkError =
    | Math(code: int)
    | FeeDivision
    | TickDataMissing
    | LiquidityUnderflow
    | LiquidityVoid

  datatype Result<+T> = Ok(value: T) | Err(error: WalkError) {

    predicate IsFailure() {
      Err?
    }

    function PropagateFailure<U>(): Result<U>
      requires Err?
    {
      Err(error)
    }

    function Extract(): T
      requires Ok?
    {
      value
    }
  }
}
