/** Values and failures shared by every stage of the climate analysis. */
module Common {

  /** The result of a pandas reduction: a number, or NaN when the reduction
      saw no values at all (the mean or maximum of an empty column). */
  datatype Value = Num(x: real) | NaN

  /** Subtraction on reduction results: NaN on either side gives NaN. */
  function Minus(a: Value, b: Value): Value
  {
    if a.Num? && b.Num? then Num(a.x - b.x) else NaN
  }

  /** Multiplication of a reduction result by a constant. */
  function Scale(a: Value, k: real): Value
  {
    if a.Num? then Num(a.x * k) else NaN
  }

  /** The Python exceptions the analysis can raise. */
  datatype Failure =
    | KeyError(key: string)   // a dictionary lacks the key
    | TypeError               // subscripting a number or None, or subtracting a dict
    | AttributeError          // calling `.keys()` on None
    | ZeroDivisionError       // dividing by a window size of zero

  datatype Option<+T> = None | Some(value: T)

  datatype Result<+T> = Ok(value: T) | Err(error: Failure) {
    predicate IsFailure() { Err? }

    function PropagateFailure<U>(): Result<U>
      requires Err?
    {
      Err(error)
    }

    function Extract(): T
      requires Ok?
    {
      value
    }
  }
}
