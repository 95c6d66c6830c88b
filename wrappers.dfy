/** Option and Result types standing for Python's None and for the exceptions
    the pipeline raises.  Python code signals failure by raising; the model
    returns Err(e) at exactly the points where the source would raise. */
module Wrappers {

  datatype Option<+T> = None | Some(value: T)

  /** The Python exceptions the modelled code can raise. */
  datatype PyError =
    | IndexError          // list index out of range
    | KeyError            // missing dictionary key
    | ValueError          // int() of a non-numeric string, range() with step 0
    | UnboundLocalError   // a local variable read before any assignment

  datatype Result<+T> = Ok(value: T) | Err(error: PyError) {
    predicate IsFailure() { Err? }

    function PropagateFailure<U>(): Result<U>
      requires Err?
    {
      Err(error)
    }

    function Extract(): T
      requires Ok?
    {
      value
    }
  }
}
