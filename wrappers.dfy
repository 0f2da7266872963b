/** Option and Result types shared by the whole model. A `Result` stands for a
    Python call that either returns a value or raises; the errors are the few
    pandas raises on the paths modelled here. */
module Wrappers {

  datatype Option<+T> = None | Some(value: T) {
    function GetOr(default: T): T {
      match this
      case Some(v) => v
      case None => default
    }
  }

  /** The exceptions the modelled code can raise. `KeyError(c)` is pandas
      indexing a column `c` the table does not have; `ValueError` is `int()`
      applied to a missing value; `IndexError` is indexing a list past its end. */
  datatype Error = KeyError(column: string) | ValueError | IndexError

  datatype Result<+T> = Ok(value: T) | Err(error: Error) {
    predicate IsFailure() {
      Err?
    }

    function PropagateFailure<U>(): Result<U>
      requires Err?
    {
      Err(error)
    }

    function Extract(): T
      requires Ok?
    {
      value
    }
  }
}
