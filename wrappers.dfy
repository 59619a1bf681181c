/** Option and Result values for the places where the Python code returns
    None or raises. */
module Wrappers {

  datatype Option<+T> = None | Some(value: T) {
    function GetOr(default: T): T {
      match this
      case Some(v) => v
      case None => default
    }
  }

  /** The exception classes the modelled code can raise. */
  datatype Error =
    | ValueError        // bad argument: unknown method, int() of a non-number, min() of nothing
    | RuntimeError      // the code's own "bug" checks
    | KeyError          // a lookup of something that is not there
    | AttributeError    // a read or del of an object attribute that is not set
    | IndexError        // a list index out of range
    | ZeroDivisionError // 1./0
    | NodeNotFound      // a graph query for a node the graph does not have
    | NotModelled       // a branch whose code is not part of this model

  datatype Result<+T> = Ok(value: T) | Err(error: Error) {
    predicate IsFailure() { Err? }
    function PropagateFailure<U>(): Result<U>
      requires Err?
    {
      Err(error)
    }
    function Extract(): T
      requires Ok?
    {
      value
    }
  }
}
