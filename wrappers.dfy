/** Optional values and results with failure propagation (`:-`). */
module Wrappers {

  datatype Option<+T> = None | Some(value: T)

  datatype Result<+T, +E> = Ok(value: T) | Err(error: E) {
    predicate IsFailure() { Err? }

    function PropagateFailure<U>(): Result<U, E>
      requires Err?
    {
      Err(error)
    }

    function Extract(): T
      requires Ok?
    {
      value
    }
  }
}

/** The ways the front end, the back end or the interpreter can stop early.
    Java exceptions are named after their class; message texts are only
    indicative. */
module Errors {

  datatype Error =
    | SyntaxError(reason: string)      // whilelang.util.SyntaxError
    | InternalFailure(reason: string)  // SyntaxError.InternalFailure
    | NullPointer(reason: string)      // dereference of a missing map entry or attribute
    | ClassCast(reason: string)
    | IndexOutOfBounds(reason: string)
    | IllegalArgument(reason: string)
    | Arithmetic(reason: string)       // integer division by zero
    | Runtime(reason: string)          // an explicit RuntimeException
    | StackOverflow(reason: string)    // unbounded recursion through a cyclic named type
    | OutOfFuel                        // the interpreter's step bound ran out
    | Unsupported(reason: string)      // floating point, which is not modelled
}
