/** Failure carriers for the query engine.

    The engine is Python: its failures are exceptions.  The model returns them
    as values, named after the Python exception class that the code would raise,
    so that every error path of the source is a visible branch of the model. */
module Errors {

  /** Optional value, used for dict lookups that may miss. */
  datatype Option<+T> = None | Some(value: T)

  /** The exceptions the engine's code can raise.  `what` names the offending
      key, type or operation; it is informative only. */
  datatype Error =
    | KeyError(what: string)          // `d[k]` with `k` absent
    | TypeError(what: string)         // wrong operand type, bad call signature, unhashable key
    | AttributeError(what: string)    // `.split`, `.get` or `.items` on a value that lacks it
    | RecursionLimit                  // Python's recursion limit, reached on cyclic graphs

  /** Either a value or the exception that aborted the computation; usable with `:-`. */
  datatype Result<+T> = Ok(value: T) | Err(error: Error) {

    predicate IsFailure() {
      Err?
    }

    function PropagateFailure<U>(): Result<U>
      requires Err?
    {
      Err(error)
    }

    function Extract(): T
      requires Ok?
    {
      value
    }
  }
}
