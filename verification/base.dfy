/** Failure-carrying results shared by every module of the model.
    The scripts signal failure by raising Python exceptions; each kind that
    the modelled code can raise is one constructor of `Fault`. */
module Base {

  /** The exceptions (and the `quit()` exit) that the modelled code raises. */
  datatype Fault =
    | AttributeError            // a string method called on a non-string cell
    | IndexError                // a list or table position that does not exist
    | ValueError                // float() of non-numeric text, max()/min() of nothing, ...
    | KeyError(key: string)     // a column or dictionary key that is absent
    | TypeError                 // `str + None`: a code the station table left unset
    | ZeroDivisionError         // float division by zero
    | UnboundLocalError         // a local read before any branch assigned it
    | Raised(message: string)   // an explicit `raise Exception(message)`
    | Exit                      // `print(...); quit()`

  datatype Option<+T> = None | Some(value: T)

  /** A value or the exception that stopped the computation; usable with `:-`. */
  datatype Result<+T> = Ok(value: T) | Err(fault: Fault) {

    predicate IsFailure() {
      Err?
    }

    function PropagateFailure<U>(): Result<U>
      requires Err?
    {
      Err(fault)
    }

    function Extract(): T
      requires Ok?
    {
      value
    }
  }
}
