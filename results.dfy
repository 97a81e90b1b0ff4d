/** The exceptions the engine can raise, as values. */
module Results {

  /** One variant per exception the modelled Python code raises. */
  datatype Error =
    | UnknownSymbol(symbol: string)           // NotImplementedError from match_symbol
    | UnknownCharacteristic(name: string)     // NotImplementedError from factory
    | MissingParameter(name: string)          // IndexError on params[k]
    | BadParameter(name: string)              // a parameter of the wrong kind
    | InvalidStart(start: int)                // ValueError from day_of_water_year
    | InvalidWindow(window: int)              // ValueError from a pandas rolling window below 1
    | IndexOutOfRange(index: int, size: int)  // IndexError from numpy indexing
    | ShapeMismatch(size: int, rows: int)     // ValueError from numpy assigning a column of the wrong length

  datatype Result<+T> = Success(value: T) | Failure(error: Error) {
    predicate IsFailure() { Failure? }

    function PropagateFailure<U>(): Result<U>
      requires Failure?
    {
      Failure(error)
    }

    function Extract(): T
      requires Success?
    {
      value
    }
  }

  datatype Option<+T> = None | Some(value: T)
}
