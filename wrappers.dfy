/** Option and Result values standing for Python's `None` returns and raised exceptions. */
module Wrappers {

  datatype Option<+T> = None | Some(value: T)

  /** The exceptions the modelled code can raise. */
  datatype Error =
    | EmptyBuffer      // ValueError("Tried to read from an empty buffer")
    | NoData           // statistics.StatisticsError: mean or median of no data
    | MissingStation   // KeyError on the stations dictionary
    | RecursionLimit   // RecursionError: the call stack budget is exhausted
    | NotIterable      // TypeError: statistics.mean given a single number

  datatype Result<+T> = Success(value: T) | Failure(error: Error)
}
