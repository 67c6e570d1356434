/** Shared value types of the pipeline: optional values, results, and parsed timestamps. */
module Common {

  /** A value that may be absent: a cell holding NaN/NaT, or a failed numeric coercion. */
  datatype Option<+T> = None | Some(value: T)

  /** The outcome of an operation that raises an exception on some inputs. */
  datatype Result<+T, +E> = Success(value: T) | Failure(error: E)

  /** A parsed timestamp: the day number counted from 1970-01-01 (day 0) and the time within that day.
      Truncating a timestamp to its date keeps `day` and forgets `timeOfDay`. */
  datatype DateTime = DateTime(day: int, timeOfDay: int)
}
