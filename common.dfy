/** Shared vocabulary: optional values, results that fail like a Python
    exception, the one exception the core raises, and the route of interest. */
module Common {

  /** A field of a parsed document that may be absent. */
  datatype Option<+T> = None | Some(value: T)

  /** Either a value or the error that aborted the computation; usable with `:-`. */
  datatype Result<+T, +E> = Ok(value: T) | Err(error: E) {

    predicate IsFailure() {
      Err?
    }

    function PropagateFailure<U>(): Result<U, E>
      requires Err?
    {
      Err(error)
    }

    function Extract(): T
      requires Ok?
    {
      value
    }
  }

  /** The only failure the modelled code raises: a dictionary subscript on a
      missing key (Python's `KeyError`), carrying that key. */
  datatype Error = KeyError(key: string)

  /** `d[key]` on a parsed field: its value, or `KeyError(key)` when absent. */
  function Field<T>(o: Option<T>, key: string): Result<T, Error> {
    match o
    case Some(v) => Ok(v)
    case None => Err(KeyError(key))
  }

  /** The GTFS `route_id` of the one route the service tracks (King County
      Metro route 271); the source compares against it in two places. */
  const TargetRoute: string := "100162"
}
