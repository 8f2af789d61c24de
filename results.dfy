/** Optional values and the outcome of an operation that may raise. */
module Results {

  datatype Option<+T> = None | Some(value: T)

  /** The Python exceptions that the modelled code can raise on malformed feed data. */
  datatype Error =
    | IndexError   // a description line with fewer than two tokens
    | ValueError   // int() or float() applied to text that is not a number
    | LinAlgError  // numpy's least-squares fit given an empty, one-dimensional matrix

  /** A computation that either yields a value or aborts with a Python exception. */
  datatype Result<+T> = Ok(value: T) | Err(error: Error)
}
