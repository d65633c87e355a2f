/** Option and Result types shared by the scraper model. A Python exception
    raised while scraping is a `Failure` carrying the exception's class. */
module Common {

  datatype Option<+T> = None | Some(value: T)

  /** The Python exception classes the modelled code can raise. */
  datatype Error =
    | TypeError       // float(None)
    | ValueError      // float()/int() of a non-numeric string, max() of an empty list
    | IndexError      // a list index past the end of a split
    | AttributeError  // None.replace(...)

  datatype Result<+T> = Success(value: T) | Failure(error: Error) {
    predicate IsFailure() {
      Failure?
    }

    function PropagateFailure<U>(): Result<U>
      requires Failure?
    {
      Failure(error)
    }

    function Extract(): T
      requires Success?
    {
      value
    }
  }
}
