/** Optional values, the exceptions the modelled code raises, and the outcome
    of a call that either returns normally or raises. */
module Results {

  datatype Option<+T> = None | Some(value: T)

  /** The Python exceptions raised by the modelled code. */
  datatype Exception =
    | ValueError(message: string)
    | ZeroDivisionError

  /** A value, or the exception raised instead of returning one. */
  datatype Result<+T> = Ok(value: T) | Err(exception: Exception)

  /** How a call that returns `None` in Python ended. */
  datatype Outcome = Done | Raised(exception: Exception)
}
