/** Failure-carrying wrappers shared by every module of the model.
    A Python call that returns normally becomes `Ok`, one that raises becomes `Err`. */
module Results {

  datatype Option<+T> = None | Some(value: T)

  datatype Result<+T, +E> = Ok(value: T) | Err(error: E)

  /** The outcome of a validator that returns nothing on success and raises otherwise. */
  datatype Outcome = Pass | Raise(message: string)
}
