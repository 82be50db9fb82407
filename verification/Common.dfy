/** Result types shared by every component. */
module Common {

  datatype Option<+T> = None | Some(value: T)

  /** The source raises an exception where a result here is a `Failure`. */
  datatype Result<+T> = Success(value: T) | Failure(error: string)
}
