/** Values that may be missing or refused, and what becomes of a command sent to
    the outside world. */
module Wrappers {

  datatype Option<+T> = None | Some(value: T)

  datatype Result<+T, +E> = Success(value: T) | Failure(error: E)

  /** What the environment does to a command: carry it out, refuse it, or carry
      it out and still report an error (a reply lost to a timeout). */
  datatype Fate = Obeyed | Refused | Garbled
}
