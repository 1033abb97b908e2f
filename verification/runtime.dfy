/** Failures of the Go runtime that the modelled code can reach, and the
    wrappers that turn them into explicit results. */
module Runtime {

  /** A Go run-time panic: reading past the end of a slice, or slicing
      with a bound outside the slice. */
  datatype Panic = IndexOutOfRange | SliceBoundsOutOfRange

  /** A value that may be absent, such as a config file that cannot be opened. */
  datatype Option<+T> = None | Some(value: T)

  /** The outcome of a computation that either returns normally or panics. */
  datatype Result<+T> = Ok(value: T) | Err(panic: Panic)
}
