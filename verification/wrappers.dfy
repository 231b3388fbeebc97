/** Failure-carrying results shared by the day modules. */
module Wrappers {

  /** A value that may be absent: a Go `nil`/`-1` sentinel or a Python `None`. */
  datatype Option<+T> = None | Some(value: T)

  /** The outcome of an operation whose failure the source reports with `log.Fatal`
      or an exception: the program stops, so only the fact of failure is kept. */
  datatype Result<+T> = Ok(value: T) | Failed
}
