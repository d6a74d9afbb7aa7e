/** Small value types shared by every module of the model. */
module Common {

  datatype Option<+T> = None | Some(value: T) {
    function GetOr(default: T): T {
      match this
      case Some(v) => v
      case None => default
    }
  }

  datatype Result<+T, +E> = Ok(value: T) | Err(error: E)

  /** One byte of a captured stream. */
  newtype byte = x: int | 0 <= x < 256

  /** Rust's `u32`, the type of the iteration count and of the SDK turn limit. */
  type u32 = x: int | 0 <= x < 0x1_0000_0000

  /** The error conditions that end an operation of the program abnormally. */
  datatype Fault =
    | TimedOut              // io::ErrorKind::TimedOut from the process runner
    | IoFailure             // any other I/O error propagated with `?`, including a failed spawn
    | InputClosed           // the terminal's input ended while a line was required
}
