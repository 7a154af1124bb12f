/** Option and Result, the two failure-carrying shapes the launcher uses
    everywhere, plus the single error type of the model. */
module Wrappers {

  datatype Option<+T> = None | Some(value: T) {
    predicate IsFailure() { None? }

    function PropagateFailure<U>(): Option<U>
      requires None?
    {
      None
    }

    function Extract(): T
      requires Some?
    {
      value
    }

    /** `unwrap_or(default)` */
    function GetOr(default: T): T {
      match this
      case Some(v) => v
      case None => default
    }
  }

  datatype Result<+T, +E> = Ok(value: T) | Err(error: E) {
    predicate IsFailure() { Err? }

    function PropagateFailure<U>(): Result<U, E>
      requires Err?
    {
      Err(error)
    }

    function Extract(): T
      requires Ok?
    {
      value
    }
  }

  /** Why a fetch failed: the classification the HTTP layer produces. */
  datatype DownloadError =
    | InvalidUrl
    | Timeout
    | Status(code: int)
    | Other(message: string)

  /** Every failure the model can report. `Panic` stands for a Rust panic
      (`unwrap`, `expect`, `todo!`, an out-of-range slice): the process
      aborts, and nothing after it happens. */
  datatype Error =
    | Download(cause: DownloadError)
    | Zip(message: string)
    | Io(message: string)
    | VersionNotFound
    | ProfileNotFound(name: string)
    | MinecraftFailure(code: int)
    | Panic(reason: string)
}
