// Option and Result, plus the error type of the program (a kind and a message,
// displayed as "<kind prefix>: <message>").

module Wrappers {

  datatype Option<T> = None | Some(value: T)

  /** The kinds of error the program raises; each has its own display prefix. */
  datatype ErrorKind =
    | Io
    | Scsi
    | TapeDevice
    | FileOperation
    | System
    | Parse
    | LtfsIndex
    | ParameterValidation
    | OperationCancelled
    | ResourceExhausted
    | Generic

  datatype Error = Error(kind: ErrorKind, message: string)

  datatype Result<T> = Ok(value: T) | Err(error: Error)
  {
    /** Rust's `?`: an error stops the computation and is passed on. */
    predicate IsFailure() { Err? }

    function PropagateFailure<U>(): Result<U>
      requires Err?
    {
      Err(error)
    }

    function Extract(): T
      requires Ok?
    {
      value
    }
  }

  /** How a call ends when the source can panic: it returns a value, or it panics. */
  datatype Outcome<T> = Returns(value: T) | Panics

  /** The text an error prints as: its kind's prefix, a colon, and the message. */
  function Prefix(k: ErrorKind): string
  {
    match k
    case Io => "IO error"
    case Scsi => "SCSI operation error"
    case TapeDevice => "Tape device error"
    case FileOperation => "File operation error"
    case System => "System error"
    case Parse => "Parse error"
    case LtfsIndex => "LTFS index error"
    case ParameterValidation => "Parameter validation error"
    case OperationCancelled => "Operation cancelled"
    case ResourceExhausted => "Resource exhausted"
    case Generic => "Generic error"
  }

  function Display(e: Error): string
  {
    Prefix(e.kind) + ": " + e.message
  }

  function Fail<T>(k: ErrorKind, msg: string): Result<T>
  {
    Err(Error(k, msg))
  }
}
