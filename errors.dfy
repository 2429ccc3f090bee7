/** The closed error type of the application (src/domain/error.rs) and its Result. */
module Errors {
  datatype AppError =
    | DatabaseNotFound(path: string)
    | Database(message: string)
    | InvalidData(message: string)
    | JsonParse(message: string)
    | Config(message: string)
    | Io(message: string)
      /** Not an error value of the source: a Rust panic, which unwinds past every handler. */
    | Panic(message: string)

  /** A byte-offset slice `&s[..k]` whose end is past the string or inside a character. */
  const SLICE_PANIC := Panic("byte index is out of bounds or not a char boundary")

  /** A SQLite database file that cannot be opened, such as an absent one opened without create. */
  const OPEN_FAILED := Database("unable to open database file")

  /** A SQLite write that fails (a full disk, a locked file): the `Database` error it becomes. */
  const WRITE_FAILED := Database("disk I/O error")

  datatype Result<+T> = Ok(value: T) | Err(error: AppError)
  {
    predicate IsFailure() { Err? }

    function PropagateFailure<U>(): Result<U>
      requires Err?
    {
      Err(error)
    }

    function Extract(): T
      requires Ok?
    {
      value
    }
  }
}
