/** Results of fallible operations: the error kinds the reader and the writer distinguish. */
module Outcome {

  datatype Option<+T> = None | Some(value: T)

  datatype Error =
    | Truncated
    | BadUtf8
    | BadMagic
    | UnsupportedVersion
    | EntryNotFound
    | BadUrlIndex
    | BadTitleIndex
    | BadClusterIndex
    | BadBlobIndex
    | UnsupportedCompression
    | Decompression
    | RedirectLoop
    | NotAnItem
    | NoMainEntry
    | InvalidInput
    | Io

  datatype Result<+T> = Ok(value: T) | Err(error: Error) {
    predicate IsFailure() {
      Err?
    }

    function PropagateFailure<U>(): Result<U>
      requires Err?
    {
      Err(error)
    }

    function Extract(): T
      requires Ok?
    {
      value
    }

    function GetOr(default: T): T {
      if Ok? then value else default
    }
  }

  datatype Ordering = Less | Equal | Greater
}
