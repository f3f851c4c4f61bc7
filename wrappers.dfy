// Option / Result values and the exceptions of the graph layer as data.

module Wrappers {

  datatype Option<T> = None | Some(value: T)

  /** The exceptions the graph layer raises or lets through, as values. */
  datatype Failure =
    | DocNotFound(key: string)          // DocNotFoundException: a document could not be fetched
    | IdGen                             // IdGenException: the vertex counter could not be incremented
    | DocumentDoesNotExist(key: string) // store replace/remove of an absent key (unchecked, escapes)
    | NullPointer                       // NullPointerException
    | ClassCast                         // ClassCastException
    | IllegalArgument                   // IllegalArgumentException
    | IndexOutOfBounds                  // StringIndexOutOfBoundsException
    | Malformed                         // the adjacency text is not valid JSON

  /** A value or the exception that replaced it. */
  datatype Result<T> = Ok(value: T) | Err(failure: Failure)

  /** The completion of a void operation. */
  datatype Outcome = Pass | Fail(failure: Failure)
}
