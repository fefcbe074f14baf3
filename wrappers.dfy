/** Result types used for the C# exceptions of the model. */
module Wrappers {

  /** Some/None; None also stands for C#'s `default(KeyValuePair<,>)` and for null. */
  datatype Option<+T> = None | Some(value: T)

  /** A value, or the exception that was thrown instead. */
  datatype Result<+R, +E> = Success(value: R) | Failure(error: E)

  /** The outcome of a `Task` that completes without a value. */
  datatype Outcome<+E> = Pass | Fail(error: E)
}

/** The exceptions the localization code can raise or let through. */
module Exceptions {

  datatype Exception =
    | NullReference               // a member accessed through a null reference
    | ArgumentNull                // a LINQ operator applied to a null sequence
    | InvalidOperation            // Enumerable.First found no matching element
    | FileNotFound(path: string)  // the content root has no file at `path`
    | IOError(path: string)       // the file at `path` exists but cannot be read
    | JsonReader                  // the text is not a JSON object of string members: a syntax
                                  // error (JsonReaderException) or a value of another shape,
                                  // such as an array (JsonSerializationException)
    | Argument(key: string)       // IDictionary.Add with a key that is already present
    | Aggregate(inner: Exception) // Task.Wait rethrowing the failure of the awaited task
}
