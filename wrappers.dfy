/** Optional values and results with an error, as the rest of the model uses them. */
module Wrappers {

  datatype Option<+T> = None | Some(value: T)

  datatype Result<+T, +E> = Ok(value: T) | Err(error: E)
}

/** The Python exceptions that cross a modelled boundary, by the class that is raised. */
module Errors {

  datatype PyError =
      /** A bare `Exception` raised with a message (the embedding client's two errors). */
    | Exception(message: string)
      /** Iterating over `None`, or another operation on a value of the wrong type. */
    | TypeError(message: string)
      /** `KeyError`/`IndexError` while reading `data[0].embedding` from a JSON body. */
    | LookupError
      /** `str.format` met a named field it was given no argument for. */
    | KeyError(key: string)
      /** `res.choices[0]` on a completion with no choices, or `str.format` met a
          positional field when it was given named arguments only. */
    | IndexError
      /** Whatever a remote SDK call raises. */
    | ServiceError(cause: string)
      /** The database refused an insert (duplicate primary key, NULL in a NOT NULL column). */
    | IntegrityError
      /** Django refused a value for a model field (a malformed UUID in a lookup). */
    | ValidationError(message: string)

  /** What Python raises for `for hit in None`. */
  const NoneNotIterable: PyError := TypeError("'NoneType' object is not iterable")
}
