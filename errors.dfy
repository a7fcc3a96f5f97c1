/** The .NET exceptions the modelled code throws, as values carried by `Result.Err`. */
module Errors {
  datatype Exception =
    | ArgumentNullException(paramName: string)
    | ArgumentException(message: string)
    | ArgumentOutOfRangeException(paramName: string)
    | InvalidOperationException(message: string)
    | KeyNotFoundException(key: string)
    | OverflowException
    | FormatException(message: string)
    | DivideByZeroException
    | NullReferenceException
    /** An array index outside the array. */
    | IndexOutOfRangeException
    /** `JSON.ParseException` and its subclass `UnexpectedCharacterException` (its message is built from
        the expected characters and what was received instead). */
    | ParseException(message: string, position: int)
    | UnexpectedCharacterException(expected: seq<char>, received: string, position: int)
    /** `FileSystemServer.StorageReaderArgumentException`. */
    | StorageReaderArgumentException(message: string)

  /** The message `Stack<T>.Peek` and `Stack<T>.Pop` throw with on an empty stack. */
  const EmptyStack := "Stack empty."

  /** The message `Dictionary.Add` throws with on a key that is already present. */
  const DuplicateKey := "An item with the same key has already been added."

  /** The message `Array.Copy` throws with when the source holds fewer elements than asked for. */
  const SourceTooShort := "Source array was not long enough. Check srcIndex and length, and the array's lower bounds."
}
