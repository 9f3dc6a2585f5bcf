/** Failure-compatible result type for the Codablock-F encoder, and the
    ways an encoding attempt can fail. */
module Results {

  /** Why an encoding attempt was abandoned. `IndexOutOfRange` stands for the
      array-bounds fault the Java runtime raises when the encoder writes past
      its fixed 44 x 62 grid or reads past the one sentinel byte. */
  datatype Error =
    | InvalidCharacters   // empty content, or a character above U+00FF
    | InputTooLong        // more than 5450 bytes, or more than 62 columns
    | TooManyRows         // the encoder needs a 45th row
    | IndexOutOfRange     // an array access outside the encoder's fixed arrays

  datatype Result<+T> = Ok(value: T) | Err(error: Error) {

    predicate IsFailure() {
      Err?
    }

    function PropagateFailure<U>(): Result<U>
      requires Err?
    {
      Err(error)
    }

    function Extract(): T
      requires Ok?
    {
      value
    }
  }
}
