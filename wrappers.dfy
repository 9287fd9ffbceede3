/** Failure-carrying values shared by every layer of the model. */
module Wrappers {

  /** A Kotlin nullable value: `null` is None. */
  datatype Option<+T> = None | Some(value: T)

  /** kotlin.Result: a success value, or a failure whose exception message
      may be null (Throwable.message is nullable). */
  datatype Result<+T> = Success(value: T) | Failure(message: Option<string>)

  /** `Result.failure(Exception(msg))`. */
  function Fail<T>(msg: string): Result<T> {
    Failure(Some(msg))
  }
}
