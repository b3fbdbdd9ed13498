/** Shared value types of the post service: nullable references, the exceptions the
    services throw, and the outcome of a call that may throw one of them. */
module Base {

  /** A Java reference that may be null. */
  datatype Option<T> = None | Some(value: T) {
    function GetOr(default: T): T
    {
      match this
      case Some(v) => v
      case None => default
    }
  }

  /** The exceptions the modelled code raises, each with its message. */
  datatype Exception =
    | IllegalArgument(message: string)   // java.lang.IllegalArgumentException
    | EntityNotFound(message: string)    // jakarta.persistence.EntityNotFoundException
    | DataValidation(message: string)    // album DataValidationException
    | PostFailure(message: string)       // PostException
    | FileFailure(message: string)       // FileException
    | KafkaFailure(message: string)      // org.apache.kafka.common.KafkaException
    | NullPointer                        // a dereference of null

  /** The result of a Java call: either it returns a value or it throws. */
  datatype Outcome<T> = Ok(value: T) | Thrown(exception: Exception) {
    predicate IsFailure() { Thrown? }

    function PropagateFailure<U>(): Outcome<U>
      requires Thrown?
    {
      Thrown(exception)
    }

    function Extract(): T
      requires Ok?
    {
      value
    }
  }

  /** A call that returns nothing (Java `void`). */
  datatype Unit = Unit
}
