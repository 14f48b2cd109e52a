/** Option and Result types shared by the whole model.

    `Option` doubles as a Java reference that may be null: `None` is `null`.
    `Result` is what a service returns: either a value or the error the Java
    code throws. */
module Wrappers {

  datatype Option<+T> = None | Some(value: T) {

    /** Returns the value, or `default` when there is none. */
    function GetOr(default: T): T {
      match this
      case Some(v) => v
      case None => default
    }
  }

  /** The failures a service can surface. `NotFound` is the
      ResourceNotFoundException of the services; `ConstraintViolation` is the
      persistence layer refusing a row of the named table (NOT NULL, column
      length, UNIQUE, foreign key, or an entity-level Bean Validation
      constraint checked before the row is written). */
  datatype Error =
    | NotFound(message: string)
    | ConstraintViolation(table: string)

  datatype Result<+T> = Ok(value: T) | Err(error: Error) {

    predicate IsFailure() {
      Err?
    }

    function PropagateFailure<U>(): Result<U>
      requires Err?
    {
      Err(error)
    }

    function Extract(): T
      requires Ok?
    {
      value
    }
  }
}
