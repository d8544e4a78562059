/** Small shared datatypes: nullable values and the exceptions the entities
    and the listener can raise. */
module Common {

  /** A PHP value that may be null. */
  datatype Option<+T> = None | Some(value: T)

  /** The exceptions raised by the modelled code. */
  datatype Failure =
    | SectionNotBelongToDepartment  // App\Exception\SectionNotBelongToDepartmentException
    | NullProfileTypeError           // a null profile passed where a WorkScheduleProfile is declared

  /** The outcome of a PHP call that returns nothing or throws. */
  datatype Outcome = Pass | Fail(error: Failure)
}
