/** Optional values, results and the exceptions the booking core throws. */
module Errors {

  /** A Java reference that may be null. */
  datatype Option<+T> = None | Some(value: T)

  /** The exceptions of the core, one constructor per exception class. */
  datatype Error =
    | IllegalArgument(message: string)
    | TimeRangeInvalid(message: string)           // thrown by the TimeRange record
    | TimeRangeInvalidException(message: string)  // thrown by Validator and AppointmentRequest
    | InvalidStateChange(message: string)
    | PractitionerNotFound
    | PatientNotFound
    | AvailabilityNotFound
    | AppointmentOverlapExisted

  /** A value, or the exception that was thrown instead. */
  datatype Result<+R> = Success(value: R) | Failure(error: Error)

  /** A void operation that returned normally or threw. */
  datatype Outcome = Pass | Fail(error: Error)
}
