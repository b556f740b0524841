/** The AppointmentRequest record and the checks of its compact constructor. */
module AppointmentRequests {
  import opened Errors

  datatype AppointmentRequest = AppointmentRequest(
    patientId: int,
    practitionerId: int,
    startDate: int,
    endDate: int)

  /** The compact constructor: practitioner id, patient id, null dates, then the order of the dates. */
  function NewAppointmentRequest(patientId: int, practitionerId: int,
                                 startDate: Option<int>, endDate: Option<int>): (r: Result<AppointmentRequest>)
    ensures practitionerId < 1 <==> r == Failure(IllegalArgument("practitionerId should be positive"))
    ensures (practitionerId >= 1 && patientId < 1)
            <==> r == Failure(IllegalArgument("patientId should be positive"))
    ensures (practitionerId >= 1 && patientId >= 1 && (startDate.None? || endDate.None?))
            <==> r == Failure(IllegalArgument("Dates cannot be null"))
    ensures (practitionerId >= 1 && patientId >= 1 && startDate.Some? && endDate.Some?
             && startDate.value >= endDate.value)
            <==> r == Failure(TimeRangeInvalidException("startDate must be before endDate"))
    ensures r.Success? <==> practitionerId >= 1 && patientId >= 1 && startDate.Some? && endDate.Some?
                            && startDate.value < endDate.value
    ensures r.Success? ==>
              r.value == AppointmentRequest(patientId, practitionerId, startDate.value, endDate.value)
              && r.value.patientId >= 1 && r.value.practitionerId >= 1
              && r.value.startDate < r.value.endDate
  {
    if practitionerId < 1 then
      Failure(IllegalArgument("practitionerId should be positive"))
    else if patientId < 1 then
      Failure(IllegalArgument("patientId should be positive"))
    else if startDate.None? || endDate.None? then
      Failure(IllegalArgument("Dates cannot be null"))
    else if !(startDate.value < endDate.value) then
      Failure(TimeRangeInvalidException("startDate must be before endDate"))
    else
      Success(AppointmentRequest(patientId, practitionerId, startDate.value, endDate.value))
  }
}
