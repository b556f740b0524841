/** The Appointment entity; the core only creates appointments, never updates them. */
module AppointmentEntity {
  import opened Errors
  import opened TimeRanges
  import opened Validator
  import opened Statuses

  datatype Appointment = Appointment(
    patientId: Option<int>,
    practitionerId: Option<int>,
    timeRange: TimeRange,
    status: AppointmentStatus)
  {
    /** The check run before the row is persisted: the patient id first, then the practitioner id. */
    function Validate(): (r: Outcome)
      ensures !IsValidId(patientId) ==> r == Fail(IllegalArgument(MustBePositive("patientId")))
      ensures IsValidId(patientId) && !IsValidId(practitionerId) ==>
                r == Fail(IllegalArgument(MustBePositive("practitionerId")))
      ensures r.Pass? <==> IsValidId(patientId) && IsValidId(practitionerId)
    {
      var p := ValidateValidId(patientId, "patientId");
      if p.Fail? then p else ValidateValidId(practitionerId, "practitionerId")
    }
  }

  /** The builder; the status defaults to BOOKED. */
  function NewAppointment(patientId: Option<int>, practitionerId: Option<int>, timeRange: TimeRange): (a: Appointment)
    ensures a.status == Booked
    ensures a.patientId == patientId && a.practitionerId == practitionerId && a.timeRange == timeRange
  {
    Appointment(patientId, practitionerId, timeRange, Booked)
  }

  /** Positive ids pass validation; a missing or non-positive patient id is reported even when the practitioner id is bad too. */
  lemma ValidateExamples(r: TimeRange)
    ensures NewAppointment(Some(1), Some(2), r).Validate() == Pass
    ensures NewAppointment(Some(0), Some(2), r).Validate() == Fail(IllegalArgument("patientId must be positive"))
    ensures NewAppointment(None, None, r).Validate() == Fail(IllegalArgument("patientId must be positive"))
    ensures NewAppointment(Some(1), Some(-3), r).Validate() == Fail(IllegalArgument("practitionerId must be positive"))
    ensures NewAppointment(Some(1), None, r).Validate() == Fail(IllegalArgument("practitionerId must be positive"))
  {
    assert MustBePositive("patientId") == "patientId must be positive";
    assert MustBePositive("practitionerId") == "practitionerId must be positive";
  }
}
