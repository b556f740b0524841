/** The Availability entity: one bookable 15-minute unit of a practitioner. */
module AvailabilityEntity {
  import opened Errors
  import opened TimeRanges
  import opened Validator
  import opened Statuses

  /** The column values of an availability row. */
  datatype AvailabilityRecord = AvailabilityRecord(
    practitionerId: Option<int>,
    timeRange: TimeRange,
    status: AvailabilityStatus)

  class Availability {
    var practitionerId: Option<int>
    var timeRange: TimeRange
    var status: AvailabilityStatus

    /** The builder; the status defaults to FREE. */
    constructor (practitionerId: Option<int>, timeRange: TimeRange)
      ensures this.practitionerId == practitionerId && this.timeRange == timeRange
      ensures status == Free
    {
      this.practitionerId := practitionerId;
      this.timeRange := timeRange;
      status := Free;
    }

    function Record(): AvailabilityRecord
      reads this
    {
      AvailabilityRecord(practitionerId, timeRange, status)
    }

    /** FREE -> UNAVAILABLE; a second call is an invalid state change. Only the status can change. */
    method MarkAsUnavailable() returns (r: Outcome)
      modifies this`status
      ensures old(status) == Free ==> r == Pass && status == Unavailable
      ensures old(status) == Unavailable ==>
                r == Fail(InvalidStateChange("Cannot process unavailable availability")) && status == old(status)
    {
      if status == Unavailable {
        return Fail(InvalidStateChange("Cannot process unavailable availability"));
      }
      status := Unavailable;
      r := Pass;
    }

    /** The check run before the row is persisted or updated. */
    function Validate(): (r: Outcome)
      reads this
      ensures r.Pass? <==> IsValidId(practitionerId)
      ensures r.Fail? ==> r.error == IllegalArgument(MustBePositive("practitionerId"))
    {
      ValidateValidId(practitionerId, "practitionerId")
    }
  }

  /** The rows of a list of availability entities, in order. */
  function AvailabilityRecords(avails: seq<Availability>): (r: seq<AvailabilityRecord>)
    reads avails
    ensures |r| == |avails| && forall i :: 0 <= i < |avails| ==> r[i] == avails[i].Record()
  {
    if avails == [] then [] else [avails[0].Record()] + AvailabilityRecords(avails[1..])
  }

  lemma AvailabilityRecordsConcat(a: seq<Availability>, b: seq<Availability>)
    ensures AvailabilityRecords(a + b) == AvailabilityRecords(a) + AvailabilityRecords(b)
  {
  }
}
