/** The TimeSlot entity: a working-time window a practitioner declared. */
module TimeSlotEntity {
  import opened Errors
  import opened TimeRanges
  import opened Validator
  import opened Statuses

  /** The column values of a time-slot row. */
  datatype TimeSlotRecord = TimeSlotRecord(
    practitionerId: Option<int>,
    timeRange: TimeRange,
    status: TimeSlotStatus)

  class TimeSlot {
    var practitionerId: Option<int>
    var timeRange: TimeRange
    var status: TimeSlotStatus

    /** The builder; the status defaults to NEW. */
    constructor (practitionerId: Option<int>, timeRange: TimeRange)
      ensures this.practitionerId == practitionerId && this.timeRange == timeRange
      ensures status == New
    {
      this.practitionerId := practitionerId;
      this.timeRange := timeRange;
      status := New;
    }

    function Record(): TimeSlotRecord
      reads this
    {
      TimeSlotRecord(practitionerId, timeRange, status)
    }

    /** NEW or MODIFIED -> PLANNED; planning a PLANNED slot is an invalid state change. Only the status can change. */
    method MarkAsPlanned() returns (r: Outcome)
      modifies this`status
      ensures old(status) != Planned ==> r == Pass && status == Planned
      ensures old(status) == Planned ==>
                r == Fail(InvalidStateChange("Cannot plan a processed timeslot")) && status == old(status)
    {
      if status == Planned {
        return Fail(InvalidStateChange("Cannot plan a processed timeslot"));
      }
      status := Planned;
      r := Pass;
    }

    /** The check run before the row is persisted or updated. */
    function Validate(): (r: Outcome)
      reads this
      ensures r.Pass? <==> IsValidId(practitionerId)
      ensures r.Fail? ==> r.error == IllegalArgument(MustBePositive("practitionerId"))
    {
      ValidateValidId(practitionerId, "practitionerId")
    }
  }

  /** The rows of a list of time-slot entities, in order. */
  function TimeSlotRecords(slots: seq<TimeSlot>): (r: seq<TimeSlotRecord>)
    reads slots
    ensures |r| == |slots| && forall i :: 0 <= i < |slots| ==> r[i] == slots[i].Record()
  {
    if slots == [] then [] else [slots[0].Record()] + TimeSlotRecords(slots[1..])
  }
}
