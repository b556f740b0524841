/**
  * The repositories the booking core reads and writes, held in memory: the practitioner
  * and patient tables (only their ids matter here), and the time-slot, availability and
  * appointment tables. Each derived query of the repositories is a filter over a table.
  */
module Repositories {
  import opened Errors
  import opened TimeRanges
  import opened Validator
  import opened Statuses
  import opened TimeSlotEntity
  import opened AvailabilityEntity
  import opened AppointmentEntity

  /** The rows of every table at one moment. */
  datatype Snapshot = Snapshot(
    practitioners: set<int>,
    patients: set<int>,
    timeSlots: seq<TimeSlotRecord>,
    availabilities: seq<AvailabilityRecord>,
    appointments: seq<Appointment>)

  /** Two availabilities for the same practitioner and the same time range. */
  predicate SameSlot(a: AvailabilityRecord, b: AvailabilityRecord) {
    a.practitionerId == b.practitionerId && a.timeRange == b.timeRange
  }

  /** No two rows offer the same slot. */
  predicate NoRepeatedSlot(avails: seq<AvailabilityRecord>) {
    forall i, j :: 0 <= i < j < |avails| ==> !SameSlot(avails[i], avails[j])
  }

  /** Two lists without repeated slots, none offered by both, concatenate to a list without repeated slots. */
  lemma NoRepeatedSlotConcat(a: seq<AvailabilityRecord>, b: seq<AvailabilityRecord>)
    requires NoRepeatedSlot(a) && NoRepeatedSlot(b)
    requires forall x, y :: 0 <= x < |a| && 0 <= y < |b| ==> !SameSlot(a[x], b[y])
    ensures NoRepeatedSlot(a + b)
  {
    forall i, j | 0 <= i < j < |a + b| ensures !SameSlot((a + b)[i], (a + b)[j]) {
      if j < |a| {
        assert (a + b)[i] == a[i] && (a + b)[j] == a[j];
      } else if i >= |a| {
        assert (a + b)[i] == b[i - |a|] && (a + b)[j] == b[j - |a|];
      } else {
        assert (a + b)[i] == a[i] && (a + b)[j] == b[j - |a|];
      }
    }
  }

  /**
    * What every stored row satisfies: ids are positive (the entities validate before
    * they are persisted), every embedded time range was built by the validating record
    * constructor, and no slot is offered twice, so the single-result lookup of an
    * availability by practitioner and range is well defined.
    */
  predicate WellFormed(db: Snapshot) {
    (forall id :: id in db.practitioners ==> id >= 1)
    && (forall id :: id in db.patients ==> id >= 1)
    && (forall i :: 0 <= i < |db.timeSlots| ==>
          IsValidId(db.timeSlots[i].practitionerId) && Valid(db.timeSlots[i].timeRange))
    && (forall i :: 0 <= i < |db.availabilities| ==>
          IsValidId(db.availabilities[i].practitionerId) && Valid(db.availabilities[i].timeRange))
    && NoRepeatedSlot(db.availabilities)
    && (forall i :: 0 <= i < |db.appointments| ==>
          db.appointments[i].Validate() == Pass && Valid(db.appointments[i].timeRange))
  }

  predicate Distinct<T(==)>(s: seq<T>) {
    forall i, j :: 0 <= i < j < |s| ==> s[i] != s[j]
  }

  lemma DistinctConcat<T>(a: seq<T>, b: seq<T>)
    requires Distinct(a) && Distinct(b)
    requires forall x, y :: 0 <= x < |a| && 0 <= y < |b| ==> a[x] != b[y]
    ensures Distinct(a + b)
  {
    forall i, j | 0 <= i < j < |a + b| ensures (a + b)[i] != (a + b)[j] {
      if j < |a| {
        assert (a + b)[i] == a[i] && (a + b)[j] == a[j];
      } else if i >= |a| {
        assert (a + b)[i] == b[i - |a|] && (a + b)[j] == b[j - |a|];
      } else {
        assert (a + b)[i] == a[i] && (a + b)[j] == b[j - |a|];
      }
    }
  }

  // ---------------------------------------------------------------------------
  // TimeSlotRepository

  /** The statuses findByPractitionerIdAndStatusIn is called with: NEW and MODIFIED. */
  predicate IsUnplannedOf(s: TimeSlotRecord, practitionerId: int) {
    s.practitionerId == Some(practitionerId) && (s.status == New || s.status == Modified)
  }

  /** The ranges of the practitioner's NEW and MODIFIED time slots, in table order. */
  function UnplannedRanges(slots: seq<TimeSlotRecord>, practitionerId: int): (r: seq<TimeRange>)
    ensures |r| <= |slots|
  {
    if slots == [] then []
    else
      var rest := UnplannedRanges(slots[1..], practitionerId);
      if IsUnplannedOf(slots[0], practitionerId) then [slots[0].timeRange] + rest else rest
  }

  /**
    * The query returns a range iff it is the range of a NEW or MODIFIED slot of the practitioner,
    * and returns nothing iff there is no such slot.
    */
  lemma {:induction false} UnplannedRangesMembers(slots: seq<TimeSlotRecord>, practitionerId: int)
    ensures var r := UnplannedRanges(slots, practitionerId);
            (r == [] <==> forall i :: 0 <= i < |slots| ==> !IsUnplannedOf(slots[i], practitionerId))
            && forall x :: x in r <==>
                 exists i :: 0 <= i < |slots| && IsUnplannedOf(slots[i], practitionerId) && slots[i].timeRange == x
  {
    if slots != [] {
      UnplannedRangesMembers(slots[1..], practitionerId);
      assert forall i :: 1 <= i < |slots| ==> slots[i] == slots[1..][i - 1];
      assert forall i :: 0 <= i < |slots| - 1 ==> slots[1..][i] == slots[i + 1];
    }
  }

  /** The query on the entities themselves: the NEW and MODIFIED slots of the practitioner, in table order. */
  function UnplannedOf(slots: seq<TimeSlot>, practitionerId: int): (r: seq<TimeSlot>)
    reads slots
    ensures forall i :: 0 <= i < |r| ==> r[i] in slots && IsUnplannedOf(r[i].Record(), practitionerId)
    ensures forall i :: 0 <= i < |slots| && IsUnplannedOf(slots[i].Record(), practitionerId) ==> slots[i] in r
    ensures Distinct(slots) ==> Distinct(r)
  {
    if slots == [] then []
    else
      var rest := UnplannedOf(slots[1..], practitionerId);
      assert forall i :: 1 <= i < |slots| ==> slots[i] == slots[1..][i - 1];
      if IsUnplannedOf(slots[0].Record(), practitionerId) then
        assert Distinct(slots) ==> slots[0] !in slots[1..];
        [slots[0]] + rest
      else rest
  }

  /** TimeSlot::getTimeRange over a list of entities. */
  function TimeRangesOf(slots: seq<TimeSlot>): (r: seq<TimeRange>)
    reads slots
    ensures |r| == |slots| && forall i :: 0 <= i < |slots| ==> r[i] == slots[i].timeRange
  {
    if slots == [] then [] else [slots[0].timeRange] + TimeRangesOf(slots[1..])
  }

  /** The entities the query returns carry, in order, the ranges of the rows it selects. */
  lemma {:induction false} UnplannedOfRanges(slots: seq<TimeSlot>, practitionerId: int)
    ensures TimeRangesOf(UnplannedOf(slots, practitionerId)) == UnplannedRanges(TimeSlotRecords(slots), practitionerId)
  {
    if slots != [] {
      UnplannedOfRanges(slots[1..], practitionerId);
      assert TimeSlotRecords(slots)[1..] == TimeSlotRecords(slots[1..]);
    }
  }

  /** A stored slot is returned by the query iff its row is a NEW or MODIFIED slot of the practitioner. */
  lemma UnplannedOfMembers(slots: seq<TimeSlot>, practitionerId: int)
    ensures forall k :: 0 <= k < |slots| ==>
              (slots[k] in UnplannedOf(slots, practitionerId) <==> IsUnplannedOf(TimeSlotRecords(slots)[k], practitionerId))
  {
    var r := UnplannedOf(slots, practitionerId);
    forall k | 0 <= k < |slots| && slots[k] in r
      ensures IsUnplannedOf(TimeSlotRecords(slots)[k], practitionerId)
    {
      var m :| 0 <= m < |r| && r[m] == slots[k];
    }
  }

  /** Marks every NEW or MODIFIED slot of the practitioner as PLANNED; every other row is kept. */
  function PlanSlots(slots: seq<TimeSlotRecord>, practitionerId: int): (r: seq<TimeSlotRecord>)
  {
    seq(|slots|, i requires 0 <= i < |slots| =>
      if IsUnplannedOf(slots[i], practitionerId) then slots[i].(status := Planned) else slots[i])
  }

  // ---------------------------------------------------------------------------
  // AvailabilityRepository

  /** findByPractitionerIdAndStatus(id, FREE): the practitioner's bookable availabilities, in table order. */
  function FreeAvailabilities(avails: seq<AvailabilityRecord>, practitionerId: int): (r: seq<AvailabilityRecord>)
    ensures forall a :: a in r <==> a in avails && a.practitionerId == Some(practitionerId) && a.status == Free
  {
    if avails == [] then []
    else
      var rest := FreeAvailabilities(avails[1..], practitionerId);
      if avails[0].practitionerId == Some(practitionerId) && avails[0].status == Free then [avails[0]] + rest
      else rest
  }

  /** The same query on the entities: stored entities whose rows are exactly the rows the query selects. */
  function FreeEntities(avails: seq<Availability>, practitionerId: int): (r: seq<Availability>)
    reads avails
    ensures forall i :: 0 <= i < |r| ==> r[i] in avails
    ensures AvailabilityRecords(r) == FreeAvailabilities(AvailabilityRecords(avails), practitionerId)
  {
    if avails == [] then []
    else
      var rest := FreeEntities(avails[1..], practitionerId);
      assert AvailabilityRecords(avails) == [avails[0].Record()] + AvailabilityRecords(avails[1..]);
      assert forall i :: 0 <= i < |rest| ==> rest[i] in avails by {
        assert forall x :: x in avails[1..] ==> x in avails;
      }
      if avails[0].practitionerId == Some(practitionerId) && avails[0].status == Free then
        AvailabilityRecordsConcat([avails[0]], rest);
        [avails[0]] + rest
      else rest
  }

  /** findByPractitionerIdAndStartDateBetween: Spring's Between includes both bounds. */
  function AvailabilityRangesBetween(avails: seq<AvailabilityRecord>, practitionerId: int,
                                     lo: int, hi: int): (r: seq<TimeRange>)
    ensures forall x :: x in r <==>
              exists a :: a in avails && a.practitionerId == Some(practitionerId)
                          && lo <= a.timeRange.start <= hi && a.timeRange == x
  {
    if avails == [] then []
    else
      var rest := AvailabilityRangesBetween(avails[1..], practitionerId, lo, hi);
      assert forall a :: a in avails[1..] ==> a in avails;
      assert forall a :: a in avails ==> a == avails[0] || a in avails[1..];
      var a := avails[0];
      if a.practitionerId == Some(practitionerId) && lo <= a.timeRange.start <= hi then [a.timeRange] + rest
      else rest
  }

  /** The row a (practitioner, start, end, status) lookup matches. */
  predicate Matches(a: AvailabilityRecord, practitionerId: int, start: int, end: int, status: AvailabilityStatus) {
    a.practitionerId == Some(practitionerId) && a.timeRange == TimeRange(start, end) && a.status == status
  }

  /**
    * findForUpdate: the position of the availability with exactly this practitioner,
    * range and status, or None; partial overlap does not match.
    */
  function FindForUpdate(avails: seq<AvailabilityRecord>, practitionerId: int, start: int, end: int,
                         status: AvailabilityStatus): (k: Option<nat>)
    ensures k.None? <==> forall i :: 0 <= i < |avails| ==> !Matches(avails[i], practitionerId, start, end, status)
    ensures k.Some? ==> k.value < |avails| && Matches(avails[k.value], practitionerId, start, end, status)
  {
    if avails == [] then None
    else if Matches(avails[0], practitionerId, start, end, status) then Some(0)
    else
      var k := FindForUpdate(avails[1..], practitionerId, start, end, status);
      assert forall i :: 1 <= i < |avails| ==> avails[i] == avails[1..][i - 1];
      if k.None? then None else Some(k.value + 1)
  }

  // ---------------------------------------------------------------------------
  // AppointmentRepository

  /** findByPractitionerIdAndStartDateBetweenAndStatus(id, lo, hi, BOOKED), mapped to the ranges. */
  function BookedRangesBetween(appointments: seq<Appointment>, practitionerId: int,
                               lo: int, hi: int): (r: seq<TimeRange>)
    ensures forall x :: x in r <==>
              exists a :: a in appointments && a.practitionerId == Some(practitionerId) && a.status == Booked
                          && lo <= a.timeRange.start <= hi && a.timeRange == x
  {
    if appointments == [] then []
    else
      var rest := BookedRangesBetween(appointments[1..], practitionerId, lo, hi);
      assert forall a :: a in appointments[1..] ==> a in appointments;
      assert forall a :: a in appointments ==> a == appointments[0] || a in appointments[1..];
      var a := appointments[0];
      if a.practitionerId == Some(practitionerId) && a.status == Booked && lo <= a.timeRange.start <= hi then
        [a.timeRange] + rest
      else rest
  }

  /** The test of findOverlappingAppointments: the stored end after the start, the stored start before the end. */
  predicate OverlapsRequest(a: Appointment, patientId: int, start: int, end: int) {
    a.patientId == Some(patientId) && a.timeRange.end > start && a.timeRange.start < end && a.status == Booked
  }

  /** findOverlappingAppointments(patient, start, end, BOOKED). */
  function OverlappingAppointments(appointments: seq<Appointment>, patientId: int,
                                   start: int, end: int): (r: seq<Appointment>)
    ensures forall a :: a in r <==> a in appointments && OverlapsRequest(a, patientId, start, end)
  {
    if appointments == [] then []
    else
      var rest := OverlappingAppointments(appointments[1..], patientId, start, end);
      if OverlapsRequest(appointments[0], patientId, start, end) then [appointments[0]] + rest else rest
  }

  // ---------------------------------------------------------------------------
  // The store

  class Store {
    var practitioners: set<int>
    var patients: set<int>
    var timeSlots: seq<TimeSlot>
    var availabilities: seq<Availability>
    var appointments: seq<Appointment>

    /** The rows the tables hold now. */
    function Contents(): Snapshot
      reads this, timeSlots, availabilities
    {
      Snapshot(practitioners, patients, TimeSlotRecords(timeSlots), AvailabilityRecords(availabilities), appointments)
    }

    /** Each entity is held once, and the rows are well formed. */
    predicate Valid()
      reads this, timeSlots, availabilities
    {
      Distinct(timeSlots) && Distinct(availabilities) && WellFormed(Contents())
    }

    constructor ()
      ensures Valid()
      ensures Contents() == Snapshot({}, {}, [], [], [])
    {
      practitioners := {};
      patients := {};
      timeSlots := [];
      availabilities := [];
      appointments := [];
    }

    /** availabilityRepository.saveAll on entities not stored yet: they are appended in order. */
    method SaveAvailabilities(added: seq<Availability>)
      requires Distinct(availabilities) && Distinct(added)
      requires forall x, y :: 0 <= x < |availabilities| && 0 <= y < |added| ==> availabilities[x] != added[y]
      modifies this`availabilities
      ensures availabilities == old(availabilities) + added && Distinct(availabilities)
      ensures Contents() == old(Contents()).(availabilities := old(Contents()).availabilities + AvailabilityRecords(added))
    {
      DistinctConcat(availabilities, added);
      AvailabilityRecordsConcat(availabilities, added);
      availabilities := availabilities + added;
    }
  }
}
