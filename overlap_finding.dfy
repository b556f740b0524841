/**
  * The occupied-time queries of availability generation select rows by their start only, so an
  * existing availability or BOOKED appointment that starts before the window but reaches into it
  * is not cut out. The first half of this module exhibits a run that offers a slot overlapping an
  * existing availability; the second half queries by overlap with the stretched window instead and
  * proves that the availabilities generated then overlap nothing the practitioner already has.
  */
module OverlapFinding {
  import opened Errors
  import opened TimeRanges
  import opened TimeRangeUtil
  import opened Statuses
  import opened TimeSlotEntity
  import opened AvailabilityEntity
  import opened AppointmentEntity
  import opened Repositories
  import opened AvailabilityService

  // ---------------------------------------------------------------------------
  // As written: a start-only query misses an availability that begins before the window

  const EarlierSlot := TimeRange(646, 659)
  const EarlierAvailability := TimeRange(646, 661)
  const NewSlot := TimeRange(660, 720)

  /**
    * Practitioner 1 had slot 10:46-10:59, already PLANNED; stretched to 11:13, it gave the
    * availability 10:46-11:01. The new slot 11:00-12:00 is NEW.
    */
  function LaterSlotTables(): Snapshot {
    Snapshot({1}, {},
             [TimeSlotRecord(Some(1), EarlierSlot, Planned), TimeSlotRecord(Some(1), NewSlot, New)],
             [AvailabilityRecord(Some(1), EarlierAvailability, Free)],
             [])
  }

  lemma LaterSlotMerged()
    ensures MergedSlots(LaterSlotTables(), 1) == [NewSlot]
  {
    var slots := LaterSlotTables().timeSlots;
    assert slots[1..] == [slots[1]] && slots[1..][1..] == [];
    assert UnplannedRanges(slots, 1) == [NewSlot];
    SortAndMergeSingle(NewSlot);
  }

  /** 10:46 is before the window's start 11:00, so the query for the window returns nothing. */
  lemma LaterSlotOccupied()
    ensures OccupiedTimeRanges(LaterSlotTables(), 1, NewSlot) == []
  {
    var db := LaterSlotTables();
    assert AvailabilityRangesBetween(db.availabilities, 1, NewSlot.start, NewSlot.end) == [];
    assert BookedRangesBetween(db.appointments, 1, NewSlot.start, NewSlot.end) == [];
    assert TakenRanges(db, 1, NewSlot) == [];
    SortAndMergeEmpty();
  }

  /** One merged slot with nothing occupied in its window is stretched by 14 minutes and kept whole. */
  lemma FreeRangesOfSingleSlot(db: Snapshot, practitionerId: int, slot: TimeRange)
    requires Valid(slot)
    requires MergedSlots(db, practitionerId) == [slot]
    requires OccupiedTimeRanges(db, practitionerId, slot) == []
    ensures FreeRanges(db, practitionerId) == [TimeRange(slot.start, slot.end + MaxSlotExtension)]
  {
    var stretched := TimeRange(slot.start, slot.end + MaxSlotExtension);
    assert Window([slot]) == slot;
    assert Extension([slot], 0) == MaxSlotExtension;
    assert Extended([slot]) == [stretched];
    DifferenceOfNothing([stretched]);
  }

  lemma LaterSlotFree()
    ensures FreeRanges(LaterSlotTables(), 1) == [TimeRange(660, 734)]
  {
    LaterSlotMerged();
    LaterSlotOccupied();
    FreeRangesOfSingleSlot(LaterSlotTables(), 1, NewSlot);
  }

  lemma LaterSlotFirstPiece()
    ensures |NewAvailabilities(LaterSlotTables(), 1)| > 0
    ensures NewAvailabilities(LaterSlotTables(), 1)[0] == AvailabilityRecord(Some(1), TimeRange(660, 675), Free)
  {
    var free := FreeRanges(LaterSlotTables(), 1);
    assert free == [TimeRange(660, 734)] by { LaterSlotFree(); }
    assert free[..0] == [];
    assert SplitAll(free) == SplitFrom(660, 734);
    assert SplitFrom(660, 734) == [TimeRange(660, 675)] + SplitFrom(675, 734);
  }

  lemma LaterSlotTablesWellFormed()
    ensures WellFormed(LaterSlotTables())
  {
  }

  /**
    * The run on these well-formed tables offers 11:00-11:15, which overlaps the availability
    * 10:46-11:01 the practitioner already has.
    */
  lemma StartOnlyQueryMissesEarlierAvailability()
    ensures WellFormed(LaterSlotTables())
    ensures AvailabilityRecord(Some(1), EarlierAvailability, Free) in LaterSlotTables().availabilities
    ensures |NewAvailabilities(LaterSlotTables(), 1)| > 0
    ensures NewAvailabilities(LaterSlotTables(), 1)[0] == AvailabilityRecord(Some(1), TimeRange(660, 675), Free)
    ensures IsOverlap(NewAvailabilities(LaterSlotTables(), 1)[0].timeRange, EarlierAvailability)
  {
    LaterSlotTablesWellFormed();
    LaterSlotFirstPiece();
  }

  // ---------------------------------------------------------------------------
  // Corrected: the queries select every row that overlaps the stretched window

  /** From the first merged start to the last stretched end: every generated piece lies in it. */
  function StretchedWindow(merged: seq<TimeRange>): TimeRange
    requires merged != []
  {
    TimeRange(merged[0].start, Extended(merged)[|merged| - 1].end)
  }

  /** The practitioner's BOOKED appointments that overlap w, mapped to their ranges. */
  function BookedRangesOverlapping(appointments: seq<Appointment>, practitionerId: int, w: TimeRange)
    : (r: seq<TimeRange>)
    ensures forall x :: x in r <==>
              exists a :: a in appointments && a.practitionerId == Some(practitionerId) && a.status == Booked
                          && IsOverlap(a.timeRange, w) && a.timeRange == x
  {
    if appointments == [] then []
    else
      var rest := BookedRangesOverlapping(appointments[1..], practitionerId, w);
      assert forall a :: a in appointments[1..] ==> a in appointments;
      assert forall a :: a in appointments ==> a == appointments[0] || a in appointments[1..];
      var a := appointments[0];
      if a.practitionerId == Some(practitionerId) && a.status == Booked && IsOverlap(a.timeRange, w) then
        [a.timeRange] + rest
      else rest
  }

  /** The practitioner's availabilities, of any status, that overlap w, mapped to their ranges. */
  function AvailabilityRangesOverlapping(avails: seq<AvailabilityRecord>, practitionerId: int, w: TimeRange)
    : (r: seq<TimeRange>)
    ensures forall x :: x in r <==>
              exists a :: a in avails && a.practitionerId == Some(practitionerId)
                          && IsOverlap(a.timeRange, w) && a.timeRange == x
  {
    if avails == [] then []
    else
      var rest := AvailabilityRangesOverlapping(avails[1..], practitionerId, w);
      assert forall a :: a in avails[1..] ==> a in avails;
      assert forall a :: a in avails ==> a == avails[0] || a in avails[1..];
      var a := avails[0];
      if a.practitionerId == Some(practitionerId) && IsOverlap(a.timeRange, w) then [a.timeRange] + rest
      else rest
  }

  function CorrectedTaken(db: Snapshot, practitionerId: int, w: TimeRange): seq<TimeRange>
  {
    BookedRangesOverlapping(db.appointments, practitionerId, w)
    + AvailabilityRangesOverlapping(db.availabilities, practitionerId, w)
  }

  /** The stretched merged slots with every overlapping occupied range cut out. */
  function CorrectedFreeRanges(db: Snapshot, practitionerId: int): seq<TimeRange>
  {
    var merged := MergedSlots(db, practitionerId);
    if merged == [] then []
    else Difference(Extended(merged), SortAndMerge(CorrectedTaken(db, practitionerId, StretchedWindow(merged))))
  }

  /** The availabilities the corrected run creates. */
  function CorrectedNewAvailabilities(db: Snapshot, practitionerId: int): seq<AvailabilityRecord>
  {
    BuiltAvailabilities(SplitAll(CorrectedFreeRanges(db, practitionerId)), practitionerId)
  }

  /** A stretched merged slot lies inside the stretched window. */
  lemma ExtendedWithinWindow(merged: seq<TimeRange>, k: int)
    requires AllValid(merged) && Separated(merged) && 0 <= k < |merged|
    ensures Within(Extended(merged)[k], StretchedWindow(merged))
  {
    var e := Extended(merged);
    ExtendedShape(merged);
    if k > 0 {
      assert merged[0].end < merged[k].start;
    }
    if k < |merged| - 1 {
      assert e[k].end <= e[|merged| - 1].start;
    }
  }

  /** A piece of the corrected run lies in one free range and inside the stretched window. */
  lemma CorrectedPiece(db: Snapshot, practitionerId: int, a: AvailabilityRecord)
    requires MergedSlots(db, practitionerId) != []
    requires a in CorrectedNewAvailabilities(db, practitionerId)
    ensures Valid(a.timeRange) && Within(a.timeRange, StretchedWindow(MergedSlots(db, practitionerId)))
    ensures exists f :: f in CorrectedFreeRanges(db, practitionerId) && Within(a.timeRange, f)
  {
    var merged := MergedSlots(db, practitionerId);
    var occupied := SortAndMerge(CorrectedTaken(db, practitionerId, StretchedWindow(merged)));
    var free := CorrectedFreeRanges(db, practitionerId);
    ExtendedShape(merged);
    DifferenceShape(Extended(merged), occupied);
    SplitAllShape(free);
    var n := CorrectedNewAvailabilities(db, practitionerId);
    var i :| 0 <= i < |n| && n[i] == a;
    assert SplitAll(free)[i] in SplitAll(free);
    var f :| 0 <= f < |free| && Within(a.timeRange, free[f]);
    assert free[f] in free;
    var k :| 0 <= k < |merged| && Within(free[f], Extended(merged)[k]);
    ExtendedWithinWindow(merged, k);
  }

  /** A minute of a piece of the corrected run is in no range the corrected queries returned. */
  lemma CorrectedMinuteIsFree(db: Snapshot, practitionerId: int, a: AvailabilityRecord, t: int)
    requires MergedSlots(db, practitionerId) != []
    requires a in CorrectedNewAvailabilities(db, practitionerId) && Contains(a.timeRange, t)
    ensures !InUnion(CorrectedTaken(db, practitionerId, StretchedWindow(MergedSlots(db, practitionerId))), t)
  {
    var merged := MergedSlots(db, practitionerId);
    var occupied := SortAndMerge(CorrectedTaken(db, practitionerId, StretchedWindow(merged)));
    var free := CorrectedFreeRanges(db, practitionerId);
    CorrectedPiece(db, practitionerId, a);
    var f :| f in free && Within(a.timeRange, f);
    var x :| 0 <= x < |free| && free[x] == f;
    assert Contains(free[x], t);
    SeparatedIsOrdered(occupied);
    DifferenceMinutes(Extended(merged), occupied, t);
  }

  /** A piece of the corrected run overlaps no valid range in the practitioner's rows that overlaps the window. */
  lemma CorrectedAvoidsRange(db: Snapshot, practitionerId: int, a: AvailabilityRecord, y: TimeRange)
    requires MergedSlots(db, practitionerId) != []
    requires a in CorrectedNewAvailabilities(db, practitionerId)
    requires Valid(y)
    requires IsOverlap(y, StretchedWindow(MergedSlots(db, practitionerId))) ==>
               y in CorrectedTaken(db, practitionerId, StretchedWindow(MergedSlots(db, practitionerId)))
    ensures !IsOverlap(a.timeRange, y)
  {
    if IsOverlap(a.timeRange, y) {
      var w := StretchedWindow(MergedSlots(db, practitionerId));
      CorrectedPiece(db, practitionerId, a);
      var t := Max(a.timeRange.start, y.start);
      assert IsOverlap(y, w);
      var taken := CorrectedTaken(db, practitionerId, w);
      var x :| 0 <= x < |taken| && taken[x] == y;
      assert Contains(taken[x], t);
      CorrectedMinuteIsFree(db, practitionerId, a, t);
    }
  }

  /** With overlap queries, no generated availability overlaps a BOOKED appointment of the practitioner. */
  lemma CorrectedAvoidsBooked(db: Snapshot, practitionerId: int)
    requires WellFormed(db)
    requires MergedSlots(db, practitionerId) != []
    ensures forall a, b :: a in CorrectedNewAvailabilities(db, practitionerId) && b in db.appointments
                           && b.practitionerId == Some(practitionerId) && b.status == Booked
                           ==> !IsOverlap(a.timeRange, b.timeRange)
  {
    var w := StretchedWindow(MergedSlots(db, practitionerId));
    var booked := BookedRangesOverlapping(db.appointments, practitionerId, w);
    assert CorrectedTaken(db, practitionerId, w) == booked
           + AvailabilityRangesOverlapping(db.availabilities, practitionerId, w);
    forall a, b | a in CorrectedNewAvailabilities(db, practitionerId) && b in db.appointments
                  && b.practitionerId == Some(practitionerId) && b.status == Booked
      ensures !IsOverlap(a.timeRange, b.timeRange)
    {
      var k :| 0 <= k < |db.appointments| && db.appointments[k] == b;
      assert Valid(b.timeRange);
      assert IsOverlap(b.timeRange, w) ==> b.timeRange in booked;
      CorrectedAvoidsRange(db, practitionerId, a, b.timeRange);
    }
  }

  /** With overlap queries, no generated availability overlaps one the practitioner already has. */
  lemma CorrectedAvoidsExisting(db: Snapshot, practitionerId: int)
    requires WellFormed(db)
    requires MergedSlots(db, practitionerId) != []
    ensures forall a, b :: a in CorrectedNewAvailabilities(db, practitionerId) && b in db.availabilities
                           && b.practitionerId == Some(practitionerId)
                           ==> !IsOverlap(a.timeRange, b.timeRange)
  {
    var w := StretchedWindow(MergedSlots(db, practitionerId));
    var existing := AvailabilityRangesOverlapping(db.availabilities, practitionerId, w);
    assert CorrectedTaken(db, practitionerId, w)
           == BookedRangesOverlapping(db.appointments, practitionerId, w) + existing;
    forall a, b | a in CorrectedNewAvailabilities(db, practitionerId) && b in db.availabilities
                  && b.practitionerId == Some(practitionerId)
      ensures !IsOverlap(a.timeRange, b.timeRange)
    {
      var k :| 0 <= k < |db.availabilities| && db.availabilities[k] == b;
      assert Valid(b.timeRange);
      assert IsOverlap(b.timeRange, w) ==> b.timeRange in existing;
      CorrectedAvoidsRange(db, practitionerId, a, b.timeRange);
    }
  }

  /**
    * With overlap queries, no generated availability overlaps a BOOKED appointment of the
    * practitioner or an availability the practitioner already has, wherever those start.
    */
  lemma CorrectedAvoidsTakenTime(db: Snapshot, practitionerId: int)
    requires WellFormed(db)
    ensures forall a, b :: a in CorrectedNewAvailabilities(db, practitionerId) && b in db.appointments
                           && b.practitionerId == Some(practitionerId) && b.status == Booked
                           ==> !IsOverlap(a.timeRange, b.timeRange)
    ensures forall a, b :: a in CorrectedNewAvailabilities(db, practitionerId) && b in db.availabilities
                           && b.practitionerId == Some(practitionerId)
                           ==> !IsOverlap(a.timeRange, b.timeRange)
  {
    if MergedSlots(db, practitionerId) == [] {
      assert CorrectedFreeRanges(db, practitionerId) == [];
      assert CorrectedNewAvailabilities(db, practitionerId) == [];
    } else {
      CorrectedAvoidsBooked(db, practitionerId);
      CorrectedAvoidsExisting(db, practitionerId);
    }
  }
}
