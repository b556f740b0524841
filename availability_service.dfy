/**
  * Availability generation: a practitioner's unplanned time slots are merged, each merged
  * range is stretched by up to 14 minutes, the time already taken is cut out, and what is
  * left is cut into back-to-back 15-minute availabilities.
  */
module AvailabilityService {
  import opened Errors
  import opened TimeRanges
  import opened TimeRangeUtil
  import opened Validator
  import opened Statuses
  import opened TimeSlotEntity
  import opened AvailabilityEntity
  import opened AppointmentEntity
  import opened Repositories

  /** Length of every generated availability, in minutes. */
  const AppointmentDuration := 15

  /** The furthest a merged slot is stretched past its end, in minutes: one minute short of a slot. */
  const MaxSlotExtension := 14

  function Min(a: int, b: int): (m: int)
    ensures m <= a && m <= b
    ensures m == a || m == b
  {
    if a < b then a else b
  }

  // ---------------------------------------------------------------------------
  // extendTimeSlots

  /** The minutes slot i is stretched by: 14, capped by the gap to the next slot when there is one. */
  function Extension(slots: seq<TimeRange>, i: nat): int
    requires i < |slots|
  {
    if i + 1 < |slots| then Min(MaxSlotExtension, slots[i + 1].start - slots[i].end) else MaxSlotExtension
  }

  /** Every slot with its end stretched by its extension. */
  function Extended(slots: seq<TimeRange>): seq<TimeRange>
  {
    seq(|slots|, i requires 0 <= i < |slots| => TimeRange(slots[i].start, slots[i].end + Extension(slots, i)))
  }

  /**
    * On merged slots (valid and separated by gaps) each slot keeps its start and gains between
    * 1 and 14 minutes, never reaching past the next slot's start; the last one gains exactly 14.
    * So the stretched slots are valid and still in order.
    */
  lemma ExtendedShape(slots: seq<TimeRange>)
    requires AllValid(slots) && Separated(slots)
    ensures var e := Extended(slots);
            |e| == |slots| && AllValid(e) && Ordered(e)
            && (forall i :: 0 <= i < |slots| ==>
                  e[i].start == slots[i].start && slots[i].end < e[i].end <= slots[i].end + MaxSlotExtension)
            && (forall i :: 0 <= i < |slots| - 1 ==> e[i].end <= slots[i + 1].start)
            && (|slots| > 0 ==> e[|slots| - 1].end == slots[|slots| - 1].end + MaxSlotExtension)
  {
    var e := Extended(slots);
    forall i, j | 0 <= i < j < |e| ensures e[i].end <= e[j].start {
      assert e[i].end <= slots[i + 1].start;
      if i + 1 < j {
        assert slots[i + 1].end < slots[j].start;
      }
    }
  }

  method ExtendTimeSlots(timeslots: seq<TimeRange>) returns (extended: seq<TimeRange>)
    ensures extended == Extended(timeslots)
  {
    extended := [];
    for i := 0 to |timeslots|
      invariant extended == Extended(timeslots)[..i]
    {
      var current := timeslots[i];
      var extendedMinutes := MaxSlotExtension;
      if i + 1 < |timeslots| {
        var nextSlot := timeslots[i + 1];
        extendedMinutes := Min(extendedMinutes, nextSlot.start - current.end);
      }
      extended := extended + [TimeRange(current.start, current.end + extendedMinutes)];
    }
  }

  // ---------------------------------------------------------------------------
  // splitSingleTimeRangeIntoAvailabilities and generateAvailabilities(List, Integer)

  /** The 15-minute pieces of [start, end), back to back from start; a shorter remainder is dropped. */
  function SplitFrom(start: int, end: int): seq<TimeRange>
    decreases end - start
  {
    if start + AppointmentDuration <= end then
      [TimeRange(start, start + AppointmentDuration)] + SplitFrom(start + AppointmentDuration, end)
    else []
  }

  /** The i-th 15-minute piece counted from start. */
  function Piece(start: int, i: int): TimeRange {
    TimeRange(start + AppointmentDuration * i, start + AppointmentDuration * i + AppointmentDuration)
  }

  /**
    * Piece i is [start + 15i, start + 15i + 15): the pieces are back to back from start,
    * they fit in [start, end), and the remainder is shorter than one piece.
    */
  lemma {:induction false} SplitFromShape(start: int, end: int)
    ensures var r := SplitFrom(start, end);
            (forall i :: 0 <= i < |r| ==> r[i] == Piece(start, i))
            && (|r| > 0 ==> start + AppointmentDuration * |r| <= end)
            && end < start + AppointmentDuration * |r| + AppointmentDuration
    decreases end - start
  {
    if start + AppointmentDuration <= end {
      SplitFromShape(start + AppointmentDuration, end);
    }
  }

  /** Every piece lasts 15 minutes and lies in [start, end), and the pieces are in order. */
  lemma SplitFromPieces(start: int, end: int)
    ensures var r := SplitFrom(start, end);
            AllValid(r) && Ordered(r)
            && forall p :: p in r ==> p.end == p.start + AppointmentDuration && Within(p, TimeRange(start, end))
  {
    SplitFromShape(start, end);
    var r := SplitFrom(start, end);
    forall i, j | 0 <= i < j < |r| ensures r[i].end <= r[j].start {
      assert AppointmentDuration * i + AppointmentDuration <= AppointmentDuration * j;
    }
    forall p | p in r ensures p.end == p.start + AppointmentDuration && Within(p, TimeRange(start, end)) {
      var i :| 0 <= i < |r| && r[i] == p;
      assert AppointmentDuration * i + AppointmentDuration <= AppointmentDuration * |r|;
    }
  }

  /** The flat list of pieces of every range, range after range. */
  function SplitAll(ranges: seq<TimeRange>): seq<TimeRange>
    decreases |ranges|
  {
    if ranges == [] then []
    else
      var last := ranges[|ranges| - 1];
      SplitAll(ranges[..|ranges| - 1]) + SplitFrom(last.start, last.end)
  }

  /** The rows the availability builder produces for these ranges: the practitioner's, FREE. */
  function BuiltAvailabilities(ranges: seq<TimeRange>, practitionerId: int): (r: seq<AvailabilityRecord>)
    ensures |r| == |ranges|
    ensures forall i :: 0 <= i < |r| ==>
              r[i].practitionerId == Some(practitionerId) && r[i].timeRange == ranges[i] && r[i].status == Free
  {
    seq(|ranges|, i requires 0 <= i < |ranges| => AvailabilityRecord(Some(practitionerId), ranges[i], Free))
  }

  lemma BuiltConcat(a: seq<TimeRange>, b: seq<TimeRange>, practitionerId: int)
    ensures BuiltAvailabilities(a + b, practitionerId)
            == BuiltAvailabilities(a, practitionerId) + BuiltAvailabilities(b, practitionerId)
  {
  }

  method SplitSingleTimeRangeIntoAvailabilities(timeRange: TimeRange, practitionerId: int)
    returns (availabilities: seq<Availability>)
    ensures AvailabilityRecords(availabilities)
            == BuiltAvailabilities(SplitFrom(timeRange.start, timeRange.end), practitionerId)
    ensures Distinct(availabilities)
    ensures forall a :: a in availabilities ==> fresh(a)
  {
    availabilities := [];
    var start := timeRange.start;
    while start + AppointmentDuration <= timeRange.end
      invariant start == timeRange.start + AppointmentDuration * |availabilities|
      invariant availabilities != [] ==> start <= timeRange.end
      invariant forall i :: 0 <= i < |availabilities| ==>
                  availabilities[i].Record() == AvailabilityRecord(Some(practitionerId), Piece(timeRange.start, i), Free)
      invariant Distinct(availabilities)
      invariant forall a :: a in availabilities ==> fresh(a)
      decreases timeRange.end - start
    {
      var end := start + AppointmentDuration;
      var availability := new Availability(Some(practitionerId), TimeRange(start, end));
      availabilities := availabilities + [availability];
      start := end;
    }
    SplitFromShape(timeRange.start, timeRange.end);
  }

  method GenerateFromRanges(timeRanges: seq<TimeRange>, practitionerId: int)
    returns (availabilities: seq<Availability>)
    ensures AvailabilityRecords(availabilities) == BuiltAvailabilities(SplitAll(timeRanges), practitionerId)
    ensures Distinct(availabilities)
    ensures forall a :: a in availabilities ==> fresh(a)
  {
    availabilities := [];
    for i := 0 to |timeRanges|
      invariant AvailabilityRecords(availabilities) == BuiltAvailabilities(SplitAll(timeRanges[..i]), practitionerId)
      invariant Distinct(availabilities)
      invariant forall a :: a in availabilities ==> fresh(a)
    {
      label BeforeSplit:
      var pieces := SplitSingleTimeRangeIntoAvailabilities(timeRanges[i], practitionerId);
      assert forall x, y :: 0 <= x < |availabilities| && 0 <= y < |pieces| ==> availabilities[x] != pieces[y] by {
        forall x, y | 0 <= x < |availabilities| && 0 <= y < |pieces| ensures availabilities[x] != pieces[y] {
          assert pieces[y] in pieces && old@BeforeSplit(allocated(availabilities[x]));
        }
      }
      assert SplitAll(timeRanges[..i + 1]) == SplitAll(timeRanges[..i]) + SplitFrom(timeRanges[i].start, timeRanges[i].end) by {
        assert timeRanges[..i + 1][..i] == timeRanges[..i];
      }
      BuiltConcat(SplitAll(timeRanges[..i]), SplitFrom(timeRanges[i].start, timeRanges[i].end), practitionerId);
      AvailabilityRecordsConcat(availabilities, pieces);
      DistinctConcat(availabilities, pieces);
      availabilities := availabilities + pieces;
    }
    assert timeRanges[..|timeRanges|] == timeRanges;
  }

  // ---------------------------------------------------------------------------
  // getOccupiedTimeRanges and generateAvailabilities(int)

  /** The practitioner's BOOKED appointments and existing availabilities starting in [range.start, range.end], merged. */
  function OccupiedTimeRanges(db: Snapshot, practitionerId: int, range: TimeRange): seq<TimeRange>
  {
    SortAndMerge(BookedRangesBetween(db.appointments, practitionerId, range.start, range.end)
                 + AvailabilityRangesBetween(db.availabilities, practitionerId, range.start, range.end))
  }

  /** The merged unplanned slots of the practitioner. */
  function MergedSlots(db: Snapshot, practitionerId: int): seq<TimeRange>
  {
    SortAndMerge(UnplannedRanges(db.timeSlots, practitionerId))
  }

  /** From the first merged start to the last merged end. */
  function Window(merged: seq<TimeRange>): TimeRange
    requires merged != []
  {
    TimeRange(merged[0].start, merged[|merged| - 1].end)
  }

  /** The stretched merged slots with the occupied time cut out. */
  function FreeRanges(db: Snapshot, practitionerId: int): seq<TimeRange>
  {
    var merged := MergedSlots(db, practitionerId);
    if merged == [] then []
    else Difference(Extended(merged), OccupiedTimeRanges(db, practitionerId, Window(merged)))
  }

  /** The availabilities one generation run creates. */
  function NewAvailabilities(db: Snapshot, practitionerId: int): seq<AvailabilityRecord>
  {
    BuiltAvailabilities(SplitAll(FreeRanges(db, practitionerId)), practitionerId)
  }

  /** The tables after one generation run: the new availabilities appended, the fetched slots PLANNED. */
  function Generate(db: Snapshot, practitionerId: int): Snapshot
  {
    db.(timeSlots := PlanSlots(db.timeSlots, practitionerId),
        availabilities := db.availabilities + NewAvailabilities(db, practitionerId))
  }

  /** With no NEW or MODIFIED slot for the practitioner, a run creates nothing and writes nothing. */
  lemma NothingToPlan(db: Snapshot, practitionerId: int)
    requires UnplannedRanges(db.timeSlots, practitionerId) == []
    ensures NewAvailabilities(db, practitionerId) == []
    ensures Generate(db, practitionerId) == db
  {
    assert SortAndMerge([]) == [] by { SortAndMergeEmpty(); }
    UnplannedRangesMembers(db.timeSlots, practitionerId);
    assert PlanSlots(db.timeSlots, practitionerId) == db.timeSlots;
  }

  /** In a well-formed store, some unplanned slot means some merged range. */
  lemma MergedNotEmpty(db: Snapshot, practitionerId: int)
    requires WellFormed(db)
    requires UnplannedRanges(db.timeSlots, practitionerId) != []
    ensures MergedSlots(db, practitionerId) != []
  {
    var ranges := UnplannedRanges(db.timeSlots, practitionerId);
    UnplannedRangesMembers(db.timeSlots, practitionerId);
    assert ranges[0] in ranges;
    var i :| 0 <= i < |db.timeSlots| && IsUnplannedOf(db.timeSlots[i], practitionerId)
             && db.timeSlots[i].timeRange == ranges[0];
    assert Valid(ranges[0]);
  }

  /** Every piece of SplitAll lasts 15 minutes and lies inside one of the ranges; on ordered ranges the pieces are in order. */
  lemma {:induction false} SplitAllShape(ranges: seq<TimeRange>)
    requires Ordered(ranges)
    ensures AllValid(SplitAll(ranges)) && Ordered(SplitAll(ranges))
    ensures forall p :: p in SplitAll(ranges) ==>
              p.end == p.start + AppointmentDuration && exists i :: 0 <= i < |ranges| && Within(p, ranges[i])
    decreases |ranges|
  {
    if ranges != [] {
      var n := |ranges|;
      var front, last := ranges[..n - 1], ranges[n - 1];
      SplitAllShape(front);
      SplitFromPieces(last.start, last.end);
      var a := SplitAll(front);
      var b := SplitFrom(last.start, last.end);
      var r := a + b;
      assert r == SplitAll(ranges);
      forall p | p in r
        ensures p.end == p.start + AppointmentDuration && exists i :: 0 <= i < n && Within(p, ranges[i])
      {
        if p in a {
          var i :| 0 <= i < n - 1 && Within(p, front[i]);
          assert Within(p, ranges[i]);
        } else {
          assert Within(p, ranges[n - 1]);
        }
      }
      forall i, j | 0 <= i < j < |r| ensures r[i].end <= r[j].start {
        if j < |a| {
          assert r[i] == a[i] && r[j] == a[j];
        } else if i >= |a| {
          assert r[i] == b[i - |a|] && r[j] == b[j - |a|];
        } else {
          assert r[i] in a && r[j] in b;
          var x :| 0 <= x < n - 1 && Within(r[i], front[x]);
          assert ranges[x].end <= ranges[n - 1].start;
        }
      }
    }
  }

  lemma SeparatedIsOrdered(rs: seq<TimeRange>)
    requires Separated(rs)
    ensures Ordered(rs)
  {
  }

  /** Where a generated piece can come from: inside one stretched merged slot. */
  lemma FreeRangesShape(db: Snapshot, practitionerId: int)
    requires MergedSlots(db, practitionerId) != []
    ensures var merged := MergedSlots(db, practitionerId);
            var free := FreeRanges(db, practitionerId);
            AllValid(free) && Ordered(free)
            && forall f :: f in free ==> exists k :: 0 <= k < |merged| && Within(f, Extended(merged)[k])
  {
    var merged := MergedSlots(db, practitionerId);
    ExtendedShape(merged);
    DifferenceShape(Extended(merged), OccupiedTimeRanges(db, practitionerId, Window(merged)));
  }

  /** Every generated availability starts inside the window [first merged start, last merged end). */
  lemma GeneratedStartsInWindow(db: Snapshot, practitionerId: int)
    requires MergedSlots(db, practitionerId) != []
    ensures var w := Window(MergedSlots(db, practitionerId));
            forall a :: a in NewAvailabilities(db, practitionerId) ==>
              w.start <= a.timeRange.start < w.end
  {
    var merged := MergedSlots(db, practitionerId);
    var w := Window(merged);
    var free := FreeRanges(db, practitionerId);
    var e := Extended(merged);
    FreeRangesShape(db, practitionerId);
    ExtendedShape(merged);
    SplitAllShape(free);
    var n := NewAvailabilities(db, practitionerId);
    forall a | a in n ensures w.start <= a.timeRange.start < w.end {
      var i :| 0 <= i < |n| && n[i] == a;
      var p := SplitAll(free)[i];
      assert p in SplitAll(free);
      var f :| 0 <= f < |free| && Within(p, free[f]);
      assert free[f] in free;
      var k :| 0 <= k < |merged| && Within(free[f], e[k]);
      assert merged[0].start <= merged[k].start;
      assert merged[k].end <= merged[|merged| - 1].end;
    }
  }

  /** The ranges the occupied-time queries return, before merging. */
  function TakenRanges(db: Snapshot, practitionerId: int, range: TimeRange): seq<TimeRange>
  {
    BookedRangesBetween(db.appointments, practitionerId, range.start, range.end)
    + AvailabilityRangesBetween(db.availabilities, practitionerId, range.start, range.end)
  }

  /** A generated availability is one 15-minute piece of one free range. */
  lemma GeneratedPiece(db: Snapshot, practitionerId: int, a: AvailabilityRecord)
    requires MergedSlots(db, practitionerId) != []
    requires a in NewAvailabilities(db, practitionerId)
    ensures a.timeRange.end == a.timeRange.start + AppointmentDuration
    ensures exists f :: f in FreeRanges(db, practitionerId) && Within(a.timeRange, f)
  {
    var free := FreeRanges(db, practitionerId);
    FreeRangesShape(db, practitionerId);
    SplitAllShape(free);
    var n := NewAvailabilities(db, practitionerId);
    var i :| 0 <= i < |n| && n[i] == a;
    assert SplitAll(free)[i] in SplitAll(free);
    var f :| 0 <= f < |free| && Within(a.timeRange, free[f]);
    assert free[f] in free;
  }

  /** A minute of a generated availability is in no range the occupied-time queries returned. */
  lemma GeneratedMinuteIsFree(db: Snapshot, practitionerId: int, a: AvailabilityRecord, t: int)
    requires MergedSlots(db, practitionerId) != []
    requires a in NewAvailabilities(db, practitionerId) && Contains(a.timeRange, t)
    ensures !InUnion(TakenRanges(db, practitionerId, Window(MergedSlots(db, practitionerId))), t)
  {
    var merged := MergedSlots(db, practitionerId);
    var occupied := OccupiedTimeRanges(db, practitionerId, Window(merged));
    GeneratedPiece(db, practitionerId, a);
    var f :| f in FreeRanges(db, practitionerId) && Within(a.timeRange, f);
    var x :| 0 <= x < |FreeRanges(db, practitionerId)| && FreeRanges(db, practitionerId)[x] == f;
    assert Contains(FreeRanges(db, practitionerId)[x], t);
    SeparatedIsOrdered(occupied);
    DifferenceMinutes(Extended(merged), occupied, t);
  }

  /** A generated availability overlaps no valid range the occupied-time queries returned. */
  lemma GeneratedAvoidsRange(db: Snapshot, practitionerId: int, a: AvailabilityRecord, y: TimeRange)
    requires MergedSlots(db, practitionerId) != []
    requires a in NewAvailabilities(db, practitionerId)
    requires Valid(y) && y in TakenRanges(db, practitionerId, Window(MergedSlots(db, practitionerId)))
    ensures !IsOverlap(a.timeRange, y)
  {
    if IsOverlap(a.timeRange, y) {
      GeneratedPiece(db, practitionerId, a);
      var t := Max(a.timeRange.start, y.start);
      var taken := TakenRanges(db, practitionerId, Window(MergedSlots(db, practitionerId)));
      var x :| 0 <= x < |taken| && taken[x] == y;
      assert Contains(taken[x], t);
      GeneratedMinuteIsFree(db, practitionerId, a, t);
    }
  }

  /**
    * No generated availability overlaps a BOOKED appointment of the practitioner, nor one of the
    * practitioner's existing availabilities, whose start lies in [first merged start, last merged end].
    */
  lemma GeneratedAvoidsTakenTime(db: Snapshot, practitionerId: int)
    requires WellFormed(db)
    requires MergedSlots(db, practitionerId) != []
    ensures var w := Window(MergedSlots(db, practitionerId));
            forall a, b :: a in NewAvailabilities(db, practitionerId) && b in db.appointments
                           && b.practitionerId == Some(practitionerId) && b.status == Booked
                           && w.start <= b.timeRange.start <= w.end
                           ==> !IsOverlap(a.timeRange, b.timeRange)
    ensures var w := Window(MergedSlots(db, practitionerId));
            forall a, b :: a in NewAvailabilities(db, practitionerId) && b in db.availabilities
                           && b.practitionerId == Some(practitionerId)
                           && w.start <= b.timeRange.start <= w.end
                           ==> !IsOverlap(a.timeRange, b.timeRange)
  {
    var w := Window(MergedSlots(db, practitionerId));
    var booked := BookedRangesBetween(db.appointments, practitionerId, w.start, w.end);
    var existing := AvailabilityRangesBetween(db.availabilities, practitionerId, w.start, w.end);
    assert TakenRanges(db, practitionerId, w) == booked + existing;
    var n := NewAvailabilities(db, practitionerId);
    forall a, b | a in n && b in db.appointments && b.practitionerId == Some(practitionerId) && b.status == Booked
                  && w.start <= b.timeRange.start <= w.end
      ensures !IsOverlap(a.timeRange, b.timeRange)
    {
      var k :| 0 <= k < |db.appointments| && db.appointments[k] == b;
      assert b.timeRange in booked;
      GeneratedAvoidsRange(db, practitionerId, a, b.timeRange);
    }
    forall a, b | a in n && b in db.availabilities && b.practitionerId == Some(practitionerId)
                  && w.start <= b.timeRange.start <= w.end
      ensures !IsOverlap(a.timeRange, b.timeRange)
    {
      var k :| 0 <= k < |db.availabilities| && db.availabilities[k] == b;
      assert b.timeRange in existing;
      GeneratedAvoidsRange(db, practitionerId, a, b.timeRange);
    }
  }

  /**
    * Every generated availability belongs to the practitioner, is FREE and lasts 15 minutes;
    * they come in ascending order without overlap; and there are some only if the practitioner
    * had an unplanned slot, whose id is then valid.
    */
  lemma GeneratedAvailabilitiesShape(db: Snapshot, practitionerId: int)
    requires WellFormed(db)
    ensures var n := NewAvailabilities(db, practitionerId);
            (forall a :: a in n ==>
               a.practitionerId == Some(practitionerId) && a.status == Free
               && a.timeRange.end == a.timeRange.start + AppointmentDuration)
            && (forall i, j :: 0 <= i < j < |n| ==> n[i].timeRange.end <= n[j].timeRange.start)
            && (n != [] ==> UnplannedRanges(db.timeSlots, practitionerId) != [] && practitionerId >= 1)
  {
    var n := NewAvailabilities(db, practitionerId);
    var merged := MergedSlots(db, practitionerId);
    if merged == [] {
      assert FreeRanges(db, practitionerId) == [];
      assert n == [];
    } else {
      var free := FreeRanges(db, practitionerId);
      FreeRangesShape(db, practitionerId);
      SplitAllShape(free);
      forall a | a in n ensures a.timeRange.end == a.timeRange.start + AppointmentDuration {
        var i :| 0 <= i < |n| && n[i] == a;
        assert SplitAll(free)[i] in SplitAll(free);
      }
      var ranges := UnplannedRanges(db.timeSlots, practitionerId);
      if ranges == [] {
        SortAndMergeEmpty();
        assert false;
      }
      UnplannedRangesMembers(db.timeSlots, practitionerId);
      assert ranges[0] in ranges;
      var k :| 0 <= k < |db.timeSlots| && IsUnplannedOf(db.timeSlots[k], practitionerId)
               && db.timeSlots[k].timeRange == ranges[0];
      assert IsValidId(db.timeSlots[k].practitionerId);
    }
  }

  /** A generated availability is not the same slot as an availability already stored. */
  lemma GeneratedNotOffered(db: Snapshot, practitionerId: int, a: AvailabilityRecord, b: AvailabilityRecord)
    requires WellFormed(db)
    requires a in NewAvailabilities(db, practitionerId) && b in db.availabilities
    ensures !SameSlot(b, a)
  {
    GeneratedAvailabilitiesShape(db, practitionerId);
    MergedNotEmpty(db, practitionerId);
    var w := Window(MergedSlots(db, practitionerId));
    GeneratedStartsInWindow(db, practitionerId);
    assert w.start <= a.timeRange.start < w.end;
    if b.practitionerId == Some(practitionerId) && w.start <= b.timeRange.start <= w.end {
      var k :| 0 <= k < |db.availabilities| && db.availabilities[k] == b;
      assert Valid(b.timeRange);
      assert b.timeRange in AvailabilityRangesBetween(db.availabilities, practitionerId, w.start, w.end);
      assert b.timeRange in TakenRanges(db, practitionerId, w);
      GeneratedAvoidsRange(db, practitionerId, a, b.timeRange);
      assert a.timeRange.end == a.timeRange.start + AppointmentDuration;
      assert IsOverlap(a.timeRange, a.timeRange);
    }
  }

  /** A generated availability never repeats a slot already offered, nor one generated in the same run. */
  lemma GeneratedNotOfferedTwice(db: Snapshot, practitionerId: int)
    requires WellFormed(db)
    ensures NoRepeatedSlot(db.availabilities + NewAvailabilities(db, practitionerId))
  {
    var n := NewAvailabilities(db, practitionerId);
    assert NoRepeatedSlot(n) by {
      GeneratedAvailabilitiesShape(db, practitionerId);
      forall i, j | 0 <= i < j < |n| ensures !SameSlot(n[i], n[j]) {
        assert n[i] in n;
      }
    }
    forall x, y | 0 <= x < |db.availabilities| && 0 <= y < |n|
      ensures !SameSlot(db.availabilities[x], n[y])
    {
      GeneratedNotOffered(db, practitionerId, n[y], db.availabilities[x]);
    }
    NoRepeatedSlotConcat(db.availabilities, n);
  }

  /** A run keeps every row well formed. */
  lemma GeneratePreservesWellFormed(db: Snapshot, practitionerId: int)
    requires WellFormed(db)
    ensures WellFormed(Generate(db, practitionerId))
  {
    var after := Generate(db, practitionerId);
    GeneratedNotOfferedTwice(db, practitionerId);
    GeneratedAvailabilitiesShape(db, practitionerId);
    var n := NewAvailabilities(db, practitionerId);
    forall i | 0 <= i < |after.availabilities|
      ensures IsValidId(after.availabilities[i].practitionerId) && Valid(after.availabilities[i].timeRange)
    {
      if i >= |db.availabilities| {
        assert after.availabilities[i] in n;
      }
    }
    assert forall i :: 0 <= i < |after.timeSlots| ==>
             after.timeSlots[i].practitionerId == db.timeSlots[i].practitionerId
             && after.timeSlots[i].timeRange == db.timeSlots[i].timeRange;
  }

  /** timeslots.forEach(TimeSlot::markAsPlanned) on slots none of which is PLANNED yet: no call throws. */
  method MarkAllAsPlanned(timeslots: seq<TimeSlot>)
    requires Distinct(timeslots)
    requires forall i :: 0 <= i < |timeslots| ==> timeslots[i].status != Planned
    modifies timeslots`status
    ensures forall t :: t in timeslots ==> t.status == Planned
  {
    for i := 0 to |timeslots|
      invariant forall k :: 0 <= k < |timeslots| ==> timeslots[k].status == if k < i then Planned else old(timeslots[k].status)
    {
      var outcome := timeslots[i].MarkAsPlanned();
      assert outcome == Pass;
    }
  }

  /**
    * The reads of generateAvailabilities(practitionerId) between the query and the split: merge the
    * fetched ranges, stretch them, and cut out the time taken inside the window.
    */
  method ComputeFreeRanges(db: Snapshot, practitionerId: int, ranges: seq<TimeRange>)
    returns (freeRanges: seq<TimeRange>)
    requires WellFormed(db)
    requires ranges == UnplannedRanges(db.timeSlots, practitionerId) && ranges != []
    ensures freeRanges == FreeRanges(db, practitionerId)
  {
    var mergedTimeSlots := SortAndMerge(ranges);
    assert mergedTimeSlots == MergedSlots(db, practitionerId) && mergedTimeSlots != [] by {
      MergedNotEmpty(db, practitionerId);
    }
    var range := TimeRange(mergedTimeSlots[0].start, mergedTimeSlots[|mergedTimeSlots| - 1].end);
    var extendedSlots := ExtendTimeSlots(mergedTimeSlots);
    assert AllValid(extendedSlots) && Ordered(extendedSlots) by {
      ExtendedShape(mergedTimeSlots);
    }
    var occupiedRanges := OccupiedTimeRanges(db, practitionerId, range);
    assert AllValid(occupiedRanges) && Ordered(occupiedRanges) by {
      SeparatedIsOrdered(occupiedRanges);
    }
    freeRanges := SubtractOverlapRanges(extendedSlots, occupiedRanges);
    assert FreeRanges(db, practitionerId) == Difference(extendedSlots, occupiedRanges);
  }

  /**
    * timeslots.forEach(TimeSlot::markAsPlanned) on the slots the query returned, then
    * timeSlotRepository.saveAll: the stored rows become PlanSlots of the old rows.
    */
  method PlanFetchedSlots(db: Store, practitionerId: int, timeslots: seq<TimeSlot>)
    requires Distinct(db.timeSlots)
    requires timeslots == UnplannedOf(db.timeSlots, practitionerId)
    modifies db.timeSlots`status
    ensures db.Contents() == old(db.Contents()).(timeSlots := PlanSlots(old(db.Contents()).timeSlots, practitionerId))
  {
    ghost var slotRows := TimeSlotRecords(db.timeSlots);
    ghost var availRows := AvailabilityRecords(db.availabilities);
    ghost var fetched := set k | 0 <= k < |db.timeSlots| && db.timeSlots[k] in timeslots;
    assert forall k :: 0 <= k < |db.timeSlots| ==> (k in fetched <==> IsUnplannedOf(slotRows[k], practitionerId)) by {
      UnplannedOfMembers(db.timeSlots, practitionerId);
    }
    MarkAllAsPlanned(timeslots);
    assert AvailabilityRecords(db.availabilities) == availRows;
    forall k | 0 <= k < |db.timeSlots|
      ensures db.timeSlots[k].Record() == PlanSlots(slotRows, practitionerId)[k]
    {
      var t := db.timeSlots[k];
      assert slotRows[k] == old(t.Record());
      if k in fetched {
        assert t in timeslots;
      }
    }
    assert TimeSlotRecords(db.timeSlots) == PlanSlots(slotRows, practitionerId);
  }

  /**
    * The part of generateAvailabilities(practitionerId) between the query and the first save:
    * the free ranges of the rows the query saw, split into new entities.
    */
  method CreateAvailabilities(rows: Snapshot, practitionerId: int, ranges: seq<TimeRange>)
    returns (availabilities: seq<Availability>)
    requires WellFormed(rows)
    requires ranges == UnplannedRanges(rows.timeSlots, practitionerId) && ranges != []
    ensures AvailabilityRecords(availabilities) == NewAvailabilities(rows, practitionerId)
    ensures Distinct(availabilities) && forall a :: a in availabilities ==> fresh(a)
  {
    var freeRanges := ComputeFreeRanges(rows, practitionerId, ranges);
    availabilities := GenerateFromRanges(freeRanges, practitionerId);
  }

  /**
    * The same part on the store itself: the rows the query saw are the stored rows, and creating
    * the entities changes nothing stored and allocates only entities the store does not hold.
    */
  method CreateAvailabilitiesFor(db: Store, rows: Snapshot, practitionerId: int, ranges: seq<TimeRange>)
    returns (availabilities: seq<Availability>)
    requires rows == db.Contents() && WellFormed(rows)
    requires ranges == UnplannedRanges(rows.timeSlots, practitionerId) && ranges != []
    ensures AvailabilityRecords(availabilities) == NewAvailabilities(rows, practitionerId)
    ensures forall x, y :: 0 <= x < |db.availabilities| && 0 <= y < |availabilities| ==>
              db.availabilities[x] != availabilities[y]
    ensures Distinct(availabilities) && forall a :: a in availabilities ==> fresh(a)
  {
    availabilities := CreateAvailabilities(rows, practitionerId, ranges);
    forall x, y | 0 <= x < |db.availabilities| && 0 <= y < |availabilities|
      ensures db.availabilities[x] != availabilities[y]
    {
      assert availabilities[y] in availabilities;
    }
  }

  /**
    * The writes of generateAvailabilities(practitionerId): availabilityRepository.saveAll on the new
    * entities, then markAsPlanned on every fetched slot and timeSlotRepository.saveAll.
    */
  method SaveGenerated(db: Store, practitionerId: int, timeslots: seq<TimeSlot>, availabilities: seq<Availability>)
    requires Distinct(db.timeSlots) && Distinct(db.availabilities) && Distinct(availabilities)
    requires timeslots == UnplannedOf(db.timeSlots, practitionerId)
    requires forall x, y :: 0 <= x < |db.availabilities| && 0 <= y < |availabilities| ==>
               db.availabilities[x] != availabilities[y]
    modifies db`availabilities, db.timeSlots`status
    ensures db.availabilities == old(db.availabilities) + availabilities && Distinct(db.availabilities)
    ensures db.timeSlots == old(db.timeSlots)
    ensures db.Contents() == old(db.Contents()).(
              timeSlots := PlanSlots(old(db.Contents()).timeSlots, practitionerId),
              availabilities := old(db.Contents()).availabilities + old(AvailabilityRecords(availabilities)))
    ensures AvailabilityRecords(availabilities) == old(AvailabilityRecords(availabilities))
  {
    ghost var before := db.Contents();
    ghost var added := AvailabilityRecords(availabilities);
    db.SaveAvailabilities(availabilities);
    ghost var saved := db.Contents();
    assert saved == before.(availabilities := before.availabilities + added);
    assert UnplannedOf(db.timeSlots, practitionerId) == timeslots;
    PlanFetchedSlots(db, practitionerId, timeslots);
    assert AvailabilityRecords(availabilities) == added;
    assert db.Contents() == saved.(timeSlots := PlanSlots(saved.timeSlots, practitionerId));
  }

  /**
    * generateAvailabilities(practitionerId): the run creates exactly NewAvailabilities, appends them,
    * and marks every fetched slot PLANNED; all writes come after all reads.
    */
  method GenerateAvailabilities(db: Store, practitionerId: int) returns (availabilities: seq<Availability>)
    requires db.Valid()
    modifies db, db.timeSlots`status
    ensures db.Valid()
    ensures db.Contents() == Generate(old(db.Contents()), practitionerId)
    ensures AvailabilityRecords(availabilities) == NewAvailabilities(old(db.Contents()), practitionerId)
    ensures db.availabilities == old(db.availabilities) + availabilities
    ensures db.timeSlots == old(db.timeSlots)
    ensures forall a :: a in availabilities ==> fresh(a)
  {
    var rows := db.Contents();
    var timeslots := UnplannedOf(db.timeSlots, practitionerId);
    var ranges := TimeRangesOf(timeslots);
    assert ranges == UnplannedRanges(rows.timeSlots, practitionerId) by {
      UnplannedOfRanges(db.timeSlots, practitionerId);
    }
    if |timeslots| == 0 {
      NothingToPlan(rows, practitionerId);
      return [];
    }
    availabilities := CreateAvailabilitiesFor(db, rows, practitionerId, ranges);
    assert db.Contents() == rows && UnplannedOf(db.timeSlots, practitionerId) == timeslots;
    ghost var added := AvailabilityRecords(availabilities);
    SaveGenerated(db, practitionerId, timeslots, availabilities);
    assert db.Contents() == Generate(rows, practitionerId);
    assert WellFormed(db.Contents()) by {
      GeneratePreservesWellFormed(rows, practitionerId);
    }
  }

  /** After a run no slot of the practitioner is NEW or MODIFIED, so a second run with no new slot creates and writes nothing. */
  lemma GenerateIsIdempotent(db: Snapshot, practitionerId: int)
    ensures UnplannedRanges(Generate(db, practitionerId).timeSlots, practitionerId) == []
    ensures NewAvailabilities(Generate(db, practitionerId), practitionerId) == []
    ensures Generate(Generate(db, practitionerId), practitionerId) == Generate(db, practitionerId)
  {
    var after := Generate(db, practitionerId);
    assert forall i :: 0 <= i < |after.timeSlots| ==> !IsUnplannedOf(after.timeSlots[i], practitionerId);
    UnplannedRangesMembers(after.timeSlots, practitionerId);
    NothingToPlan(after, practitionerId);
  }

  /**
    * findFreeAvailabilitiesByPractitionerId: stored entities whose rows are exactly the FREE rows of
    * the practitioner, in table order.
    */
  function FindFreeAvailabilitiesByPractitionerId(db: Store, practitionerId: int): (r: seq<Availability>)
    reads db, db.availabilities
    ensures forall i :: 0 <= i < |r| ==> r[i] in db.availabilities
    ensures AvailabilityRecords(r) == FreeAvailabilities(db.Contents().availabilities, practitionerId)
  {
    FreeEntities(db.availabilities, practitionerId)
  }
}
