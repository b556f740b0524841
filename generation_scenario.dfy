/**
  * A worked generation run, in minutes since midnight: windows 11:00-12:00 and 13:00-14:00 and a
  * BOOKED appointment 11:20-11:35 yield availabilities starting at 11:00, 11:35, 11:50, 13:00,
  * 13:15, 13:30 and 13:45. Each lemma computes one stage of the pipeline.
  */
module GenerationScenario {
  import opened Errors
  import opened TimeRanges
  import opened TimeRangeUtil
  import opened Statuses
  import opened TimeSlotEntity
  import opened AvailabilityEntity
  import opened AppointmentEntity
  import opened Repositories
  import opened AvailabilityService

  const Morning := TimeRange(660, 720)
  const Afternoon := TimeRange(780, 840)
  const BookedRange := TimeRange(680, 695)

  /** The tables before the run: practitioner 1 with two NEW windows and one BOOKED appointment. */
  function Tables(): Snapshot {
    Snapshot({1}, {657679},
             [TimeSlotRecord(Some(1), Morning, New), TimeSlotRecord(Some(1), Afternoon, New)],
             [],
             [NewAppointment(Some(657679), Some(1), BookedRange)])
  }

  /** Two separated ranges in order come out of sortAndMerge unchanged. */
  lemma MergeSeparatedPair(x: TimeRange, y: TimeRange)
    requires Valid(x) && Valid(y) && x.end < y.start
    ensures SortAndMerge([x, y]) == [x, y]
  {
    assert [x, y][1..] == [y] && [y][1..] == [];
    assert ValidOnly([y]) == [y];
    assert ValidOnly([x, y]) == [x, y];
    assert SortByStartEnd([y]) == [y];
    assert SortByStartEnd([x, y]) == Insert(x, [y]) == [x, y];
    assert [x, y][..1] == [x] && [x][..0] == [];
    assert Collect([x]) == [x];
  }

  lemma ScenarioMerged()
    ensures MergedSlots(Tables(), 1) == [Morning, Afternoon]
  {
    var slots := Tables().timeSlots;
    assert slots[1..] == [slots[1]] && slots[1..][1..] == [];
    assert UnplannedRanges(slots, 1) == [Morning, Afternoon];
    MergeSeparatedPair(Morning, Afternoon);
  }

  lemma ScenarioOccupied()
    ensures OccupiedTimeRanges(Tables(), 1, TimeRange(660, 840)) == [BookedRange]
  {
    var db := Tables();
    assert db.appointments[1..] == [];
    assert BookedRangesBetween(db.appointments, 1, 660, 840) == [BookedRange];
    assert AvailabilityRangesBetween(db.availabilities, 1, 660, 840) == [];
    assert [BookedRange] + [] == [BookedRange];
    SortAndMergeSingle(BookedRange);
  }

  lemma ExtendScenario()
    ensures Extended([Morning, Afternoon]) == [TimeRange(660, 734), TimeRange(780, 854)]
  {
    var merged := [Morning, Afternoon];
    assert Extension(merged, 0) == 14 && Extension(merged, 1) == 14;
  }

  lemma CutMorning()
    ensures CutFrom(660, 734, [BookedRange], 0) == [TimeRange(660, 680), TimeRange(695, 734)]
  {
    assert CutFrom(695, 734, [BookedRange], 1) == [TimeRange(695, 734)];
  }

  lemma CutAfternoon()
    ensures CutFrom(780, 854, [BookedRange], 0) == [TimeRange(780, 854)]
  {
    assert CutFrom(780, 854, [BookedRange], 1) == [TimeRange(780, 854)];
  }

  lemma SubtractScenario()
    ensures Difference([TimeRange(660, 734), TimeRange(780, 854)], [BookedRange])
            == [TimeRange(660, 680), TimeRange(695, 734), TimeRange(780, 854)]
  {
    var e := [TimeRange(660, 734), TimeRange(780, 854)];
    CutMorning();
    CutAfternoon();
    assert e[..1] == [e[0]] && e[..1][..0] == [];
    assert Difference(e[..1][..0], [BookedRange]) == [];
    assert Difference(e[..1], [BookedRange]) == [TimeRange(660, 680), TimeRange(695, 734)];
  }

  lemma ScenarioFree()
    ensures FreeRanges(Tables(), 1) == [TimeRange(660, 680), TimeRange(695, 734), TimeRange(780, 854)]
  {
    ScenarioMerged();
    ScenarioOccupied();
    ExtendScenario();
    SubtractScenario();
    assert Window([Morning, Afternoon]) == TimeRange(660, 840);
  }

  lemma SplitScenarioRanges()
    ensures SplitFrom(660, 680) == [TimeRange(660, 675)]
    ensures SplitFrom(695, 734) == [TimeRange(695, 710), TimeRange(710, 725)]
    ensures SplitFrom(780, 854) == [TimeRange(780, 795), TimeRange(795, 810), TimeRange(810, 825), TimeRange(825, 840)]
  {
    assert SplitFrom(675, 680) == [];
    assert SplitFrom(725, 734) == [];
    assert SplitFrom(710, 734) == [TimeRange(710, 725)];
    assert SplitFrom(840, 854) == [];
    assert SplitFrom(825, 854) == [TimeRange(825, 840)];
    assert SplitFrom(810, 854) == [TimeRange(810, 825), TimeRange(825, 840)];
    assert SplitFrom(795, 854) == [TimeRange(795, 810), TimeRange(810, 825), TimeRange(825, 840)];
  }

  lemma SplitAllScenario()
    ensures SplitAll([TimeRange(660, 680), TimeRange(695, 734), TimeRange(780, 854)])
            == [TimeRange(660, 675), TimeRange(695, 710), TimeRange(710, 725),
                TimeRange(780, 795), TimeRange(795, 810), TimeRange(810, 825), TimeRange(825, 840)]
  {
    SplitScenarioRanges();
    var free := [TimeRange(660, 680), TimeRange(695, 734), TimeRange(780, 854)];
    assert free[..2] == [free[0], free[1]] && free[..2][..1] == [free[0]] && free[..2][..1][..0] == [];
    assert SplitAll(free[..2][..1]) == [TimeRange(660, 675)];
    assert SplitAll(free[..2]) == [TimeRange(660, 675), TimeRange(695, 710), TimeRange(710, 725)];
  }

  /** The run creates seven FREE 15-minute availabilities for practitioner 1, in this order. */
  lemma GenerateScenario()
    ensures NewAvailabilities(Tables(), 1)
            == BuiltAvailabilities([TimeRange(660, 675), TimeRange(695, 710), TimeRange(710, 725),
                                    TimeRange(780, 795), TimeRange(795, 810), TimeRange(810, 825),
                                    TimeRange(825, 840)], 1)
  {
    ScenarioFree();
    SplitAllScenario();
  }
}
