/**
  * The TimeRange record: a half-open interval [start, end) of integer minutes.
  * The datatype admits any pair; `Make` is the record's validating constructor and
  * `Valid` the invariant every constructed record satisfies.
  */
module TimeRanges {
  import opened Errors

  datatype TimeRange = TimeRange(start: int, end: int)

  /** What the compact constructor enforces: start strictly before end. */
  predicate Valid(r: TimeRange) {
    r.start < r.end
  }

  /** The compact constructor: null bounds first, then the order of the bounds. */
  function Make(start: Option<int>, end: Option<int>): (r: Result<TimeRange>)
    ensures (start.None? || end.None?) <==> r == Failure(IllegalArgument("Dates cannot be null"))
    ensures (start.Some? && end.Some? && start.value >= end.value)
            <==> r == Failure(TimeRangeInvalid("startDate must be before endDate"))
    ensures r.Success? <==> start.Some? && end.Some? && start.value < end.value
    ensures r.Success? ==> r.value == TimeRange(start.value, end.value) && Valid(r.value)
  {
    if start.None? || end.None? then
      Failure(IllegalArgument("Dates cannot be null"))
    else if !(start.value < end.value) then
      Failure(TimeRangeInvalid("startDate must be before endDate"))
    else
      Success(TimeRange(start.value, end.value))
  }

  /** Minute t lies in r (start inclusive, end exclusive). */
  predicate Contains(r: TimeRange, t: int) {
    r.start <= t < r.end
  }

  /** Both comparisons strict: ranges that only touch do not overlap. */
  predicate IsOverlap(a: TimeRange, b: TimeRange) {
    a.start < b.end && b.start < a.end
  }

  /** Minute t is covered by some range of rs. */
  ghost predicate InUnion(rs: seq<TimeRange>, t: int) {
    exists i :: 0 <= i < |rs| && Contains(rs[i], t)
  }

  lemma IsOverlapSymmetric(a: TimeRange, b: TimeRange)
    ensures IsOverlap(a, b) <==> IsOverlap(b, a)
  {
  }

  lemma TouchingRangesDoNotOverlap(a: int, b: int, c: int)
    ensures !IsOverlap(TimeRange(a, b), TimeRange(b, c))
    ensures !IsOverlap(TimeRange(b, c), TimeRange(a, b))
  {
  }

  /** For valid ranges the strict test means exactly: some minute lies in both. */
  lemma IsOverlapIffCommonMinute(a: TimeRange, b: TimeRange)
    requires Valid(a) && Valid(b)
    ensures IsOverlap(a, b) <==> exists t :: Contains(a, t) && Contains(b, t)
  {
    if IsOverlap(a, b) {
      var t := if a.start < b.start then b.start else a.start;
      assert Contains(a, t) && Contains(b, t);
    }
  }

  /** A valid range overlaps itself and every range that contains it. */
  lemma IsOverlapContaining(a: TimeRange, b: TimeRange)
    requires Valid(a)
    requires b.start <= a.start && a.end <= b.end
    ensures IsOverlap(a, a) && IsOverlap(a, b) && IsOverlap(b, a)
  {
  }

  lemma InUnionConcat(a: seq<TimeRange>, b: seq<TimeRange>, t: int)
    ensures InUnion(a + b, t) <==> InUnion(a, t) || InUnion(b, t)
  {
    if InUnion(a + b, t) {
      var i :| 0 <= i < |a + b| && Contains((a + b)[i], t);
      if i >= |a| {
        assert Contains(b[i - |a|], t);
      }
    }
    if InUnion(b, t) {
      var i :| 0 <= i < |b| && Contains(b[i], t);
      assert Contains((a + b)[|a| + i], t);
    }
    if InUnion(a, t) {
      var i :| 0 <= i < |a| && Contains(a[i], t);
      assert Contains((a + b)[i], t);
    }
  }
}
