/**
  * Interval algebra over lists of time ranges: sortAndMerge (filter, sort, fold)
  * and subtractOverlapRanges (a sweep with a forward-only skip index).
  */
module TimeRangeUtil {
  import opened TimeRanges

  /** The later of two instants; the first one when they are equal. */
  function Max(a: int, b: int): (m: int)
    ensures m >= a && m >= b
    ensures m == a || m == b
  {
    if a > b then a else b
  }

  // ---------------------------------------------------------------------------
  // Shapes of range lists

  predicate AllValid(rs: seq<TimeRange>) {
    forall i :: 0 <= i < |rs| ==> Valid(rs[i])
  }

  /** Ascending and pairwise separated by a gap: no overlap and no touching. */
  predicate Separated(rs: seq<TimeRange>) {
    forall i, j :: 0 <= i < j < |rs| ==> rs[i].end < rs[j].start
  }

  /** Ascending and pairwise non-overlapping; neighbours may touch. */
  predicate Ordered(rs: seq<TimeRange>) {
    forall i, j :: 0 <= i < j < |rs| ==> rs[i].end <= rs[j].start
  }

  /** The comparator of sortAndMerge: by start, then by end. */
  predicate Before(a: TimeRange, b: TimeRange) {
    a.start < b.start || (a.start == b.start && a.end <= b.end)
  }

  predicate SortedByStartEnd(rs: seq<TimeRange>) {
    forall i, j :: 0 <= i < j < |rs| ==> Before(rs[i], rs[j])
  }

  predicate StartsAscending(rs: seq<TimeRange>) {
    forall i, j :: 0 <= i < j < |rs| ==> rs[i].start <= rs[j].start
  }

  /** p lies inside r. */
  predicate Within(p: TimeRange, r: TimeRange) {
    r.start <= p.start && p.end <= r.end
  }

  // ---------------------------------------------------------------------------
  // sortAndMerge

  /** The filter step: keeps the ranges whose start is before their end, in order. */
  function ValidOnly(rs: seq<TimeRange>): (r: seq<TimeRange>)
    ensures AllValid(r)
    ensures forall x :: x in r <==> x in rs && Valid(x)
  {
    if rs == [] then []
    else if Valid(rs[0]) then [rs[0]] + ValidOnly(rs[1..])
    else ValidOnly(rs[1..])
  }

  /** Each range comes no later than its right neighbour in (start, end) order. */
  predicate AdjacentSorted(rs: seq<TimeRange>) {
    forall i :: 0 <= i < |rs| - 1 ==> Before(rs[i], rs[i + 1])
  }

  function Insert(x: TimeRange, s: seq<TimeRange>): (r: seq<TimeRange>)
    requires AdjacentSorted(s)
    ensures multiset(r) == multiset(s) + multiset{x}
    ensures AdjacentSorted(r)
    ensures r[0] == x || (|s| > 0 && r[0] == s[0])
  {
    if s == [] then [x]
    else if Before(x, s[0]) then [x] + s
    else
      assert s == [s[0]] + s[1..];
      var rest := Insert(x, s[1..]);
      assert Before(s[0], rest[0]) by {
        if |s| > 1 { assert Before(s[0], s[1]); }
      }
      AdjacentSortedCons(s[0], rest);
      [s[0]] + rest
  }

  /** Putting a range in front of a sorted list keeps it sorted when it comes no later than the head. */
  lemma AdjacentSortedCons(a: TimeRange, s: seq<TimeRange>)
    requires AdjacentSorted(s) && s != [] && Before(a, s[0])
    ensures AdjacentSorted([a] + s)
  {
    var r := [a] + s;
    forall i | 0 <= i < |r| - 1 ensures Before(r[i], r[i + 1]) {
      if i > 0 {
        assert r[i] == s[i - 1] && r[i + 1] == s[i];
      }
    }
  }

  /** The sort step: a permutation of the input, ordered by (start, end). */
  function SortByStartEnd(s: seq<TimeRange>): (r: seq<TimeRange>)
    ensures multiset(r) == multiset(s)
    ensures SortedByStartEnd(r)
  {
    if s == [] then []
    else
      assert s == [s[0]] + s[1..];
      var r := Insert(s[0], SortByStartEnd(s[1..]));
      AdjacentToPairwise(r);
      r
  }

  /** Before is transitive, so sorting neighbours sorts every pair. */
  lemma {:induction false} AdjacentToPairwise(rs: seq<TimeRange>)
    requires AdjacentSorted(rs)
    ensures SortedByStartEnd(rs)
    decreases |rs|
  {
    if |rs| > 1 {
      AdjacentToPairwise(rs[1..]);
      forall j | 1 <= j < |rs| ensures Before(rs[0], rs[j]) {
        assert Before(rs[1..][0], rs[1..][j - 1]) || j == 1;
      }
      forall i, j | 0 <= i < j < |rs| ensures Before(rs[i], rs[j]) {
        if i > 0 {
          assert Before(rs[1..][i - 1], rs[1..][j - 1]);
        }
      }
    }
  }

  /**
    * The collector's accumulator: append the current range when the last one ends
    * strictly before it starts, otherwise widen the last one to cover it.
    */
  function Accumulate(list: seq<TimeRange>, current: TimeRange): seq<TimeRange> {
    if list == [] then [current]
    else
      var last := list[|list| - 1];
      if last.end < current.start then list + [current]
      else list[..|list| - 1] + [TimeRange(last.start, Max(current.end, last.end))]
  }

  /** The collect step: a left fold of Accumulate over the list, starting from the empty list. */
  function Collect(rs: seq<TimeRange>): seq<TimeRange> {
    if rs == [] then [] else Accumulate(Collect(rs[..|rs| - 1]), rs[|rs| - 1])
  }

  function SortAndMerge(rs: seq<TimeRange>): (r: seq<TimeRange>)
    ensures AllValid(r) && Separated(r)
    ensures forall t :: InUnion(r, t) <==> InUnion(rs, t)
    ensures |r| == 0 <==> forall i :: 0 <= i < |rs| ==> !Valid(rs[i])
  {
    var valid := ValidOnly(rs);
    var sorted := SortByStartEnd(valid);
    SortedStartsAscending(sorted);
    forall i | 0 <= i < |sorted| ensures Valid(sorted[i]) {
      assert sorted[i] in multiset(valid);
    }
    CollectShape(sorted);
    forall t ensures InUnion(Collect(sorted), t) <==> InUnion(rs, t) {
      CollectMinutes(sorted, t);
      InUnionPermutation(sorted, valid, t);
      InUnionValidOnly(rs, t);
    }
    assert |sorted| == 0 <==> forall i :: 0 <= i < |rs| ==> !Valid(rs[i]) by {
      if |sorted| == 0 {
        assert |valid| == 0;
        forall i | 0 <= i < |rs| ensures !Valid(rs[i]) { assert rs[i] in rs; }
      } else {
        assert sorted[0] in multiset(valid);
        assert sorted[0] in valid;
      }
    }
    Collect(sorted)
  }

  lemma SortedStartsAscending(rs: seq<TimeRange>)
    requires SortedByStartEnd(rs)
    ensures StartsAscending(rs)
  {
  }

  /** Ranges that are not valid contain no minute, so filtering them out keeps the union. */
  lemma InUnionValidOnly(rs: seq<TimeRange>, t: int)
    ensures InUnion(ValidOnly(rs), t) <==> InUnion(rs, t)
  {
    var v := ValidOnly(rs);
    if InUnion(rs, t) {
      var i :| 0 <= i < |rs| && Contains(rs[i], t);
      assert rs[i] in v;
      var k :| 0 <= k < |v| && v[k] == rs[i];
      assert Contains(v[k], t);
    }
    if InUnion(v, t) {
      var k :| 0 <= k < |v| && Contains(v[k], t);
      assert v[k] in rs;
      var i :| 0 <= i < |rs| && rs[i] == v[k];
      assert Contains(rs[i], t);
    }
  }

  lemma InUnionPermutation(a: seq<TimeRange>, b: seq<TimeRange>, t: int)
    requires multiset(a) == multiset(b)
    ensures InUnion(a, t) <==> InUnion(b, t)
  {
    if InUnion(a, t) {
      var i :| 0 <= i < |a| && Contains(a[i], t);
      assert a[i] in multiset(b);
      var k :| 0 <= k < |b| && b[k] == a[i];
      assert Contains(b[k], t);
    }
    if InUnion(b, t) {
      var k :| 0 <= k < |b| && Contains(b[k], t);
      assert b[k] in multiset(a);
      var i :| 0 <= i < |a| && a[i] == b[k];
      assert Contains(a[i], t);
    }
  }

  lemma InUnionSingle(r: TimeRange, t: int)
    ensures InUnion([r], t) <==> Contains(r, t)
  {
    if Contains(r, t) {
      assert Contains([r][0], t);
    }
  }

  /** The fold's loop invariant: valid, separated output whose last range starts no later than the next input. */
  predicate FoldState(acc: seq<TimeRange>, next: TimeRange) {
    AllValid(acc) && Separated(acc) && (acc != [] ==> acc[|acc| - 1].start <= next.start)
  }

  /** One accumulator step keeps the output valid and separated. */
  lemma AccumulateShape(acc: seq<TimeRange>, c: TimeRange)
    requires FoldState(acc, c) && Valid(c)
    ensures AllValid(Accumulate(acc, c)) && Separated(Accumulate(acc, c))
    ensures |Accumulate(acc, c)| > 0
    ensures Accumulate(acc, c)[|Accumulate(acc, c)| - 1].start <= c.start
  {
    var r := Accumulate(acc, c);
    if acc != [] {
      var n := |acc|;
      var last := acc[n - 1];
      if last.end < c.start {
        assert r == acc + [c];
        forall i, j | 0 <= i < j < |r| ensures r[i].end < r[j].start {
          if j == n && i < n - 1 {
            assert acc[i].end < acc[n - 1].start;
          }
        }
      } else {
        var merged := TimeRange(last.start, Max(c.end, last.end));
        assert r == acc[..n - 1] + [merged];
        forall i, j | 0 <= i < j < |r| ensures r[i].end < r[j].start {
          assert acc[i].end < acc[j].start;
        }
      }
    }
  }

  /** One accumulator step adds exactly the minutes of the current range to the union. */
  lemma AccumulateMinutes(acc: seq<TimeRange>, c: TimeRange, t: int)
    requires FoldState(acc, c) && Valid(c)
    ensures InUnion(Accumulate(acc, c), t) <==> InUnion(acc, t) || Contains(c, t)
  {
    var r := Accumulate(acc, c);
    if acc == [] {
      InUnionSingle(c, t);
    } else {
      var n := |acc|;
      var last := acc[n - 1];
      if last.end < c.start {
        InUnionConcat(acc, [c], t);
        InUnionSingle(c, t);
      } else {
        var merged := TimeRange(last.start, Max(c.end, last.end));
        var front := acc[..n - 1];
        assert acc == front + [last];
        InUnionConcat(front, [merged], t);
        InUnionConcat(front, [last], t);
        InUnionSingle(merged, t);
        InUnionSingle(last, t);
      }
    }
  }

  /**
    * Folding valid ranges sorted by start yields valid, separated ranges; the last
    * output range starts no later than the last input range.
    */
  lemma {:induction false} CollectShape(s: seq<TimeRange>)
    requires AllValid(s) && StartsAscending(s)
    ensures AllValid(Collect(s)) && Separated(Collect(s))
    ensures |s| > 0 ==> |Collect(s)| > 0 && Collect(s)[|Collect(s)| - 1].start <= s[|s| - 1].start
    decreases |s|
  {
    if s != [] {
      var p, c := s[..|s| - 1], s[|s| - 1];
      CollectShape(p);
      var acc := Collect(p);
      assert acc != [] ==> acc[|acc| - 1].start <= c.start by {
        if acc != [] {
          assert p[|p| - 1].start <= c.start;
        }
      }
      AccumulateShape(acc, c);
    }
  }

  /** The fold of all but the last range is in the fold's loop state for that last range. */
  lemma FoldPrefix(s: seq<TimeRange>)
    requires AllValid(s) && StartsAscending(s) && s != []
    ensures AllValid(s[..|s| - 1]) && StartsAscending(s[..|s| - 1])
    ensures FoldState(Collect(s[..|s| - 1]), s[|s| - 1]) && Valid(s[|s| - 1])
  {
    var p, c := s[..|s| - 1], s[|s| - 1];
    CollectShape(p);
    var acc := Collect(p);
    if acc != [] {
      assert p[|p| - 1].start <= c.start;
    }
  }

  /** Folding valid ranges sorted by start keeps the union of their minutes. */
  lemma {:induction false} CollectMinutes(s: seq<TimeRange>, t: int)
    requires AllValid(s) && StartsAscending(s)
    ensures InUnion(Collect(s), t) <==> InUnion(s, t)
    decreases |s|
  {
    if s != [] {
      var p, c := s[..|s| - 1], s[|s| - 1];
      FoldPrefix(s);
      CollectMinutes(p, t);
      AccumulateMinutes(Collect(p), c, t);
      assert s == p + [c];
      InUnionConcat(p, [c], t);
      InUnionSingle(c, t);
    }
  }

  /** Empty input gives empty output. */
  lemma SortAndMergeEmpty()
    ensures SortAndMerge([]) == []
  {
  }

  /** Unsorted disjoint ranges come back sorted and untouched (10-11, 12-13, 14-15 o'clock in minutes). */
  lemma SortAndMergeSortsDisjoint()
    ensures SortAndMerge([TimeRange(840, 900), TimeRange(600, 660), TimeRange(720, 780)])
            == [TimeRange(600, 660), TimeRange(720, 780), TimeRange(840, 900)]
  {
    var a, b, c := TimeRange(840, 900), TimeRange(600, 660), TimeRange(720, 780);
    ThreeValid(a, b, c);
    SortThree(a, b, c);
    CollectThree(b, c, a);
  }

  lemma ThreeValid(a: TimeRange, b: TimeRange, c: TimeRange)
    requires Valid(a) && Valid(b) && Valid(c)
    ensures ValidOnly([a, b, c]) == [a, b, c]
  {
    assert [a, b, c][1..] == [b, c] && [b, c][1..] == [c] && [c][1..] == [];
    assert ValidOnly([c]) == [c];
    assert ValidOnly([b, c]) == [b, c];
  }

  lemma SortThree(a: TimeRange, b: TimeRange, c: TimeRange)
    requires Before(b, c) && !Before(a, b) && !Before(a, c)
    ensures SortByStartEnd([a, b, c]) == [b, c, a]
  {
    SortTwo(b, c);
    SortConsThree(a, b, c);
    InsertThird(a, b, c);
  }

  lemma SortConsThree(a: TimeRange, b: TimeRange, c: TimeRange)
    ensures SortByStartEnd([a, b, c]) == Insert(a, SortByStartEnd([b, c]))
  {
    assert [a, b, c][1..] == [b, c];
  }

  lemma InsertThird(a: TimeRange, b: TimeRange, c: TimeRange)
    requires Before(b, c) && !Before(a, b) && !Before(a, c)
    ensures Insert(a, [b, c]) == [b, c, a]
  {
    assert [b, c][1..] == [c];
    InsertBehind(a, c);
  }

  lemma SortTwo(b: TimeRange, c: TimeRange)
    requires Before(b, c)
    ensures SortByStartEnd([b, c]) == [b, c]
  {
    assert [b, c][1..] == [c] && [c][1..] == [];
    assert SortByStartEnd([c]) == [c];
  }

  lemma InsertBehind(a: TimeRange, c: TimeRange)
    requires !Before(a, c)
    ensures Insert(a, [c]) == [c, a]
  {
    assert [c][1..] == [];
  }

  lemma CollectThree(x: TimeRange, y: TimeRange, z: TimeRange)
    requires x.end < y.start && y.end < z.start
    ensures Collect([x, y, z]) == [x, y, z]
  {
    assert [x, y, z][..2] == [x, y] && [x, y][..1] == [x] && [x][..0] == [];
    assert Collect([x]) == [x];
    assert Collect([x, y]) == Accumulate([x], y) == [x, y];
  }

  /** Touching ranges [a,b) and [b,c) merge into [a,c). */
  lemma SortAndMergeTouching(a: int, b: int, c: int)
    requires a < b < c
    ensures SortAndMerge([TimeRange(a, b), TimeRange(b, c)]) == [TimeRange(a, c)]
  {
    var x, y := TimeRange(a, b), TimeRange(b, c);
    MergeTwo(x, y);
  }

  /** Overlapping ranges [a,b) and [c,d) with a < c < b merge into [a, max(b,d)), whichever order they come in. */
  lemma SortAndMergeOverlapping(a: int, b: int, c: int, d: int)
    requires a < c < b && c < d
    ensures SortAndMerge([TimeRange(a, b), TimeRange(c, d)]) == [TimeRange(a, Max(b, d))]
    ensures SortAndMerge([TimeRange(c, d), TimeRange(a, b)]) == [TimeRange(a, Max(b, d))]
  {
    var x, y := TimeRange(a, b), TimeRange(c, d);
    MergeTwo(x, y);
    MergeTwo(y, x);
  }

  /** Two valid ranges where the earlier one reaches the later one's start merge into one. */
  lemma MergeTwo(x: TimeRange, y: TimeRange)
    requires Valid(x) && Valid(y)
    ensures Before(x, y) && y.start <= x.end ==>
              SortAndMerge([x, y]) == [TimeRange(x.start, Max(y.end, x.end))]
    ensures Before(y, x) && !Before(x, y) && x.start <= y.end ==>
              SortAndMerge([x, y]) == [TimeRange(y.start, Max(x.end, y.end))]
  {
    SortAndMergePair(x, y);
  }

  /** sortAndMerge of two valid ranges folds the later one into the earlier one. */
  lemma SortAndMergePair(x: TimeRange, y: TimeRange)
    requires Valid(x) && Valid(y)
    ensures SortAndMerge([x, y]) == if Before(x, y) then Accumulate([x], y) else Accumulate([y], x)
  {
    ValidOnlyPair(x, y);
    SortPair(x, y);
    if Before(x, y) {
      CollectPair(x, y);
    } else {
      CollectPair(y, x);
    }
  }

  /** sortAndMerge of one valid range is that range. */
  lemma SortAndMergeSingle(x: TimeRange)
    requires Valid(x)
    ensures SortAndMerge([x]) == [x]
  {
    assert [x][1..] == [];
    assert ValidOnly([x]) == [x];
    assert SortByStartEnd([x]) == Insert(x, []) == [x];
    assert [x][..0] == [];
    assert Collect([x]) == Accumulate([], x);
  }

  lemma ValidOnlyPair(x: TimeRange, y: TimeRange)
    requires Valid(x) && Valid(y)
    ensures ValidOnly([x, y]) == [x, y]
  {
    assert [x, y][1..] == [y] && [y][1..] == [];
    assert ValidOnly([y]) == [y];
  }

  lemma SortPair(x: TimeRange, y: TimeRange)
    ensures SortByStartEnd([x, y]) == if Before(x, y) then [x, y] else [y, x]
  {
    assert [x, y][1..] == [y] && [y][1..] == [];
    assert SortByStartEnd([y]) == Insert(y, []) == [y];
    if !Before(x, y) {
      assert [y][1..] == [];
      assert Insert(x, [y]) == [y] + Insert(x, []);
    }
  }

  lemma CollectPair(x: TimeRange, y: TimeRange)
    ensures Collect([x, y]) == Accumulate([x], y)
  {
    assert [x, y][..1] == [x] && [x][..0] == [];
    assert Collect([x]) == Accumulate([], x) == [x];
  }

  // ---------------------------------------------------------------------------
  // subtractOverlapRanges

  /**
    * The pieces of [start, end) left when the ranges sub[k..] are cut out of it,
    * sweeping the cursor start forward past each range that begins before end.
    */
  function CutFrom(start: int, end: int, sub: seq<TimeRange>, k: nat): seq<TimeRange>
    requires k <= |sub|
    decreases |sub| - k
  {
    if k < |sub| && sub[k].start < end then
      (if start < sub[k].start then [TimeRange(start, sub[k].start)] else [])
      + CutFrom(Max(start, sub[k].end), end, sub, k + 1)
    else if start < end then [TimeRange(start, end)]
    else []
  }

  /** Reference definition of the subtraction: every base range is cut against the whole of sub. */
  function Difference(base: seq<TimeRange>, sub: seq<TimeRange>): seq<TimeRange>
    decreases |base|
  {
    if base == [] then []
    else
      var last := base[|base| - 1];
      Difference(base[..|base| - 1], sub) + CutFrom(last.start, last.end, sub, 0)
  }

  /** A minute survives the cut iff it lies in [start, end) and in none of sub[k..]. */
  lemma {:induction false} CutFromMinutes(start: int, end: int, sub: seq<TimeRange>, k: nat, t: int)
    requires AllValid(sub) && Ordered(sub)
    requires k <= |sub|
    ensures InUnion(CutFrom(start, end, sub, k), t)
            <==> start <= t < end && forall x :: k <= x < |sub| ==> !Contains(sub[x], t)
    decreases |sub| - k
  {
    var r := CutFrom(start, end, sub, k);
    if k < |sub| && sub[k].start < end {
      var o := sub[k];
      var piece := if start < o.start then [TimeRange(start, o.start)] else [];
      var rest := CutFrom(Max(start, o.end), end, sub, k + 1);
      assert r == piece + rest;
      CutFromMinutes(Max(start, o.end), end, sub, k + 1, t);
      InUnionConcat(piece, rest, t);
      if start < o.start {
        InUnionSingle(TimeRange(start, o.start), t);
      }
      if start <= t < o.start {
        forall x | k <= x < |sub| ensures !Contains(sub[x], t) {
          if x > k {
            assert o.end <= sub[x].start;
          }
        }
      }
    } else {
      if start < end {
        InUnionSingle(TimeRange(start, end), t);
      }
      if start <= t < end {
        forall x | k <= x < |sub| ensures !Contains(sub[x], t) {
          if x > k {
            assert sub[k].end <= sub[x].start;
          }
        }
      }
    }
  }

  /** Every piece is a valid part of [start, end), and the pieces are separated from each other. */
  lemma {:induction false} CutFromShape(start: int, end: int, sub: seq<TimeRange>, k: nat)
    requires AllValid(sub)
    requires k <= |sub|
    ensures forall p :: p in CutFrom(start, end, sub, k) ==> Valid(p) && start <= p.start && p.end <= end
    ensures Separated(CutFrom(start, end, sub, k))
    decreases |sub| - k
  {
    if k < |sub| && sub[k].start < end {
      var o := sub[k];
      CutFromShape(Max(start, o.end), end, sub, k + 1);
      var rest := CutFrom(Max(start, o.end), end, sub, k + 1);
      if start < o.start {
        var r := [TimeRange(start, o.start)] + rest;
        assert r == CutFrom(start, end, sub, k);
        forall i, j | 0 <= i < j < |r| ensures r[i].end < r[j].start {
          if i == 0 {
            assert r[j] in rest;
          } else {
            assert r[i] == rest[i - 1] && r[j] == rest[j - 1];
          }
        }
      }
    }
  }

  /** A range of sub that ends before the cursor removes nothing. */
  lemma CutFromSkipOne(start: int, end: int, sub: seq<TimeRange>, x: nat)
    requires x < |sub| && Valid(sub[x])
    requires sub[x].end < start < end
    ensures CutFrom(start, end, sub, x) == CutFrom(start, end, sub, x + 1)
  {
  }

  lemma {:induction false} CutFromSkip(start: int, end: int, sub: seq<TimeRange>, j: nat)
    requires AllValid(sub) && j <= |sub| && start < end
    requires forall x :: 0 <= x < j ==> sub[x].end < start
    ensures CutFrom(start, end, sub, 0) == CutFrom(start, end, sub, j)
    decreases j
  {
    if j > 0 {
      CutFromSkip(start, end, sub, j - 1);
      CutFromSkipOne(start, end, sub, j - 1);
    }
  }

  /** Pointwise, Difference is set difference. */
  lemma {:induction false} DifferenceMinutes(base: seq<TimeRange>, sub: seq<TimeRange>, t: int)
    requires AllValid(sub) && Ordered(sub)
    ensures InUnion(Difference(base, sub), t) <==> InUnion(base, t) && !InUnion(sub, t)
    decreases |base|
  {
    if base != [] {
      var front, last := base[..|base| - 1], base[|base| - 1];
      assert base == front + [last];
      DifferenceMinutes(front, sub, t);
      CutFromMinutes(last.start, last.end, sub, 0, t);
      InUnionConcat(Difference(front, sub), CutFrom(last.start, last.end, sub, 0), t);
      InUnionConcat(front, [last], t);
      InUnionSingle(last, t);
      if InUnion(sub, t) {
        var x :| 0 <= x < |sub| && Contains(sub[x], t);
      }
    }
  }

  /** Every piece of Difference is valid and lies inside one base range; the pieces are in ascending order. */
  lemma {:induction false} DifferenceShape(base: seq<TimeRange>, sub: seq<TimeRange>)
    requires Ordered(base) && AllValid(sub)
    ensures AllValid(Difference(base, sub)) && Ordered(Difference(base, sub))
    ensures forall p :: p in Difference(base, sub) ==>
              exists i :: 0 <= i < |base| && Within(p, base[i])
    decreases |base|
  {
    if base != [] {
      var n := |base|;
      var front, last := base[..n - 1], base[n - 1];
      DifferenceShape(front, sub);
      CutFromShape(last.start, last.end, sub, 0);
      var a := Difference(front, sub);
      var b := CutFrom(last.start, last.end, sub, 0);
      var r := a + b;
      assert r == Difference(base, sub);
      forall p | p in r ensures exists i :: 0 <= i < n && Within(p, base[i]) {
        if p in a {
          var i :| 0 <= i < n - 1 && Within(p, front[i]);
          assert Within(p, base[i]);
        } else {
          assert Within(p, base[n - 1]);
        }
      }
      forall i, j | 0 <= i < j < |r| ensures r[i].end <= r[j].start {
        if j < |a| {
          assert r[i] == a[i] && r[j] == a[j];
        } else if i >= |a| {
          assert r[i] == b[i - |a|] && r[j] == b[j - |a|];
        } else {
          assert r[i] in a && r[j] in b;
          var x :| 0 <= x < n - 1 && Within(r[i], front[x]);
          assert base[x].end <= base[n - 1].start;
        }
      }
    }
  }

  /** Difference over one more base range appends that range's pieces. */
  lemma DifferenceSnoc(base: seq<TimeRange>, i: nat, sub: seq<TimeRange>)
    requires i < |base|
    ensures Difference(base[..i + 1], sub) == Difference(base[..i], sub) + CutFrom(base[i].start, base[i].end, sub, 0)
  {
    assert base[..i + 1][..i] == base[..i];
  }

  /** Removing nothing from valid ranges gives them back. */
  lemma {:induction false} DifferenceOfNothing(base: seq<TimeRange>)
    requires AllValid(base)
    ensures Difference(base, []) == base
    decreases |base|
  {
    if base != [] {
      DifferenceOfNothing(base[..|base| - 1]);
      assert base == base[..|base| - 1] + [base[|base| - 1]];
    }
  }

  /**
    * The inner loop of subtract and the tail after it: the parts of [start0, end) left between the
    * subtracted ranges from index j on, appended to done. The cursor start never moves back, and
    * after each subtracted range it is at or past that range's end.
    */
  method CutCurrent(done: seq<TimeRange>, start0: int, end: int, toSubtract: seq<TimeRange>, j: nat)
    returns (result: seq<TimeRange>)
    requires j <= |toSubtract|
    ensures result == done + CutFrom(start0, end, toSubtract, j)
  {
    result := done;
    var start := start0;
    var k := j;
    while k < |toSubtract| && toSubtract[k].start < end
      invariant j <= k <= |toSubtract|
      invariant start0 <= start
      invariant k > j ==> toSubtract[k - 1].end <= start
      invariant result + CutFrom(start, end, toSubtract, k) == done + CutFrom(start0, end, toSubtract, j)
    {
      var overlap := toSubtract[k];
      ghost var piece := if start < overlap.start then [TimeRange(start, overlap.start)] else [];
      ghost var rest := CutFrom(Max(start, overlap.end), end, toSubtract, k + 1);
      assert CutFrom(start, end, toSubtract, k) == piece + rest;
      ghost var before := result;
      if start < overlap.start {
        result := result + [TimeRange(start, overlap.start)];
      }
      assert result == before + piece;
      start := Max(start, overlap.end);
      k := k + 1;
      assert result + CutFrom(start, end, toSubtract, k) == before + (piece + rest) by {
        assert (before + piece) + rest == before + (piece + rest);
      }
    }
    if start < end {
      result := result + [TimeRange(start, end)];
    }
  }

  /**
    * Removes the sorted, non-overlapping toSubtract from the sorted, non-overlapping baseRanges.
    * The skip index j only moves forward over the base ranges, and within one base range
    * the cursor start never moves back.
    */
  method SubtractOverlapRanges(baseRanges: seq<TimeRange>, toSubtract: seq<TimeRange>)
    returns (result: seq<TimeRange>)
    requires AllValid(baseRanges) && Ordered(baseRanges)
    requires AllValid(toSubtract) && Ordered(toSubtract)
    ensures |baseRanges| == 0 || |toSubtract| == 0 ==> result == baseRanges
    ensures result == Difference(baseRanges, toSubtract)
    ensures forall t :: InUnion(result, t) <==> InUnion(baseRanges, t) && !InUnion(toSubtract, t)
    ensures AllValid(result) && Ordered(result)
    ensures forall p :: p in result ==> exists i :: 0 <= i < |baseRanges| && Within(p, baseRanges[i])
  {
    if |baseRanges| == 0 || |toSubtract| == 0 {
      DifferenceOfNothing(baseRanges);
      result := baseRanges;
    } else {
      result := [];
      var j := 0;
      var i := 0;
      while i < |baseRanges|
        invariant 0 <= i <= |baseRanges|
        invariant 0 <= j <= |toSubtract|
        invariant result == Difference(baseRanges[..i], toSubtract)
        invariant i < |baseRanges| ==> forall x :: 0 <= x < j ==> toSubtract[x].end < baseRanges[i].start
      {
        var current := baseRanges[i];
        var start := current.start;
        var end := current.end;
        ghost var j0 := j;
        while j < |toSubtract| && toSubtract[j].end < start
          invariant j0 <= j <= |toSubtract|
          invariant forall x :: 0 <= x < j ==> toSubtract[x].end < current.start
        {
          j := j + 1;
        }
        assert Difference(baseRanges[..i + 1], toSubtract) == result + CutFrom(start, end, toSubtract, j) by {
          DifferenceSnoc(baseRanges, i, toSubtract);
          CutFromSkip(start, end, toSubtract, j);
        }
        result := CutCurrent(result, start, end, toSubtract, j);
        if i + 1 < |baseRanges| {
          assert baseRanges[i].end <= baseRanges[i + 1].start;
        }
        i := i + 1;
      }
      assert baseRanges[..i] == baseRanges;
    }
    forall t ensures InUnion(result, t) <==> InUnion(baseRanges, t) && !InUnion(toSubtract, t) {
      DifferenceMinutes(baseRanges, toSubtract, t);
    }
    DifferenceShape(baseRanges, toSubtract);
  }
}
