/** The pieces together: a board built from the planner's segments, with one
    exact total per segment, answered by the range-query processor; and the
    same segments tagged with the cumulative times the Python driver uses. */
module Pipeline {
  import opened Collections
  import opened Planner
  import opened Query
  import opened LinearBoard

  /** The board the planner's output gives: key `i` for segment `i`, the
      caller's sketches, and each segment's row count as its total. */
  function PlannedBoard<S>(col: seq<int>, k: nat, sketches: seq<S>): (b: Board<S>)
    requires 1 <= k && |sketches| == k
    ensures b.Valid() && |b.dims| == k
  {
    var keys := Keys(k);
    Board(seq(k, i requires 0 <= i < k => keys[i][0]), sketches, Lengths(Partition(col, k)))
  }

  /** `m` clamped into `[lo, hi]`. */
  function Clamp(m: int, lo: int, hi: int): int
  {
    if m < lo then lo else if m > hi then hi else m
  }

  /** The ids `lo, lo + 1, ..., hi - 1`. */
  function IdRange(lo: nat, hi: nat): (r: seq<nat>)
    requires lo <= hi
    ensures |r| == hi - lo && forall j :: 0 <= j < hi - lo ==> r[j] == lo + j
  {
    seq(hi - lo, j requires 0 <= j < hi - lo => lo + j)
  }

  lemma IdRangeAppend(lo: nat, hi: nat)
    requires lo <= hi
    ensures IdRange(lo, hi + 1) == IdRange(lo, hi) + [hi]
  {
  }

  /** Segment `i` of the planned board has key `i` and as total the rows
      between its boundaries. */
  lemma PlannedSegment<S>(col: seq<int>, k: nat, sketches: seq<S>, i: nat)
    requires 1 <= k && |sketches| == k && i < k
    ensures PlannedBoard(col, k, sketches).dims[i] == i
    ensures Boundary(|col|, k, i) <= Boundary(|col|, k, i + 1)
    ensures PlannedBoard(col, k, sketches).totals[i] == Boundary(|col|, k, i + 1) - Boundary(|col|, k, i)
  {
    BoundaryStep(|col|, k, i);
    assert |Partition(col, k)[i]| == |Segment(col, k, i)|;
  }

  /** Among the first `m` segments, those with keys in `[lo, hi)` are the ids
      `lo .. Clamp(m) - 1`, and their totals add up to the rows between their
      boundaries. */
  lemma {:induction false} PlannedPrefix<S>(col: seq<int>, k: nat, sketches: seq<S>, m: nat, lo: nat, hi: nat)
    requires 1 <= k && |sketches| == k && m <= k && lo <= hi <= k
    ensures var b, c := PlannedBoard(col, k, sketches), Clamp(m, lo, hi);
      && SpanUpTo(b.dims, m, lo, hi) == c - lo
      && lo <= c && MatchingUpTo(b.dims, m, lo, hi) == IdRange(lo, c)
      && TotalUpTo(b, m, lo, hi) == Boundary(|col|, k, c) - Boundary(|col|, k, lo)
  {
    var b := PlannedBoard(col, k, sketches);
    if m > 0 {
      PlannedPrefix(col, k, sketches, m - 1, lo, hi);
      var c, c' := Clamp(m - 1, lo, hi), Clamp(m, lo, hi);
      PlannedSegment(col, k, sketches, m - 1);
      if InRange(m - 1, lo, hi) {
        assert c' == c + 1 && c == m - 1;
        IdRangeAppend(lo, c);
      } else {
        assert c' == c;
      }
    }
  }

  /** A query for segment keys `[lo, hi)` over the planned board merges
      segments `lo .. hi - 1` in order, spans `hi - lo` of them, and its
      total is the number of rows those segments hold. */
  lemma PlannedRange<S>(col: seq<int>, k: nat, sketches: seq<S>, lo: nat, hi: nat)
    requires 1 <= k && |sketches| == k && lo <= hi <= k
    ensures var b := PlannedBoard(col, k, sketches);
      && Span(b.dims, lo, hi) == hi - lo
      && Matching(b.dims, lo, hi) == IdRange(lo, hi)
      && Boundary(|col|, k, lo) <= Boundary(|col|, k, hi)
      && RangeTotal(b, lo, hi) == |col[Boundary(|col|, k, lo)..Boundary(|col|, k, hi)]|
  {
    PlannedPrefix(col, k, sketches, k, lo, hi);
    PlannedPrefix(col, k, sketches, lo, lo, hi);
    BoundaryMonotone(|col|, k, lo, hi);
  }

  lemma {:induction false} BoundaryMonotone(n: nat, k: nat, i: nat, j: nat)
    requires 1 <= k && i <= j <= k
    ensures Boundary(n, k, i) <= Boundary(n, k, j)
  {
    if i < j {
      BoundaryMonotone(n, k, i, j - 1);
      BoundaryStep(n, k, j - 1);
    }
  }

  /** The whole key range covers every row. */
  lemma PlannedTotalAll<S>(col: seq<int>, k: nat, sketches: seq<S>)
    requires 1 <= k && |sketches| == k
    ensures RangeTotal(PlannedBoard(col, k, sketches), 0, k) == |col|
  {
    PlannedRange(col, k, sketches, 0, k);
  }

  // ---------------------------------------------------------------------
  // 100 rows in 10 segments
  // ---------------------------------------------------------------------

  /** Splitting 100 rows into 10 segments gives 10 rows each. */
  lemma HundredRows(col: seq<int>)
    requires |col| == 100
    ensures forall i :: 0 <= i < 10 ==> |Partition(col, 10)[i]| == 10
  {
    PartitionShape(col, 10);
  }

  /** With the planner's keys, `[2, 4)` merges segments 2 and 3 (20 rows),
      while `[20, 40)` matches no key at all. */
  lemma HundredRowsPlannerKeys<S>(col: seq<int>, sketches: seq<S>)
    requires |col| == 100 && |sketches| == 10
    ensures var b := PlannedBoard(col, 10, sketches);
      && Matching(b.dims, 2, 4) == [2, 3]
      && RangeTotal(b, 2, 4) == 20
      && Span(b.dims, 20, 40) == 0
  {
    var b := PlannedBoard(col, 10, sketches);
    PlannedRange(col, 10, sketches, 2, 4);
    assert IdRange(2, 4) == [2, 3];
    SpanMonotone(b.dims, 10, 20, 40, 10, 40);
    PlannedPrefix(col, 10, sketches, 10, 10, 10);
    assert Span(b.dims, 10, 40) == SpanUpTo(b.dims, 10, 10, 40);
    SpanAbove(b.dims, 10, 10, 40);
  }

  /** No key among the first `m` reaches `lo` when all of them are below it. */
  lemma {:induction false} SpanAbove(dims: seq<int>, m: nat, lo: int, hi: int)
    requires m <= |dims| && forall i :: 0 <= i < m ==> dims[i] < lo
    ensures SpanUpTo(dims, m, lo, hi) == 0
  {
    if m > 0 {
      SpanAbove(dims, m - 1, lo, hi);
    }
  }

  /** The board keyed by the Python driver's time tags instead of segment ids. */
  function TimedBoard<S, T>(segments: seq<seq<T>>, sketches: seq<S>): (b: Board<S>)
    requires |sketches| == |segments|
    ensures b.Valid()
  {
    SegmentTimesMeaning(segments);
    Board(SegmentTimes(segments), sketches, Lengths(segments))
  }

  /** With time tags `10, 20, ..., 100`, `[20, 40)` matches the segments
      tagged 20 and 30, that is segments 1 and 2, and sums their 20 rows. */
  lemma HundredRowsTimeTags<S>(col: seq<int>, sketches: seq<S>)
    requires |col| == 100 && |sketches| == 10
    ensures var b := TimedBoard(Partition(col, 10), sketches);
      && b.dims == [10, 20, 30, 40, 50, 60, 70, 80, 90, 100]
      && Matching(b.dims, 20, 40) == [1, 2]
      && Span(b.dims, 20, 40) == 2
      && RangeTotal(b, 20, 40) == 20
  {
    var p := Partition(col, 10);
    var b := TimedBoard(p, sketches);
    HundredRows(col);
    SegmentTimesMeaning(p);
    forall i | 0 <= i < 10 ensures b.dims[i] == 10 * (i + 1) {
      FlattenPrefix(col, 10, i + 1);
      assert p[..i + 1] == Partition(col, 10)[..i + 1];
    }
    assert b.dims == [10, 20, 30, 40, 50, 60, 70, 80, 90, 100];
    assert b.totals == [10, 10, 10, 10, 10, 10, 10, 10, 10, 10];
    TimeTagQuery(sketches);
  }

  /** The query `[20, 40)` over ten segments of ten rows tagged by time. */
  lemma TimeTagQuery<S>(sketches: seq<S>)
    requires |sketches| == 10
    ensures var b := Board([10, 20, 30, 40, 50, 60, 70, 80, 90, 100], sketches, [10, 10, 10, 10, 10, 10, 10, 10, 10, 10]);
      && Matching(b.dims, 20, 40) == [1, 2]
      && Span(b.dims, 20, 40) == 2
      && RangeTotal(b, 20, 40) == 20
  {
    var b := Board([10, 20, 30, 40, 50, 60, 70, 80, 90, 100], sketches, [10, 10, 10, 10, 10, 10, 10, 10, 10, 10]);
    assert Matching(b.dims, 20, 40) == [1, 2];
    assert Span(b.dims, 20, 40) == 2;
    TotalOfMatching(b, 10, 20, 40);
    assert TotalsAt(b.totals, [1, 2]) == 20;
  }
}
