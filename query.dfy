/** The linear range-query processor over a board given as three parallel
    columns, merging the matching sketches into an accumulator. */
module Query {

  /** One operation applied to an accumulator. */
  datatype AccOp<S> = Reset | Add(sketch: S) | Compress(budget: int)

  /** A linear board: dimension column 0, sketch column and total column,
      indexed by segment id. */
  datatype Board<S> = Board(dims: seq<int>, sketches: seq<S>, totals: seq<int>)
  {
    /** The three columns have equal length. */
    predicate Valid()
    {
      |sketches| == |dims| && |totals| == |dims|
    }
  }

  predicate InRange(t: int, lo: int, hi: int)
  {
    lo <= t && t < hi
  }

  /** The operations since the last `Reset` in `log`: the state an estimate
      is computed from. */
  function SinceReset<S>(log: seq<AccOp<S>>): seq<AccOp<S>>
  {
    if log == [] then []
    else if log[|log| - 1] == Reset then []
    else SinceReset(log[..|log| - 1]) + [log[|log| - 1]]
  }

  /** Operations after a `Reset` that contain no `Reset` form the whole state:
      nothing merged before the reset survives it. */
  lemma {:induction false} ResetForgets<S>(before: seq<AccOp<S>>, after: seq<AccOp<S>>)
    requires forall j :: 0 <= j < |after| ==> !after[j].Reset?
    ensures SinceReset(before + [Reset] + after) == after
  {
    var log := before + [Reset] + after;
    if after == [] {
      assert log[|log| - 1] == Reset;
    } else {
      var init := after[..|after| - 1];
      assert log[..|log| - 1] == before + [Reset] + init;
      ResetForgets(before, init);
    }
  }

  /** Number of segments among the first `m` whose key lies in `[lo, hi)`. */
  function SpanUpTo(dims: seq<int>, m: nat, lo: int, hi: int): nat
    requires m <= |dims|
  {
    if m == 0 then 0
    else SpanUpTo(dims, m - 1, lo, hi) + (if InRange(dims[m - 1], lo, hi) then 1 else 0)
  }

  function Span(dims: seq<int>, lo: int, hi: int): nat
  {
    SpanUpTo(dims, |dims|, lo, hi)
  }

  /** Ids, ascending, of the segments among the first `m` whose key lies in `[lo, hi)`. */
  function MatchingUpTo(dims: seq<int>, m: nat, lo: int, hi: int): seq<nat>
    requires m <= |dims|
  {
    if m == 0 then []
    else MatchingUpTo(dims, m - 1, lo, hi) + (if InRange(dims[m - 1], lo, hi) then [m - 1] else [])
  }

  function Matching(dims: seq<int>, lo: int, hi: int): seq<nat>
  {
    MatchingUpTo(dims, |dims|, lo, hi)
  }

  /** What the processor does to the accumulator for one matching segment:
      merge its sketch, then compress when a budget is set. */
  function MergeStep<S>(sketch: S, budget: int): seq<AccOp<S>>
  {
    [Add(sketch)] + if budget > 0 then [Compress(budget)] else []
  }

  /** The accumulator operations `query` issues for the first `m` segments. */
  function MergeOpsUpTo<S>(b: Board<S>, m: nat, lo: int, hi: int, budget: int): seq<AccOp<S>>
    requires b.Valid() && m <= |b.dims|
  {
    if m == 0 then []
    else
      var step := if InRange(b.dims[m - 1], lo, hi) then MergeStep(b.sketches[m - 1], budget) else [];
      MergeOpsUpTo(b, m - 1, lo, hi, budget) + step
  }

  function MergeOps<S>(b: Board<S>, lo: int, hi: int, budget: int): seq<AccOp<S>>
    requires b.Valid()
  {
    MergeOpsUpTo(b, |b.dims|, lo, hi, budget)
  }

  /** Sum of the exact totals of the matching segments among the first `m`. */
  function TotalUpTo<S>(b: Board<S>, m: nat, lo: int, hi: int): int
    requires b.Valid() && m <= |b.dims|
  {
    if m == 0 then 0
    else TotalUpTo(b, m - 1, lo, hi) + (if InRange(b.dims[m - 1], lo, hi) then b.totals[m - 1] else 0)
  }

  function RangeTotal<S>(b: Board<S>, lo: int, hi: int): int
    requires b.Valid()
  {
    TotalUpTo(b, |b.dims|, lo, hi)
  }

  /** The ids matched are exactly those whose key lies in the range, strictly
      ascending, and there are `span` of them. */
  lemma {:induction false} MatchingExact(dims: seq<int>, m: nat, lo: int, hi: int)
    requires m <= |dims|
    ensures |MatchingUpTo(dims, m, lo, hi)| == SpanUpTo(dims, m, lo, hi)
    ensures forall j :: 0 <= j < |MatchingUpTo(dims, m, lo, hi)| ==>
      MatchingUpTo(dims, m, lo, hi)[j] < m && InRange(dims[MatchingUpTo(dims, m, lo, hi)[j]], lo, hi)
    ensures forall i :: 0 <= i < m && InRange(dims[i], lo, hi) ==> i in MatchingUpTo(dims, m, lo, hi)
    ensures forall j, j' :: 0 <= j < j' < |MatchingUpTo(dims, m, lo, hi)| ==>
      MatchingUpTo(dims, m, lo, hi)[j] < MatchingUpTo(dims, m, lo, hi)[j']
  {
    if m > 0 {
      MatchingExact(dims, m - 1, lo, hi);
    }
  }

  /** `span` is the number of ids `i` with `lo <= dims[i] < hi`. */
  lemma {:induction false} SpanCounts(dims: seq<int>, m: nat, lo: int, hi: int)
    requires m <= |dims|
    ensures SpanUpTo(dims, m, lo, hi) == |set i | 0 <= i < m && InRange(dims[i], lo, hi)|
  {
    if m > 0 {
      SpanCounts(dims, m - 1, lo, hi);
      var prev := set i | 0 <= i < m - 1 && InRange(dims[i], lo, hi);
      var cur := set i | 0 <= i < m && InRange(dims[i], lo, hi);
      if InRange(dims[m - 1], lo, hi) {
        assert cur == prev + {m - 1};
      } else {
        assert cur == prev;
      }
    }
  }

  /** With a budget, the operations alternate: a merge of the `j`-th matching
      sketch, in ascending id order, then a compress. */
  lemma {:induction false} MergeOpsCompressing<S>(b: Board<S>, m: nat, lo: int, hi: int, budget: int)
    requires b.Valid() && m <= |b.dims| && budget > 0
    ensures var ops, ids := MergeOpsUpTo(b, m, lo, hi, budget), MatchingUpTo(b.dims, m, lo, hi);
      && |ops| == 2 * |ids|
      && (forall j :: 0 <= j < |ids| ==>
            ids[j] < |b.sketches| && ops[2 * j] == Add(b.sketches[ids[j]]) && ops[2 * j + 1] == Compress(budget))
  {
    MatchingExact(b.dims, m, lo, hi);
    if m > 0 {
      MergeOpsCompressing(b, m - 1, lo, hi, budget);
      var ops, ids := MergeOpsUpTo(b, m, lo, hi, budget), MatchingUpTo(b.dims, m, lo, hi);
      var ops', ids' := MergeOpsUpTo(b, m - 1, lo, hi, budget), MatchingUpTo(b.dims, m - 1, lo, hi);
      if InRange(b.dims[m - 1], lo, hi) {
        assert ids == ids' + [m - 1];
        assert ops == ops' + [Add(b.sketches[m - 1]), Compress(budget)];
        CompressingAppend(ops', ids', b.sketches, m - 1, budget);
      } else {
        assert ids == ids' && ops == ops';
      }
    }
  }

  /** One more merged sketch, followed by its compression, keeps the
      alternating shape. */
  lemma CompressingAppend<S>(ops: seq<AccOp<S>>, ids: seq<nat>, sketches: seq<S>, x: nat, budget: int)
    requires |ops| == 2 * |ids| && x < |sketches|
    requires forall j :: 0 <= j < |ids| ==>
      ids[j] < |sketches| && ops[2 * j] == Add(sketches[ids[j]]) && ops[2 * j + 1] == Compress(budget)
    ensures var ops', ids' := ops + [Add(sketches[x]), Compress(budget)], ids + [x];
      && |ops'| == 2 * |ids'|
      && forall j :: 0 <= j < |ids'| ==>
        ids'[j] < |sketches| && ops'[2 * j] == Add(sketches[ids'[j]]) && ops'[2 * j + 1] == Compress(budget)
  {
    var ops', ids' := ops + [Add(sketches[x]), Compress(budget)], ids + [x];
    forall j | 0 <= j < |ids'|
      ensures ids'[j] < |sketches| && ops'[2 * j] == Add(sketches[ids'[j]]) && ops'[2 * j + 1] == Compress(budget)
    {
      if j < |ids| {
        assert ids'[j] == ids[j] && ops'[2 * j] == ops[2 * j] && ops'[2 * j + 1] == ops[2 * j + 1];
      }
    }
  }

  /** Without a budget, the operations are the merges of the matching
      sketches, in ascending id order, and nothing else. */
  lemma {:induction false} MergeOpsPlain<S>(b: Board<S>, m: nat, lo: int, hi: int, budget: int)
    requires b.Valid() && m <= |b.dims| && budget <= 0
    ensures var ops, ids := MergeOpsUpTo(b, m, lo, hi, budget), MatchingUpTo(b.dims, m, lo, hi);
      && |ops| == |ids|
      && (forall j :: 0 <= j < |ids| ==> ids[j] < |b.sketches| && ops[j] == Add(b.sketches[ids[j]]))
  {
    MatchingExact(b.dims, m, lo, hi);
    if m > 0 {
      MergeOpsPlain(b, m - 1, lo, hi, budget);
      var ops, ids := MergeOpsUpTo(b, m, lo, hi, budget), MatchingUpTo(b.dims, m, lo, hi);
      var ops', ids' := MergeOpsUpTo(b, m - 1, lo, hi, budget), MatchingUpTo(b.dims, m - 1, lo, hi);
      if InRange(b.dims[m - 1], lo, hi) {
        assert ids == ids' + [m - 1];
        assert ops == ops' + [Add(b.sketches[m - 1])];
      } else {
        assert ids == ids' && ops == ops';
      }
    }
  }

  /** Sum of `totals` at the given ids, in order. */
  function TotalsAt(totals: seq<int>, ids: seq<nat>): int
    requires forall j :: 0 <= j < |ids| ==> ids[j] < |totals|
  {
    if ids == [] then 0 else TotalsAt(totals, ids[..|ids| - 1]) + totals[ids[|ids| - 1]]
  }

  /** `total` adds up the totals of exactly the segments `query` merges. */
  lemma {:induction false} TotalOfMatching<S>(b: Board<S>, m: nat, lo: int, hi: int)
    requires b.Valid() && m <= |b.dims|
    ensures var ids := MatchingUpTo(b.dims, m, lo, hi);
      && (forall j :: 0 <= j < |ids| ==> ids[j] < |b.totals|)
      && TotalUpTo(b, m, lo, hi) == TotalsAt(b.totals, ids)
  {
    MatchingExact(b.dims, m, lo, hi);
    if m > 0 {
      TotalOfMatching(b, m - 1, lo, hi);
      var ids, ids' := MatchingUpTo(b.dims, m, lo, hi), MatchingUpTo(b.dims, m - 1, lo, hi);
      if InRange(b.dims[m - 1], lo, hi) {
        assert ids[..|ids| - 1] == ids';
      } else {
        assert ids == ids';
      }
    }
  }

  /** No merge operation is a `Reset`. */
  lemma {:induction false} MergeOpsNoReset<S>(b: Board<S>, m: nat, lo: int, hi: int, budget: int)
    requires b.Valid() && m <= |b.dims|
    ensures forall j :: 0 <= j < |MergeOpsUpTo(b, m, lo, hi, budget)| ==>
      !MergeOpsUpTo(b, m, lo, hi, budget)[j].Reset?
  {
    if m > 0 {
      MergeOpsNoReset(b, m - 1, lo, hi, budget);
    }
  }

  /** An empty range matches nothing: no span, no total, no merge. */
  lemma {:induction false} EmptyRange<S>(b: Board<S>, m: nat, lo: int, hi: int, budget: int)
    requires b.Valid() && m <= |b.dims| && lo >= hi
    ensures SpanUpTo(b.dims, m, lo, hi) == 0
    ensures TotalUpTo(b, m, lo, hi) == 0
    ensures MergeOpsUpTo(b, m, lo, hi, budget) == []
  {
    if m > 0 {
      EmptyRange(b, m - 1, lo, hi, budget);
    }
  }

  /** Widening the range never decreases `span`. */
  lemma {:induction false} SpanMonotone(dims: seq<int>, m: nat, lo: int, hi: int, lo': int, hi': int)
    requires m <= |dims| && lo' <= lo && hi <= hi'
    ensures SpanUpTo(dims, m, lo, hi) <= SpanUpTo(dims, m, lo', hi')
  {
    if m > 0 {
      SpanMonotone(dims, m - 1, lo, hi, lo', hi');
    }
  }

  /** With non-negative totals, widening the range never decreases the total. */
  lemma {:induction false} TotalMonotone<S>(b: Board<S>, m: nat, lo: int, hi: int, lo': int, hi': int)
    requires b.Valid() && m <= |b.dims| && lo' <= lo && hi <= hi'
    requires forall i :: 0 <= i < |b.totals| ==> b.totals[i] >= 0
    ensures TotalUpTo(b, m, lo, hi) <= TotalUpTo(b, m, lo', hi')
  {
    if m > 0 {
      TotalMonotone(b, m - 1, lo, hi, lo', hi');
    }
  }

  /** A merge buffer whose internals are not modelled: it records the
      operations applied to it and estimates from those since its last reset. */
  class Accumulator<S, K> {
    /** How the buffer turns its merged state into the estimate for one key. */
    const estimator: (seq<AccOp<S>>, K) -> real
    var log: seq<AccOp<S>>

    constructor (estimator: (seq<AccOp<S>>, K) -> real)
      ensures this.estimator == estimator && log == []
    {
      this.estimator := estimator;
      log := [];
    }

    function Merged(): seq<AccOp<S>>
      reads this
    {
      SinceReset(log)
    }

    method Reset()
      modifies this`log
      ensures log == old(log) + [AccOp.Reset] && Merged() == []
    {
      log := log + [AccOp.Reset];
    }

    method AddSketch(sketch: S)
      modifies this`log
      ensures log == old(log) + [Add(sketch)]
    {
      log := log + [Add(sketch)];
    }

    method Compress(budget: int)
      modifies this`log
      ensures log == old(log) + [AccOp.Compress(budget)]
    {
      log := log + [AccOp.Compress(budget)];
    }

    /** One estimate per key, in key order, each from the merged state. */
    method Estimate(keys: seq<K>) returns (r: seq<real>)
      ensures |r| == |keys|
      ensures forall i :: 0 <= i < |keys| ==> r[i] == estimator(Merged(), keys[i])
    {
      r := seq(|keys|, i requires 0 <= i < |keys| reads this => estimator(Merged(), keys[i]));
    }
  }

  class LinearAccProcessor<S, K> {
    var startIdx: int
    var endIdx: int
    const acc: Accumulator<S, K>
    const accumulatorSize: int
    var span: int

    constructor (acc: Accumulator<S, K>, accumulatorSize: int)
      ensures this.acc == acc && this.accumulatorSize == accumulatorSize
      ensures startIdx == 0 && endIdx == 0 && span == 0
    {
      this.acc := acc;
      this.accumulatorSize := accumulatorSize;
      startIdx, endIdx, span := 0, 0, 0;
    }

    /** Resets the accumulator, merges the sketches of the segments whose key
        lies in `[startIdx, endIdx)` (compressing after each merge when a budget
        is set) and estimates the keys from that state alone. */
    method Query(board: Board<S>, xToTrack: seq<K>) returns (r: seq<real>)
      requires board.Valid()
      modifies this`span, acc`log
      ensures span == Span(board.dims, startIdx, endIdx)
      ensures acc.log == old(acc.log) + [Reset] + MergeOps(board, startIdx, endIdx, accumulatorSize)
      ensures acc.Merged() == MergeOps(board, startIdx, endIdx, accumulatorSize)
      ensures |r| == |xToTrack|
      ensures forall i :: 0 <= i < |xToTrack| ==>
        r[i] == acc.estimator(MergeOps(board, startIdx, endIdx, accumulatorSize), xToTrack[i])
    {
      acc.Reset();
      ghost var base := acc.log;
      span := 0;
      var tValues := board.dims;
      for i := 0 to |tValues|
        invariant span == SpanUpTo(tValues, i, startIdx, endIdx)
        invariant acc.log == base + MergeOpsUpTo(board, i, startIdx, endIdx, accumulatorSize)
      {
        var curT := tValues[i];
        if curT >= startIdx && curT < endIdx {
          var curSketch := board.sketches[i];
          acc.AddSketch(curSketch);
          span := span + 1;
          if accumulatorSize > 0 {
            acc.Compress(accumulatorSize);
          }
        }
      }
      MergeOpsNoReset(board, |board.dims|, startIdx, endIdx, accumulatorSize);
      ResetForgets(old(acc.log), MergeOps(board, startIdx, endIdx, accumulatorSize));
      r := acc.Estimate(xToTrack);
    }

    /** The exact total of the segments whose key lies in `[startIdx, endIdx)`;
        recomputes `span` the same way and leaves the accumulator alone. */
    method Total(board: Board<S>) returns (result: int)
      requires board.Valid()
      modifies this`span
      ensures span == Span(board.dims, startIdx, endIdx)
      ensures result == RangeTotal(board, startIdx, endIdx)
      ensures unchanged(acc)
    {
      result := 0;
      span := 0;
      var tValues := board.dims;
      for i := 0 to |tValues|
        invariant span == SpanUpTo(tValues, i, startIdx, endIdx)
        invariant result == TotalUpTo(board, i, startIdx, endIdx)
      {
        var curT := tValues[i];
        if curT >= startIdx && curT < endIdx {
          span := span + 1;
          result := result + board.totals[i];
        }
      }
    }

    method GetSpan() returns (s: int)
      ensures s == span
    {
      s := span;
    }

    method SetRange(startIdx: int, endIdx: int)
      modifies this`startIdx, this`endIdx
      ensures this.startIdx == startIdx && this.endIdx == endIdx
    {
      this.startIdx := startIdx;
      this.endIdx := endIdx;
    }
  }
}
