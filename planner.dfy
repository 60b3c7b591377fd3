/** The linear segment planner: an equal-count contiguous partition of a metric
    column into `numSegments` segments, the last one taking the remainder. */
module Planner {
  import opened Collections

  /** `i * (n / k)` never passes `n` while `i <= k`. */
  lemma MulDivBound(n: nat, k: nat, i: nat)
    requires 1 <= k && i <= k
    ensures i * (n / k) <= n
  {
    var q := n / k;
    assert k * q + n % k == n;
    assert (k - i) * q >= 0;
    assert k * q == i * q + (k - i) * q;
  }

  /** First row of segment `i` when `n` rows are split into `k` segments;
      `Boundary(n, k, k)` is the end of the last segment. */
  function Boundary(n: nat, k: nat, i: nat): (b: nat)
    requires 1 <= k && i <= k
    ensures b <= n
  {
    if i == k then n else MulDivBound(n, k, i); i * (n / k)
  }

  /** Boundaries never decrease from one segment to the next. */
  lemma BoundaryStep(n: nat, k: nat, i: nat)
    requires 1 <= k && i < k
    ensures Boundary(n, k, i) <= Boundary(n, k, i + 1)
  {
    var q := n / k;
    if i + 1 < k {
      assert (i + 1) * q == i * q + q;
    }
  }

  /** Rows of segment `i` of the column `col` split into `k` segments. */
  function Segment(col: seq<int>, k: nat, i: nat): seq<int>
    requires 1 <= k && i < k
  {
    BoundaryStep(|col|, k, i);
    col[Boundary(|col|, k, i)..Boundary(|col|, k, i + 1)]
  }

  /** The value groups the planner produces, in segment order. */
  function Partition(col: seq<int>, k: nat): (p: seq<seq<int>>)
    requires 1 <= k
    ensures |p| == k
    ensures forall i :: 0 <= i < k ==> |p[i]| <= |col|
  {
    seq(k, i requires 0 <= i < k => Segment(col, k, i))
  }

  /** The dimension keys the planner produces: the singleton `[i]` for segment `i`. */
  function Keys(k: nat): (keys: seq<seq<int>>)
    ensures |keys| == k
  {
    seq(k, i requires 0 <= i < k => [i])
  }

  /** Segment `i`, for `i < k - 1`, holds the `L = n / k` rows from `i * L`. */
  lemma InnerSegment(col: seq<int>, k: nat, i: nat)
    requires 1 <= k && i < k - 1
    ensures |Partition(col, k)[i]| == |col| / k
    ensures forall j :: 0 <= j < |col| / k ==>
      i * (|col| / k) + j < |col| && Partition(col, k)[i][j] == col[i * (|col| / k) + j]
  {
    var n, L := |col|, |col| / k;
    assert Boundary(n, k, i) == i * L;
    assert Boundary(n, k, i + 1) == (i + 1) * L;
    assert (i + 1) * L == i * L + L;
  }

  /** The last segment holds the rows from `(k - 1) * L` to the end: `L + n % k` rows. */
  lemma LastSegment(col: seq<int>, k: nat)
    requires 1 <= k
    ensures Boundary(|col|, k, k - 1) == (k - 1) * (|col| / k)
    ensures Partition(col, k)[k - 1] == col[Boundary(|col|, k, k - 1)..]
    ensures |Partition(col, k)[k - 1]| == |col| / k + |col| % k
  {
    var n, L := |col|, |col| / k;
    assert Boundary(n, k, k - 1) == (k - 1) * L;
    assert k * L + n % k == n;
    assert k * L == (k - 1) * L + L;
  }

  /** Exactly `k` segments; every segment but the last has `n / k` rows, the
      last one `n / k + n % k`. */
  lemma PartitionShape(col: seq<int>, k: nat)
    requires 1 <= k
    ensures |Partition(col, k)| == k
    ensures forall i :: 0 <= i < k - 1 ==> |Partition(col, k)[i]| == |col| / k
    ensures |Partition(col, k)[k - 1]| == |col| / k + |col| % k
  {
    forall i | 0 <= i < k - 1 ensures |Partition(col, k)[i]| == |col| / k {
      InnerSegment(col, k, i);
    }
    LastSegment(col, k);
  }

  /** The rows of the first `m` segments, concatenated, are the column's first
      `Boundary(m)` rows. */
  lemma {:induction false} FlattenPrefix(col: seq<int>, k: nat, m: nat)
    requires 1 <= k && m <= k
    ensures Flatten(Partition(col, k)[..m]) == col[..Boundary(|col|, k, m)]
  {
    var n := |col|;
    if m == 0 {
      assert Partition(col, k)[..0] == [];
    } else {
      var p := Partition(col, k);
      FlattenPrefix(col, k, m - 1);
      assert p[..m] == p[..m - 1] + [p[m - 1]];
      FlattenAppend(p[..m - 1], p[m - 1]);
      BoundaryStep(n, k, m - 1);
      assert col[..Boundary(n, k, m)]
          == col[..Boundary(n, k, m - 1)] + col[Boundary(n, k, m - 1)..Boundary(n, k, m)];
    }
  }

  /** Concatenating the segments in order gives back the column: no row is
      dropped, duplicated or reordered. */
  lemma PartitionCovers(col: seq<int>, k: nat)
    requires 1 <= k
    ensures Flatten(Partition(col, k)) == col
  {
    FlattenPrefix(col, k, k);
    assert Partition(col, k)[..k] == Partition(col, k);
  }

  /** With more segments than rows the base length is zero: all leading
      segments are empty and the last one holds every row. */
  lemma MoreSegmentsThanRows(col: seq<int>, k: nat)
    requires 1 <= k && |col| < k
    ensures forall i :: 0 <= i < k - 1 ==> Partition(col, k)[i] == []
    ensures Partition(col, k)[k - 1] == col
  {
    assert |col| / k == 0;
    forall i | 0 <= i < k - 1 ensures Partition(col, k)[i] == [] {
      assert Boundary(|col|, k, i) == 0 && Boundary(|col|, k, i + 1) == 0;
    }
    assert Boundary(|col|, k, k - 1) == 0;
  }

  /** Keys are the singletons `[i]`, strictly ascending and so distinct. */
  lemma KeysAscending(k: nat)
    ensures |Keys(k)| == k
    ensures forall i :: 0 <= i < k ==> |Keys(k)[i]| == 1 && Keys(k)[i][0] == i
    ensures forall i, j :: 0 <= i < j < k ==> Keys(k)[i][0] < Keys(k)[j][0]
  {
  }

  /** A value in the parameter map the planner reads its settings from. */
  datatype Param = IntParam(value: int) | OtherParam

  class LinearFreqPlanner {
    var numSegments: int
    var size: int
    /** `None` stands for the null lists of a planner that has not planned yet. */
    var segmentDimensions: Option<seq<seq<int>>>
    var segmentValues: Option<seq<seq<int>>>

    /** Both lists are null, or one value group per dimension key, the key of
        group `i` being `[i]`. */
    ghost predicate Valid()
      reads this
    {
      && (segmentValues.Some? <==> segmentDimensions.Some?)
      && (segmentValues.Some? ==>
            |segmentValues.value| == |segmentDimensions.value|
            && segmentDimensions.value == Keys(|segmentDimensions.value|))
    }

    /** The implicit constructor: zero segments, size 0, null lists. */
    constructor ()
      ensures Valid()
      ensures numSegments == 0 && size == 0
      ensures segmentValues == None && segmentDimensions == None
    {
      numSegments, size := 0, 0;
      segmentValues, segmentDimensions := None, None;
    }

    /** Splits `col` into `numSegments` contiguous groups. Fails (the source
        throws) when `numSegments < 1`: a negative count is rejected before the
        lists are replaced, a zero count after they are emptied. */
    method Plan(col: seq<int>) returns (ok: bool)
      requires Valid()
      modifies this`segmentValues, this`segmentDimensions
      ensures Valid()
      ensures ok <==> old(numSegments) >= 1
      ensures numSegments == old(numSegments) && size == old(size)
      ensures ok ==> segmentValues == Some(Partition(col, numSegments))
      ensures ok ==> segmentDimensions == Some(Keys(numSegments))
      ensures numSegments == 0 ==> segmentValues == Some([]) && segmentDimensions == Some([])
      ensures numSegments < 0 ==>
        segmentValues == old(segmentValues) && segmentDimensions == old(segmentDimensions)
    {
      if numSegments < 0 {
        return false;
      }
      segmentValues, segmentDimensions := Some([]), Some([]);
      if numSegments == 0 {
        return false;
      }
      var k := numSegments;
      var n := |col|;
      var segLength := n / k;
      for i := 0 to k
        invariant segmentValues == Some(Partition(col, k)[..i])
        invariant segmentDimensions == Some(Keys(k)[..i])
      {
        var startIdx := i * segLength;
        var endIdx := (i + 1) * segLength;
        if i == k - 1 {
          endIdx := n;
        }
        assert startIdx == Boundary(n, k, i) && endIdx == Boundary(n, k, i + 1);
        BoundaryStep(n, k, i);
        var curSegment: seq<int> := [];
        for curIdx := startIdx to endIdx
          invariant curSegment == col[startIdx..curIdx]
        {
          curSegment := curSegment + [col[curIdx]];
        }
        assert Partition(col, k)[..i + 1] == Partition(col, k)[..i] + [Segment(col, k, i)];
        assert Keys(k)[..i + 1] == Keys(k)[..i] + [[i]];
        segmentValues := Some(segmentValues.value + [curSegment]);
        segmentDimensions := Some(segmentDimensions.value + [[i]]);
      }
      assert Partition(col, k)[..k] == Partition(col, k);
      assert Keys(k)[..k] == Keys(k);
      return true;
    }

    /** The value groups, null before the first plan; once planned, parallel
        to the dimension keys. */
    method GetSegments() returns (s: Option<seq<seq<int>>>)
      requires Valid()
      ensures s == segmentValues
      ensures s.Some? <==> segmentDimensions.Some?
      ensures s.Some? ==> |s.value| == |segmentDimensions.value|
    {
      s := segmentValues;
    }

    /** The dimension keys, null before the first plan; key `i` is always `[i]`. */
    method GetDimensions() returns (d: Option<seq<seq<int>>>)
      requires Valid()
      ensures d == segmentDimensions
      ensures d.Some? <==> segmentValues.Some?
      ensures d.Some? ==> |d.value| == |segmentValues.value| && forall i :: 0 <= i < |d.value| ==> d.value[i] == [i]
    {
      d := segmentDimensions;
    }

    /** Reads `num_segments`; a missing or non-integer entry fails (the source
        throws) and changes nothing. Nothing but `numSegments` is touched. */
    method SetParams(params: map<string, Param>) returns (ok: bool)
      modifies this`numSegments
      ensures ok <==> "num_segments" in params && params["num_segments"].IntParam?
      ensures numSegments == if ok then params["num_segments"].value else old(numSegments)
    {
      if "num_segments" in params && params["num_segments"].IntParam? {
        numSegments := params["num_segments"].value;
        ok := true;
      } else {
        ok := false;
      }
    }
  }
}
