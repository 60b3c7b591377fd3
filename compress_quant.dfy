/** Quantile compressors: the skip compressor, which keeps one weighted
    representative per chunk of a sorted sequence, and the rank tracker, which
    counts values into left-open bins ending at the tracked values. */
module QuantCompress {
  import opened Collections

  // ---------------------------------------------------------------------
  // Arithmetic about chunks
  // ---------------------------------------------------------------------

  lemma MulMono(a: nat, b: nat, s: nat)
    requires a <= b
    ensures a * s <= b * s
  {
    assert b * s == a * s + (b - a) * s;
  }

  /** `a * s <= n` exactly when `a <= n / s`. */
  lemma MulLeDiv(a: nat, s: nat, n: nat)
    requires s >= 1
    ensures a * s <= n <==> a <= n / s
  {
    var q := n / s;
    assert q * s + n % s == n;
    if a <= q {
      MulMono(a, q, s);
    } else {
      MulMono(q + 1, a, s);
      assert (q + 1) * s == q * s + s;
    }
  }

  /** `ceil(n / size)`: the width of every full chunk. */
  function SkipWidth(n: nat, size: nat): (skip: nat)
    requires size >= 1
    ensures n <= skip * size
    ensures skip >= 1 ==> (skip - 1) * size < n
    ensures n >= 1 ==> skip >= 1
  {
    var q, r := (n + size - 1) / size, (n + size - 1) % size;
    assert q * size + r == n + size - 1;
    assert q >= 1 ==> (q - 1) * size == q * size - size;
    q
  }

  /** Number of chunks of width `skip` needed to cover `n` items: the full
      ones and, if `skip` does not divide `n`, a shorter tail. */
  function ChunkCount(n: nat, skip: nat): nat
    requires skip >= 1
  {
    n / skip + if n % skip != 0 then 1 else 0
  }

  /** Width of chunk `j`: `skip` for the full chunks, the remainder for the tail. */
  function Width(n: nat, skip: nat, j: nat): nat
    requires skip >= 1
  {
    if j < n / skip then skip else n % skip
  }

  /** Chunk `j` lies inside the `n` items: it starts at `j * skip` and ends
      no later than `n`. */
  lemma ChunkInside(n: nat, skip: nat, j: nat)
    requires skip >= 1 && j < ChunkCount(n, skip)
    ensures j * skip + Width(n, skip, j) <= n
    ensures Width(n, skip, j) >= 1
  {
    var q := n / skip;
    assert q * skip + n % skip == n;
    if j < q {
      MulLeDiv(j + 1, skip, n);
      assert (j + 1) * skip == j * skip + skip;
    } else {
      assert j == q;
    }
  }

  /** The chunk count never exceeds the requested size, because
      `skip * size >= n`. */
  lemma ChunkCountBound(n: nat, size: nat)
    requires n >= 1 && size >= 1
    ensures ChunkCount(n, SkipWidth(n, size)) <= size
  {
    var skip := SkipWidth(n, size);
    var q := n / skip;
    assert q * skip + n % skip == n;
    if q > size {
      MulMono(size + 1, q, skip);
    }
    if q == size {
      assert q * skip == skip * size;
    }
  }

  /** A tail chunk exists exactly when `skip` does not divide `n`; it starts at
      `(n / skip) * skip` and is shorter than a full chunk. */
  lemma TailChunk(n: nat, skip: nat)
    requires skip >= 1
    ensures ChunkCount(n, skip) == n / skip + 1 <==> n % skip != 0
    ensures (n / skip) * skip <= n
    ensures (n / skip) * skip < n <==> n % skip != 0
    ensures n % skip != 0 ==>
      1 <= Width(n, skip, n / skip) < skip && Width(n, skip, n / skip) == n - (n / skip) * skip
  {
    assert (n / skip) * skip + n % skip == n;
  }

  /** The weights of the first `m` full chunks add up to `m * skip`. */
  lemma {:induction false} FullChunksWeigh(n: nat, skip: nat, m: nat)
    requires skip >= 1 && m <= n / skip
    ensures m <= ChunkCount(n, skip)
    ensures Sum(ChunkWeights(n, skip)[..m]) == m * skip
  {
    if m > 0 {
      FullChunksWeigh(n, skip, m - 1);
      var w := ChunkWeights(n, skip);
      assert w[..m][..m - 1] == w[..m - 1];
      assert m * skip == (m - 1) * skip + skip;
    }
  }

  /** The chunk weights, in chunk order. */
  function ChunkWeights(n: nat, skip: nat): (w: seq<nat>)
    requires skip >= 1
    ensures |w| == ChunkCount(n, skip)
  {
    seq(ChunkCount(n, skip), j requires 0 <= j < ChunkCount(n, skip) => Width(n, skip, j))
  }

  /** The chunk weights add up to the number of items. */
  lemma WeightsSum(n: nat, skip: nat)
    requires skip >= 1
    ensures Sum(ChunkWeights(n, skip)) == n
  {
    var q, w := n / skip, ChunkWeights(n, skip);
    FullChunksWeigh(n, skip, q);
    assert q * skip + n % skip == n;
    if n % skip != 0 {
      assert w[..q + 1] == w;
      assert w[..q + 1][..q] == w[..q];
    } else {
      assert w[..q] == w;
    }
  }

  // ---------------------------------------------------------------------
  // The skip compressor
  // ---------------------------------------------------------------------

  /** A chunk that ends by `n` is a full one: the loop of the compressor
      visits exactly the full chunks. */
  lemma FullChunkStep(n: nat, skip: nat, c: nat, start: nat)
    requires skip >= 1 && start == c * skip && start + skip <= n
    ensures c < n / skip && c < ChunkCount(n, skip) && Width(n, skip, c) == skip
    ensures start + skip == (c + 1) * skip
  {
    MulLeDiv(c + 1, skip, n);
    assert (c + 1) * skip == c * skip + skip;
  }

  /** Once the next chunk would end past `n`, all full chunks are visited. */
  lemma FullChunksDone(n: nat, skip: nat, c: nat, start: nat)
    requires skip >= 1 && start == c * skip && c <= n / skip && start + skip > n
    ensures c == n / skip && start == (n / skip) * skip
  {
    MulLeDiv(c + 1, skip, n);
    assert (c + 1) * skip == c * skip + skip;
  }

  /** Offsets chosen as the middle of every chunk are the biased choice. */
  lemma AllMiddle(n: nat, skip: nat, offsets: seq<nat>)
    requires skip >= 1 && |offsets| == ChunkCount(n, skip) && MiddleSoFar(n, skip, offsets)
    ensures offsets == MiddleOffsets(n, skip)
  {
  }

  /** Every offset chosen so far is the middle of its chunk. */
  predicate MiddleSoFar(n: nat, skip: nat, offsets: seq<nat>)
    requires skip >= 1
  {
    forall j :: 0 <= j < |offsets| ==> offsets[j] == Width(n, skip, j) / 2
  }

  lemma MiddleAppend(n: nat, skip: nat, offsets: seq<nat>, o: nat)
    requires skip >= 1 && MiddleSoFar(n, skip, offsets) && o == Width(n, skip, |offsets|) / 2
    ensures MiddleSoFar(n, skip, offsets + [o])
  {
    var offsets' := offsets + [o];
    forall j | 0 <= j < |offsets'| ensures offsets'[j] == Width(n, skip, j) / 2 {
      if j < |offsets| {
        assert offsets'[j] == offsets[j];
      }
    }
  }

  /** In-chunk offsets chosen so far, one per chunk, each inside its chunk. */
  predicate Fits(n: nat, skip: nat, offsets: seq<nat>)
    requires skip >= 1
  {
    |offsets| <= ChunkCount(n, skip) && forall j :: 0 <= j < |offsets| ==> offsets[j] < Width(n, skip, j)
  }

  /** The biased choice: the middle of every chunk. */
  function MiddleOffsets(n: nat, skip: nat): seq<nat>
    requires skip >= 1
  {
    seq(ChunkCount(n, skip), j requires 0 <= j < ChunkCount(n, skip) => Width(n, skip, j) / 2)
  }

  /** The representative of chunk `j` at offset `o`, weighted by the chunk's width. */
  function Pick<T>(x: seq<T>, skip: nat, j: nat, o: nat): (T, nat)
    requires skip >= 1 && j < ChunkCount(|x|, skip) && o < Width(|x|, skip, j)
  {
    ChunkInside(|x|, skip, j);
    (x[j * skip + o], Width(|x|, skip, j))
  }

  /** The (key, weight) assignments the compressor makes, in chunk order. */
  function Picks<T>(x: seq<T>, skip: nat, offsets: seq<nat>): seq<(T, nat)>
    requires skip >= 1 && Fits(|x|, skip, offsets)
  {
    seq(|offsets|, j requires 0 <= j < |offsets| => Pick(x, skip, j, offsets[j]))
  }

  /** Saving the element at offset `o` of the next chunk, with the chunk's
      width, extends the assignments by one. */
  lemma PicksAppend<T>(x: seq<T>, skip: nat, offsets: seq<nat>, o: nat, start: nat)
    requires skip >= 1 && Fits(|x|, skip, offsets) && |offsets| < ChunkCount(|x|, skip)
    requires start == |offsets| * skip && o < Width(|x|, skip, |offsets|)
    ensures Fits(|x|, skip, offsets + [o])
    ensures start + o < |x|
    ensures ToDict(Picks(x, skip, offsets + [o]))
         == ToDict(Picks(x, skip, offsets))[x[start + o] := Width(|x|, skip, |offsets|)]
  {
    ChunkInside(|x|, skip, |offsets|);
    var p := Picks(x, skip, offsets + [o]);
    assert forall j :: 0 <= j < |offsets| ==> (offsets + [o])[j] == offsets[j];
    assert p[..|p| - 1] == Picks(x, skip, offsets);
  }

  /** The middle offsets lie inside their chunks. */
  lemma MiddleFits(n: nat, skip: nat)
    requires skip >= 1
    ensures Fits(n, skip, MiddleOffsets(n, skip))
  {
    forall j | 0 <= j < ChunkCount(n, skip) ensures Width(n, skip, j) / 2 < Width(n, skip, j) {
      ChunkInside(n, skip, j);
    }
  }

  /** Each assignment stores an element of its own chunk
      `[j * skip, j * skip + width)` with that chunk's width as weight. */
  lemma PicksInChunks<T>(x: seq<T>, skip: nat, offsets: seq<nat>)
    requires skip >= 1 && Fits(|x|, skip, offsets)
    ensures |Picks(x, skip, offsets)| == |offsets|
    ensures forall j :: 0 <= j < |offsets| ==>
      && j * skip + Width(|x|, skip, j) <= |x|
      && Picks(x, skip, offsets)[j] == (x[j * skip + offsets[j]], Width(|x|, skip, j))
  {
    forall j | 0 <= j < |offsets| ensures j * skip + Width(|x|, skip, j) <= |x| {
      ChunkInside(|x|, skip, j);
    }
  }

  /** A key is stored with the weight of the last chunk that chose it; when
      all chosen keys differ there is one entry per chunk and the stored
      weights add up to the number of items. */
  lemma SavedWeights<T>(x: seq<T>, skip: nat, offsets: seq<nat>)
    requires skip >= 1 && Fits(|x|, skip, offsets) && |offsets| == ChunkCount(|x|, skip)
    ensures var p, d := Picks(x, skip, offsets), ToDict(Picks(x, skip, offsets));
      && (forall j :: 0 <= j < |p| && (forall j' :: j < j' < |p| ==> p[j'].0 != p[j].0) ==>
            p[j].0 in d && d[p[j].0] == Width(|x|, skip, j))
      && ((forall j, j' :: 0 <= j < j' < |p| ==> p[j].0 != p[j'].0) ==>
            && |d| == ChunkCount(|x|, skip)
            && (forall j :: 0 <= j < |p| ==> p[j].0 in d)
            && Sum(seq(|p|, j requires 0 <= j < |p| => GetOr(d, p[j].0, 0))) == |x|)
  {
    var p, d := Picks(x, skip, offsets), ToDict(Picks(x, skip, offsets));
    forall j | 0 <= j < |p| && (forall j' :: j < j' < |p| ==> p[j'].0 != p[j].0)
      ensures p[j].0 in d && d[p[j].0] == Width(|x|, skip, j)
    {
      ToDictLastWins(p, j);
    }
    if forall j, j' :: 0 <= j < j' < |p| ==> p[j].0 != p[j'].0 {
      ToDictDistinctSize(p);
      var stored := seq(|p|, j requires 0 <= j < |p| => GetOr(d, p[j].0, 0));
      forall j | 0 <= j < |p| ensures stored[j] == ChunkWeights(|x|, skip)[j] {
        ToDictLastWins(p, j);
      }
      assert stored == ChunkWeights(|x|, skip);
      WeightsSum(|x|, skip);
    }
  }

  /** Every stored key is an element of the input. */
  lemma SavedFromInput<T>(x: seq<T>, skip: nat, offsets: seq<nat>)
    requires skip >= 1 && Fits(|x|, skip, offsets)
    ensures forall key :: key in ToDict(Picks(x, skip, offsets)) ==> key in x
  {
    var p := Picks(x, skip, offsets);
    var keys := set j | 0 <= j < |p| :: p[j].0;
    assert keys <= set y | y in x by {
      PicksInChunks(x, skip, offsets);
      forall j | 0 <= j < |p| ensures p[j].0 in x {
        assert p[j].0 == x[j * skip + offsets[j]];
      }
    }
    ToDictKeys(p);
  }

  class SkipCompressor {
    const size: int
    const biased: bool

    /** The seed of the unbiased mode's random generator is not modelled:
        each unbiased offset is an arbitrary one inside its chunk. */
    constructor (size: int, biased: bool)
      ensures this.size == size && this.biased == biased
    {
      this.size := size;
      this.biased := biased;
    }

    /** Cuts `xSorted` into chunks of width `ceil(n / size)`, the last one
        possibly shorter, and stores one element of each chunk with the
        chunk's width as its weight: the middle one when biased, an arbitrary
        one otherwise. `offsets` records the choice made in each chunk. */
    method Compress<T(==)>(xSorted: seq<T>) returns (saved: map<T, nat>, ghost offsets: seq<nat>)
      requires size >= 1 && |xSorted| >= 1
      ensures Fits(|xSorted|, SkipWidth(|xSorted|, size), offsets)
      ensures |offsets| == ChunkCount(|xSorted|, SkipWidth(|xSorted|, size))
      ensures biased ==> offsets == MiddleOffsets(|xSorted|, SkipWidth(|xSorted|, size))
      ensures saved == ToDict(Picks(xSorted, SkipWidth(|xSorted|, size), offsets))
      ensures |saved| <= size
      ensures forall key :: key in saved ==> key in xSorted
    {
      var n := |xSorted|;
      var skip := (n + size - 1) / size;
      assert skip == SkipWidth(n, size);
      saved := map[];
      offsets := [];
      var startIdx := 0;
      var endIdx := skip;
      while endIdx <= n
        invariant startIdx == |offsets| * skip && endIdx == startIdx + skip
        invariant |offsets| <= n / skip
        invariant Fits(n, skip, offsets)
        invariant biased ==> MiddleSoFar(n, skip, offsets)
        invariant saved == ToDict(Picks(xSorted, skip, offsets))
        decreases n - startIdx
      {
        FullChunkStep(n, skip, |offsets|, startIdx);
        var segOffset: nat;
        if biased {
          segOffset := skip / 2;
        } else {
          segOffset :| 0 <= segOffset < skip;
        }
        PicksAppend(xSorted, skip, offsets, segOffset, startIdx);
        if biased {
          MiddleAppend(n, skip, offsets, segOffset);
        }
        var toSave := xSorted[startIdx + segOffset];
        saved := saved[toSave := skip];
        offsets := offsets + [segOffset];
        startIdx := endIdx;
        endIdx := endIdx + skip;
      }
      FullChunksDone(n, skip, |offsets|, startIdx);
      TailChunk(n, skip);
      if endIdx > n && startIdx < n {
        var segSize := n - startIdx;
        assert segSize == Width(n, skip, |offsets|);
        var segOffset: nat;
        if biased {
          segOffset := segSize / 2;
        } else {
          segOffset :| 0 <= segOffset < segSize;
        }
        PicksAppend(xSorted, skip, offsets, segOffset, startIdx);
        if biased {
          MiddleAppend(n, skip, offsets, segOffset);
        }
        var toSave := xSorted[startIdx + segOffset];
        saved := saved[toSave := segSize];
        offsets := offsets + [segOffset];
      }
      assert |offsets| == ChunkCount(n, skip);
      if biased {
        AllMiddle(n, skip, offsets);
      }
      ChunkCountBound(n, size);
      ToDictSize(Picks(xSorted, skip, offsets));
      SavedFromInput(xSorted, skip, offsets);
    }
  }

  // ---------------------------------------------------------------------
  // The rank tracker
  // ---------------------------------------------------------------------

  /** A real number or one of the two infinities numpy uses as bin edges. */
  datatype Ext = NegInf | Fin(v: real) | PosInf

  function Neg(e: Ext): Ext
  {
    match e
    case NegInf => PosInf
    case Fin(v) => Fin(-v)
    case PosInf => NegInf
  }

  predicate Le(a: Ext, b: Ext)
  {
    match (a, b)
    case (NegInf, _) => true
    case (_, PosInf) => true
    case (Fin(u), Fin(w)) => u <= w
    case _ => false
  }

  predicate Lt(a: Ext, b: Ext)
  {
    Le(a, b) && a != b
  }

  function Reverse<T>(s: seq<T>): seq<T>
  {
    seq(|s|, i requires 0 <= i < |s| => s[|s| - 1 - i])
  }

  function NegAll(xs: seq<real>): seq<real>
  {
    seq(|xs|, i requires 0 <= i < |xs| => -xs[i])
  }

  function NegEdges(es: seq<Ext>): seq<Ext>
  {
    seq(|es|, i requires 0 <= i < |es| => Neg(es[i]))
  }

  /** Membership in a numpy histogram bin: `[lo, hi)`, or `[lo, hi]` for the last bin. */
  predicate InBin(v: real, lo: Ext, hi: Ext, closed: bool)
  {
    Le(lo, Fin(v)) && if closed then Le(Fin(v), hi) else Lt(Fin(v), hi)
  }

  function BinCount(vals: seq<real>, lo: Ext, hi: Ext, closed: bool): (c: nat)
    ensures c <= |vals|
  {
    if vals == [] then 0
    else BinCount(vals[..|vals| - 1], lo, hi, closed) + if InBin(vals[|vals| - 1], lo, hi, closed) then 1 else 0
  }

  /** The edges numpy accepts: monotonically increasing. */
  predicate Increasing(edges: seq<Ext>)
  {
    forall k :: 0 <= k < |edges| - 1 ==> Le(edges[k], edges[k + 1])
  }

  /** numpy's histogram over explicit edges: one count per bin. */
  function Histogram(vals: seq<real>, edges: seq<Ext>): (h: seq<nat>)
    requires |edges| >= 1
    ensures |h| == |edges| - 1
    ensures forall k :: 0 <= k < |h| ==> h[k] <= |vals|
  {
    seq(|edges| - 1, k requires 0 <= k < |edges| - 1 => BinCount(vals, edges[k], edges[k + 1], k == |edges| - 2))
  }

  /** Number of `xs` in the left-open bin `(lo, hi]`. */
  function CountIn(xs: seq<real>, lo: Ext, hi: real): nat
  {
    if xs == [] then 0
    else CountIn(xs[..|xs| - 1], lo, hi) + if Lt(lo, Fin(xs[|xs| - 1])) && xs[|xs| - 1] <= hi then 1 else 0
  }

  /** Lower end of the bin of tracked value `i`: the previous tracked value,
      or minus infinity for the first. */
  function Lower(t: seq<real>, i: nat): Ext
    requires i < |t|
  {
    if i == 0 then NegInf else Fin(t[i - 1])
  }

  predicate NonDecreasing(t: seq<real>)
  {
    forall i :: 0 <= i < |t| - 1 ==> t[i] <= t[i + 1]
  }

  predicate StrictlyIncreasing(t: seq<real>)
  {
    forall i, j :: 0 <= i < j < |t| ==> t[i] < t[j]
  }

  datatype RankTracker = RankTracker(xTracked: seq<real>)
  {
    /** The bin edges after negation and reversal: `-t[m-1], ..., -t[0], +inf`. */
    function NegatedEdges(): (e: seq<Ext>)
      ensures |e| == |xTracked| + 1
    {
      var binEdges := [NegInf] + seq(|xTracked|, i requires 0 <= i < |xTracked| => Fin(xTracked[i]));
      NegEdges(Reverse(binEdges))
    }

    /** The histogram of the negated values over the negated edges, read
        backwards: entry `i` belongs to tracked value `i`. */
    function Weights(xs: seq<real>): (w: seq<nat>)
      ensures |w| == |xTracked|
    {
      Reverse(Histogram(NegAll(xs), NegatedEdges()))
    }

    /** The `(tracked value, weight)` assignments of the dict comprehension. */
    function Entries(xs: seq<real>): (e: seq<(real, nat)>)
      ensures |e| == |xTracked|
      ensures forall i :: 0 <= i < |e| ==> e[i] == (xTracked[i], Weights(xs)[i])
    {
      var w := Weights(xs);
      seq(|xTracked|, i requires 0 <= i < |xTracked| => (xTracked[i], w[i]))
    }

    /** Counts `xs` per tracked value by histogramming the negated values;
        numpy refuses edges that are not increasing, modelled as `None`. */
    function Compress(xs: seq<real>): (r: Option<map<real, nat>>)
      ensures r.Some? ==> |r.value| <= |xTracked|
      ensures r.Some? ==> forall x :: x in r.value ==> x in xTracked
    {
      var pairs := Entries(xs);
      ToDictKeys(pairs);
      ToDictSize(pairs);
      assert forall x :: x in ToDict(pairs) ==> x in xTracked by {
        forall x | x in ToDict(pairs) ensures x in xTracked {
          var i :| 0 <= i < |pairs| && pairs[i].0 == x;
          assert pairs[i].0 == xTracked[i];
        }
      }
      if !Increasing(NegatedEdges()) then None else Some(ToDict(pairs))
    }
  }

  lemma NegatedEdgesAt(t: seq<real>, k: nat)
    requires k <= |t|
    ensures |RankTracker(t).NegatedEdges()| == |t| + 1
    ensures RankTracker(t).NegatedEdges()[k] == if k == |t| then PosInf else Fin(-t[|t| - 1 - k])
  {
  }

  /** The rank tracker answers exactly when the tracked values are sorted. */
  lemma RankDefined(t: seq<real>, xs: seq<real>)
    ensures RankTracker(t).Compress(xs).Some? <==> NonDecreasing(t)
  {
    var bins := RankTracker(t).NegatedEdges();
    var m := |t|;
    forall k | 0 <= k < m
      ensures Le(bins[k], bins[k + 1]) <==> (k == m - 1 || t[m - 2 - k] <= t[m - 1 - k])
    {
      NegatedEdgesAt(t, k);
      NegatedEdgesAt(t, k + 1);
    }
    if NonDecreasing(t) {
      forall k | 0 <= k < |bins| - 1 ensures Le(bins[k], bins[k + 1]) {
        if k < m - 1 {
          assert t[m - 2 - k] <= t[m - 2 - k + 1];
        }
      }
    } else {
      var i :| 0 <= i < m - 1 && !(t[i] <= t[i + 1]);
      var k := m - 2 - i;
      assert !Le(bins[k], bins[k + 1]);
    }
  }

  /** Histogramming `-x` over `[-a, -lo)` (closed at `+inf`) counts `x` in `(lo, a]`. */
  lemma {:induction false} NegatedBin(xs: seq<real>, a: real, lo: Ext)
    requires !lo.PosInf?
    ensures BinCount(NegAll(xs), Fin(-a), Neg(lo), lo == NegInf) == CountIn(xs, lo, a)
  {
    if xs != [] {
      var init := xs[..|xs| - 1];
      assert NegAll(xs)[..|xs| - 1] == NegAll(init);
      NegatedBin(init, a, lo);
    }
  }

  /** The bin of tracked value `i` after negation: `[-t[i], -Lower(i))`. */
  lemma BinOf(t: seq<real>, i: nat)
    requires i < |t|
    ensures |RankTracker(t).NegatedEdges()| == |t| + 1
    ensures RankTracker(t).NegatedEdges()[|t| - 1 - i] == Fin(-t[i])
    ensures RankTracker(t).NegatedEdges()[|t| - i] == Neg(Lower(t, i))
  {
    var k := |t| - 1 - i;
    NegatedEdgesAt(t, k);
    NegatedEdgesAt(t, k + 1);
    assert |t| - 1 - k == i;
  }

  /** Bin `k` of a histogram, by its edges. */
  lemma HistogramAt(vals: seq<real>, edges: seq<Ext>, k: nat, lo: Ext, hi: Ext, closed: bool)
    requires k < |edges| - 1
    requires edges[k] == lo && edges[k + 1] == hi && closed == (k == |edges| - 2)
    ensures |Histogram(vals, edges)| == |edges| - 1
    ensures Histogram(vals, edges)[k] == BinCount(vals, lo, hi, closed)
  {
  }

  /** Weight `i` counts the values in `(t[i-1], t[i]]`, with `t[-1] = -inf`. */
  lemma WeightAt(t: seq<real>, xs: seq<real>, i: nat)
    requires i < |t|
    ensures RankTracker(t).Weights(xs)[i] == CountIn(xs, Lower(t, i), t[i])
  {
    var bins := RankTracker(t).NegatedEdges();
    BinOf(t, i);
    var k := |t| - 1 - i;
    HistogramAt(NegAll(xs), bins, k, Fin(-t[i]), Neg(Lower(t, i)), Lower(t, i) == NegInf);
    assert RankTracker(t).Weights(xs)[i] == Histogram(NegAll(xs), bins)[k];
    NegatedBin(xs, t[i], Lower(t, i));
  }

  /** The entry for tracked value `i` is weight `i`, which counts the values
      in `(t[i-1], t[i]]`, with `t[-1] = -inf`; there is one entry per tracked
      value. */
  lemma RankCounts(t: seq<real>, xs: seq<real>)
    requires StrictlyIncreasing(t)
    ensures RankTracker(t).Compress(xs).Some?
    ensures var r := RankTracker(t).Compress(xs).value;
      && |r| == |t|
      && (forall i :: 0 <= i < |t| ==>
            t[i] in r && r[t[i]] == RankTracker(t).Weights(xs)[i] && r[t[i]] == CountIn(xs, Lower(t, i), t[i]))
  {
    assert NonDecreasing(t);
    RankDefined(t, xs);
    var pairs := RankTracker(t).Entries(xs);
    var r := ToDict(pairs);
    forall i | 0 <= i < |t|
      ensures t[i] in r && r[t[i]] == RankTracker(t).Weights(xs)[i] && r[t[i]] == CountIn(xs, Lower(t, i), t[i])
    {
      WeightAt(t, xs, i);
      ToDictLastWins(pairs, i);
    }
    ToDictDistinctSize(pairs);
  }

  /** Splitting `(-inf, b]` at `a <= b`. */
  lemma {:induction false} CountSplit(xs: seq<real>, a: real, b: real)
    requires a <= b
    ensures CountIn(xs, NegInf, b) == CountIn(xs, NegInf, a) + CountIn(xs, Fin(a), b)
  {
    if xs != [] {
      CountSplit(xs[..|xs| - 1], a, b);
    }
  }

  /** The weights of the first `m` tracked values add up to the number of values
      at most `t[m - 1]`. */
  lemma {:induction false} WeightsPrefixSum(t: seq<real>, xs: seq<real>, m: nat)
    requires NonDecreasing(t) && 1 <= m <= |t|
    ensures Sum(RankTracker(t).Weights(xs)[..m]) == CountIn(xs, NegInf, t[m - 1])
  {
    var w := RankTracker(t).Weights(xs);
    WeightAt(t, xs, m - 1);
    if m > 1 {
      WeightsPrefixSum(t, xs, m - 1);
      assert w[..m][..m - 1] == w[..m - 1];
      CountSplit(xs, t[m - 2], t[m - 1]);
    } else {
      assert w[..1][..0] == [];
    }
  }

  /** All weights together are the number of values not above the largest
      tracked value: larger values are dropped. */
  lemma RankTotal(t: seq<real>, xs: seq<real>)
    requires NonDecreasing(t) && |t| >= 1
    ensures Sum(RankTracker(t).Weights(xs)) == CountIn(xs, NegInf, t[|t| - 1])
  {
    WeightsPrefixSum(t, xs, |t|);
    assert RankTracker(t).Weights(xs)[..|t|] == RankTracker(t).Weights(xs);
  }
}
