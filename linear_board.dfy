/** The board driver's pure helpers: the dyadic base in a sketch name, the
    artifact paths, the dispatch from a sketch name to a sketch generator,
    and the totals frame and time tags derived from the segments. */
module LinearBoard {
  import opened Collections

  datatype BoardError =
    | InvalidLiteral(text: string)   // `int()` rejects the text
    | InvalidSketch(message: string) // no branch of the dispatch matches

  // ---------------------------------------------------------------------
  // Decimal integers: `str(k)` and `int(s)`
  // ---------------------------------------------------------------------

  predicate IsDigit(c: char)
  {
    '0' <= c <= '9'
  }

  predicate AllDigits(s: string)
  {
    forall i :: 0 <= i < |s| ==> IsDigit(s[i])
  }

  function DigitChar(d: nat): (c: char)
    requires d < 10
    ensures IsDigit(c) && c as int - '0' as int == d
  {
    (('0' as int) + d) as char
  }

  /** `str(k)` for `k >= 0`: the shortest decimal spelling. */
  function NatToString(k: nat): (s: string)
    ensures |s| >= 1 && AllDigits(s)
  {
    if k < 10 then [DigitChar(k)] else NatToString(k / 10) + [DigitChar(k % 10)]
  }

  /** `str(k)`: a minus sign in front of negative numbers. */
  function IntToString(k: int): (s: string)
    ensures |s| >= 1
    ensures forall i :: 0 <= i < |s| ==> IsDigit(s[i]) || s[i] == '-'
  {
    if k < 0 then "-" + NatToString(-k) else NatToString(k)
  }

  /** The value of a string of decimal digits, most significant first. */
  function DigitsValue(s: string): nat
    requires AllDigits(s)
  {
    if s == [] then 0 else DigitsValue(s[..|s| - 1]) * 10 + (s[|s| - 1] as int - '0' as int)
  }

  /** `int(s)` on a string: an optional sign followed by at least one digit;
      anything else is a `ValueError`. */
  function ParseInt(s: string): (r: Result<int, BoardError>)
    ensures r.Err? ==> r == Err(InvalidLiteral(s))
    ensures r.Ok? ==> |s| >= 1 && IsDigit(s[|s| - 1])
    ensures r.Ok? && r.value < 0 ==> s[0] == '-'
  {
    var neg, body := |s| >= 1 && s[0] == '-', if |s| >= 1 && (s[0] == '-' || s[0] == '+') then s[1..] else s;
    if |body| == 0 || !AllDigits(body) then Err(InvalidLiteral(s))
    else
      var v: int := DigitsValue(body);
      Ok(if neg then -v else v)
  }

  lemma {:induction false} NatToStringValue(k: nat)
    ensures DigitsValue(NatToString(k)) == k
  {
    if k >= 10 {
      NatToStringValue(k / 10);
      var s := NatToString(k);
      assert s[..|s| - 1] == NatToString(k / 10);
    }
  }

  /** `int(str(k)) == k`. */
  lemma ParseIntRoundTrip(k: int)
    ensures ParseInt(IntToString(k)) == Ok(k)
  {
    var s := IntToString(k);
    if k < 0 {
      NatToStringValue(-k);
      assert s[1..] == NatToString(-k);
    } else {
      NatToStringValue(k);
      assert IsDigit(s[0]);
    }
  }

  /** `str` is one-to-one, so a number can be recovered from its spelling. */
  lemma IntToStringInjective(j: int, k: int)
    ensures IntToString(j) == IntToString(k) <==> j == k
  {
    if IntToString(j) == IntToString(k) {
      ParseIntRoundTrip(j);
      ParseIntRoundTrip(k);
    }
  }

  /** Text with no digit after the optional sign is rejected. */
  lemma ParseIntRejects(s: string)
    requires forall i :: 0 <= i < |s| ==> !IsDigit(s[i])
    ensures ParseInt(s) == Err(InvalidLiteral(s))
  {
    if |s| >= 1 && (s[0] == '-' || s[0] == '+') && |s| >= 2 {
      assert !IsDigit(s[1..][0]);
    } else if |s| >= 1 {
      assert !IsDigit(s[0]);
    }
  }

  // ---------------------------------------------------------------------
  // `str.rfind` and slicing
  // ---------------------------------------------------------------------

  /** `pat` occurs in `s` starting at index `i`. */
  predicate OccursAt(s: string, pat: string, i: int)
  {
    0 <= i && i + |pat| <= |s| && s[i..i + |pat|] == pat
  }

  /** The last occurrence of `pat` starting at or before `i`, or `-1`. */
  function RFindUpTo(s: string, pat: string, i: int): (r: int)
    requires i <= |s| - |pat|
    ensures r == -1 || (0 <= r <= i && OccursAt(s, pat, r))
    ensures forall j :: r < j <= i ==> !OccursAt(s, pat, j)
    decreases i + 1
  {
    if i < 0 then -1
    else if s[i..i + |pat|] == pat then i
    else RFindUpTo(s, pat, i - 1)
  }

  /** `s.rfind(pat)`: the highest index at which `pat` starts, `-1` if none. */
  function RFind(s: string, pat: string): (r: int)
    ensures r == -1 || OccursAt(s, pat, r)
    ensures forall j :: r < j ==> !OccursAt(s, pat, j)
  {
    RFindUpTo(s, pat, |s| - |pat|)
  }

  /** `s[start:]`: a negative start counts from the end; both ends are clamped. */
  function SliceFrom(s: string, start: int): (r: string)
    ensures start >= 0 ==> r == if start <= |s| then s[start..] else []
    ensures start < 0 ==> r == if |s| + start >= 0 then s[|s| + start..] else s
  {
    var b := if start < 0 then (if |s| + start < 0 then 0 else |s| + start) else (if start > |s| then |s| else start);
    s[b..]
  }

  /** `get_dyadic_base`: the integer spelled after the last `"_b"`. */
  function GetDyadicBase(name: string): (r: Result<int, BoardError>)
    ensures r.Err? ==> r.error.InvalidLiteral?
    ensures r.Ok? ==> |name| >= 1 && IsDigit(name[|name| - 1])
  {
    ParseInt(SliceFrom(name, RFind(name, "_b") + 2))
  }

  /** A name ending in `"_b"` and the spelling of `k` has base `k`: the sign
      and the digits hold no `'_'`, so the separator found is that last one. */
  lemma DyadicBaseOf(prefix: string, k: int)
    ensures GetDyadicBase(prefix + "_b" + IntToString(k)) == Ok(k)
  {
    var digits := IntToString(k);
    var name := prefix + "_b" + digits;
    assert OccursAt(name, "_b", |prefix|) by {
      assert name[|prefix|..|prefix| + 2] == "_b";
    }
    assert name[|prefix| + 1] == 'b';
    forall j | |prefix| + 2 <= j < |name| ensures name[j] != '_' {
      assert name[j] == digits[j - |prefix| - 2];
    }
    var r := RFind(name, "_b");
    assert r >= |prefix|;
    assert name[r..r + 2][0] == name[r];
    assert name[|prefix| + 2..] == digits;
    ParseIntRoundTrip(k);
  }

  /** `get_dyadic_base("dyadic_b2") == 2`. */
  lemma DyadicBaseExample()
    ensures GetDyadicBase("dyadic_b2") == Ok(2)
  {
    DyadicBaseOf("dyadic", 2);
    assert IntToString(2) == [DigitChar(2)] == "2";
    assert "dyadic" + "_b" + IntToString(2) == "dyadic_b2";
  }

  /** `get_dyadic_base("q_dyadic_b2") == 2`. */
  lemma QDyadicBaseExample()
    ensures GetDyadicBase("q_dyadic_b2") == Ok(2)
  {
    DyadicBaseOf("q_dyadic", 2);
    assert IntToString(2) == [DigitChar(2)] == "2";
    assert "q_dyadic" + "_b" + IntToString(2) == "q_dyadic_b2";
  }

  /** Without any `"_b"` the slice starts at index 1 (`-1 + 2`) and the
      remaining letters are no integer. */
  lemma DyadicBaseMissing()
    ensures GetDyadicBase("dyadic") == Err(InvalidLiteral("yadic"))
  {
    forall j | 0 <= j ensures !OccursAt("dyadic", "_b", j) {
      if j + 2 <= 6 {
        assert "dyadic"[j..j + 2][0] == "dyadic"[j] != '_';
      }
    }
    var r := RFind("dyadic", "_b");
    assert r == -1;
    assert SliceFrom("dyadic", r + 2) == "yadic";
    ParseIntRejects("yadic");
  }

  // ---------------------------------------------------------------------
  // Artifact paths
  // ---------------------------------------------------------------------

  /** `os.path.join(a, b)` (POSIX): an absolute `b` replaces `a`; otherwise a
      `'/'` is inserted unless `a` is empty or already ends with one. */
  function PathJoin(a: string, b: string): (r: string)
    ensures |b| <= |r| && r[|r| - |b|..] == b
    ensures !(|b| >= 1 && b[0] == '/') ==> a <= r
  {
    if |b| >= 1 && b[0] == '/' then b
    else if a == [] || a[|a| - 1] == '/' then a + b
    else a + "/" + b
  }

  /** `int(x)` on a float: truncation toward zero. */
  function Trunc(x: real): (k: int)
    ensures 0.0 <= x ==> k as real <= x < k as real + 1.0
    ensures x < 0.0 ==> k as real - 1.0 < x <= k as real
  {
    if x >= 0.0 then x.Floor else -((-x).Floor)
  }

  /** The board directory of a dataset and granularity. */
  function BoardDir(data: string, granularity: int): (d: string)
    ensures |d| >= 1 && d[|d| - 1] == '/'
  {
    "output/boards/" + data + "_" + IntToString(granularity) + "/"
  }

  /** The board file's own name: `{sketch}_{int(size)}.pkl`. */
  function BoardLeaf(sketch: string, sketchSize: real): (leaf: string)
    ensures sketch + "_" <= leaf
    ensures |leaf| >= 4 && leaf[|leaf| - 4..] == ".pkl"
  {
    sketch + "_" + IntToString(Trunc(sketchSize)) + ".pkl"
  }

  /** `get_file_name`: a `.pkl` file, inside the board directory unless the
      sketch name is itself an absolute path. */
  function GetFileName(data: string, granularity: int, sketch: string, sketchSize: real): (f: string)
    ensures |f| >= 4 && f[|f| - 4..] == ".pkl"
    ensures !(|sketch| >= 1 && sketch[0] == '/') ==> BoardDir(data, granularity) <= f
  {
    var leaf := BoardLeaf(sketch, sketchSize);
    assert !(|sketch| >= 1 && sketch[0] == '/') ==> !(|leaf| >= 1 && leaf[0] == '/') by {
      LeafStart(sketch, sketchSize);
    }
    var f := PathJoin(BoardDir(data, granularity), leaf);
    assert f[|f| - 4..] == f[|f| - |leaf|..][|leaf| - 4..];
    f
  }

  /** `get_totals_name`: `totals.csv` inside the board directory. */
  function GetTotalsName(data: string, granularity: int): (t: string)
    ensures BoardDir(data, granularity) <= t
    ensures |t| >= 10 && t[|t| - 10..] == "totals.csv"
  {
    PathJoin(BoardDir(data, granularity), "totals.csv")
  }

  /** Equal text around two parts means equal parts. */
  lemma Cancel(pre: string, x: string, y: string, suf: string)
    ensures pre + x + suf == pre + y + suf <==> x == y
  {
    if pre + x + suf == pre + y + suf {
      assert |x| == |y|;
      assert x == (pre + x + suf)[|pre|..|pre| + |x|];
      assert y == (pre + y + suf)[|pre|..|pre| + |y|];
    }
  }

  /** The leaf starts with the sketch name, or with `'_'` when that is empty. */
  lemma LeafStart(sketch: string, sketchSize: real)
    ensures |BoardLeaf(sketch, sketchSize)| >= 1
    ensures BoardLeaf(sketch, sketchSize)[0] == if sketch == [] then '_' else sketch[0]
    ensures sketch <= BoardLeaf(sketch, sketchSize)
  {
  }

  /** Boards of one sketch with different truncated sizes get different leaves. */
  lemma LeafDeterminesSize(sketch: string, s1: real, s2: real)
    ensures BoardLeaf(sketch, s1) == BoardLeaf(sketch, s2) <==> Trunc(s1) == Trunc(s2)
  {
    Cancel(sketch + "_", IntToString(Trunc(s1)), IntToString(Trunc(s2)), ".pkl");
    IntToStringInjective(Trunc(s1), Trunc(s2));
  }

  /** The board file is `{sketch}_{int(size)}.pkl` inside the board directory,
      unless the sketch name is an absolute path, which `join` keeps alone. */
  lemma FileNameShape(data: string, granularity: int, sketch: string, sketchSize: real)
    ensures |sketch| >= 1 && sketch[0] == '/' ==>
      GetFileName(data, granularity, sketch, sketchSize) == sketch + "_" + IntToString(Trunc(sketchSize)) + ".pkl"
    ensures !(|sketch| >= 1 && sketch[0] == '/') ==>
      GetFileName(data, granularity, sketch, sketchSize)
        == BoardDir(data, granularity) + sketch + "_" + IntToString(Trunc(sketchSize)) + ".pkl"
  {
    var leaf := BoardLeaf(sketch, sketchSize);
    if |sketch| >= 1 && sketch[0] == '/' {
      LeafStart(sketch, sketchSize);
    } else {
      FileNameRelative(data, granularity, sketch, sketchSize);
      assert BoardDir(data, granularity) + leaf
          == BoardDir(data, granularity) + sketch + "_" + IntToString(Trunc(sketchSize)) + ".pkl";
    }
  }

  /** A relative sketch name puts the leaf right after the board directory. */
  lemma FileNameRelative(data: string, granularity: int, sketch: string, sketchSize: real)
    requires !(|sketch| >= 1 && sketch[0] == '/')
    ensures GetFileName(data, granularity, sketch, sketchSize) == BoardDir(data, granularity) + BoardLeaf(sketch, sketchSize)
  {
    LeafStart(sketch, sketchSize);
  }

  /** The totals file is `totals.csv` in the board directory. */
  lemma TotalsNameShape(data: string, granularity: int)
    ensures GetTotalsName(data, granularity) == BoardDir(data, granularity) + "totals.csv"
  {
  }

  /** For equal data and granularity, the board file and the totals file share
      the directory prefix, and they never coincide (`.pkl` against `.csv`). */
  lemma SameDirectory(data: string, granularity: int, sketch: string, sketchSize: real)
    requires !(|sketch| >= 1 && sketch[0] == '/')
    ensures var f, t, d := GetFileName(data, granularity, sketch, sketchSize),
                          GetTotalsName(data, granularity), BoardDir(data, granularity);
      && d <= f && d <= t
      && f != t
  {
    var f, t := GetFileName(data, granularity, sketch, sketchSize), GetTotalsName(data, granularity);
    assert f[|f| - 1] == f[|f| - 4..][3] == 'l';
    assert t[|t| - 1] == t[|t| - 10..][9] == 'v';
  }

  /** Boards of one sketch differing in truncated size get different files. */
  lemma FileNameDeterminesSize(data: string, granularity: int, sketch: string, s1: real, s2: real)
    ensures GetFileName(data, granularity, sketch, s1) == GetFileName(data, granularity, sketch, s2)
        <==> Trunc(s1) == Trunc(s2)
  {
    LeafStart(sketch, s1);
    LeafStart(sketch, s2);
    LeafDeterminesSize(sketch, s1, s2);
    var d, l1, l2 := BoardDir(data, granularity), BoardLeaf(sketch, s1), BoardLeaf(sketch, s2);
    if !(|sketch| >= 1 && sketch[0] == '/') {
      Cancel(d, l1, l2, "");
      assert d + l1 + "" == d + l1 && d + l2 + "" == d + l2;
    }
  }

  // ---------------------------------------------------------------------
  // Sketch generator dispatch
  // ---------------------------------------------------------------------

  /** The frequency compressors a generator can wrap. */
  datatype FreqCompressor =
    | TopValue(xToTrack: seq<real>)
    | IncrementalRange
    | UniformSampling
    | Truncation
    | PPS

  /** The quantile compressors a generator can wrap. */
  datatype QuantCompressor =
    | RankTrackerOf(xTracked: seq<real>)
    | CoopFinite
    | QRandomSample
    | SkipOf(biased: bool)

  datatype SketchGen =
    | ItemDictCompressorGen(name: string, freq: FreqCompressor)
    | CMSGen
    | DyadicItemDictGen(maxHeight: nat, freqBase: int)
    | SeqDictCompressorGen(name: string, quant: QuantCompressor)
    | KLLGen
    | DyadicSeqDictGen(maxHeight: nat, quantBase: int)
  {
    /** Generators of quantile sketches, as against frequency sketches. */
    predicate IsQuantile()
    {
      SeqDictCompressorGen? || KLLGen? || DyadicSeqDictGen?
    }
  }

  /** Height cap of both dyadic compressors. */
  const DyadicMaxHeight: nat := 20

  /** The frequency sketches selected by exact name. */
  const FreqNames: set<string> := {"top_values", "cooperative", "random_sample", "cms_min", "truncation", "pps"}

  /** The quantile sketches selected by exact name. */
  const QuantNames: set<string> := {"q_top_values", "q_cooperative", "q_random_sample", "kll", "q_truncation", "q_pps"}

  /** The exact-name branches for frequency sketches. */
  function FreqByName(name: string, tracked: seq<real>): Option<SketchGen>
  {
    if name == "top_values" then Some(ItemDictCompressorGen(name, TopValue(tracked)))
    else if name == "cooperative" then Some(ItemDictCompressorGen(name, IncrementalRange))
    else if name == "random_sample" then Some(ItemDictCompressorGen(name, UniformSampling))
    else if name == "cms_min" then Some(CMSGen)
    else if name == "truncation" then Some(ItemDictCompressorGen(name, Truncation))
    else if name == "pps" then Some(ItemDictCompressorGen(name, PPS))
    else None
  }

  /** The exact-name branches for quantile sketches. */
  function QuantByName(name: string, tracked: seq<real>): Option<SketchGen>
  {
    if name == "q_top_values" then Some(SeqDictCompressorGen(name, RankTrackerOf(tracked)))
    else if name == "q_cooperative" then Some(SeqDictCompressorGen(name, CoopFinite))
    else if name == "q_random_sample" then Some(SeqDictCompressorGen(name, QRandomSample))
    else if name == "kll" then Some(KLLGen)
    else if name == "q_truncation" then Some(SeqDictCompressorGen(name, SkipOf(true)))
    else if name == "q_pps" then Some(SeqDictCompressorGen(name, SkipOf(false)))
    else None
  }

  /** A dyadic generator with the base spelled in the name, or the parse error. */
  function DyadicGen(name: string, quantile: bool): Result<SketchGen, BoardError>
  {
    match GetDyadicBase(name)
    case Ok(base) => Ok(if quantile then DyadicSeqDictGen(DyadicMaxHeight, base) else DyadicItemDictGen(DyadicMaxHeight, base))
    case Err(e) => Err(e)
  }

  /** `get_sketch_gen`: the frequency names, the `"dyadic"` prefix, the
      quantile names and the `"q_dyadic"` prefix, tried in that order; any
      other name is an `Invalid Sketch` error. */
  function GetSketchGen(name: string, tracked: seq<real>): (r: Result<SketchGen, BoardError>)
    ensures r.Err? ==> r.error.InvalidLiteral? || r.error == InvalidSketch("Invalid Sketch: " + name)
    ensures r.Err? && r.error.InvalidLiteral? ==> "dyadic" <= name || "q_dyadic" <= name
  {
    if FreqByName(name, tracked).Some? then Ok(FreqByName(name, tracked).value)
    else if "dyadic" <= name then DyadicGen(name, false)
    else if QuantByName(name, tracked).Some? then Ok(QuantByName(name, tracked).value)
    else if "q_dyadic" <= name then DyadicGen(name, true)
    else Err(InvalidSketch("Invalid Sketch: " + name))
  }

  /** The frequency names select frequency generators, carrying the name. */
  lemma FreqByNameMeaning(name: string, tracked: seq<real>)
    ensures FreqByName(name, tracked).Some? <==> name in FreqNames
    ensures FreqByName(name, tracked).Some? ==> !FreqByName(name, tracked).value.IsQuantile()
    ensures FreqByName(name, tracked).Some? && FreqByName(name, tracked).value.ItemDictCompressorGen? ==>
      FreqByName(name, tracked).value.name == name
  {
  }

  /** The quantile names select quantile generators, carrying the name. */
  lemma QuantByNameMeaning(name: string, tracked: seq<real>)
    ensures QuantByName(name, tracked).Some? <==> name in QuantNames
    ensures QuantByName(name, tracked).Some? ==> QuantByName(name, tracked).value.IsQuantile()
    ensures QuantByName(name, tracked).Some? && QuantByName(name, tracked).value.SeqDictCompressorGen? ==>
      QuantByName(name, tracked).value.name == name
  {
  }

  /** No exact name starts with `"dyadic"` or `"q_dyadic"`: each differs
      from both prefixes in its first or third character. */
  lemma DyadicNotExact(name: string)
    requires "dyadic" <= name || "q_dyadic" <= name
    ensures name !in FreqNames && name !in QuantNames
  {
    if "dyadic" <= name {
      assert name[0] == "dyadic"[0] == 'd';
    } else {
      assert name[0] == 'q' && name[2] == 'd';
    }
  }

  /** The quantile names start with `"q_"` or are `"kll"`; the frequency
      names do neither. */
  lemma NamePrefixes(name: string)
    ensures name in QuantNames ==> "q_" <= name || name == "kll"
    ensures name in FreqNames ==> !("q_" <= name) && name != "kll"
  {
    if name in FreqNames {
      assert name[0] != 'q';
    }
  }

  /** Exactly the exact names and the dyadic names with a parsable base are
      accepted. */
  lemma SketchGenAccepts(name: string, tracked: seq<real>)
    ensures GetSketchGen(name, tracked).Ok? <==>
      name in FreqNames || name in QuantNames
      || (("dyadic" <= name || "q_dyadic" <= name) && GetDyadicBase(name).Ok?)
  {
    FreqByNameMeaning(name, tracked);
    QuantByNameMeaning(name, tracked);
    if "dyadic" <= name || "q_dyadic" <= name {
      DyadicNotExact(name);
    }
  }

  /** A name that is neither exact nor dyadic is an `Invalid Sketch` error
      naming it. */
  lemma SketchGenInvalid(name: string, tracked: seq<real>)
    requires name !in FreqNames && name !in QuantNames && !("dyadic" <= name) && !("q_dyadic" <= name)
    ensures GetSketchGen(name, tracked) == Err(InvalidSketch("Invalid Sketch: " + name))
  {
    FreqByNameMeaning(name, tracked);
    QuantByNameMeaning(name, tracked);
  }

  /** A `"dyadic"` name selects the frequency dyadic generator with height cap
      20 and the base spelled in the name, or fails as the base does. */
  lemma DyadicDispatch(name: string, tracked: seq<real>)
    requires "dyadic" <= name
    ensures GetDyadicBase(name).Ok? ==>
      GetSketchGen(name, tracked) == Ok(DyadicItemDictGen(20, GetDyadicBase(name).value))
    ensures GetDyadicBase(name).Err? ==> GetSketchGen(name, tracked) == Err(GetDyadicBase(name).error)
  {
    DyadicNotExact(name);
    FreqByNameMeaning(name, tracked);
  }

  /** A `"q_dyadic"` name does not start with `"dyadic"`, so it reaches the
      quantile dyadic generator, with height cap 20 and the base spelled in
      the name, or fails as the base does. */
  lemma QDyadicDispatch(name: string, tracked: seq<real>)
    requires "q_dyadic" <= name
    ensures GetDyadicBase(name).Ok? ==>
      GetSketchGen(name, tracked) == Ok(DyadicSeqDictGen(20, GetDyadicBase(name).value))
    ensures GetDyadicBase(name).Err? ==> GetSketchGen(name, tracked) == Err(GetDyadicBase(name).error)
  {
    DyadicNotExact(name);
    FreqByNameMeaning(name, tracked);
    QuantByNameMeaning(name, tracked);
    assert name[0] == 'q';
    assert !("dyadic" <= name);
  }

  /** A frequency name selects its frequency generator. */
  lemma FreqDispatch(name: string, tracked: seq<real>)
    requires name in FreqNames
    ensures FreqByName(name, tracked).Some?
    ensures GetSketchGen(name, tracked) == Ok(FreqByName(name, tracked).value)
  {
    FreqByNameMeaning(name, tracked);
  }

  /** A quantile name is no frequency name and does not start with
      `"dyadic"`, so it selects its quantile generator. */
  lemma QuantDispatch(name: string, tracked: seq<real>)
    requires name in QuantNames
    ensures QuantByName(name, tracked).Some?
    ensures GetSketchGen(name, tracked) == Ok(QuantByName(name, tracked).value)
  {
    FreqByNameMeaning(name, tracked);
    QuantByNameMeaning(name, tracked);
    assert name[0] == 'q' || name[0] == 'k';
    assert !("dyadic" <= name);
  }

  /** The kind of generator an accepted name selects, and the name an
      exact-name generator carries. */
  predicate KindMatches(name: string, g: SketchGen)
  {
    && (g.IsQuantile() <==> ("q_" <= name || name == "kll"))
    && (g.ItemDictCompressorGen? ==> g.name == name)
    && (g.SeqDictCompressorGen? ==> g.name == name)
  }

  lemma FreqKind(name: string, tracked: seq<real>)
    requires name in FreqNames
    ensures GetSketchGen(name, tracked).Ok? && KindMatches(name, GetSketchGen(name, tracked).value)
  {
    NamePrefixes(name);
    FreqDispatch(name, tracked);
    FreqByNameMeaning(name, tracked);
  }

  lemma QuantKind(name: string, tracked: seq<real>)
    requires name in QuantNames
    ensures GetSketchGen(name, tracked).Ok? && KindMatches(name, GetSketchGen(name, tracked).value)
  {
    NamePrefixes(name);
    QuantDispatch(name, tracked);
    QuantByNameMeaning(name, tracked);
  }

  lemma DyadicKind(name: string, tracked: seq<real>)
    requires "dyadic" <= name && GetSketchGen(name, tracked).Ok?
    ensures KindMatches(name, GetSketchGen(name, tracked).value)
  {
    DyadicDispatch(name, tracked);
    assert name[0] == 'd';
  }

  lemma QDyadicKind(name: string, tracked: seq<real>)
    requires "q_dyadic" <= name && GetSketchGen(name, tracked).Ok?
    ensures KindMatches(name, GetSketchGen(name, tracked).value)
  {
    QDyadicDispatch(name, tracked);
    PrefixOfPrefix("q_", "q_dyadic", name);
  }

  lemma PrefixOfPrefix(p: string, q: string, s: string)
    requires p <= q && q <= s
    ensures p <= s
  {
  }

  /** An accepted name selects a quantile generator exactly when it starts
      with `"q_"` or is `"kll"`; exact-name generators carry the name. */
  lemma SketchGenKind(name: string, tracked: seq<real>)
    requires GetSketchGen(name, tracked).Ok?
    ensures GetSketchGen(name, tracked).value.IsQuantile() <==> ("q_" <= name || name == "kll")
    ensures GetSketchGen(name, tracked).value.ItemDictCompressorGen? ==> GetSketchGen(name, tracked).value.name == name
    ensures GetSketchGen(name, tracked).value.SeqDictCompressorGen? ==> GetSketchGen(name, tracked).value.name == name
  {
    if name in FreqNames {
      FreqKind(name, tracked);
    } else if name in QuantNames {
      QuantKind(name, tracked);
    } else if "dyadic" <= name {
      DyadicKind(name, tracked);
    } else {
      SketchGenAccepts(name, tracked);
      QDyadicKind(name, tracked);
    }
  }

  // ---------------------------------------------------------------------
  // Totals and time tags
  // ---------------------------------------------------------------------

  /** The two columns `write_totals` writes. */
  datatype TotalsFrame = TotalsFrame(total: seq<nat>, segIdx: seq<int>)

  /** `total` is each segment's size, `seg_idx` its position. */
  function TotalsFrameOf<T>(segments: seq<seq<T>>): (f: TotalsFrame)
    ensures |f.total| == |segments| && |f.segIdx| == |segments|
    ensures forall i :: 0 <= i < |segments| ==> f.total[i] == |segments[i]| && f.segIdx[i] == i
  {
    TotalsFrame(Lengths(segments), seq(|segments|, i requires 0 <= i < |segments| => i))
  }

  /** The recorded totals add up to the number of rows. */
  lemma TotalsCoverStream<T>(segments: seq<seq<T>>)
    ensures Sum(TotalsFrameOf(segments).total) == |Flatten(segments)|
  {
    FlattenLength(segments);
  }

  /** `np.cumsum`: the running totals of `xs`. */
  function CumSum(xs: seq<int>): (r: seq<int>)
    ensures |r| == |xs|
    ensures xs != [] ==> r[|xs| - 1] == Sum(xs)
  {
    if xs == [] then [] else CumSum(xs[..|xs| - 1]) + [Sum(xs)]
  }

  /** Entry `i` of the running totals is the sum of the first `i + 1` values. */
  lemma {:induction false} CumSumAt(xs: seq<int>)
    ensures forall i :: 0 <= i < |xs| ==> CumSum(xs)[i] == Sum(xs[..i + 1])
  {
    if xs != [] {
      var init := xs[..|xs| - 1];
      CumSumAt(init);
      forall i | 0 <= i < |xs| ensures CumSum(xs)[i] == Sum(xs[..i + 1]) {
        if i < |init| {
          assert init[..i + 1] == xs[..i + 1];
        } else {
          assert xs[..i + 1] == xs;
        }
      }
    }
  }

  /** The time tag of every segment: the number of rows up to and including it. */
  function SegmentTimes<T>(segments: seq<seq<T>>): (times: seq<int>)
    ensures |times| == |segments|
  {
    CumSum(Lengths(segments))
  }

  /** Time tag `i` is the number of rows in segments `0..i`; the tags never
      decrease, and the last one is the stream length. */
  lemma SegmentTimesMeaning<T>(segments: seq<seq<T>>)
    ensures |SegmentTimes(segments)| == |segments|
    ensures forall i :: 0 <= i < |segments| ==> SegmentTimes(segments)[i] == |Flatten(segments[..i + 1])|
    ensures forall i, j :: 0 <= i <= j < |segments| ==> SegmentTimes(segments)[i] <= SegmentTimes(segments)[j]
    ensures |segments| >= 1 ==> SegmentTimes(segments)[|segments| - 1] == |Flatten(segments)|
  {
    var ls := Lengths(segments);
    CumSumAt(ls);
    forall i | 0 <= i < |segments| ensures SegmentTimes(segments)[i] == |Flatten(segments[..i + 1])| {
      FlattenLength(segments[..i + 1]);
      assert Lengths(segments[..i + 1]) == ls[..i + 1];
    }
    forall i, j | 0 <= i <= j < |segments| ensures SegmentTimes(segments)[i] <= SegmentTimes(segments)[j] {
      SumPrefixMonotone(ls, i + 1, j + 1);
    }
    if |segments| >= 1 {
      assert segments[..|segments|] == segments;
    }
  }

  /** Sums of longer prefixes of non-negative values are no smaller. */
  lemma {:induction false} SumPrefixMonotone(xs: seq<nat>, a: nat, b: nat)
    requires a <= b <= |xs|
    ensures Sum(xs[..a]) <= Sum(xs[..b])
  {
    if a < b {
      SumPrefixMonotone(xs, a, b - 1);
      assert xs[..b][..b - 1] == xs[..b - 1];
    }
  }
}
