# sketchstore core in Dafny

sketchstore precomputes a *story board*: a table holding one compact
summary (sketch) per segment of a data stream, with the segment's dimension
key and its exact row count. Later it answers range queries by merging the
sketches of the matching segments. This project models four pieces of that
pipeline and proves what each one promises:

- **The linear planner** (`planner.dfy`, class `Planner.LinearFreqPlanner`)
  splits a metric column into `numSegments` contiguous groups. It uses the
  base length `n / numSegments`, and the last group takes the remainder.
  Group `i` is keyed `[i]`. `Plan` keeps the source's nested loops. It is
  proved to produce `Partition(col, k)` and `Keys(k)`. Lemmas then give the
  partition's shape and show that concatenating the groups gives the column
  back.
- **The linear accumulator query processor** (`query.dfy`, class
  `Query.LinearAccProcessor`) works on a board of three parallel columns.
  `Query` resets the accumulator first. It then merges the sketch of every
  segment whose key lies in `[startIdx, endIdx)`, compressing after each
  merge when a budget is set, and estimates every tracked key.
  - The accumulator is modelled by the log of operations applied to it. Its
    estimate depends only on the operations since the last reset.
  - `Total` adds up the exact totals of the same segments, and both methods
    leave the number of matching segments in `span`.
- **The skip compressor and the rank tracker** (`compress_quant.dfy`).
  - `SkipCompressor.Compress` cuts a sorted sequence into chunks of width
    `ceil(n / size)` and stores one element per chunk, weighted by the
    chunk's width. It takes the middle element when biased and an arbitrary
    one otherwise.
  - The rank tracker histograms the negated values. Each tracked value then
    receives the count of the values in `(previous tracked value, it]`.
- **The board driver's helpers** (`linear_board.dfy`):
  - the dyadic base spelled after the last `"_b"` of a sketch name;
  - the sketch-generator dispatch by name;
  - the board and totals file names;
  - the totals columns;
  - the cumulative time tags.

`collections.dfy` holds shared value helpers: Python dictionaries built by
successive assignment, and flattening. `pipeline.dfy` connects the pieces.
It builds a board from the planner's output and answers range queries on
it, both keyed by segment id and keyed by the driver's time tags.

Two behaviours of the code worth knowing:

- **More segments than rows.** The planner accepts this. The base length is then 0:
  every leading segment is empty and the last one holds every row
  (`Planner.MoreSegmentsThanRows`).
- **The range `[20, 40)` over 100 rows in 10 segments.** With the planner's
  keys `0..9` it matches no segment (`Pipeline.HundredRowsPlannerKeys`). It
  matches two segments, ids 1 and 2, only when the segments carry the
  Python driver's cumulative time tags `10, 20, ..., 100`
  (`Pipeline.HundredRowsTimeTags`).

## Model

| member | source | states |
|---|---|---|
| Planner.LinearFreqPlanner.constructor | java/src/main/java/board/planner/LinearFreqPlanner.java:20-25 | the implicit constructor: zero segments, size 0, and both lists null (`None`) until the first plan |
| Planner.LinearFreqPlanner.Plan | java/src/main/java/board/planner/LinearFreqPlanner.java:28-53 | given the metric column's values, succeeds exactly when `numSegments >= 1`; the values become `Partition(col, numSegments)` and the keys `Keys(numSegments)`; zero segments replaces both lists by empty ones and fails; a negative count fails before anything is replaced, so lists still null stay null; the settings are unchanged |
| Planner.LinearFreqPlanner.GetSegments | java/src/main/java/board/planner/LinearFreqPlanner.java:55-58 | returns the value groups: null exactly when the keys are null, and otherwise one group per dimension key |
| Planner.LinearFreqPlanner.GetDimensions | java/src/main/java/board/planner/LinearFreqPlanner.java:60-63 | returns the dimension keys: null exactly when the groups are null, and otherwise one key per group, key `i` being `[i]` |
| Planner.Partition | java/src/main/java/board/planner/LinearFreqPlanner.java:34-51 | the value groups `plan` produces: exactly `k` of them, none larger than the column |
| Planner.Keys | java/src/main/java/board/planner/LinearFreqPlanner.java:35-50 | the dimension keys `plan` produces: exactly `k` of them |
| Planner.LinearFreqPlanner.SetParams | java/src/main/java/board/planner/LinearFreqPlanner.java:65-68 | succeeds exactly when `num_segments` is present with an integer value, and then sets `numSegments` to it; otherwise nothing changes |
| Planner.Boundary | java/src/main/java/board/planner/LinearFreqPlanner.java:40-44 | every segment boundary lies inside the column |
| Planner.BoundaryStep | java/src/main/java/board/planner/LinearFreqPlanner.java:40-44 | a segment's start is never after its end |
| Planner.InnerSegment | java/src/main/java/board/planner/LinearFreqPlanner.java:38-48 | every segment but the last holds exactly the `n / k` rows starting at `i * (n / k)`, in order |
| Planner.LastSegment | java/src/main/java/board/planner/LinearFreqPlanner.java:42-44 | the last segment runs from `(k - 1) * (n / k)` to the end, which is `n / k + n % k` rows |
| Planner.PartitionShape | java/src/main/java/board/planner/LinearFreqPlanner.java:37-51 | exactly `k` segments; all but the last have `n / k` rows and the last has `n / k + n % k` |
| Planner.FlattenPrefix | java/src/main/java/board/planner/LinearFreqPlanner.java:39-49 | the first `m` segments concatenated are the column up to boundary `m` |
| Planner.PartitionCovers | java/src/main/java/board/planner/LinearFreqPlanner.java:39-49 | concatenating all segments in order gives back the column: nothing is dropped, duplicated or reordered |
| Planner.MoreSegmentsThanRows | java/src/main/java/board/planner/LinearFreqPlanner.java:38-44 | with more segments than rows, all leading segments are empty and the last one is the whole column |
| Planner.KeysAscending | java/src/main/java/board/planner/LinearFreqPlanner.java:50 | there are `k` keys; key `i` is the singleton `[i]`; keys strictly increase and so are distinct |
| Query.ResetForgets | java/src/main/java/board/query/LinearAccProcessor.java:33-47 | after a reset followed by operations with no reset among them, the accumulator's state is those operations alone |
| Query.MatchingExact | java/src/main/java/board/query/LinearAccProcessor.java:36-46 | the segments merged are exactly those with key in `[lo, hi)`; they are merged in strictly ascending id order; their count is `span` |
| Query.SpanCounts | java/src/main/java/board/query/LinearAccProcessor.java:34-41 | `span` is the size of the set of ids whose key lies in `[lo, hi)` |
| Query.MergeOpsCompressing | java/src/main/java/board/query/LinearAccProcessor.java:36-44 | with a positive budget, the operations alternate: the merge of matching sketch `j`, then a compression to the budget |
| Query.MergeOpsPlain | java/src/main/java/board/query/LinearAccProcessor.java:36-44 | without a budget, the operations are just the merges of the matching sketches, in ascending id order |
| Query.MergeOpsNoReset | java/src/main/java/board/query/LinearAccProcessor.java:36-46 | the merge loop never resets the accumulator |
| Query.TotalOfMatching | java/src/main/java/board/query/LinearAccProcessor.java:51-62 | `total` sums the totals of exactly the segments that `query` merges |
| Query.EmptyRange | java/src/main/java/board/query/LinearAccProcessor.java:33-62 | an empty or inverted range gives span 0, total 0 and no merge |
| Query.SpanMonotone | java/src/main/java/board/query/LinearAccProcessor.java:36-41 | widening the range never decreases `span` |
| Query.TotalMonotone | java/src/main/java/board/query/LinearAccProcessor.java:53-60 | with non-negative totals, widening the range never decreases the total |
| Query.Accumulator.constructor | java/src/main/java/board/query/LinearAccProcessor.java:15 | a new accumulator has an empty operation log |
| Query.Accumulator.Reset | java/src/main/java/board/query/LinearAccProcessor.java:33 | appends a reset; the merged state becomes empty |
| Query.Accumulator.AddSketch | java/src/main/java/board/query/LinearAccProcessor.java:40 | appends the merge of the sketch |
| Query.Accumulator.Compress | java/src/main/java/board/query/LinearAccProcessor.java:43 | appends a compression to the budget |
| Query.Accumulator.Estimate | java/src/main/java/board/query/LinearAccProcessor.java:47 | one estimate per key, in key order, each computed from the merged state since the last reset |
| Query.LinearAccProcessor.constructor | java/src/main/java/board/query/LinearAccProcessor.java:19-26 | keeps the accumulator and budget; the range and `span` start at 0 |
| Query.LinearAccProcessor.Query | java/src/main/java/board/query/LinearAccProcessor.java:28-48 | the accumulator is reset and then receives exactly `MergeOps`; `span` counts the matching segments; the results are the estimates of every key from that merged state alone |
| Query.LinearAccProcessor.Total | java/src/main/java/board/query/LinearAccProcessor.java:50-63 | returns the sum of the matching segments' totals, sets `span` the same way, and leaves the accumulator untouched |
| Query.LinearAccProcessor.GetSpan | java/src/main/java/board/query/LinearAccProcessor.java:65-68 | returns the span of the last query or total |
| Query.LinearAccProcessor.SetRange | java/src/main/java/board/query/LinearAccProcessor.java:70-74 | sets both ends of the range and nothing else |
| QuantCompress.SkipWidth | python/sketch/compress_quant.py:36 | the chunk width `ceil(n / size)`: `size` chunks of it cover `n` items, one less would not, and it is at least 1 for non-empty input |
| QuantCompress.ChunkInside | python/sketch/compress_quant.py:39-58 | every chunk is non-empty and ends inside the input |
| QuantCompress.ChunkCountBound | python/sketch/compress_quant.py:35-60 | the compressor never stores more chunks than the requested size |
| QuantCompress.TailChunk | python/sketch/compress_quant.py:41-58 | a shorter tail chunk exists exactly when the width does not divide `n`; it starts after the last full chunk and holds the remaining `1 .. skip - 1` items |
| QuantCompress.FullChunksWeigh | python/sketch/compress_quant.py:41-49 | the first `m` full chunks weigh `m * skip` together |
| QuantCompress.WeightsSum | python/sketch/compress_quant.py:41-58 | the chunk weights add up to the number of items |
| QuantCompress.FullChunkStep | python/sketch/compress_quant.py:41-49 | a chunk that ends by `n` is a full chunk of width `skip` |
| QuantCompress.FullChunksDone | python/sketch/compress_quant.py:41-51 | when the loop stops, every full chunk has been visited |
| QuantCompress.AllMiddle | python/sketch/compress_quant.py:42-54 | choosing the middle of every chunk gives the biased offsets |
| QuantCompress.MiddleFits | python/sketch/compress_quant.py:43-54 | the middle offset of each chunk lies inside it |
| QuantCompress.PicksAppend | python/sketch/compress_quant.py:46-58 | saving the element at offset `o` of the next chunk, with that chunk's width as weight, extends the dictionary by the next assignment |
| QuantCompress.PicksInChunks | python/sketch/compress_quant.py:41-58 | each assignment stores an element of its own chunk, weighted by that chunk's width |
| QuantCompress.SavedWeights | python/sketch/compress_quant.py:41-58 | a key is stored with the width of the last chunk that chose it; with distinct keys the stored weights sum to `n` |
| QuantCompress.SavedFromInput | python/sketch/compress_quant.py:46-58 | every stored key is an element of the input |
| QuantCompress.SkipCompressor.constructor | python/sketch/compress_quant.py:25-29 | keeps the size and the biased flag |
| QuantCompress.SkipCompressor.Compress | python/sketch/compress_quant.py:31-60 | the result is the dictionary of the per-chunk assignments, one per chunk; offsets are inside their chunks and are the middles when biased; at most `size` keys, all taken from the input |
| QuantCompress.RankTracker.Compress | python/sketch/compress_quant.py:14-22 | the rank tracker's dictionary has at most one entry per tracked value, and every key is a tracked value |
| QuantCompress.Histogram | python/sketch/compress_quant.py:20 | `np.histogram` over explicit edges: one count per bin, none exceeding the number of values |
| QuantCompress.BinCount | python/sketch/compress_quant.py:20 | a bin never counts more values than there are |
| QuantCompress.RankTracker.NegatedEdges | python/sketch/compress_quant.py:19-20 | the edges `-bin_edges[::-1]`: one more edge than tracked values, counting the prepended `-inf` (each edge's value, the closing `+inf` included, is stated by `NegatedEdgesAt`) |
| QuantCompress.RankTracker.Weights | python/sketch/compress_quant.py:19-20 | one weight per tracked value |
| QuantCompress.RankTracker.Entries | python/sketch/compress_quant.py:21 | the comprehension's key/value pairs: one per tracked value, in order, pairing `x_tracked[i]` with weight `i` of the reversed histogram |
| QuantCompress.NegatedEdgesAt | python/sketch/compress_quant.py:19-20 | the negated, reversed edges are `-t[m-1], ..., -t[0], +inf` |
| QuantCompress.BinOf | python/sketch/compress_quant.py:19-20 | the bin of tracked value `i` after negation runs from `-t[i]` to minus its lower edge |
| QuantCompress.HistogramAt | python/sketch/compress_quant.py:20 | bin `k` of the histogram counts the values between edges `k` and `k + 1`, and the last bin is closed |
| QuantCompress.RankDefined | python/sketch/compress_quant.py:18-22 | the tracker answers exactly when the tracked values are sorted, because the histogram refuses decreasing edges |
| QuantCompress.NegatedBin | python/sketch/compress_quant.py:18-20 | histogramming `-x` over the negated edges counts `x` in the left-open interval `(lo, a]` |
| QuantCompress.WeightAt | python/sketch/compress_quant.py:18-21 | weight `i` counts the values in `(t[i-1], t[i]]`, with `t[-1] = -inf` |
| QuantCompress.RankCounts | python/sketch/compress_quant.py:14-22 | for strictly increasing tracked values the dictionary has one entry per tracked value; each maps to the count of the values in its interval |
| QuantCompress.CountSplit | python/sketch/compress_quant.py:18-21 | counts of adjacent left-open intervals add up |
| QuantCompress.WeightsPrefixSum | python/sketch/compress_quant.py:18-21 | the first `m` weights add up to the number of values at most `t[m-1]` |
| QuantCompress.RankTotal | python/sketch/compress_quant.py:18-22 | all weights together count the values not above the largest tracked value; larger values are dropped |
| Collections.ToDict | python/sketch/compress_quant.py:37-58 | the dictionary a run of `d[k] = v` assignments builds, here `saved` (lines 37, 47, 58) and the comprehension at line 21: the key of the final assignment holds its value |
| Collections.ToDictKeys | python/sketch/compress_quant.py:21 | the keys of a dictionary built by successive assignment are exactly the assigned keys |
| Collections.ToDictSize | python/sketch/compress_quant.py:37-58 | a dictionary built from `n` assignments has at most `n` entries |
| Collections.ToDictLastWins | python/sketch/compress_quant.py:47 | a key holds the value of its last assignment |
| Collections.ToDictDistinctSize | python/sketch/compress_quant.py:21 | with distinct keys no entry is lost |
| Collections.FlattenLength | python/linear_board.py:169 | the total number of rows is the sum of the segment lengths |
| Collections.Lengths | python/linear_board.py:169 | one length per segment, in order (the comprehension itself; what the lengths add up to is `Collections.FlattenLength`) |
| LinearBoard.DigitChar | python/linear_board.py:149 | the decimal digit character of a digit value |
| LinearBoard.NatToString | python/linear_board.py:149 | the spelling of a non-negative number is a non-empty string of digits |
| LinearBoard.IntToString | python/linear_board.py:149 | the spelling of an integer is a non-empty string of digits and minus signs |
| LinearBoard.ParseInt | python/linear_board.py:62 | `int()` on a string: any failure is the invalid-literal error for that very string; an accepted string ends in a digit, and a negative result needs a leading minus |
| LinearBoard.NatToStringValue | python/linear_board.py:62 | reading back the digits of `str(k)` gives `k` |
| LinearBoard.ParseIntRoundTrip | python/linear_board.py:62 | `int(str(k)) == k` for every integer |
| LinearBoard.IntToStringInjective | python/linear_board.py:149 | different numbers have different spellings |
| LinearBoard.ParseIntRejects | python/linear_board.py:62 | text without digits is an invalid literal |
| LinearBoard.RFindUpTo | python/linear_board.py:62 | the last occurrence of the pattern at or before `i`, or `-1` when there is none |
| LinearBoard.RFind | python/linear_board.py:62 | `rfind` returns an occurrence with no later one, or `-1` when there is none |
| LinearBoard.SliceFrom | python/linear_board.py:62 | Python's `s[start:]`, negative starts counting from the end, clamped at both ends |
| LinearBoard.GetDyadicBase | python/linear_board.py:61-62 | the only failure is an invalid literal, and a name whose base parses ends in a digit |
| LinearBoard.DyadicBaseOf | python/linear_board.py:61-62 | a name ending in `_b` followed by the spelling of `k` has base `k`, whatever comes before |
| LinearBoard.DyadicBaseExample | python/linear_board.py:61-62 | `dyadic_b2` has base 2 |
| LinearBoard.QDyadicBaseExample | python/linear_board.py:61-62 | `q_dyadic_b2` has base 2 |
| LinearBoard.DyadicBaseMissing | python/linear_board.py:61-62 | without `_b`, the slice starts at index 1 and `dyadic` fails as the literal `yadic` |
| LinearBoard.PathJoin | python/linear_board.py:147-150 | `os.path.join`: the result ends with the second part, and starts with the first unless the second is absolute |
| LinearBoard.GetFileName | python/linear_board.py:142-151 | the board file is a `.pkl` file inside the board directory, unless the sketch name is absolute |
| LinearBoard.GetTotalsName | python/linear_board.py:154-163 | the totals file is `totals.csv` inside the board directory |
| LinearBoard.Trunc | python/linear_board.py:149 | `int` on a float truncates toward zero |
| LinearBoard.BoardDir | python/linear_board.py:143-146 | the board directory ends with a slash |
| LinearBoard.BoardLeaf | python/linear_board.py:149 | the file's own name `{sketch}_{int(size)}.pkl`: it starts with the sketch name followed by `_` and ends with `.pkl` |
| LinearBoard.LeafStart | python/linear_board.py:149 | the file's own name is non-empty and starts with the sketch name; its first character is the name's first, or `_` when the name is empty |
| LinearBoard.LeafDeterminesSize | python/linear_board.py:149 | two sizes give the same file name exactly when they truncate to the same integer |
| LinearBoard.FileNameShape | python/linear_board.py:142-151 | the board file is `{sketch}_{int(size)}.pkl` inside the board directory, unless the sketch name is absolute and replaces the directory |
| LinearBoard.TotalsNameShape | python/linear_board.py:154-163 | the totals file is `totals.csv` in the board directory |
| LinearBoard.SameDirectory | python/linear_board.py:142-163 | for a relative sketch name, the board file and the totals file share the directory and differ |
| LinearBoard.FileNameDeterminesSize | python/linear_board.py:142-151 | boards of one sketch get the same file exactly when their sizes truncate alike |
| LinearBoard.FreqByNameMeaning | python/linear_board.py:72-98 | exactly the six frequency names select a frequency generator, and an exact-name generator carries the name |
| LinearBoard.QuantByNameMeaning | python/linear_board.py:105-131 | exactly the six quantile names select a quantile generator, and an exact-name generator carries the name |
| LinearBoard.DyadicNotExact | python/linear_board.py:99-132 | no exact name starts with `dyadic` or `q_dyadic` |
| LinearBoard.NamePrefixes | python/linear_board.py:72-131 | the quantile names start with `q_` or are `kll`, and the frequency names do neither |
| LinearBoard.SketchGenAccepts | python/linear_board.py:70-139 | a name is accepted exactly when it is an exact name, or a dyadic name whose base parses |
| LinearBoard.SketchGenInvalid | python/linear_board.py:137-138 | any other name is an `Invalid Sketch` error naming it |
| LinearBoard.DyadicDispatch | python/linear_board.py:99-103 | a `dyadic` name selects the frequency dyadic generator with height cap 20 and the parsed base, or fails as the base does |
| LinearBoard.QDyadicDispatch | python/linear_board.py:132-136 | a `q_dyadic` name selects the quantile dyadic generator with height cap 20 and the parsed base, or fails as the base does |
| LinearBoard.FreqDispatch | python/linear_board.py:72-98 | a frequency name selects its own generator |
| LinearBoard.QuantDispatch | python/linear_board.py:105-131 | a quantile name is tried after the `dyadic` prefix and still selects its own generator |
| LinearBoard.GetSketchGen | python/linear_board.py:70-139 | a failure is either the dyadic base's invalid literal, only for names with a dyadic prefix, or the `Invalid Sketch` error naming the name |
| LinearBoard.SketchGenKind | python/linear_board.py:70-139 | an accepted name selects a quantile generator exactly when it starts with `q_` or is `kll`; exact-name generators carry the name |
| LinearBoard.TotalsFrameOf | python/linear_board.py:166-172 | the `total` column holds each segment's size and `seg_idx` its position (the frame itself; that the totals cover the stream is `LinearBoard.TotalsCoverStream`) |
| LinearBoard.TotalsCoverStream | python/linear_board.py:169-171 | the recorded totals add up to the number of rows |
| LinearBoard.SegmentTimes | python/linear_board.py:187 | one time tag per segment |
| LinearBoard.CumSum | python/linear_board.py:187 | `np.cumsum`: one running total per value, the last being the sum of all values |
| LinearBoard.CumSumAt | python/linear_board.py:187 | entry `i` of the running totals is the sum of the first `i + 1` values |
| LinearBoard.SegmentTimesMeaning | python/linear_board.py:187 | time tag `i` is the number of rows in segments `0..i`; tags never decrease and the last one is the stream length |
| Pipeline.PlannedBoard | java/src/main/java/board/planner/LinearFreqPlanner.java:34-51 | the planner's keys, one sketch per segment and the segment sizes form a well-formed board with `k` segments |
| Pipeline.PlannedSegment | java/src/main/java/board/planner/LinearFreqPlanner.java:40-50 | segment `i` of that board has key `i` and as total the rows between its boundaries |
| Pipeline.PlannedPrefix | java/src/main/java/board/query/LinearAccProcessor.java:33-62 | over the planned board, the first `m` segments contribute the ids `lo ..` up to the clamp of `m`, and their totals are the rows between those boundaries |
| Pipeline.PlannedRange | java/src/main/java/board/query/LinearAccProcessor.java:36-62 | a query for keys `[lo, hi)` merges segments `lo .. hi - 1` in order, its span is `hi - lo`, and its total is the number of rows those segments hold |
| Pipeline.BoundaryMonotone | java/src/main/java/board/planner/LinearFreqPlanner.java:40-44 | later segments start no earlier |
| Pipeline.PlannedTotalAll | java/src/main/java/board/query/LinearAccProcessor.java:51-62 | the whole key range totals every row of the column |
| Pipeline.HundredRows | java/src/main/java/board/planner/LinearFreqPlanner.java:37-44 | 100 rows in 10 segments gives 10 rows each |
| Pipeline.HundredRowsPlannerKeys | java/src/main/java/board/query/LinearAccProcessor.java:36-62 | with planner keys, `[2, 4)` merges segments 2 and 3 for 20 rows, and `[20, 40)` matches nothing |
| Pipeline.SpanAbove | java/src/main/java/board/query/LinearAccProcessor.java:36-41 | keys all below the range give span 0 |
| Pipeline.TimedBoard | python/linear_board.py:187-193 | the board keyed by the cumulative time tags is well formed |
| Pipeline.HundredRowsTimeTags | python/linear_board.py:187-193 | 100 rows in 10 segments get the tags `10, ..., 100`; `[20, 40)` then matches segments 1 and 2, spans 2 and totals 20 |
| Pipeline.TimeTagQuery | java/src/main/java/board/query/LinearAccProcessor.java:36-62 | on tags `10, ..., 100` with totals 10, `[20, 40)` matches ids 1 and 2 and totals 20 |

## Left out

- `QueryRunner`, `BFGSOptimizer`, `StoryBoard` serialization and the Python tests are not part of this model. They drive or store the core but do not define it.
- Accumulator and sketch internals (`Accumulator.addSketch`, `compress`, `estimate`, and the sketches themselves) are not modelled. The accumulator is a log of operations with an estimator function as parameter, so the model states which sketches are merged and in what order, not what the estimate is.
- Java's 32-bit `int` is modelled as an unbounded integer. In the core this only widens the 32-bit inputs (`num_segments`, `startIdx`, `endIdx`). No intermediate value can wrap: `n = col.size()` is itself an `int`, `(i+1)*segLength <= numSegments*(n/numSegments) <= n`, and `span` never exceeds the number of segments.
- Board totals are Java `double`s; the model uses integers, so floating-point rounding of the summed totals is left out.
- Planner.LinearFreqPlanner.Plan: the exceptions of a zero or negative `numSegments` (division by zero, a negative list capacity) are a `false` result. The states the lists are left in are modelled, not the exception types.
- Planner.LinearFreqPlanner.Plan: the table lookup and cast `(LongColumn)data.column(metricCol)` (LinearFreqPlanner.java lines 31-32) are not modelled; the method receives the column's `long` values as integers. A missing column or one that is not a `LongColumn` throws there, before either list is replaced, so the lists stay unchanged; that failure is outside the model.
- Planner.LinearFreqPlanner.SetParams: the null-pointer and class-cast exceptions for a missing or non-integer entry are a `false` result.
- QuantCompress.SkipCompressor.Compress: requires a non-empty input and `size >= 1`. The source fails otherwise:
  - on empty input it raises an index error, or an error for an empty random range;
  - when `size` is 0 it divides by zero;
  - when `size` is negative, `skip = int(ceil(n/size))` is 0 or negative. Unbiased, the empty random range raises at once. Biased, the indices walk backwards until they pass the start of the list and raise. Biased with `size < -n`, `skip` is 0 and the `while` loop (compress_quant.py lines 41-49) never ends.
- QuantCompress.SkipCompressor.Compress: the seeded random generator of the unbiased mode is not modelled. Each unbiased offset is an arbitrary one inside its chunk, recorded in the ghost `offsets`, and the contract holds for every choice.
- QuantCompress.SkipWidth: Python computes `ceil(n / size)` in floating point; the model uses the exact integer ceiling. The two differ only when `n` exceeds 2^53.
- QuantCompress.SkipCompressor.Compress and QuantCompress.RankTracker.Compress return Python dictionaries, which keep insertion order. A Dafny `map` has no order, so that order is dropped; no property here depends on it.
- `QRandomSampleCompressor`, `CoopCompressor` and `find_next_c` in `compress_quant.py` are not part of this model. The dispatch names `QRandomSampleCompressor` and `CoopCompressorFinite` only as generator choices. The skip compressor and the rank tracker are the compressors modelled.
- QuantCompress.RankTracker.Compress: numpy arrays of reals are sequences of reals. Floating-point `-inf` edges are the datatype `Ext`, and `x_to_track = None` is not modelled.
- LinearBoard.ParseInt: Python's `int` also accepts surrounding whitespace and digit-separating underscores. The model accepts an optional sign followed by ASCII digits only.
- LinearBoard.GetSketchGen: the generators are modelled as values naming their compressor and its settings. Constructing the compressors is not modelled, including the failures the source hits there:
  - `SkipCompressor(biased=...)` (linear_board.py lines 125 and 130) and `QRandomSampleCompressor()` (line 118) are called without their required `size` argument, so `q_truncation`, `q_pps` and `q_random_sample` raise `TypeError` as written. This includes `q_pps`, the only name `main` runs (line 213).
  - `CoopCompressorFinite` (line 113) is not defined in `compress_quant.py`.
- `get_dyadic_adjusted_size`, `get_dataset`, `get_tracked`, `np.array_split`, `board_gen.BoardGen`, `main` and the file writing and printing in `run_test` are left out. They are I/O, floating-point logarithms or third-party code. The time tags are modelled on any given segmentation; the tag records `run_test` builds from them (lines 190-192) are not.
