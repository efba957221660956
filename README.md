# student-histogram, modelled in Dafny

student-histogram wraps a native HDR histogram in a JavaScript class,
`Histogram`, that adds what sampling statistics need on top of it. The
class keeps its own count of recorded observations (`size`) beside the
native histogram. From that count it derives the degrees of freedom
`df = size - 1`, and it looks up the two-tailed Student's t critical value
for a confidence level. Its serialisation puts the count first, as an
8-byte big-endian unsigned integer, and then the native encoding. The t
lookup, `tcritical`, checks its arguments, picks a row of precomputed
critical values and matches `1 - confidence` exactly against seven
significance levels.

The model has five modules:

- `Wrappers`: `Option` and `Result`. A `Result` stands for a value or a
  thrown error.
- `Uint64BE`: what the int64-buffer package does for index.js.
  `ToBuffer` writes the low 64 bits of a count big-endian. `ToNumber` reads
  8 bytes back. Both are proved inverse to each other.
- `TCritical` (lib/tcritical.js): which JavaScript values count as
  numbers, which are truthy, the columns and their significance levels, the
  infinity row, row selection, and `Lookup`, which is `tcritical` itself.
  The rows for df 1 to 200 come from the sample-sizer package and are a
  parameter `rows: map<int, Row>`. A `Row` is a partial map from column to
  value.
- `NativeHdr`: the native addon, reduced to its interface. Which values it
  records is an acceptance predicate fixed at construction. Its encoding is
  an opaque byte string (`payload`) that its operations may replace. A ghost
  log keeps every byte string handed to its decoder.
- `StudentHistogram` (index.js): the class `Histogram`. Its fields are
  `native`, `confidence` and `size`. `Record`, `Reset` and `Decode` are
  methods that change `size`. `Df`, `Tcritical`, the `minimumSize` guard and
  `Encode` are functions that read the state.

A finite JavaScript number is modelled as the exact decimal it prints as.
That is also the value big.js parses it into, so `1 - confidence` is exact
in the model, as it is in the source.

Three behaviours of the code that the model keeps:

- `decode` assigns the count before the native decoder runs
  (index.js:115-116). So a native decode that throws still leaves the new
  count.
- The infinity row covers only a10, a05, a02 and a01 (lib/tcritical.js:10-17).
  So for df > 200 the confidences .995, .998 and .999 throw the missing-entry
  RangeError (lib/tcritical.js:66-72).
- An infinite confidence passes the number check (lib/tcritical.js:25), and
  then big.js throws while parsing it (lib/tcritical.js:42). This is
  `DecimalError`.

## Model

`Lookup` is written with these definitions in `TCritical`. Each follows the
source lines given:

- `IsNumber`: `typeof x === 'number' && !isNaN(x)` (lib/tcritical.js:21, 25).
- `Infinite`: `df > T_TABLE_RANGE` (lib/tcritical.js:29).
- `FiniteRow`: `TTABLE[df || 1]`. df 0 names row 1, and only whole numbers
  name a row (lib/tcritical.js:30).
- `SelectRow`: the infinity row or the finite row (lib/tcritical.js:29-30).
- `INFINITY_ROW`: `TTABLE.infinity` (lib/tcritical.js:12-17).
- `Alpha`: `Number(new Big(1).minus(confidence))`, exact. It has no value for
  an infinite confidence, which big.js refuses (lib/tcritical.js:42).
- `Truthy`: JavaScript truthiness, as `||` tests it (index.js:25, 69).

| member | source | states |
|---|---|---|
| `Uint64BE.ToBuffer` | index.js:108 | the count becomes 8 bytes, and reading them big-endian gives the count modulo 2^64 |
| `Uint64BE.ToNumber` | index.js:115 | the first 8 bytes, read big-endian, give a value below 2^64, and writing that value back gives the same 8 bytes |
| `Uint64BE.FromToBytes` | index.js:107-115 | reading back a big-endian encoding gives the number whenever it fits in the width |
| `Uint64BE.ToFromBytes` | index.js:107-115 | encoding a read-back value at the same width gives the original bytes |
| `Uint64BE.SafeCountRoundTrip` | index.js:107 | every count up to 2^53 - 1 survives toBuffer followed by toNumber |
| `TCritical.ColumnFor` | lib/tcritical.js:46-64 | the alpha if-chain picks a column whose level is exactly alpha, or none when no column's level is alpha |
| `TCritical.LevelsDistinct` | lib/tcritical.js:47-60 | no two columns share a significance level, so at most one column matches |
| `TCritical.Lookup` | lib/tcritical.js:20-75 | TypeError for df exactly when df is not a non-NaN number; TypeError for confidence exactly when df is one and confidence is not; for numeric arguments, MissingRow(df) when no row is selected, then DecimalError for an infinite confidence, then UnsupportedConfidence when 1 - confidence is no column's level, then MissingEntry(df, confidence) when the selected row lacks that column; otherwise success, exactly when some column whose level is 1 - confidence holds an entry in the selected row, and the result is that entry, unchanged |
| `TCritical.AcceptedConfidence` | lib/tcritical.js:46-64 | 1 - v is one of the seven levels exactly when v is one of .9, .95, .98, .99, .995, .998, .999 |
| `TCritical.LevelSelectsColumn` | lib/tcritical.js:42-74 | confidence 1 - level(col) returns column col of the selected row; confidence 0.95 returns a05 |
| `TCritical.UnsupportedConfidenceIff` | lib/tcritical.js:61-64 | once a row is found, a finite confidence throws the unsupported-confidence RangeError exactly when it is not an accepted confidence |
| `TCritical.RejectsConfidence93` | lib/tcritical.js:61-64 | confidence 0.93 throws the unsupported-confidence RangeError for every row |
| `TCritical.InfiniteDf` | lib/tcritical.js:12-72 | for df > 200, .90, .95, .98 and .99 give 1.645, 1.960, 2.326 and 2.576; .995, .998 and .999 throw the missing-entry RangeError |
| `TCritical.ZeroDfIsOne` | lib/tcritical.js:30 | df 0 succeeds exactly when df 1 does, with the same value, and throws a RangeError exactly when df 1 does |
| `TCritical.NoRowForUntabulatedDf` | lib/tcritical.js:29-38 | when the finite rows cover only df 1 to 200, a negative or fractional df up to 200 throws the missing-row RangeError naming that df |
| `TCritical.MissingRowIsFinite` | lib/tcritical.js:29-38 | the missing-row error comes only from a numeric df of at most 200 that has no finite row |
| `NativeHdr.NativeHistogram.constructor` | index.js:20 | the native histogram keeps the range, the precision and the acceptance predicate it is built with, and nothing has been decoded yet |
| `NativeHdr.NativeHistogram.Record` | index.js:29 | native record answers the acceptance predicate, and a refused value leaves its state unchanged |
| `NativeHdr.NativeHistogram.Reset` | index.js:42 | native reset does not touch the decode log; its new encoding is opaque |
| `NativeHdr.NativeHistogram.Decode` | index.js:116 | native decode receives the given bytes; when it throws, its state is left unchanged |
| `StudentHistogram.Histogram.constructor` | index.js:14-26 | missing min, max and figures default to 1, 100 and 3; the count starts at 0; the stored confidence is the option when it is truthy and 0.95 otherwise, so it is always truthy |
| `StudentHistogram.Histogram.Record` | index.js:28-35 | returns true exactly when the native histogram accepts the value; the count, and so df, goes up by exactly 1 then and stays unchanged otherwise |
| `StudentHistogram.Histogram.Reset` | index.js:41-44 | the count becomes 0 and df becomes -1, whatever the state before |
| `StudentHistogram.Histogram.Df` | index.js:64 | df plus 1 is the count; df is -1 exactly for an empty histogram and is never clamped |
| `StudentHistogram.Histogram.ResolvedConfidence` | index.js:69 | a truthy confidence is used as given; a falsy one (omitted, 0, NaN) falls back to the constructor's |
| `StudentHistogram.Histogram.Tcritical` | index.js:67-70 | counts 0, 1 and 2 all use the df 1 row; larger counts use df = size - 1; df is always a number, so no df TypeError can arise |
| `StudentHistogram.Histogram.MinimumSize` | index.js:96-99 | the NaN sentinel is returned exactly when fewer than two values are recorded, before any lookup; otherwise the lookup's value or error is passed on unchanged |
| `StudentHistogram.Histogram.Encode` | index.js:106-112 | the output is 8 + payload length bytes; the first 8 read big-endian give the count modulo 2^64, and the rest are exactly the native payload |
| `StudentHistogram.Histogram.Decode` | index.js:114-117 | the count becomes the big-endian value of the first 8 bytes, even when the native decoder throws; the native decoder receives exactly bytes 8 onward |
| `StudentHistogram.EncodeThenDecode` | index.js:106-117 | decoding a histogram's own encoding restores the count modulo 2^64, and restores it exactly for every count up to 2^53 - 1; the native decoder receives the original payload |
| `StudentHistogram.RecordTwice` | test.js:9-17 | each accepted record counts once, so from an empty histogram two accepted records give size 2 and df 1 |
| `StudentHistogram.LargeSampleDefaultConfidence` | index.js:67-70 | with more than 201 observations and the default confidence, the critical value is the normal 1.960 |

## Left out

- `stddev`, `mean`, `min`, `max` and `percentile` (index.js:47-58) pass through to the native addon. Its bucket layout, statistics and percentile range check are not part of this model.
- `sem`, `moe` and `rme` (index.js:61, 73-80) are not modelled, and neither is the `minimumSize` formula (index.js:99-103). They are floating-point arithmetic (square root, division, `Math.ceil`) over native statistics. `MinimumSize` keeps the `size < 2` guard and the lookup with its errors, and returns the critical value t that the formula would start from.
- StudentHistogram.Histogram.Decode: requires at least 8 bytes. For a shorter buffer, int64-buffer does not read the bytes as a number: it treats the buffer as a value to convert, and the outcome depends on that library's conversion rules.
- StudentHistogram.Histogram.Record: the count is an exact natural number. In JavaScript it is a double, so counting stops increasing past 2^53.
- StudentHistogram.Histogram.Decode: a decoded count above 2^53 is kept exactly. In JavaScript `toNumber` (index.js:115) rounds it to the nearest double, and `Uint64BE.ToNumber` does not model that rounding.
- NativeHdr.NativeHistogram.Record: which values are accepted is an arbitrary predicate fixed at construction. The addon's own range and precision rules are not modelled, and neither is what it does with a value that is not a number.
- NativeHdr.NativeHistogram.Decode: whether the addon accepts an encoding is arbitrary, and the state after a successful decode, reset or record is an opaque byte string. The addon's encoding format is not part of this model.
- The native constructor throwing on a configuration it refuses, for example min above max, is not modelled.
- The contents of the sample-sizer rows for df 1 to 200 are not modelled. They are a parameter, and only their key range is constrained, by `WithinRange`.
- Error messages are not modelled. Each error records only its kind and the argument that caused it. The `∞` label in messages is not modelled either.
- `Number(...)` turns the exact decimal alpha back into a double before the `===` comparison. The model compares the exact decimal instead. The two could differ only for a decimal within half a double step of one of the seven levels. Doubles near the accepted confidences are far enough apart that this should not arise, but the model does not prove it.
- `record` with a value that is not a number is not modelled: values are `real`.
