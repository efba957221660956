/**
 * index.js: a histogram of observations that keeps its own count of recorded
 * values beside the native histogram, derives degrees of freedom and the
 * Student's t critical value from that count, and frames the native encoding
 * behind the count as a big-endian unsigned 64-bit integer.
 */
module StudentHistogram {
  import opened Wrappers
  import opened Uint64BE
  import opened TCritical
  import opened NativeHdr

  /** The confidence used when neither the call nor the constructor gives one. */
  const DEFAULT_CONFIDENCE: real := 0.95

  /** What `minimumSize` computes from: nothing when the sample is too small, else the critical value t. */
  datatype SampleSize = NotANumber | FromCritical(t: real)

  class Histogram {
    /** this[_native] */
    const native: NativeHistogram
    /** this[_confidence]: the confidence used when a call omits one. */
    const confidence: JsValue
    /** this[_size]: the number of values recorded since the last reset or decode. */
    var size: nat

    /**
     * `new Histogram(min, max, figures, opts)`; optConfidence is the value of
     * `opts && opts.confidence`, and accepts stands for which values the
     * native histogram of that configuration can record.
     */
    constructor (min: Option<real>, max: Option<real>, figures: Option<int>, optConfidence: JsValue, accepts: real -> bool)
      ensures fresh(native)
      ensures native.lowest == (if min.Some? then min.value else 1.0)
      ensures native.highest == (if max.Some? then max.value else 100.0)
      ensures native.figures == (if figures.Some? then figures.value else 3)
      ensures native.accepts == accepts && native.decoded == []
      ensures size == 0
      ensures confidence == if Truthy(optConfidence) then optConfidence else Num(DEFAULT_CONFIDENCE)
      ensures Truthy(confidence)
    {
      var lowest := if min.Some? then min.value else 1.0;
      var highest := if max.Some? then max.value else 100.0;
      var digits := if figures.Some? then figures.value else 3;
      native := new NativeHistogram(lowest, highest, digits, accepts);
      size := 0;
      confidence := if Truthy(optConfidence) then optConfidence else Num(DEFAULT_CONFIDENCE);
    }

    /** `record(value)`: true exactly when the native histogram accepts value; only then is it counted. */
    method Record(value: real) returns (ok: bool)
      modifies this, native
      ensures ok == native.accepts(value)
      ensures size == if ok then old(size) + 1 else old(size)
      ensures ok ==> Df() == old(Df()) + 1
      ensures !ok ==> native.payload == old(native.payload)
      ensures native.decoded == old(native.decoded)
    {
      ok := native.Record(value);
      if ok {
        size := size + 1;
      }
    }

    /** `reset()`: empties the native histogram and the count, whatever they held. */
    method Reset()
      modifies this, native
      ensures size == 0 && Df() == -1
      ensures native.decoded == old(native.decoded)
    {
      native.Reset();
      size := 0;
    }

    /** `df()`: one less than the count, and so -1 for an empty histogram; not clamped. */
    function Df(): (df: int)
      reads this
      ensures df + 1 == size
      ensures df >= -1 && (df == -1 <==> size == 0)
    {
      size - 1
    }

    /** `confidence || this[_confidence]`: a falsy confidence means the constructor's. */
    function ResolvedConfidence(c: JsValue): (r: JsValue)
      reads this
      ensures Truthy(c) ==> r == c
      ensures !Truthy(c) ==> r == confidence
    {
      if Truthy(c) then c else confidence
    }

    /** `tcritical(confidence)`: the lookup at df clamped to at least 1, with the confidence resolved. */
    function Tcritical(rows: Rows, c: JsValue): (r: Result<real, Error>)
      reads this
      ensures size <= 2 ==> r == Lookup(rows, Num(1.0), ResolvedConfidence(c))
      ensures size > 2 ==> r == Lookup(rows, Num(Df() as real), ResolvedConfidence(c))
      ensures r != Failure(TypeError(DfArgument))
    {
      var df := if Df() > 1 then Df() else 1;
      Lookup(rows, Num(df as real), ResolvedConfidence(c))
    }

    /**
     * `minimumSize(rme, confidence)` up to its floating-point formula: NaN for
     * fewer than two values before anything is looked up, otherwise whatever
     * the critical-value lookup gives (a value to compute from, or its error).
     */
    function MinimumSize(rows: Rows, c: JsValue): (r: Result<SampleSize, Error>)
      reads this
      ensures r == Success(NotANumber) <==> size < 2
      ensures size >= 2 ==> (r.Success? <==> Tcritical(rows, c).Success?)
      ensures size >= 2 && r.Success? ==> r.value == FromCritical(Tcritical(rows, c).value)
      ensures size >= 2 && r.Failure? ==> r.error == Tcritical(rows, c).error
    {
      if size < 2 then Success(NotANumber)
      else
        match Tcritical(rows, c)
        case Success(t) => Success(FromCritical(t))
        case Failure(e) => Failure(e)
    }

    /** `encode()`: the count as 8 big-endian bytes, then the native encoding. */
    function Encode(): (buf: seq<byte>)
      reads this, native
      ensures |buf| == UINT64_SIZE + |native.payload|
      ensures ToNumber(buf) == size % UINT64_RANGE
      ensures buf[UINT64_SIZE..] == native.payload
    {
      var head := ToBuffer(size);
      assert (head + native.payload)[..UINT64_SIZE] == head;
      head + native.payload
    }

    /**
     * `decode(buf)`: the count becomes the first 8 bytes, read big-endian, and
     * the native histogram is handed the rest. The count is assigned first, so
     * it changes even when the native decode throws (ok is false).
     */
    method Decode(buf: seq<byte>) returns (ok: bool)
      requires |buf| >= UINT64_SIZE
      modifies this, native
      ensures size == ToNumber(buf)
      ensures native.decoded == old(native.decoded) + [buf[UINT64_SIZE..]]
      ensures !ok ==> native.payload == old(native.payload)
    {
      size := ToNumber(buf);
      ok := native.Decode(buf[UINT64_SIZE..]);
    }
  }

  /** `h.decode(h.encode())`: the count comes back and the native decoder gets its own encoding. */
  method EncodeThenDecode(h: Histogram) returns (ok: bool)
    modifies h, h.native
    ensures h.size == old(h.size) % UINT64_RANGE
    ensures old(h.size) <= MAX_SAFE_INTEGER ==> h.size == old(h.size)
    ensures h.native.decoded == old(h.native.decoded) + [old(h.native.payload)]
  {
    var buf := h.Encode();
    ok := h.Decode(buf);
    assert MAX_SAFE_INTEGER < UINT64_RANGE by {
      assert UINT64_RANGE == 0x1_0000_0000_0000_0000;
    }
  }

  /** Two records in a row: each one counted counts once, so from empty two successes give df 1. */
  method RecordTwice(h: Histogram, a: real, b: real) returns (okA: bool, okB: bool)
    modifies h, h.native
    ensures okA == h.native.accepts(a) && okB == h.native.accepts(b)
    ensures h.size == old(h.size) + (if okA then 1 else 0) + (if okB then 1 else 0)
    ensures old(h.size) == 0 && okA && okB ==> h.size == 2 && h.Df() == 1
  {
    okA := h.Record(a);
    okB := h.Record(b);
  }

  /** Many observations and no confidence anywhere: the normal-distribution 1.960. */
  lemma LargeSampleDefaultConfidence(h: Histogram, rows: Rows, c: JsValue)
    requires h.size > T_TABLE_RANGE + 1 && h.confidence == Num(DEFAULT_CONFIDENCE)
    requires !Truthy(c)
    ensures h.Tcritical(rows, c) == Success(1.960)
  {
    InfiniteDf(rows, Num(h.Df() as real));
  }
}
