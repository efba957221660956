/**
 * The native HDR histogram addon (native-hdr-histogram), seen only through the
 * calls index.js makes on it. Which values it can record and the bytes of its
 * encoding belong to the addon: here they are an acceptance predicate fixed
 * when the histogram is built, and an opaque byte string that its operations
 * may replace.
 */
module NativeHdr {
  import opened Uint64BE

  class NativeHistogram {
    const lowest: real
    const highest: real
    const figures: int
    /** Whether `record(value)` finds a bucket for value; fixed by the configuration. */
    const accepts: real -> bool
    /** The histogram's state, as its `encode()` returns it. */
    var payload: seq<byte>
    /** Every byte string handed to `decode()`, oldest first. */
    ghost var decoded: seq<seq<byte>>

    /** `new NativeHistogram(min, max, figures)` */
    constructor (lowest: real, highest: real, figures: int, accepts: real -> bool)
      ensures this.lowest == lowest && this.highest == highest && this.figures == figures
      ensures this.accepts == accepts
      ensures decoded == []
    {
      this.lowest, this.highest, this.figures := lowest, highest, figures;
      this.accepts := accepts;
      payload := *;
      decoded := [];
    }

    /** `record(value)`: true when the value was counted; a refused value changes nothing. */
    method Record(value: real) returns (ok: bool)
      modifies this
      ensures ok == accepts(value)
      ensures !ok ==> payload == old(payload)
      ensures decoded == old(decoded)
    {
      ok := accepts(value);
      if ok {
        payload := *;
      }
    }

    /** `reset()`: empties the buckets. */
    method Reset()
      modifies this
      ensures decoded == old(decoded)
    {
      payload := *;
    }

    /**
     * `decode(bytes)`: replaces the state from an encoding; false stands for
     * the addon throwing on bytes it cannot read, which leaves the state alone.
     */
    method Decode(bytes: seq<byte>) returns (ok: bool)
      modifies this
      ensures decoded == old(decoded) + [bytes]
      ensures !ok ==> payload == old(payload)
    {
      decoded := decoded + [bytes];
      ok := *;
      if ok {
        payload := *;
      }
    }
  }
}
