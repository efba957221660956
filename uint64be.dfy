/**
 * The observable effect of the int64-buffer package as index.js uses it:
 * `new Uint64BE(n).toBuffer()` writes the low 64 bits of a non-negative
 * integer as 8 bytes, most significant first, and
 * `new Uint64BE(buf, 0).toNumber()` reads the first 8 bytes of a buffer back
 * as an unsigned integer.
 */
module Uint64BE {

  type byte = x: int | 0 <= x < 256

  /** Width in bytes of the encoded count. */
  const UINT64_SIZE: nat := 8

  /** Number.MAX_SAFE_INTEGER, 2^53 - 1: the largest count a JavaScript number holds exactly. */
  const MAX_SAFE_INTEGER: nat := 0x1F_FFFF_FFFF_FFFF

  function Pow256(k: nat): (r: nat)
    ensures r > 0
  {
    if k == 0 then 1 else 256 * Pow256(k - 1)
  }

  /** 2^64: one more than the largest value 8 bytes can hold. */
  const UINT64_RANGE: nat := Pow256(UINT64_SIZE)

  /** The last `width` bytes of n in base 256, most significant first. */
  function ToBytes(n: nat, width: nat): (r: seq<byte>)
    ensures |r| == width
  {
    if width == 0 then [] else ToBytes(n / 256, width - 1) + [n % 256]
  }

  /** The big-endian unsigned integer that s spells. */
  function FromBytes(s: seq<byte>): (r: nat)
    ensures r < Pow256(|s|)
  {
    if s == [] then 0 else FromBytes(s[..|s| - 1]) * 256 + s[|s| - 1]
  }

  /** Reading back what ToBytes wrote gives the number, when it fits in the width. */
  lemma {:induction false} FromToBytes(n: nat, width: nat)
    requires n < Pow256(width)
    ensures FromBytes(ToBytes(n, width)) == n
  {
    if width > 0 {
      var init := ToBytes(n / 256, width - 1);
      var s := init + [n % 256];
      assert s[..|s| - 1] == init;
      FromToBytes(n / 256, width - 1);
    }
  }

  /** Writing back what FromBytes read gives the same bytes. */
  lemma {:induction false} ToFromBytes(s: seq<byte>)
    ensures ToBytes(FromBytes(s), |s|) == s
  {
    if s != [] {
      var init := s[..|s| - 1];
      var n := FromBytes(s);
      assert n / 256 == FromBytes(init) && n % 256 == s[|s| - 1];
      ToFromBytes(init);
      assert s == init + [s[|s| - 1]];
    }
  }

  /** `new Uint64BE(n).toBuffer()`: the low 64 bits of n, big-endian. */
  function ToBuffer(n: nat): (r: seq<byte>)
    ensures |r| == UINT64_SIZE
    ensures FromBytes(r) == n % UINT64_RANGE
  {
    FromToBytes(n % UINT64_RANGE, UINT64_SIZE);
    ToBytes(n % UINT64_RANGE, UINT64_SIZE)
  }

  /** `new Uint64BE(buf, 0).toNumber()`: the first 8 bytes of buf as a big-endian unsigned integer. */
  function ToNumber(buf: seq<byte>): (n: nat)
    requires |buf| >= UINT64_SIZE
    ensures n < UINT64_RANGE
    ensures ToBuffer(n) == buf[..UINT64_SIZE]
  {
    ToFromBytes(buf[..UINT64_SIZE]);
    FromBytes(buf[..UINT64_SIZE])
  }

  /** Every count up to 2^53 - 1 survives toBuffer followed by toNumber. */
  lemma SafeCountRoundTrip(n: nat)
    requires n <= MAX_SAFE_INTEGER
    ensures ToNumber(ToBuffer(n)) == n
  {
    assert UINT64_RANGE == 0x1_0000_0000_0000_0000;
    assert ToBuffer(n)[..UINT64_SIZE] == ToBuffer(n);
  }
}
