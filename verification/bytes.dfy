/** Little-endian byte access as done by Node's `Buffer` and the browser's
    `DataView`, and the byte split produced by JavaScript's `x & 0xFF`,
    `(x >> 8) & 0xFF` and `DataView.setInt16`. */
module Bytes {

  type byte = x: int | 0 <= x < 256

  const TwoTo16: int := 65536
  const TwoTo15: int := 32768

  function U8(s: seq<byte>, off: nat): (v: nat)
    requires off < |s|
    ensures v < 256
  {
    s[off]
  }

  /** `readUInt16LE` / `getUint16(off, true)`. */
  function U16Le(s: seq<byte>, off: nat): (v: nat)
    requires off + 2 <= |s|
    ensures v < TwoTo16
  {
    (s[off] as int) + 256 * (s[off + 1] as int)
  }

  /** `readInt16LE` / `getInt16(off, true)`: two's complement. */
  function I16Le(s: seq<byte>, off: nat): (v: int)
    requires off + 2 <= |s|
    ensures -TwoTo15 <= v < TwoTo15
    ensures v >= 0 ==> v == U16Le(s, off)
    ensures v < 0 ==> v == U16Le(s, off) - TwoTo16
  {
    var u := U16Le(s, off);
    if u >= TwoTo15 then u - TwoTo16 else u
  }

  /** `b0 | (b1 << 8) | (b2 << 16)`: an unsigned 24-bit value. */
  function U24Le(s: seq<byte>, off: nat): (v: nat)
    requires off + 3 <= |s|
    ensures v < 256 * TwoTo16
  {
    U16Le(s, off) + TwoTo16 * (s[off + 2] as int)
  }

  /** `getUint32(off, true)`. */
  function U32Le(s: seq<byte>, off: nat): (v: nat)
    requires off + 4 <= |s|
  {
    U16Le(s, off) + TwoTo16 * U16Le(s, off + 2)
  }

  /** JavaScript `x & 0xFF` for an integer `x` (ToInt32 keeps the low bits). */
  function LowByte(x: int): (b: byte)
    ensures 0 <= x < 256 ==> b == x
  {
    x % 256
  }

  /** JavaScript `(x >> 8) & 0xFF` for an integer `x`. */
  function HighByte(x: int): (b: byte)
    ensures 0 <= x < 256 ==> b == 0
  {
    (x / 256) % 256
  }

  /** Splitting with `& 0xFF` / `>> 8` and reading back with `readUInt16LE`
      gives the value back for every unsigned 16-bit value. */
  lemma SplitReadUnsigned(x: int)
    requires 0 <= x < TwoTo16
    ensures U16Le([LowByte(x), HighByte(x)], 0) == x
  {
    assert x / 256 < 256;
  }

  /** ... and `readInt16LE` gives it back for every signed 16-bit value. */
  lemma SplitReadSigned(x: int)
    requires -TwoTo15 <= x < TwoTo15
    ensures I16Le([LowByte(x), HighByte(x)], 0) == x
  {
    if x >= 0 {
      SplitReadUnsigned(x);
    } else {
      var w := x + TwoTo16;
      assert LowByte(x) == LowByte(w) && HighByte(x) == HighByte(w) by {
        SplitShift(x, 1);
      }
      SplitReadUnsigned(w);
    }
  }

  /** Adding a multiple of 2^16 changes neither byte of the split. */
  lemma SplitShift(x: int, k: int)
    ensures LowByte(x + k * TwoTo16) == LowByte(x)
    ensures HighByte(x + k * TwoTo16) == HighByte(x)
  {
    var q := x / 256;
    DivModUnique(x + k * TwoTo16, q + k * 256, x % 256);
    DivModUnique(q + k * 256, q / 256 + k, q % 256);
  }

  /** Division by 256 is determined by quotient and remainder. */
  lemma DivModUnique(y: int, a: int, b: int)
    requires 0 <= b < 256 && y == a * 256 + b
    ensures y / 256 == a && y % 256 == b
  {
  }

  /** `DataView.setInt16(off, x, true)`: ToInt16 wrap, then little-endian. */
  function Int16LeBytes(x: int): (r: seq<byte>)
    ensures |r| == 2
  {
    var w := x % TwoTo16;
    [w % 256, w / 256]
  }

  /** `setInt16` writes the same two bytes as the `& 0xFF` / `>> 8` split, for
      every integer. */
  lemma Int16LeBytesIsSplit(x: int)
    ensures Int16LeBytes(x) == [LowByte(x), HighByte(x)]
  {
    var w := x % TwoTo16;
    var k := x / TwoTo16;
    assert x == w + k * TwoTo16;
    SplitShift(w, k);
    assert w / 256 < 256;
  }
}
