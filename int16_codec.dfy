/** Machine integers of the firmware and the bit operations it applies to them.
    C's `int` is modelled by Dafny's unbounded `int`: every value the firmware
    shifts or masks (an angle in degrees, an acceleration magnitude) fits in it
    without overflow, so only the narrowing store into an `int16_t` wraps. */
module Int16Codec {

  /** An unsigned 8-bit value: a `uint8_t`, and every byte the serial port sends. */
  newtype byte = x: int | 0 <= x < 0x100

  /** A signed 16-bit two's-complement value: an `int16_t`. */
  newtype int16 = x: int | -0x8000 <= x < 0x8000

  /** Storing an `int` into an `int16_t`: the value congruent to `x` modulo 2^16
      (the conversion GCC defines for out-of-range values). */
  function ToInt16(x: int): (r: int16)
    ensures (r as int - x) % 0x1_0000 == 0
    ensures -0x8000 <= x < 0x8000 ==> r as int == x
  {
    var m := x % 0x1_0000;
    if m < 0x8000 then m as int16 else (m - 0x1_0000) as int16
  }

  /** `v >> 8` on a signed `int`: an arithmetic shift, i.e. division by 256
      rounded toward minus infinity. */
  function Asr8(v: int): (r: int)
    ensures 0x100 * r <= v < 0x100 * r + 0x100
  {
    v / 0x100
  }

  /** `v & 0xFF` on a two's-complement `int`: the low eight bits, which are
      what is left of `v` once the arithmetic shift has taken the rest. */
  function LowByte(v: int): (r: byte)
    ensures v == 0x100 * Asr8(v) + r as int
  {
    (v % 0x100) as byte
  }

  /** `(v >> 8) & 0xFF`: bits 8 to 15 of `v`, so that `v` is its high byte
      and low byte on top of a multiple of 2^16. */
  function HighByte(v: int): (r: byte)
    ensures v == 0x1_0000 * Asr8(Asr8(v)) + 0x100 * r as int + LowByte(v) as int
  {
    LowByte(Asr8(v))
  }

  /** `hi << 8 | lo` on two bytes promoted to `int` (the bits do not overlap,
      so the `|` is an addition), stored into an `int16_t`. */
  function DecodeBE16(hi: byte, lo: byte): (r: int16)
    ensures r as int == if hi as int * 0x100 + lo as int < 0x8000
                        then hi as int * 0x100 + lo as int
                        else hi as int * 0x100 + lo as int - 0x1_0000
    ensures r < 0 <==> hi >= 0x80
  {
    ToInt16(hi as int * 0x100 + lo as int)
  }

  /** Two values congruent modulo 2^16 are stored as the same `int16_t`. */
  lemma ToInt16Congruent(x: int, y: int)
    requires (x - y) % 0x1_0000 == 0
    ensures ToInt16(x) == ToInt16(y)
  {
    var rx, ry := ToInt16(x) as int, ToInt16(y) as int;
    var d := rx - ry;
    assert d % 0x1_0000 == 0 by {
      assert (rx - x) % 0x1_0000 == 0 && (ry - y) % 0x1_0000 == 0;
      assert d == (rx - x) - (ry - y) + (x - y);
      ModSum3(rx - x, ry - y, x - y);
    }
    assert -0x1_0000 < d < 0x1_0000;
  }

  /** Multiples of 2^16 are closed under sums and differences. */
  lemma ModSum3(a: int, b: int, c: int)
    requires a % 0x1_0000 == 0 && b % 0x1_0000 == 0 && c % 0x1_0000 == 0
    ensures (a - b + c) % 0x1_0000 == 0
  {
    var qa, qb, qc := a / 0x1_0000, b / 0x1_0000, c / 0x1_0000;
    assert a == 0x1_0000 * qa && b == 0x1_0000 * qb && c == 0x1_0000 * qc;
    assert a - b + c == 0x1_0000 * (qa - qb + qc);
  }

  /** The high and low bytes of any `int`, put back together as `hi << 8 | lo`
      and stored into an `int16_t`, give that `int` wrapped to 16 bits; for a
      value that already fits, they give the value back. */
  lemma {:induction false} DecodeOfSplit(v: int)
    ensures DecodeBE16(HighByte(v), LowByte(v)) == ToInt16(v)
    ensures -0x8000 <= v < 0x8000 ==> DecodeBE16(HighByte(v), LowByte(v)) as int == v
  {
    var q, lo := Asr8(v), LowByte(v);
    var p, hi := Asr8(q), LowByte(q);
    assert v == 0x100 * q + lo as int;
    assert q == 0x100 * p + hi as int;
    var w := hi as int * 0x100 + lo as int;
    assert v - w == 0x1_0000 * p;
    assert (v - w) % 0x1_0000 == 0;
    ToInt16Congruent(w, v);
  }

  /** Splitting a decoded value gives back the bytes it was decoded from. */
  lemma {:induction false} SplitOfDecode(hi: byte, lo: byte)
    ensures HighByte(DecodeBE16(hi, lo) as int) == hi
    ensures LowByte(DecodeBE16(hi, lo) as int) == lo
  {
    var v := DecodeBE16(hi, lo) as int;
    var w := hi as int * 0x100 + lo as int;
    if w < 0x8000 {
      assert v == 0x100 * hi as int + lo as int;
      LowByteUnique(v, hi as int, lo);
      LowByteUnique(hi as int, 0, hi);
    } else {
      assert v == 0x100 * (hi as int - 0x100) + lo as int;
      LowByteUnique(v, hi as int - 0x100, lo);
      LowByteUnique(hi as int - 0x100, -1, hi);
    }
  }

  /** The decomposition `v == 256 * q + b` with `b` a byte is unique. */
  lemma LowByteUnique(v: int, q: int, b: byte)
    requires v == 0x100 * q + b as int
    ensures Asr8(v) == q && LowByte(v) == b
  {
    var q', b' := Asr8(v), LowByte(v);
    assert 0x100 * (q - q') == b' as int - b as int;
  }
}
