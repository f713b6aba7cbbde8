/**
  The byte encoders the driver uses to split coordinates into register
  bytes, and the value a controller reads back from them.
 */
module Bytes {
  /** `(byte)(v & 0xFF)`; Dafny's `%` is never negative, matching the
      two's-complement mask for negative v too. */
  function Lo(v: int): bv8 {
    (v % 256) as bv8
  }

  /** `(byte)((v >> 8) & 0xFF)`; the arithmetic shift floors, as `/` by a
      positive divisor does here. */
  function Hi(v: int): bv8 {
    Lo(v / 256)
  }

  /** `(byte)((x >> 3) & 0xFF)`: the byte column of pixel column x. */
  function Column(x: int): bv8 {
    Lo(x / 8)
  }

  /** The 16-bit value a controller reads from a low and a high byte. */
  function Word(lo: bv8, hi: bv8): nat {
    lo as int + 256 * hi as int
  }

  /** A byte pair from Lo and Hi reads back as the value it encodes. */
  lemma WordLoHi(v: int)
    requires 0 <= v < 65536
    ensures Word(Lo(v), Hi(v)) == v
  {
    LoValue(v);
    LoValue(v / 256);
    assert 0 <= v / 256 < 256;
    assert (v / 256) % 256 == v / 256;
    assert v == 256 * (v / 256) + v % 256;
  }

  lemma LoValue(v: int)
    ensures Lo(v) as int == v % 256
  {
    ByteRound(v % 256);
  }

  /** A value in byte range survives the round trip through bv8. The split
      into quarters keeps each conversion query small. */
  lemma ByteRound(m: int)
    requires 0 <= m < 256
    ensures (m as bv8) as int == m
  {
    if m < 128 {
      if m < 64 { } else { }
    } else {
      if m < 192 { } else { }
    }
  }

  /** A byte column names the 8-pixel group holding x; the low three bits of
      x are dropped. */
  lemma ColumnHolds(x: int)
    requires 0 <= x < 2048
    ensures 8 * Column(x) as int <= x < 8 * Column(x) as int + 8
  {
    LoValue(x / 8);
  }
}
