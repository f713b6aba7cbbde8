module Bits {
  /** The mask `0x80 >> k` of bit k, counted from the most significant bit;
      spelled out so that no proof has to shift by an unknown amount. */
  function Mask(k: nat): bv8
    requires k < 8
  {
    if k == 0 then 0x80 else if k == 1 then 0x40 else if k == 2 then 0x20 else if k == 3 then 0x10
    else if k == 4 then 0x08 else if k == 5 then 0x04 else if k == 6 then 0x02 else 0x01
  }

  /** The table agrees with the shift the packer writes. */
  lemma MaskShift(k: nat)
    requires k < 8
    ensures Mask(k) == (0x80 as bv8) >> k
  {
  }

  predicate Lit(b: bv8, k: nat)
    requires k < 8
  {
    b & Mask(k) != 0
  }

  /** `b & ~(0x80 >> k)`: bit k cleared, every other bit kept. */
  function ClearBit(b: bv8, k: nat): (r: bv8)
    requires k < 8
    ensures !Lit(r, k)
    ensures forall j :: 0 <= j < 8 && j != k ==> (Lit(r, j) <==> Lit(b, j))
  {
    ClearBitSpec(b, k);
    b & !Mask(k)
  }

  lemma ClearBitSpec(b: bv8, k: nat)
    requires k < 8
    ensures !Lit(b & !Mask(k), k)
    ensures forall j :: 0 <= j < 8 && j != k ==> (Lit(b & !Mask(k), j) <==> Lit(b, j))
  {
    forall j | 0 <= j < 8 && j != k
      ensures Lit(b & !Mask(k), j) <==> Lit(b, j)
    {
      DistinctMasks(k, j);
    }
  }

  /** Two different bits have disjoint masks. */
  lemma DistinctMasks(k: nat, j: nat)
    requires k < 8 && j < 8 && j != k
    ensures Mask(j) & !Mask(k) == Mask(j)
  {
  }

  /** A byte is determined by its eight bits. */
  lemma Ext(a: bv8, b: bv8)
    requires forall k :: 0 <= k < 8 ==> (Lit(a, k) <==> Lit(b, k))
    ensures a == b
  {
    var bitsA := [Lit(a, 0), Lit(a, 1), Lit(a, 2), Lit(a, 3), Lit(a, 4), Lit(a, 5), Lit(a, 6), Lit(a, 7)];
    var bitsB := [Lit(b, 0), Lit(b, 1), Lit(b, 2), Lit(b, 3), Lit(b, 4), Lit(b, 5), Lit(b, 6), Lit(b, 7)];
    assert bitsA == bitsB;
    SameBits(a, b);
  }

  lemma SameBits(a: bv8, b: bv8)
    requires (a & 0x80 != 0) == (b & 0x80 != 0) && (a & 0x40 != 0) == (b & 0x40 != 0)
    requires (a & 0x20 != 0) == (b & 0x20 != 0) && (a & 0x10 != 0) == (b & 0x10 != 0)
    requires (a & 0x08 != 0) == (b & 0x08 != 0) && (a & 0x04 != 0) == (b & 0x04 != 0)
    requires (a & 0x02 != 0) == (b & 0x02 != 0) && (a & 0x01 != 0) == (b & 0x01 != 0)
    ensures a == b
  {
  }

  /** Every bit of 0xFF is set. */
  lemma AllLit(k: nat)
    requires k < 8
    ensures Lit(0xFF, k)
  {
  }
}
