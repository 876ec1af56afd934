/** Single bits of a byte, as the null bitmaps read and write them. */
module Bits {
  function Flag(v: bool): bv8 { if v then 1 else 0 }

  function Mask(k: nat): bv8
    requires k < 8
  {
    (1 as bv8) << k
  }

  predicate Bit(b: bv8, k: nat)
    requires k < 8
  {
    b & Mask(k) != 0
  }

  lemma Masks(k: nat)
    requires k < 8
    ensures Mask(k) == [1, 2, 4, 8, 16, 32, 64, 128][k]
    ensures (0 as bv8) << k == 0
  {
    if k == 0 {} else if k == 1 {} else if k == 2 {} else if k == 3 {} else if k == 4 {} else if k == 5 {}
    else if k == 6 {}
    else { assert k == 7; }
  }

  lemma MasksApart(k: nat, j: nat)
    requires k < 8 && j < 8
    ensures Mask(k) & Mask(j) == if k == j then Mask(k) else 0
    ensures Mask(k) != 0
  {
    Masks(k);
    Masks(j);
  }

  lemma Distribute(b: bv8, m: bv8, n: bv8)
    ensures (b | m) & n == (b & n) | (m & n)
    ensures (b & !m) & n == (b & n) & !(m & n)
    ensures b | 0 == b
  {
  }

  lemma Absorb(x: bv8, n: bv8)
    ensures (x & n) | n == n
    ensures (x & n) & !n == 0
    ensures (x & n) & !0 == x & n
  {
  }

  /** Shifting a flag into place and or-ing it in. */
  lemma OrBit(b: bv8, k: nat, v: bool, j: nat)
    requires k < 8 && j < 8
    ensures Bit(b | (Flag(v) << k), j) == (Bit(b, j) || (j == k && v))
  {
    Masks(k);
    Distribute(b, Flag(v) << k, Mask(j));
    MasksApart(k, j);
    Absorb(b, Mask(j));
    Distribute(b & Mask(j), 0, 0);
  }

  lemma ClearBit(b: bv8, k: nat, j: nat)
    requires k < 8 && j < 8
    ensures Bit(b & !Mask(k), j) == (Bit(b, j) && j != k)
  {
    Distribute(b, Mask(k), Mask(j));
    MasksApart(k, j);
    Absorb(b, Mask(j));
  }

  lemma AllOrNothing(k: nat)
    requires k < 8
    ensures Bit(0xFF, k) && !Bit(0, k)
  {
    Masks(k);
    MasksApart(k, k);
  }
}
