/** Masking a wrapped index with a power of two, which is how the queue divides. */
module Masks {
  import opened Bits
  import opened BitStrings
  import opened BlockIndexRing

  /** `x & y` */
  function And(x: nat, y: nat): nat {
    if x == 0 || y == 0 then 0 else 2 * And(x / 2, y / 2) + (if x % 2 == 1 && y % 2 == 1 then 1 else 0)
  }

  lemma {:induction false} AndLow(x: nat, k: nat)
    ensures And(x, Pow2(k) - 1) == Low(x, k)
    decreases k
  {
    if k == 0 {
      assert Pow2(0) == 1;
    } else {
      assert Pow2(k) == 2 * Pow2(k - 1);
      AndLow(x / 2, k - 1);
      LowOfZero(k - 1);
    }
  }

  lemma {:induction false} LowOfZero(k: nat)
    ensures Low(0, k) == 0
  {
    if k > 0 { LowOfZero(k - 1); }
  }

  /** `x & (d - 1)` for a power of two: the remainder, also of an index that wrapped around or below zero. */
  lemma MaskIsRemainder(x: int, bits: nat, k: nat)
    requires k <= bits
    ensures And(x % Pow2(bits), Pow2(k) - 1) == x % Pow2(k)
  {
    var r := x % Pow2(bits);
    AndLow(r, k);
    ShrLowAre(r, k, Pow2(k));
    Pow2Add(bits - k, k);
    RemainderTwice(x, Pow2(bits), Pow2(k), Pow2(bits - k));
  }

  lemma RemainderTwice(x: int, m: nat, d: nat, more: nat)
    requires m == more * d && d > 0 && more > 0
    ensures m > 0 && x % m % d == x % d
  {
    DivMod(x, m);
    RemainderOf(x, d, more, x / m, x % m);
  }

  lemma RemainderOf(x: int, d: nat, more: nat, q: int, r: nat)
    requires d > 0 && x == q * (more * d) + r
    ensures r % d == x % d
  {
    DivMod(r, d);
    assert q * (more * d) == (q * more) * d;
    assert x == (q * more + r / d) * d + r % d;
    ModIs(x, d, q * more + r / d, r % d);
  }

  /** One step of the mask that clears: its lowest bit is clear. */
  lemma HalfCleared(x: nat, top: nat, d: nat)
    requires 0 < d <= top
    ensures And(x, 2 * top - 2 * d) == 2 * And(x / 2, top - d)
  {
    var y := 2 * top - 2 * d;
    assert y / 2 == top - d && y % 2 == 0;
  }

  lemma MultipleDoubles(x: nat, d: nat)
    requires d > 0
    ensures 2 * d > 0 && x / (2 * d) * (2 * d) == 2 * (x / 2 / d * d)
  {
    DivDiv(x, 2, d);
    var q := x / 2 / d;
    assert q * (2 * d) == 2 * (q * d);
  }

  /** `x & ~(d - 1)`, in a word of `bits` bits: the multiple at or below. */
  lemma {:induction false} ClearingIsMultiple(x: nat, bits: nat, k: nat)
    requires k <= bits && x < Pow2(bits)
    ensures Pow2(k) <= Pow2(bits) && And(x, Pow2(bits) - Pow2(k)) == x / Pow2(k) * Pow2(k)
    decreases k
  {
    hide And;
    Pow2LessEq(k, bits);
    if k == 0 {
      AndLow(x, bits);
      LowBound(x, bits);
      assert Pow2(0) == 1;
    } else {
      var d := Pow2(k - 1);
      assert Pow2(k) == 2 * d && Pow2(bits) == 2 * Pow2(bits - 1);
      ClearingIsMultiple(x / 2, bits - 1, k - 1);
      HalfCleared(x, Pow2(bits - 1), d);
      MultipleDoubles(x, d);
    }
  }
}
