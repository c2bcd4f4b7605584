/** The walk over the decoding table: adding an odd stride modulo a power of two visits every cell
    exactly once before it returns to cell 0. */
module FseWalk {
  import opened Bits
  import opened Pigeonhole

  /** FSE_TABLESTEP */
  function TableStep(tableSize: nat): nat {
    tableSize / 2 + tableSize / 8 + 3
  }

  lemma StepFromFive(tableLog: nat)
    requires tableLog >= 5
    ensures TableStep(Pow2(tableLog)) % 2 == 1
  {
    var p := Pow2(tableLog - 5);
    assert Pow2(tableLog - 4) == 2 * p;
    assert Pow2(tableLog - 3) == 4 * p;
    assert Pow2(tableLog - 2) == 8 * p;
    assert Pow2(tableLog - 1) == 16 * p;
    assert Pow2(tableLog) == 32 * p;
    OddStep(p);
  }

  lemma OddStep(p: nat)
    ensures TableStep(32 * p) % 2 == 1
  {
    assert TableStep(32 * p) == 2 * (10 * p + 1) + 1;
  }

  /** The stride is odd for every table but those of 2 and of 8 cells. */
  lemma StepIsOdd(tableLog: nat)
    ensures TableStep(Pow2(tableLog)) % 2 == 1 <==> tableLog != 1 && tableLog != 3
  {
    assert Pow2(0) == 1 && Pow2(1) == 2 && Pow2(2) == 4;
    assert Pow2(3) == 8 && Pow2(4) == 16;
    if tableLog >= 5 { StepFromFive(tableLog); }
  }

  /** `(position + step) & tableMask` */
  function Move(size: nat, step: nat, position: nat): (p: nat)
    requires size > 0
    ensures p < size
  {
    (position + step) % size
  }

  /** The position after `j` moves from cell 0. */
  function Walk(size: nat, step: nat, j: nat): (p: nat)
    requires size > 0
    ensures p < size
  {
    if j == 0 then 0 else Move(size, step, Walk(size, step, j - 1))
  }

  lemma {:induction false} WalkIs(size: nat, step: nat, j: nat)
    requires size > 0
    ensures Walk(size, step, j) == (j * step) % size
  {
    if j == 0 {
      SmallDivMod(0, size);
    } else {
      WalkIs(size, step, j - 1);
      var before := (j - 1) * step;
      DivMod(before, size);
      assert j * step == before + step;
      assert before + step == before % size + step + before / size * size;
      AddMultipleDiv(before % size + step, before / size, size);
    }
  }

  /** In a table of 2 or of 8 cells the walk never leaves cell 0. */
  lemma {:induction false} WalkIsStuck(tableLog: nat, j: nat)
    requires tableLog == 1 || tableLog == 3
    ensures Walk(Pow2(tableLog), TableStep(Pow2(tableLog)), j) == 0
  {
    assert Pow2(1) == 2 && Pow2(2) == 4 && Pow2(3) == 8;
    if j > 0 {
      WalkIsStuck(tableLog, j - 1);
    }
  }

  /** An odd factor cannot contribute to a power of two. */
  lemma {:induction false} OddFactor(bits: nat, odd: nat, m: nat, q: nat) returns (r: nat)
    requires odd % 2 == 1 && odd * m == q * Pow2(bits)
    ensures m == r * Pow2(bits)
  {
    if bits == 0 {
      r := m;
    } else {
      var half := odd / 2;
      var h := q * Pow2(bits - 1);
      assert q * Pow2(bits) == 2 * h;
      assert odd * m == 2 * (half * m) + m by { assert odd == 2 * half + 1; }
      var m' := m / 2;
      assert m == 2 * m';
      assert odd * m' == h by { assert odd * m == 2 * (odd * m'); }
      r := OddFactor(bits - 1, odd, m', q);
      assert r * Pow2(bits) == 2 * (r * Pow2(bits - 1));
    }
  }

  /** Two multiples with the same remainder differ by a multiple of the size. */
  lemma SameRemainder(a: nat, b: nat, size: nat) returns (q: nat)
    requires size > 0 && a <= b && a % size == b % size
    ensures b - a == q * size
  {
    DivMod(a, size);
    DivMod(b, size);
    var d := b / size - a / size;
    assert b - a == d * size;
    if d < 0 { MulMonotone(d, -1, size); }
    q := d;
  }

  lemma WalkInjective(bits: nat, step: nat, i: nat, j: nat)
    requires step % 2 == 1 && i < j < i + Pow2(bits)
    ensures Walk(Pow2(bits), step, i) != Walk(Pow2(bits), step, j)
  {
    var size := Pow2(bits);
    WalkIs(size, step, i);
    WalkIs(size, step, j);
    if (i * step) % size == (j * step) % size {
      MulMonotone(i, j, step);
      var q := SameRemainder(i * step, j * step, size);
      assert step * (j - i) == j * step - i * step;
      var r := OddFactor(bits, step, j - i, q);
      if r >= 1 { MulMonotone(1, r, size); }
    }
  }

  lemma WalkReturns(bits: nat, step: nat)
    ensures Walk(Pow2(bits), step, Pow2(bits)) == 0
  {
    var size := Pow2(bits);
    WalkIs(size, step, size);
    DivModIs(size * step, size, step, 0);
  }

  ghost function Visited(size: nat, step: nat, j: nat): set<nat>
    requires size > 0
  {
    if j == 0 then {} else Visited(size, step, j - 1) + {Walk(size, step, j - 1)}
  }

  predicate Reached(size: nat, step: nat, j: nat, p: nat)
    requires size > 0
  {
    exists i :: 0 <= i < j && Walk(size, step, i) == p
  }

  lemma {:induction false} VisitedIs(bits: nat, step: nat, j: nat)
    requires step % 2 == 1 && j <= Pow2(bits)
    ensures |Visited(Pow2(bits), step, j)| == j
    ensures forall p :: p in Visited(Pow2(bits), step, j) ==> p < Pow2(bits)
    ensures forall p :: p in Visited(Pow2(bits), step, j) ==> Reached(Pow2(bits), step, j, p)
  {
    if j > 0 {
      VisitedIs(bits, step, j - 1);
      var size, last := Pow2(bits), Walk(Pow2(bits), step, j - 1);
      if last in Visited(size, step, j - 1) {
        var i :| 0 <= i < j - 1 && Walk(size, step, i) == last;
        WalkInjective(bits, step, i, j - 1);
      }
      forall p | p in Visited(size, step, j) ensures Reached(size, step, j, p) {
        if p in Visited(size, step, j - 1) {
          var i :| 0 <= i < j - 1 && Walk(size, step, i) == p;
        }
      }
    }
  }

  /** A full round visits every cell. */
  lemma WalkCovers(bits: nat, step: nat, p: nat) returns (i: nat)
    requires step % 2 == 1 && p < Pow2(bits)
    ensures i < Pow2(bits) && Walk(Pow2(bits), step, i) == p
  {
    var size := Pow2(bits);
    VisitedIs(bits, step, size);
    BelowIs(size);
    SameSize(Visited(size, step, size), Below(size));
    assert p in Visited(size, step, size);
    i :| 0 <= i < size && Walk(size, step, i) == p;
  }
}
