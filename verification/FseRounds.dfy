/** The walk over the table in rounds: where it stands once some number of symbols is placed. */
module FseRounds {
  import opened Bits
  import opened FseWalk

  /** How many of the first `j` positions of the walk are outside the low-probability area. */
  function Hits(size: nat, step: nat, high: int, j: nat): nat
    requires size > 0
  {
    if j == 0 then 0
    else Hits(size, step, high, j - 1) + (if Walk(size, step, j - 1) <= high then 1 else 0)
  }

  lemma {:induction false} HitsMonotone(size: nat, step: nat, high: int, i: nat, j: nat)
    requires size > 0 && i <= j
    ensures Hits(size, step, high, i) <= Hits(size, step, high, j)
    ensures i < j && Walk(size, step, i) <= high ==> Hits(size, step, high, i) < Hits(size, step, high, j)
  {
    if i < j {
      HitsMonotone(size, step, high, i, j - 1);
    }
  }

  /** A round later the walk is where it was. */
  lemma WalkAgain(bits: nat, step: nat, j: nat)
    ensures Walk(Pow2(bits), step, j + Pow2(bits)) == Walk(Pow2(bits), step, j)
  {
    var size := Pow2(bits);
    WalkIs(size, step, j);
    WalkIs(size, step, j + size);
    assert (j + size) * step == j * step + step * size;
    AddMultipleDiv(j * step, step, size);
  }

  lemma {:induction false} HitsAgain(bits: nat, step: nat, high: int, j: nat)
    ensures Hits(Pow2(bits), step, high, j + Pow2(bits))
         == Hits(Pow2(bits), step, high, j) + Hits(Pow2(bits), step, high, Pow2(bits))
  {
    if j > 0 {
      HitsAgain(bits, step, high, j - 1);
      WalkAgain(bits, step, j - 1);
    }
  }

  lemma {:induction false} HitsOfMore(bits: nat, step: nat, high: int, j: nat)
    requires step % 2 == 1 && j <= Pow2(bits) && -1 <= high
    ensures Hits(Pow2(bits), step, high + 1, j)
         == Hits(Pow2(bits), step, high, j) + (if Reached(Pow2(bits), step, j, high + 1) then 1 else 0)
  {
    var size := Pow2(bits);
    if j > 0 {
      HitsOfMore(bits, step, high, j - 1);
      if Walk(size, step, j - 1) == high + 1 && Reached(size, step, j - 1, high + 1) {
        var i :| 0 <= i < j - 1 && Walk(size, step, i) == high + 1;
        WalkInjective(bits, step, i, j - 1);
      }
      if Reached(size, step, j - 1, high + 1) {
        var i :| 0 <= i < j - 1 && Walk(size, step, i) == high + 1;
        assert Reached(size, step, j, high + 1);
      }
    }
  }

  lemma {:induction false} NoHits(size: nat, step: nat, j: nat)
    requires size > 0
    ensures Hits(size, step, -1, j) == 0
  {
    if j > 0 { NoHits(size, step, j - 1); }
  }

  /** In a round the walk is once at each of the cells up to `high`. */
  lemma {:induction false} HitsInRound(bits: nat, step: nat, high: int)
    requires step % 2 == 1 && -1 <= high < Pow2(bits)
    ensures Hits(Pow2(bits), step, high, Pow2(bits)) == high + 1
    decreases high
  {
    var size := Pow2(bits);
    if high == -1 {
      NoHits(size, step, size);
    } else {
      HitsInRound(bits, step, high - 1);
      HitsOfMore(bits, step, high - 1, size);
      var i := WalkCovers(bits, step, high);
    }
  }

  /** Where the walk stops at one of the cells up to `high`, it is at cell 0 exactly if it has stopped at them a
      whole number of times. */
  lemma {:induction false} AtZeroExactly(bits: nat, step: nat, high: int, j: nat)
    requires step % 2 == 1 && 0 <= high < Pow2(bits) && Walk(Pow2(bits), step, j) <= high
    ensures Walk(Pow2(bits), step, j) == 0 <==> Hits(Pow2(bits), step, high, j) % (high + 1) == 0
    decreases j
  {
    var size := Pow2(bits);
    HitsInRound(bits, step, high);
    if j >= size {
      var before := j - size;
      WalkAgain(bits, step, before);
      HitsAgain(bits, step, high, before);
      AtZeroExactly(bits, step, high, before);
      AddMultipleDiv(Hits(size, step, high, before), 1, high + 1);
    } else {
      HitsMonotone(size, step, high, j, size);
      HitsMonotone(size, step, high, 0, j);
      if j > 0 { WalkInjective(bits, step, 0, j); }
      SmallDivMod(Hits(size, step, high, j), high + 1);
    }
  }

  /** The cells the walk passes over are not counted. */
  lemma {:induction false} HitsSkip(size: nat, step: nat, high: int, j: nat, j': nat)
    requires size > 0 && j < j' && Walk(size, step, j) <= high
    requires forall i :: j < i < j' ==> Walk(size, step, i) > high
    ensures Hits(size, step, high, j') == Hits(size, step, high, j) + 1
    decreases j'
  {
    if j + 1 < j' { HitsSkip(size, step, high, j, j' - 1); }
  }
}
