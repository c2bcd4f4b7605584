/** Powers of two, and division by them: the arithmetic behind shifts and masks. */
module Bits {
  function Pow2(n: nat): (r: nat)
    ensures r > 0
  {
    if n == 0 then 1 else 2 * Pow2(n - 1)
  }

  lemma {:induction false} Pow2Add(a: nat, b: nat)
    ensures Pow2(a + b) == Pow2(a) * Pow2(b)
  {
    if a > 0 {
      Pow2Add(a - 1, b);
      DoubleProduct(Pow2(a - 1), Pow2(b));
    }
  }

  lemma DoubleProduct(x: nat, y: nat)
    ensures (2 * x) * y == 2 * (x * y)
  {
  }

  lemma {:induction false} Pow2Less(a: nat, b: nat)
    requires a < b
    ensures Pow2(a) < Pow2(b)
  {
    if a + 1 < b {
      Pow2Less(a, b - 1);
    }
  }

  lemma Pow2LessEq(a: nat, b: nat)
    requires a <= b
    ensures Pow2(a) <= Pow2(b)
  {
    if a < b {
      Pow2Less(a, b);
    }
  }

  lemma Pow2Ordered(a: nat, b: nat)
    ensures a <= b ==> Pow2(a) <= Pow2(b)
  {
    if a <= b { Pow2LessEq(a, b); }
  }

  lemma KnownPowers()
    ensures Pow2(8) == 0x100 && Pow2(16) == 0x1_0000 && Pow2(32) == 0x1_0000_0000
    ensures Pow2(64) == 0x1_0000_0000_0000_0000
  {
    assert Pow2(4) == 16;
    Pow2Add(4, 4);
    Pow2Add(8, 8);
    Pow2Add(16, 16);
    Pow2Add(32, 32);
  }

  /** The position of the highest set bit, as `BIT_highbit32`. */
  function HighBit(x: nat): (r: nat)
    requires x > 0
    ensures Pow2(r) <= x < Pow2(r + 1)
  {
    if x == 1 then 0 else 1 + HighBit(x / 2)
  }

  lemma HighBitIs(x: nat, h: nat)
    requires x > 0 && Pow2(h) <= x < Pow2(h + 1)
    ensures HighBit(x) == h
  {
    if HighBit(x) < h {
      Pow2LessEq(HighBit(x) + 1, h);
    } else if h < HighBit(x) {
      Pow2LessEq(h + 1, HighBit(x));
    }
  }

  /** Quotient and remainder are determined by the division identity. */
  lemma DivModIs(x: int, d: int, q: int, r: int)
    requires d > 0 && x == q * d + r && 0 <= r < d
    ensures x / d == q && x % d == r
  {
    var q', r' := x / d, x % d;
    assert x == q' * d + r';
    assert (q - q') * d == r' - r;
    if q > q' {
      MulMonotone(1, q - q', d);
    } else if q' > q {
      MulMonotone(1, q' - q, d);
    }
  }

  lemma MulMonotone(a: int, b: int, d: int)
    requires a <= b && d >= 0
    ensures a * d <= b * d
  {
    assert (b - a) * d >= 0;
  }

  lemma DivMod(x: int, d: int)
    requires d > 0
    ensures x == x / d * d + x % d && 0 <= x % d < d
  {
  }

  /** Dividing twice. */
  lemma DivDiv(x: nat, a: nat, b: nat)
    requires a > 0 && b > 0
    ensures a * b > 0 && x / a / b == x / (a * b)
  {
    DivMod(x, a);
    DivMod(x / a, b);
    var q, r := x / a / b, x / a % b * a + x % a;
    assert a * b > 0 && x / a * a == (q * b + x / a % b) * a;
    assert (q * b) * a == q * (a * b);
    assert (q * b + x / a % b) * a == (q * b) * a + x / a % b * a;
    assert r < a * b by { MulMonotone(x / a % b, b - 1, a); assert (b - 1) * a == a * b - a; }
    assert x / a % b * a >= 0 by { MulMonotone(0, x / a % b, a); }
    DivModIs(x, a * b, q, r);
  }

  lemma AddMultipleDiv(x: nat, k: nat, d: nat)
    requires d > 0
    ensures (x + k * d) / d == x / d + k && (x + k * d) % d == x % d
  {
    DivMod(x, d);
    assert (x / d + k) * d == x / d * d + k * d;
    DivModIs(x + k * d, d, x / d + k, x % d);
  }

  lemma SmallDivMod(x: nat, d: nat)
    requires x < d
    ensures x / d == 0 && x % d == x
  {
    DivModIs(x, d, 0, x);
  }

  lemma DivBounds(x: nat, d: nat, q: nat)
    requires d > 0
    ensures q * d <= x ==> q <= x / d
    ensures x < q * d ==> x / d < q
  {
    DivMod(x, d);
    if q * d <= x && x / d < q {
      MulMonotone(x / d + 1, q, d);
    }
    if x < q * d && q <= x / d {
      MulMonotone(q, x / d, d);
    }
  }
}
