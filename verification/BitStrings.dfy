/** Numbers as strings of bits, lowest bit first: shifts, masks and concatenation, defined bit by bit. */
module BitStrings {
  import opened Bits

  type Byte = x: int | 0 <= x < 256

  /** `x >> n` */
  function Shr(x: nat, n: nat): nat {
    if n == 0 then x else Shr(x / 2, n - 1)
  }

  /** `x & ((1 << n) - 1)` */
  function Low(x: nat, n: nat): nat {
    if n == 0 then 0 else x % 2 + 2 * Low(x / 2, n - 1)
  }

  /** `x & 1 << n` is not zero */
  predicate Bit(x: nat, n: nat) {
    if n == 0 then x % 2 == 1 else Bit(x / 2, n - 1)
  }

  /** The low `n` bits of `x` followed by those of `y`: `x | y << n` when `x` has no more bits. */
  function Join(x: nat, n: nat, y: nat): nat {
    if n == 0 then y else x % 2 + 2 * Join(x / 2, n - 1, y)
  }

  /** `x ^ y` */
  function Xor(x: nat, y: nat): nat {
    if x == 0 && y == 0 then 0 else (if x % 2 == y % 2 then 0 else 1) + 2 * Xor(x / 2, y / 2)
  }

  lemma {:induction false} XorTwice(x: nat, y: nat)
    ensures Xor(Xor(x, y), y) == x
    decreases x + y
  {
    if x != 0 || y != 0 {
      var z := Xor(x, y);
      assert z / 2 == Xor(x / 2, y / 2) && z % 2 == if x % 2 == y % 2 then 0 else 1;
      XorTwice(x / 2, y / 2);
      assert Xor(z, y) == (if z == 0 && y == 0 then 0 else (if z % 2 == y % 2 then 0 else 1) + 2 * Xor(z / 2, y / 2));
    }
  }

  lemma {:induction false} XorBound(x: nat, y: nat, n: nat)
    requires x < Pow2(n) && y < Pow2(n)
    ensures Xor(x, y) < Pow2(n)
    decreases n
  {
    if n > 0 {
      XorBound(x / 2, y / 2, n - 1);
    }
  }

  function XorByte(x: Byte, y: Byte): Byte {
    if Xor(x, y) < 256 then Xor(x, y) else 0
  }

  lemma XorByteTwice(x: Byte, y: Byte)
    ensures XorByte(x, y) == Xor(x, y) && XorByte(XorByte(x, y), y) == x
  {
    KnownPowers();
    XorBound(x, y, 8);
    XorTwice(x, y);
  }

  lemma {:induction false} BitIs(x: nat, n: nat)
    ensures Bit(x, n) <==> Shr(x, n) % 2 == 1
  {
    if n > 0 {
      BitIs(x / 2, n - 1);
    }
  }

  lemma {:induction false} ShrShr(x: nat, a: nat, b: nat)
    ensures Shr(Shr(x, a), b) == Shr(x, a + b)
  {
    if a > 0 {
      ShrShr(x / 2, a - 1, b);
    }
  }

  lemma {:induction false} ShrLow(x: nat, a: nat, b: nat)
    ensures Shr(Low(x, a + b), a) == Low(Shr(x, a), b)
  {
    if a > 0 {
      ShrLow(x / 2, a - 1, b);
    }
  }

  lemma {:induction false} LowLow(x: nat, a: nat, b: nat)
    requires b <= a
    ensures Low(Low(x, a), b) == Low(x, b)
  {
    if b > 0 {
      LowLow(x / 2, a - 1, b - 1);
    }
  }

  lemma {:induction false} LowBound(x: nat, n: nat)
    ensures Low(x, n) < Pow2(n) && Low(x, n) <= x
    ensures x < Pow2(n) ==> Low(x, n) == x
  {
    if n > 0 {
      LowBound(x / 2, n - 1);
    }
  }

  lemma {:induction false} ShrBound(x: nat, n: nat)
    ensures Shr(x, n) == 0 <==> x < Pow2(n)
    ensures Shr(x, n) <= x
  {
    if n > 0 {
      ShrBound(x / 2, n - 1);
    }
  }

  lemma {:induction false} JoinSplit(x: nat, n: nat, y: nat)
    ensures Low(Join(x, n, y), n) == Low(x, n) && Shr(Join(x, n, y), n) == y
  {
    if n > 0 {
      JoinSplit(x / 2, n - 1, y);
    }
  }

  lemma {:induction false} JoinParts(x: nat, n: nat)
    ensures Join(x, n, Shr(x, n)) == x && Join(Low(x, n), n, Shr(x, n)) == x
  {
    if n > 0 {
      JoinParts(x / 2, n - 1);
    }
  }

  lemma {:induction false} JoinLow(x: nat, n: nat, y: nat)
    ensures Join(Low(x, n), n, y) == Join(x, n, y)
  {
    if n > 0 {
      JoinLow(x / 2, n - 1, y);
    }
  }

  lemma {:induction false} JoinJoin(x: nat, a: nat, y: nat, b: nat, z: nat)
    ensures Join(Join(x, a, y), a + b, z) == Join(x, a, Join(y, b, z))
  {
    if a > 0 {
      JoinJoin(x / 2, a - 1, y, b, z);
    }
  }

  lemma {:induction false} JoinIs(x: nat, n: nat, y: nat)
    requires x < Pow2(n)
    ensures Join(x, n, y) == x + Pow2(n) * y
  {
    if n > 0 {
      JoinIs(x / 2, n - 1, y);
      DoubleProduct(Pow2(n - 1), y);
    }
  }

  lemma {:induction false} JoinBound(x: nat, a: nat, y: nat, b: nat)
    requires y < Pow2(b)
    ensures Join(x, a, y) < Pow2(a + b)
  {
    if a > 0 {
      JoinBound(x / 2, a - 1, y, b);
    }
  }

  lemma {:induction false} LowParts(x: nat, a: nat, b: nat)
    ensures Join(Low(x, a), a, Low(Shr(x, a), b)) == Low(x, a + b)
  {
    if a > 0 {
      LowParts(x / 2, a - 1, b);
    }
  }

  /** Shifts and masks as division and remainder. */
  lemma ShrLowAre(x: nat, n: nat, d: nat)
    requires d == Pow2(n)
    ensures Shr(x, n) == x / d && Low(x, n) == x % d
  {
    JoinParts(x, n);
    LowBound(x, n);
    JoinIs(Low(x, n), n, Shr(x, n));
    assert d * Shr(x, n) == Shr(x, n) * d;
    DivModIs(x, d, Shr(x, n), Low(x, n));
  }

  /** Bits below a cut do not depend on what is above it. */
  lemma {:induction false} LowShrLow(x: nat, a: nat, n: nat, b: nat)
    requires a + n <= b
    ensures Low(Shr(Low(x, b), a), n) == Low(Shr(x, a), n)
  {
    ShrLow(x, a, b - a);
    LowLow(Shr(x, a), b - a, n);
  }

  /* Little-endian byte sequences */

  function LittleEndian(s: seq<Byte>): nat {
    if s == [] then 0 else Join(s[0], 8, LittleEndian(s[1..]))
  }

  lemma {:induction false} LittleEndianBound(s: seq<Byte>)
    ensures LittleEndian(s) < Pow2(8 * |s|)
  {
    if s != [] {
      LittleEndianBound(s[1..]);
      JoinBound(s[0], 8, LittleEndian(s[1..]), 8 * |s[1..]|);
    }
  }

  lemma {:induction false} LittleEndianAppend(a: seq<Byte>, b: seq<Byte>)
    ensures LittleEndian(a + b) == Join(LittleEndian(a), 8 * |a|, LittleEndian(b))
  {
    if a == [] {
      assert a + b == b;
    } else {
      LittleEndianAppend(a[1..], b);
      assert (a + b)[1..] == a[1..] + b;
      JoinJoin(a[0], 8, LittleEndian(a[1..]), 8 * |a[1..]|, LittleEndian(b));
    }
  }

  /** Dropping low bytes shifts, keeping them masks. */
  lemma LittleEndianSplit(s: seq<Byte>, k: nat)
    requires k <= |s|
    ensures Shr(LittleEndian(s), 8 * k) == LittleEndian(s[k..])
    ensures Low(LittleEndian(s), 8 * k) == LittleEndian(s[..k])
  {
    assert s == s[..k] + s[k..];
    LittleEndianAppend(s[..k], s[k..]);
    JoinSplit(LittleEndian(s[..k]), 8 * k, LittleEndian(s[k..]));
    LittleEndianBound(s[..k]);
    LowBound(LittleEndian(s[..k]), 8 * k);
  }

  /** A word of `n` bytes read at `at`. */
  lemma WordAt(s: seq<Byte>, at: nat, n: nat)
    requires at + n <= |s|
    ensures LittleEndian(s[at..at + n]) == Low(Shr(LittleEndian(s), 8 * at), 8 * n)
  {
    LittleEndianSplit(s, at);
    LittleEndianSplit(s[at..], n);
    assert s[at..][..n] == s[at..at + n];
  }

  /** Shifting a word of `x` shows the same bits as shifting `x`. */
  lemma ShiftedWord(x: nat, at: nat, width: nat, b: nat)
    requires b <= width
    ensures Shr(Low(Shr(x, at), width), b) == Low(Shr(x, at + b), width - b)
  {
    ShrLow(Shr(x, at), b, width - b);
    ShrShr(x, at, b);
  }

  /** The lowest `n` bytes of a number, lowest first. */
  function BytesOf(w: nat, n: nat): (r: seq<Byte>)
    ensures |r| == n
    decreases n
  {
    KnownPowers();
    LowBound(w, 8);
    if n == 0 then [] else [Low(w, 8)] + BytesOf(Shr(w, 8), n - 1)
  }

  lemma {:induction false} BytesOfIs(w: nat, n: nat)
    ensures LittleEndian(BytesOf(w, n)) == Low(w, 8 * n)
    decreases n
  {
    if n > 0 {
      BytesOfIs(Shr(w, 8), n - 1);
      LowParts(w, 8, 8 * (n - 1));
    }
  }
}
