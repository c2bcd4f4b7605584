/** The mixing functions of xxHash in arithmetic, with the primes as the description of the algorithm prints them. */
module XxFormulas {
  import opened Bits
  import opened BitStrings
  import opened XxHash
  import opened XxRounds

  /** What is left of a word without its `n` lowest bits. */
  function Upper(x: nat, n: nat): nat {
    ShrLowAre(x, n, Pow2(n));
    x / Pow2(n)
  }

  function Times(x: nat, p: nat): nat {
    MulMonotone(0, x, p);
    x * p
  }

  /** A word turned left by `r` bits: the part that leaves at the top comes in at the bottom. */
  function Turned(x: nat, r: nat, width: nat): nat
    requires r <= width
  {
    Upper(x, width - r) + Times(x % Pow2(width - r), Pow2(r))
  }

  lemma ShiftIs(x: nat, n: nat)
    ensures Shr(x, n) == Upper(x, n)
  {
    ShrLowAre(x, n, Pow2(n));
  }

  lemma QuotientFits(x: nat, d: nat, e: nat)
    requires d > 0 && x < d * e
    ensures x / d < e
  {
    DivMod(x, d);
    if e <= x / d { MulMonotone(e, x / d, d); }
  }

  lemma TimesTurned(x: nat, p: nat)
    ensures Times(x, p) == p * x
  {
  }

  lemma RotlIs(x: nat, r: nat, width: nat)
    requires r <= width && x < Pow2(width)
    ensures Rotl(x, r, width) == Turned(x, r, width)
  {
    hide Pow2, Upper, Times, Shr, Low, Join;
    var d, e := Pow2(width - r), Pow2(r);
    Pow2Add(width - r, r);
    QuotientFits(x, d, e);
    ShrLowAre(x, width - r, d);
    ShiftIs(x, width - r);
    JoinIs(Shr(x, width - r), r, Low(x, width - r));
    TimesTurned(Low(x, width - r), e);
  }

  lemma Widths()
    ensures Pow2(32) == 0x1_0000_0000 && Pow2(64) == 0x1_0000_0000_0000_0000
  {
    KnownPowers();
  }

  /* XXH32 */

  lemma Start32Is(seed: nat)
    ensures Start32(seed)
         == Lanes((seed + 0x9E3779B1 + 0x85EBCA77) % 0x1_0000_0000, (seed + 0x85EBCA77) % 0x1_0000_0000,
                  seed % 0x1_0000_0000, (seed - 0x9E3779B1) % 0x1_0000_0000)
  {
  }

  lemma Mixing32Is(h: nat, input: nat)
    ensures Round32(h, input) == Turned((h + input * 0x85EBCA77) % 0x1_0000_0000, 13, 32) * 0x9E3779B1 % 0x1_0000_0000
    ensures MixWord32(h, input) == Turned((h + input * 0xC2B2AE3D) % 0x1_0000_0000, 17, 32) * 0x27D4EB2F % 0x1_0000_0000
    ensures MixByte32(h, input) == Turned((h + input * 0x165667B1) % 0x1_0000_0000, 11, 32) * 0x9E3779B1 % 0x1_0000_0000
    ensures XXH32().short(h) == (h + 0x165667B1) % 0x1_0000_0000 && XXH32().modulus == 0x1_0000_0000 && !XXH32().wide
  {
    hide Rotl, Turned, Pow2;
    Widths();
    RotlIs((h + input * 0x85EBCA77) % 0x1_0000_0000, 13, 32);
    RotlIs((h + input * 0xC2B2AE3D) % 0x1_0000_0000, 17, 32);
    RotlIs((h + input * 0x165667B1) % 0x1_0000_0000, 11, 32);
  }

  lemma Merge32Is(v: Lanes)
    requires v.v1 < 0x1_0000_0000 && v.v2 < 0x1_0000_0000 && v.v3 < 0x1_0000_0000 && v.v4 < 0x1_0000_0000
    ensures Merge32(v)
         == (Turned(v.v1, 1, 32) + Turned(v.v2, 7, 32) + Turned(v.v3, 12, 32) + Turned(v.v4, 18, 32)) % 0x1_0000_0000
  {
    hide Rotl, Turned, Pow2;
    Widths();
    RotlIs(v.v1, 1, 32);
    RotlIs(v.v2, 7, 32);
    RotlIs(v.v3, 12, 32);
    RotlIs(v.v4, 18, 32);
  }

  /** The last steps: three times the upper bits are added to the lower ones, with a product in between. */
  function Scrambled(h: nat, i: nat, p: nat, j: nat, q: nat, k: nat, modulus: nat): nat
    requires modulus > 0
  {
    var a := Times(Xor(h, Upper(h, i)), p) % modulus;
    var b := Times(Xor(a, Upper(a, j)), q) % modulus;
    Xor(b, Upper(b, k))
  }

  lemma ScrambledIs(h: nat, i: nat, p: nat, j: nat, q: nat, k: nat, modulus: nat)
    requires modulus > 0
    ensures var a := Xor(h, Shr(h, i)) * p % modulus;
            var b := Xor(a, Shr(a, j)) * q % modulus;
            Scrambled(h, i, p, j, q, k, modulus) == Xor(b, Shr(b, k))
  {
    hide Shr, Xor, Upper;
    var a := Xor(h, Shr(h, i)) * p % modulus;
    var b := Xor(a, Shr(a, j)) * q % modulus;
    ShiftIs(h, i);
    ShiftIs(a, j);
    ShiftIs(b, k);
  }

  lemma Avalanche32Is(h: nat)
    ensures Avalanche32(h) == Scrambled(h, 15, 0x85EBCA77, 13, 0xC2B2AE3D, 16, 0x1_0000_0000)
  {
    hide Shr, Xor, Scrambled;
    ScrambledIs(h, 15, 0x85EBCA77, 13, 0xC2B2AE3D, 16, 0x1_0000_0000);
  }

  /* XXH64 */

  lemma Start64Is(seed: nat)
    ensures Start64(seed)
         == Lanes((seed + 0x9E3779B185EBCA87 + 0xC2B2AE3D27D4EB4F) % 0x1_0000_0000_0000_0000,
                  (seed + 0xC2B2AE3D27D4EB4F) % 0x1_0000_0000_0000_0000, seed % 0x1_0000_0000_0000_0000,
                  (seed - 0x9E3779B185EBCA87) % 0x1_0000_0000_0000_0000)
  {
  }

  /** The round of a lane, which all the longer inputs go through. */
  function Lane64(acc: nat, input: nat): nat {
    Turned((acc + input * 0xC2B2AE3D27D4EB4F) % 0x1_0000_0000_0000_0000, 31, 64) * 0x9E3779B185EBCA87
    % 0x1_0000_0000_0000_0000
  }

  lemma LaneBound(acc: nat, input: nat)
    ensures Lane64(acc, input) < 0x1_0000_0000_0000_0000
  {
    hide Turned;
  }

  lemma Round64Is(acc: nat, input: nat)
    ensures Round64(acc, input) == Lane64(acc, input)
  {
    hide Rotl, Turned, Pow2;
    Widths();
    RotlIs((acc + input * 0xC2B2AE3D27D4EB4F) % 0x1_0000_0000_0000_0000, 31, 64);
  }

  lemma MergeRound64Is(acc: nat, lane: nat)
    ensures MergeRound64(acc, lane)
         == (Xor(acc, Lane64(0, lane)) * 0x9E3779B185EBCA87 + 0x85EBCA77C2B2AE63) % 0x1_0000_0000_0000_0000
  {
    hide Round64, Lane64, Xor;
    Round64Is(0, lane);
  }

  lemma Merge64Is(v: Lanes)
    requires v.v1 < 0x1_0000_0000_0000_0000 && v.v2 < 0x1_0000_0000_0000_0000
    requires v.v3 < 0x1_0000_0000_0000_0000 && v.v4 < 0x1_0000_0000_0000_0000
    ensures var h := (Turned(v.v1, 1, 64) + Turned(v.v2, 7, 64) + Turned(v.v3, 12, 64) + Turned(v.v4, 18, 64))
                     % 0x1_0000_0000_0000_0000;
            Merge64(v) == MergeRound64(MergeRound64(MergeRound64(MergeRound64(h, v.v1), v.v2), v.v3), v.v4)
  {
    hide Rotl, Turned, Pow2, MergeRound64;
    Widths();
    RotlIs(v.v1, 1, 64);
    RotlIs(v.v2, 7, 64);
    RotlIs(v.v3, 12, 64);
    RotlIs(v.v4, 18, 64);
  }

  lemma Mixing64Is(h: nat, input: nat)
    requires h < 0x1_0000_0000_0000_0000
    ensures MixWord64(h, input)
         == (Turned(Xor(h, Lane64(0, input)), 27, 64) * 0x9E3779B185EBCA87 + 0x85EBCA77C2B2AE63)
            % 0x1_0000_0000_0000_0000
    ensures MixHalf64(h, input)
         == (Turned(Xor(h, input * 0x9E3779B185EBCA87 % 0x1_0000_0000_0000_0000), 23, 64) * 0xC2B2AE3D27D4EB4F
             + 0x165667B19E3779F9) % 0x1_0000_0000_0000_0000
    ensures MixByte64(h, input)
         == Turned(Xor(h, input * 0x27D4EB2F165667C5 % 0x1_0000_0000_0000_0000), 11, 64) * 0x9E3779B185EBCA87
            % 0x1_0000_0000_0000_0000
    ensures XXH64().short(h) == (h + 0x27D4EB2F165667C5) % 0x1_0000_0000_0000_0000
    ensures XXH64().modulus == 0x1_0000_0000_0000_0000 && XXH64().wide
  {
    hide Rotl, Turned, Pow2, Xor, Round64, Lane64;
    Widths();
    Round64Is(0, input);
    LaneBound(0, input);
    XorBound(h, Lane64(0, input), 64);
    XorBound(h, input * 0x9E3779B185EBCA87 % 0x1_0000_0000_0000_0000, 64);
    XorBound(h, input * 0x27D4EB2F165667C5 % 0x1_0000_0000_0000_0000, 64);
    RotlIs(Xor(h, Lane64(0, input)), 27, 64);
    RotlIs(Xor(h, input * 0x9E3779B185EBCA87 % 0x1_0000_0000_0000_0000), 23, 64);
    RotlIs(Xor(h, input * 0x27D4EB2F165667C5 % 0x1_0000_0000_0000_0000), 11, 64);
  }

  lemma Avalanche64Is(h: nat)
    ensures Avalanche64(h)
         == Scrambled(h, 33, 0xC2B2AE3D27D4EB4F, 29, 0x165667B19E3779F9, 32, 0x1_0000_0000_0000_0000)
  {
    hide Shr, Xor, Scrambled;
    ScrambledIs(h, 33, 0xC2B2AE3D27D4EB4F, 29, 0x165667B19E3779F9, 32, 0x1_0000_0000_0000_0000);
  }
}
