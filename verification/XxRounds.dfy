/** The mixing functions of XXH32 and XXH64. */
module XxRounds {
  import opened Bits
  import opened BitStrings
  import opened XxHash

  const PRIME32_1: nat := 2654435761
  const PRIME32_2: nat := 2246822519
  const PRIME32_3: nat := 3266489917
  const PRIME32_4: nat := 668265263
  const PRIME32_5: nat := 374761393

  const PRIME64_1: nat := 11400714785074694791
  const PRIME64_2: nat := 14029467366897019727
  const PRIME64_3: nat := 1609587929392839161
  const PRIME64_4: nat := 9650029242287828579
  const PRIME64_5: nat := 2870177450012600261

  const TWO32: nat := 0x1_0000_0000
  const TWO64: nat := 0x1_0000_0000_0000_0000

  /** `x << r | x >> (width - r)` */
  function Rotl(x: nat, r: nat, width: nat): nat
    requires r <= width
  {
    Join(Shr(x, width - r), r, Low(x, width - r))
  }

  function Start32(seed: nat): Lanes {
    Lanes((seed + PRIME32_1 + PRIME32_2) % TWO32, (seed + PRIME32_2) % TWO32, (seed + 0) % TWO32,
          (seed - PRIME32_1) % TWO32)
  }

  function Round32(seed: nat, input: nat): nat {
    Rotl((seed + input * PRIME32_2) % TWO32, 13, 32) * PRIME32_1 % TWO32
  }

  function Merge32(v: Lanes): nat {
    (Rotl(v.v1, 1, 32) + Rotl(v.v2, 7, 32) + Rotl(v.v3, 12, 32) + Rotl(v.v4, 18, 32)) % TWO32
  }

  function MixWord32(h: nat, word: nat): nat {
    Rotl((h + word * PRIME32_3) % TWO32, 17, 32) * PRIME32_4 % TWO32
  }

  function MixByte32(h: nat, b: nat): nat {
    Rotl((h + b * PRIME32_5) % TWO32, 11, 32) * PRIME32_1 % TWO32
  }

  function Avalanche32(h: nat): nat {
    var a := Xor(h, Shr(h, 15)) * PRIME32_2 % TWO32;
    var b := Xor(a, Shr(a, 13)) * PRIME32_3 % TWO32;
    Xor(b, Shr(b, 16))
  }

  function XXH32(): Mix {
    Mix(false, TWO32, Start32, Round32, Merge32, seed => (seed + PRIME32_5) % TWO32,
        MixWord32, (h, word) => h, MixByte32, Avalanche32)
  }

  function Start64(seed: nat): Lanes {
    Lanes((seed + PRIME64_1 + PRIME64_2) % TWO64, (seed + PRIME64_2) % TWO64, (seed + 0) % TWO64,
          (seed - PRIME64_1) % TWO64)
  }

  function Round64(acc: nat, input: nat): nat {
    Rotl((acc + input * PRIME64_2) % TWO64, 31, 64) * PRIME64_1 % TWO64
  }

  function MergeRound64(acc: nat, val: nat): nat {
    (Xor(acc, Round64(0, val)) * PRIME64_1 + PRIME64_4) % TWO64
  }

  function Merge64(v: Lanes): nat {
    var h := (Rotl(v.v1, 1, 64) + Rotl(v.v2, 7, 64) + Rotl(v.v3, 12, 64) + Rotl(v.v4, 18, 64)) % TWO64;
    MergeRound64(MergeRound64(MergeRound64(MergeRound64(h, v.v1), v.v2), v.v3), v.v4)
  }

  function MixWord64(h: nat, word: nat): nat {
    (Rotl(Xor(h, Round64(0, word)), 27, 64) * PRIME64_1 + PRIME64_4) % TWO64
  }

  function MixHalf64(h: nat, word: nat): nat {
    (Rotl(Xor(h, word * PRIME64_1 % TWO64), 23, 64) * PRIME64_2 + PRIME64_3) % TWO64
  }

  function MixByte64(h: nat, b: nat): nat {
    Rotl(Xor(h, b * PRIME64_5 % TWO64), 11, 64) * PRIME64_1 % TWO64
  }

  function Avalanche64(h: nat): nat {
    var a := Xor(h, Shr(h, 33)) * PRIME64_2 % TWO64;
    var b := Xor(a, Shr(a, 29)) * PRIME64_3 % TWO64;
    Xor(b, Shr(b, 32))
  }

  function XXH64(): Mix {
    Mix(true, TWO64, Start64, Round64, Merge64, seed => (seed + PRIME64_5) % TWO64,
        MixWord64, MixHalf64, MixByte64, Avalanche64)
  }

  /** Both variants start the third lane as the seed, so the streaming forms agree with the one-shot forms. */
  lemma BothSound()
    ensures XXH32().Sound() && XXH64().Sound()
  {
    forall seed: nat | seed < TWO32 ensures XXH32().start(seed).v3 == seed {
      SmallModIs(seed, TWO32);
    }
    forall seed: nat | seed < TWO64 ensures XXH64().start(seed).v3 == seed {
      SmallModIs(seed, TWO64);
    }
  }

  /** For every seed and every cutting of an input: XXH32 needs no bound on the input, XXH64 the one of its
      length type. */
  method Forms32(seed: nat, input: seq<Byte>, pieces: seq<seq<Byte>>) returns (oneShot: nat, streamed: nat)
    requires seed < TWO32 && input == Concat(pieces)
    ensures streamed == oneShot == Hash(XXH32(), seed, input)
  {
    BothSound();
    oneShot := OneShot(XXH32(), input, seed);
    streamed := Streamed(XXH32(), seed, pieces);
  }

  method Forms64(seed: nat, input: seq<Byte>, pieces: seq<seq<Byte>>) returns (oneShot: nat, streamed: nat)
    requires seed < TWO64 && input == Concat(pieces) && |input| < TWO64
    ensures streamed == oneShot == Hash(XXH64(), seed, input)
  {
    BothSound();
    oneShot := OneShot(XXH64(), input, seed);
    streamed := Streamed(XXH64(), seed, pieces);
  }
}
