/** xxHash: the one-shot form and the buffered streaming form, over the mixing functions of either variant.

    XXH32 and XXH64 share their control flow; they differ in the word they read, in how they mix, in one
    extra step over the last bytes, and in how they remember that a whole block was seen. */
module XxHash {
  import opened BitStrings
  import Bits

  datatype Lanes = Lanes(v1: nat, v2: nat, v3: nat, v4: nat)

  /** A variant. Lengths and sums are taken modulo `modulus`; `wide` is XXH64. */
  datatype Mix = Mix(
    wide: bool,
    modulus: nat,
    start: nat -> Lanes,
    round: (nat, nat) -> nat,
    merge: Lanes -> nat,
    short: nat -> nat,
    mixWord: (nat, nat) -> nat,
    mixHalf: (nat, nat) -> nat,
    mixByte: (nat, nat) -> nat,
    avalanche: nat -> nat)
  {
    function Word(): nat {
      if wide then 8 else 4
    }

    function Block(): nat {
      4 * Word()
    }

    /** The third lane starts as the seed, which the streaming form relies on. */
    ghost predicate Sound() {
      modulus > 64 && forall seed :: 0 <= seed < modulus ==> start(seed).v3 == seed
    }
  }

  function Read(data: seq<Byte>, p: nat, n: nat): nat
    requires p + n <= |data|
  {
    LittleEndian(data[p..p + n])
  }

  function Stripe(m: Mix, v: Lanes, data: seq<Byte>, p: nat): Lanes
    requires p + m.Block() <= |data|
  {
    var w := m.Word();
    Lanes(m.round(v.v1, Read(data, p, w)), m.round(v.v2, Read(data, p + w, w)),
          m.round(v.v3, Read(data, p + 2 * w, w)), m.round(v.v4, Read(data, p + 3 * w, w)))
  }

  /** The lanes after all whole blocks, and the bytes left behind them. */
  function Fold(m: Mix, v: Lanes, data: seq<Byte>): Lanes
    decreases |data|
  {
    if |data| < m.Block() then v else Fold(m, Stripe(m, v, data, 0), data[m.Block()..])
  }

  function Rest(m: Mix, data: seq<Byte>): (r: seq<Byte>)
    ensures |r| < m.Block()
  {
    if |data| < m.Block() then data else Rest(m, data[m.Block()..])
  }

  /** The bytes left, word by word, and then byte by byte. */
  function Tail(m: Mix, h: nat, rest: seq<Byte>): nat
    decreases |rest|
  {
    if |rest| >= m.Word() then Tail(m, m.mixWord(h, Read(rest, 0, m.Word())), rest[m.Word()..])
    else if m.wide && |rest| >= 4 then Tail(m, m.mixHalf(h, Read(rest, 0, 4)), rest[4..])
    else if |rest| >= 1 then Tail(m, m.mixByte(h, rest[0]), rest[1..])
    else h
  }

  /** The hash of a byte sequence. */
  function Hash(m: Mix, seed: nat, data: seq<Byte>): nat
    requires m.modulus > 0
  {
    var head := if |data| >= m.Block() then m.merge(Fold(m, m.start(seed), data)) else m.short(seed);
    m.avalanche(Tail(m, (head + |data|) % m.modulus, Rest(m, data)))
  }

  /* How the blocks of a concatenation fall */

  lemma SameStripe(m: Mix, v: Lanes, a: seq<Byte>, p: nat, b: seq<Byte>, q: nat)
    requires p + m.Block() <= |a| && q + m.Block() <= |b| && a[p..p + m.Block()] == b[q..q + m.Block()]
    ensures Stripe(m, v, a, p) == Stripe(m, v, b, q)
  {
    var w := m.Word();
    SameWord(a, p, b, q, m.Block(), 0, w);
    SameWord(a, p, b, q, m.Block(), w, w);
    SameWord(a, p, b, q, m.Block(), 2 * w, w);
    SameWord(a, p, b, q, m.Block(), 3 * w, w);
  }

  lemma SubSlice(a: seq<Byte>, p: nat, n: nat, at: nat, w: nat)
    requires p + n <= |a| && at + w <= n
    ensures a[p..p + n][at..at + w] == a[p + at..p + at + w]
  {
    var left, right := a[p..p + n][at..at + w], a[p + at..p + at + w];
    assert |left| == |right| && forall i :: 0 <= i < w ==> left[i] == right[i];
  }

  lemma SameWord(a: seq<Byte>, p: nat, b: seq<Byte>, q: nat, n: nat, at: nat, w: nat)
    requires p + n <= |a| && q + n <= |b| && a[p..p + n] == b[q..q + n] && at + w <= n
    ensures Read(a, p + at, w) == Read(b, q + at, w)
  {
    SubSlice(a, p, n, at, w);
    SubSlice(b, q, n, at, w);
  }

  /** Later data continues from the folded lanes and from what was left. */
  lemma {:induction false} FoldAppend(m: Mix, v: Lanes, a: seq<Byte>, b: seq<Byte>)
    ensures Fold(m, v, a + b) == Fold(m, Fold(m, v, a), Rest(m, a) + b)
    ensures Rest(m, a + b) == Rest(m, Rest(m, a) + b)
    decreases |a|
  {
    if |a| >= m.Block() {
      assert (a + b)[..m.Block()] == a[..m.Block()] && (a + b)[m.Block()..] == a[m.Block()..] + b;
      assert (a + b)[0..m.Block()] == (a + b)[..m.Block()] && a[0..m.Block()] == a[..m.Block()];
      SameStripe(m, v, a + b, 0, a, 0);
      FoldAppend(m, Stripe(m, v, a, 0), a[m.Block()..], b);
    }
  }

  lemma NextBlock(m: Mix, v: Lanes, data: seq<Byte>, p: nat)
    requires p + m.Block() <= |data|
    ensures Fold(m, v, data[p..]) == Fold(m, Stripe(m, v, data, p), data[p + m.Block()..])
    ensures Rest(m, data[p..]) == Rest(m, data[p + m.Block()..])
  {
    assert data[p..][0..m.Block()] == data[p..p + m.Block()] && data[p..][m.Block()..] == data[p + m.Block()..];
    SameStripe(m, v, data[p..], 0, data, p);
  }

  lemma NoBlock(m: Mix, v: Lanes, data: seq<Byte>)
    requires |data| < m.Block()
    ensures Fold(m, v, data) == v && Rest(m, data) == data
  {
  }

  /* The one-shot form */

  /** The loop over whole blocks. */
  method Consume(m: Mix, v: Lanes, data: seq<Byte>, start: nat) returns (r: Lanes, p: nat)
    requires start + m.Block() <= |data|
    ensures r == Fold(m, v, data[start..])
    ensures start <= p <= |data| && data[p..] == Rest(m, data[start..])
  {
    hide Fold, Rest;
    var limit, w := |data| - m.Block(), m.Word();
    var v1, v2, v3, v4 := v.v1, v.v2, v.v3, v.v4;
    p := start;
    while p <= limit
      invariant start <= p <= |data|
      invariant Fold(m, Lanes(v1, v2, v3, v4), data[p..]) == Fold(m, v, data[start..])
      invariant Rest(m, data[p..]) == Rest(m, data[start..])
    {
      NextBlock(m, Lanes(v1, v2, v3, v4), data, p);
      v1 := m.round(v1, Read(data, p, w)); p := p + w;
      v2 := m.round(v2, Read(data, p, w)); p := p + w;
      v3 := m.round(v3, Read(data, p, w)); p := p + w;
      v4 := m.round(v4, Read(data, p, w)); p := p + w;
    }
    r := Lanes(v1, v2, v3, v4);
    NoBlock(m, r, data[p..]);
  }

  lemma TailReads(m: Mix, h: nat, data: seq<Byte>, p: nat, end: nat)
    requires p < end <= |data|
    ensures p + m.Word() <= end ==>
              Tail(m, h, data[p..end]) == Tail(m, m.mixWord(h, Read(data, p, m.Word())), data[p + m.Word()..end])
    ensures m.wide && p + 4 <= end < p + 8 ==>
              Tail(m, h, data[p..end]) == Tail(m, m.mixHalf(h, Read(data, p, 4)), data[p + 4..end])
    ensures end < p + 4 ==> Tail(m, h, data[p..end]) == Tail(m, m.mixByte(h, data[p]), data[p + 1..end])
  {
    var rest := data[p..end];
    assert rest[1..] == data[p + 1..end];
    if p + m.Word() <= end {
      assert rest[0..m.Word()] == data[p..p + m.Word()] && rest[m.Word()..] == data[p + m.Word()..end];
    } else if p + 4 <= end {
      assert rest[0..4] == data[p..p + 4] && rest[4..] == data[p + 4..end];
    }
  }

  /** The loop over the words left. */
  method FinishWords(m: Mix, h0: nat, data: seq<Byte>, start: nat, end: nat) returns (h: nat, p: nat)
    requires start <= end <= |data|
    ensures start <= p <= end < p + m.Word() && Tail(m, h, data[p..end]) == Tail(m, h0, data[start..end])
  {
    hide LittleEndian, Tail;
    h, p := h0, start;
    while p + m.Word() <= end
      invariant start <= p <= end && Tail(m, h, data[p..end]) == Tail(m, h0, data[start..end])
    {
      TailReads(m, h, data, p, end);
      h := m.mixWord(h, Read(data, p, m.Word()));
      p := p + m.Word();
    }
  }

  /** The loops over the bytes left, and the final mix. */
  method Finish(m: Mix, h0: nat, data: seq<Byte>, start: nat, end: nat) returns (h: nat)
    requires start <= end <= |data|
    ensures h == m.avalanche(Tail(m, h0, data[start..end]))
  {
    hide LittleEndian, Tail;
    var p;
    h, p := FinishWords(m, h0, data, start, end);
    if m.wide && p + 4 <= end {
      TailReads(m, h, data, p, end);
      h := m.mixHalf(h, Read(data, p, 4));
      p := p + 4;
    }
    while p < end
      invariant start <= p <= end < p + 4 && Tail(m, h, data[p..end]) == Tail(m, h0, data[start..end])
    {
      TailReads(m, h, data, p, end);
      h := m.mixByte(h, data[p]);
      p := p + 1;
    }
    TailEnds(m, h, data, p);
    h := m.avalanche(h);
  }

  lemma TailEnds(m: Mix, h: nat, data: seq<Byte>, end: nat)
    requires end <= |data|
    ensures Tail(m, h, data[end..end]) == h
  {
  }

  /** XXH32_endian_align and XXH64_endian_align */
  method OneShot(m: Mix, input: seq<Byte>, seed: nat) returns (h: nat)
    requires m.modulus > 0
    ensures h == Hash(m, seed, input)
  {
    var p := 0;
    assert input[0..] == input;
    if |input| >= m.Block() {
      var v;
      v, p := Consume(m, m.start(seed), input, 0);
      h := m.merge(v);
    } else {
      h := m.short(seed);
    }
    h := (h + |input|) % m.modulus;
    assert input[p..|input|] == input[p..];
    h := Finish(m, h, input, p, |input|);
  }

  /* The streaming form */

  /** The classes XXH32_state_t and XXH64_state_t; only the former has the flag. */
  class HashState {
    const m: Mix
    var totalLen: nat
    var largeLen: bool
    var v: Lanes
    const mem: array<Byte>
    var memsize: nat

    ghost var seed: nat
    ghost var seen: seq<Byte>     // everything fed in since the reset

    ghost predicate Valid()
      reads this, mem
    {
      && m.Sound() && mem.Length == m.Block() && memsize < m.Block() && seed < m.modulus
      && totalLen == |seen| % m.modulus
      && (largeLen <==> |seen| >= m.Block())
      && v == Fold(m, m.start(seed), seen)
      && mem[..memsize] == Rest(m, seen)
    }

    constructor (mix: Mix)
      ensures m == mix && mem.Length == m.Block() && fresh(mem)
    {
      m := mix;
      mem := new Byte[mix.Block()](_ => 0);
    }

    /** XXH32_reset and XXH64_reset */
    method Reset(s: nat)
      requires m.Sound() && mem.Length == m.Block() && s < m.modulus
      modifies this, mem
      ensures Valid() && seed == s && seen == []
    {
      totalLen, largeLen, memsize := 0, false, 0;
      v := m.start(s);
      seed, seen := s, [];
    }

    /** memcpy into the buffer */
    method Copy(at: nat, data: seq<Byte>)
      requires at + |data| <= mem.Length
      modifies mem
      ensures mem[..at + |data|] == old(mem[..at]) + data
    {
      var i := 0;
      while i < |data|
        invariant i <= |data| && mem[..at + i] == old(mem[..at]) + data[..i]
      {
        mem[at + i] := data[i];
        i := i + 1;
      }
    }

    /** The lengths after another `n` bytes; the flag of the narrow form stays once set. */
    method Count(n: nat, ghost before: nat)
      requires m.Sound() && totalLen == before % m.modulus && (largeLen <==> before >= m.Block())
      modifies this`totalLen, this`largeLen
      ensures totalLen == (before + n) % m.modulus && (largeLen <==> before + n >= m.Block())
    {
      AddMod(before, n, m.modulus);
      if before < m.Block() && n < m.Block() { SmallMod(before, n, m.modulus, m.Block()); }
      totalLen := (totalLen + n) % m.modulus;
      largeLen := largeLen || n >= m.Block() || totalLen >= m.Block();
    }

    /** XXH32_update and XXH64_update */
    method Update(input: seq<Byte>)
      requires Valid()
      modifies this, mem
      ensures Valid() && seed == old(seed) && seen == old(seen) + input
    {
      hide Fold, Rest, Stripe;
      Count(|input|, |seen|);
      FoldAppend(m, m.start(seed), seen, input);
      seen := seen + input;
      if memsize + |input| < m.Block() {
        NoBlock(m, v, mem[..memsize] + input);
        Copy(memsize, input);
        memsize := memsize + |input|;
        return;
      }
      v, memsize := Absorb(input);
    }

    /** The rest of an update that completes a block. */
    method Absorb(input: seq<Byte>) returns (v': Lanes, memsize': nat)
      requires mem.Length == m.Block() && memsize < m.Block() <= memsize + |input|
      modifies mem
      ensures v' == Fold(m, v, old(mem[..memsize]) + input)
      ensures memsize' < m.Block() && mem[..memsize'] == Rest(m, old(mem[..memsize]) + input)
    {
      ghost var all := mem[..memsize] + input;
      v' := v;
      var p := 0;
      if memsize > 0 {
        p := m.Block() - memsize;
        Copy(memsize, input[..p]);
        assert all[0..m.Block()] == mem[..][0..m.Block()] && all[m.Block()..] == input[p..] && all[0..] == all;
        NextBlock(m, v, all, 0);
        SameStripe(m, v, all, 0, mem[..], 0);
        v' := Stripe(m, v, mem[..], 0);
      } else {
        assert all == input[p..];
      }
      memsize' := 0;
      if p + m.Block() <= |input| {
        v', p := Consume(m, v', input, p);
      } else {
        NoBlock(m, v', input[p..]);
      }
      if p < |input| {
        Copy(0, input[p..]);
        memsize' := |input| - p;
        assert mem[..0] + input[p..] == input[p..];
      }
    }

    /** XXH32_digest and XXH64_digest; the wide form takes the length itself for the flag. */
    method Digest() returns (h: nat)
      requires Valid() && (m.wide ==> |seen| < m.modulus)
      ensures h == Hash(m, seed, seen)
    {
      var large := if m.wide then totalLen >= m.Block() else largeLen;
      if m.wide { SmallModIs(|seen|, m.modulus); }
      if large {
        h := m.merge(v);
      } else {
        h := m.short(v.v3);
      }
      AddMod(|seen|, h, m.modulus);
      h := (h + totalLen) % m.modulus;
      assert mem[..][0..memsize] == mem[..memsize];
      h := Finish(m, h, mem[..], 0, memsize);
    }
  }

  lemma SmallModIs(x: nat, d: nat)
    requires x < d
    ensures x % d == x
  {
  }

  lemma AddMod(x: nat, n: nat, d: nat)
    requires d > 0
    ensures (x % d + n) % d == (x + n) % d
  {
    Bits.DivMod(x, d);
    AddModParts(x, n, d, x / d, x % d);
  }

  lemma AddModParts(x: nat, n: nat, d: nat, q: nat, r: nat)
    requires d > 0 && x == q * d + r
    ensures (r + n) % d == (x + n) % d
  {
    Bits.AddMultipleDiv(r + n, q, d);
    assert r + n + q * d == x + n;
  }

  lemma SmallMod(x: nat, n: nat, d: nat, block: nat)
    requires d > 2 * block && x < block && n < block
    ensures (x + n) % d == x + n
  {
  }

  /* Any cutting of an input */

  function Concat(pieces: seq<seq<Byte>>): seq<Byte> {
    if pieces == [] then [] else Concat(pieces[..|pieces| - 1]) + pieces[|pieces| - 1]
  }

  /** Feeding an input piece by piece. */
  method Streamed(m: Mix, seed: nat, pieces: seq<seq<Byte>>) returns (h: nat)
    requires m.Sound() && seed < m.modulus && (m.wide ==> |Concat(pieces)| < m.modulus)
    ensures h == Hash(m, seed, Concat(pieces))
  {
    var state := new HashState(m);
    state.Reset(seed);
    var i := 0;
    while i < |pieces|
      invariant 0 <= i <= |pieces| && state.m == m && state.Valid() && fresh(state) && fresh(state.mem)
      invariant state.seed == seed && state.seen == Concat(pieces[..i])
    {
      assert pieces[..i + 1][..i] == pieces[..i];
      state.Update(pieces[i]);
      i := i + 1;
    }
    assert pieces[..i] == pieces;
    h := state.Digest();
  }
}
