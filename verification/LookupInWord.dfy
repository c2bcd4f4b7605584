/** The lookup of the block index as the source computes it, on wrapped words, is the lookup of the model. */
module LookupInWord {
  import opened Bits
  import opened BitStrings
  import opened BlockIndexRing
  import opened BlockIndex
  import opened BlockQueue
  import opened BlockCounters
  import opened BlockContents
  import opened BlockLookup
  import opened BlockRuns
  import opened CircularOrder
  import opened Masks

  /** get_block_index_index_for_index in words of `bits` bits, with the key and the capacity it loads: the index is
      masked to its base, the difference is divided, and the sum is masked to the ring. */
  function WordLookup(t: nat, index: int, key: int, capacity: nat, bits: nat): nat
    requires capacity > 0 && BLOCK_SIZE <= Pow2(bits)
  {
    var word := Pow2(bits);
    var base := And(index % word, word - BLOCK_SIZE);
    And((t + (base - key % word) % word / BLOCK_SIZE) % word, capacity - 1)
  }

  /** Two powers of two whose product fits: how often it does. */
  lemma Turns(capacity: nat, k: nat, j: nat, bits: nat) returns (turns: nat)
    requires capacity == Pow2(k) && BLOCK_SIZE == Pow2(j) && k + j <= bits
    ensures turns > 0 && Pow2(bits) == turns * capacity * BLOCK_SIZE
  {
    turns := Pow2(bits - k - j);
    Pow2Add(bits - k - j, k);
    Pow2Add(bits - j, j);
  }

  /** The base of a wrapped index is the wrapped base. */
  lemma BaseWraps(index: int, j: nat, bits: nat)
    requires BLOCK_SIZE == Pow2(j) && j <= bits
    ensures Pow2(j) <= Pow2(bits)
    ensures And(index % Pow2(bits), Pow2(bits) - BLOCK_SIZE) == index / BLOCK_SIZE * BLOCK_SIZE % Pow2(bits)
  {
    var word, size: int, more := Pow2(bits), BLOCK_SIZE, Pow2(bits - j);
    Pow2Add(bits - j, j);
    ClearingIsMultiple(index % word, bits, j);
    DivMod(index, word);
    DivMod(index % word, size);
    MultipleOfWord(index, size, more, index / word, index % word);
  }

  lemma MultipleOfWord(x: int, size: nat, more: nat, q: int, r: nat)
    requires size > 0 && more > 0 && x == q * (more * size) + r && r < more * size
    ensures x / size * size % (more * size) == r / size * size
  {
    DivMod(r, size);
    assert q * (more * size) == (q * more) * size;
    ModIs(x, size, q * more + r / size, r % size);
    assert (q * more + r / size) * size == q * (more * size) + r / size * size;
    MulMonotone(0, r / size, size);
    ModIs(x / size * size, more * size, q, r / size * size);
  }

  lemma SumInRing(t: nat, a: int, b: int, capacity: nat)
    requires capacity > 0 && a % capacity == b % capacity
    ensures (t + a) % capacity == (t + b) % capacity
  {
    DivMod(a, capacity);
    DivMod(b, capacity);
    assert t + a == t + b + (a / capacity - b / capacity) * capacity;
    WholeWords(t + b, a / capacity - b / capacity, capacity);
  }

  /** Whatever the indices have grown to, the slot found on wrapped words is the one `Located` finds, in every ring
      whose blocks fit into a word. */
  lemma FindsLocated(r: Ring, h: nat, t: nat, i: int, m: int, bits: nat)
    requires Shape(r) && h < |r.headers| && t < |r.headers[h].index|
    requires r.entries[EntryAt(r, h, t)].key == m * BLOCK_SIZE
    requires IsPower(|r.headers[h].index|) && FitsInWord(r, h, bits)
    ensures BLOCK_SIZE <= Pow2(bits)
    ensures WordLookup(t, i, m * BLOCK_SIZE, |r.headers[h].index|, bits) == Located(r, h, t, i)
  {
    hide And;
    var capacity, word, n := |r.headers[h].index|, Pow2(bits), i / BLOCK_SIZE;
    var k := IsPowerIs(capacity);
    var j := IsPowerIs(BLOCK_SIZE);
    Pow2Add(k, j);
    if k + j > bits { Pow2Less(bits, k + j); }
    var turns := Turns(capacity, k, j, bits);
    BaseWraps(i, j, bits);
    UnsignedOffset(n, m, BLOCK_SIZE, capacity, turns);
    var offset := (n * BLOCK_SIZE % word - m * BLOCK_SIZE % word) % word / BLOCK_SIZE;
    MaskIsRemainder(t + offset, bits, k);
    SumInRing(t, offset, n - m, capacity);
    OffsetIs(n, m);
  }

  /** The elements of the blocks that header `h` has room for have different indices in a word. */
  predicate FitsInWord(r: Ring, h: nat, bits: nat) {
    h < |r.headers| && |r.headers[h].index| * BLOCK_SIZE <= Pow2(bits)
  }

  lemma DequeuerFinds(s: State, t: nat, bits: nat)
    requires Inv(s) && CapacitiesOk(s.ring) && t < |s.readers| && s.readers[t].Busy? && s.readers[t].phase.NeedKey?
    requires FitsInWord(s.ring, s.readers[t].phase.h, bits)
    ensures FindsItsSlot(s, s.readers[t], bits)
  {
    hide Num, Located, Pos, Counted, Filled, ProducerOk, WordLookup, FitsInWord;
    var r, x := s.ring, s.readers[t];
    ShapeOf(r);
    LookupLands(s, t);
    assert ReaderOk(r, s.head, x);
    LastCovered(x);
    assert Stored(r, Dirty(s), Num(x.i));
    LocatedIs(r, x.phase.h, x.phase.t, x.phase.m, x.i);
    FindsLocated(r, x.phase.h, x.phase.t, x.i, x.phase.m, bits);
  }

  /** With the tail and the key it has loaded, the dequeuer's arithmetic on words leads to the slot of its block. */
  ghost predicate FindsItsSlot(s: State, x: Reader, bits: nat)
    requires Shape(s.ring) && x.Busy? && x.phase.NeedKey?
  {
    var h, tail := x.phase.h, x.phase.t;
    && h < |s.ring.headers| && tail < |s.ring.headers[h].index| && BLOCK_SIZE <= Pow2(bits)
    && AtNumber(s.ring, h, WordLookup(tail, x.i, s.ring.entries[EntryAt(s.ring, h, tail)].key,
                                      |s.ring.headers[h].index|, bits), Num(x.i))
  }

  /** So it is in every run, for as long as the ring's blocks fit into a word. */
  lemma EveryLookupInWords(junk: seq<Option<Block>>, readers: nat, events: seq<Event>, t: nat, bits: nat)
    requires t < readers
    ensures var s := Run(Start(junk, readers), events); var x := s.readers[t];
      Shape(s.ring) && (x.Busy? && x.phase.NeedKey? && FitsInWord(s.ring, x.phase.h, bits) ==>
                          FindsItsSlot(s, x, bits))
  {
    hide Num, Located, Pos, Counted, Filled, ProducerOk, FindsItsSlot, FitsInWord;
    var s := Run(Start(junk, readers), events);
    ShapeOf(s.ring);
    RunCapacities(Start(junk, readers), events);
    var x := s.readers[t];
    if x.Busy? && x.phase.NeedKey? && FitsInWord(s.ring, x.phase.h, bits) {
      DequeuerFinds(s, t, bits);
    }
  }
}
