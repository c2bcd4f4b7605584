/** Comparing and subtracting indices that wrap around, in an unsigned word of `word` values. */
module CircularOrder {
  import opened Bits
  import opened BlockIndexRing

  /** circular_less_than: the wrapped difference is above the middle of the word. */
  predicate CircularLessThan(a: nat, b: nat, word: nat)
    requires word > 0
  {
    (a - b) % word > word / 2
  }

  /** The wrapped difference of two wrapped numbers is that of the numbers. */
  lemma WrappedDifference(x: int, y: int, word: nat)
    requires word > 0 && 0 - word < x - y < word
    ensures (x % word - y % word) % word == if x < y then x - y + word else x - y
  {
    var d := if x < y then x - y + word else x - y;
    var q := if x < y then y / word - x / word - 1 else y / word - x / word;
    assert x % word - y % word == x - y + (y / word - x / word) * word;
    if x < y { assert (y / word - x / word) * word == (q + 1) * word == q * word + word; }
    ModIs(x % word - y % word, word, q, d);
  }

  /** The comparison agrees with that of the unbounded numbers exactly when the first lies less than half a
      word below the second, or at most half a word above it. */
  lemma CircularLessThanExact(x: int, y: int, word: nat)
    requires word > 0 && word % 2 == 0 && 0 - word < x - y < word
    ensures (CircularLessThan(x % word, y % word, word) <==> x < y) <==> 0 - word / 2 < x - y <= word / 2
  {
    WrappedDifference(x, y, word);
  }

  lemma WholeWords(x: int, k: int, m: nat)
    requires m > 0
    ensures (x + k * m) % m == x % m
  {
    DivMod(x, m);
    assert x + k * m == (x / m + k) * m + x % m;
    ModIs(x + k * m, m, x / m + k, x % m);
  }

  lemma DifferenceWraps(x: int, y: int, word: nat)
    requires word > 0
    ensures (x % word - y % word) % word == (x - y) % word
  {
    DivMod(x, word);
    DivMod(y, word);
    var k := y / word - x / word;
    assert x % word - y % word == x - y + k * word;
    WholeWords(x - y, k, word);
  }

  /** Dividing what is left of a multiple. */
  lemma ScaledRemainder(d: int, size: nat, blocks: nat)
    requires size > 0 && blocks > 0
    ensures blocks * size > 0 && d * size % (blocks * size) / size == d % blocks
  {
    DivMod(d, blocks);
    var q, r := d / blocks, d % blocks;
    MulMonotone(1, blocks, size);
    MulMonotone(0, r, size);
    MulMonotone(r, blocks - 1, size);
    assert (blocks - 1) * size == blocks * size - size;
    assert (q * blocks) * size == q * (blocks * size);
    assert d * size == q * (blocks * size) + r * size;
    ModIs(d * size, blocks * size, q, r * size);
    ModIs(r * size, size, r, 0);
  }

  lemma RemainderOfTurns(d: int, turns: nat, capacity: nat)
    requires turns > 0 && capacity > 0
    ensures turns * capacity > 0 && d % (turns * capacity) % capacity == d % capacity
  {
    MulMonotone(1, turns, capacity);
    var blocks := turns * capacity;
    DivMod(d, blocks);
    assert d / blocks * blocks == (d / blocks * turns) * capacity;
    WholeWords(d % blocks, d / blocks * turns, capacity);
  }

  /** The lookup's offset: the wrapped difference of two multiples of the block size, divided by it. The division
      is unsigned, so that a smaller number is not a negative number of blocks away but one short of the word; a
      ring that the blocks of a word go round a whole number of times does not show the difference. */
  lemma UnsignedOffset(m: int, n: int, size: nat, capacity: nat, turns: nat)
    requires size > 0 && capacity > 0 && turns > 0
    ensures turns * capacity * size > 0
    ensures var word := turns * capacity * size;
      var offset := (m * size % word - n * size % word) % word / size;
      && offset == (m - n) % (turns * capacity)
      && offset % capacity == (m - n) % capacity
  {
    RemainderOfTurns(m - n, turns, capacity);
    ScaledRemainder(m - n, size, turns * capacity);
    DifferenceWraps(m * size, n * size, turns * capacity * size);
    assert m * size - n * size == (m - n) * size;
  }

  /** What the offset is when the first number is the smaller, by less than a word. */
  lemma OffsetOfSmaller(m: int, n: int, size: nat, blocks: nat)
    requires size > 0 && m < n < m + blocks
    ensures blocks * size > 0
    ensures (m * size % (blocks * size) - n * size % (blocks * size)) % (blocks * size) / size == blocks + (m - n)
  {
    UnsignedOffset(m, n, size, 1, blocks);
    ModIs(m - n, blocks, -1, blocks + (m - n));
  }
}
