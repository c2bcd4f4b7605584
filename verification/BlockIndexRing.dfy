/** Positions in a ring, and the rotated copy that is made when the ring is doubled. */
module BlockIndexRing {
  import opened Bits

  predicate IsPower(n: int) {
    n == 1 || (n > 1 && n % 2 == 0 && IsPower(n / 2))
  }

  lemma {:induction false} IsPowerIs(n: int) returns (k: nat)
    requires IsPower(n)
    ensures n == Pow2(k)
  {
    if n == 1 {
      k := 0;
    } else {
      var j := IsPowerIs(n / 2);
      k := j + 1;
    }
  }

  /** The position of number `n` in a ring of `capacity` slots; the source masks with `capacity - 1`. */
  function Pos(anchor: int, n: int, capacity: nat): (p: nat)
    requires capacity > 0
    ensures p < capacity
  {
    (anchor + n) % capacity
  }

  lemma ModIs(x: int, m: int, q: int, r: int)
    requires 0 <= r < m && x == q * m + r
    ensures x % m == r && x / m == q
  {
    DivModIs(x, m, q, r);
  }

  /** Moving `d` slots from the position of `n` leads to that of `n + d`. */
  lemma PosMoves(anchor: int, n: int, d: int, capacity: nat)
    requires capacity > 0
    ensures (Pos(anchor, n, capacity) + d) % capacity == Pos(anchor, n + d, capacity)
  {
    var x := anchor + n;
    var q, y := x / capacity, x % capacity + d;
    assert x + d == q * capacity + y;
    assert x + d == (q + y / capacity) * capacity + y % capacity;
    ModIs(x + d, capacity, q + y / capacity, y % capacity);
  }

  /** Numbers closer than the capacity have different positions. */
  lemma PosDiffers(anchor: int, m: int, n: int, capacity: nat)
    requires capacity > 0 && m < n < m + capacity
    ensures Pos(anchor, m, capacity) != Pos(anchor, n, capacity)
  {
    var x, y := anchor + m, anchor + n;
    var k := y / capacity - x / capacity;
    assert k * capacity == n - m - (y % capacity - x % capacity);
    MultipleGap(k, capacity);
  }

  lemma MultipleGap(k: int, m: nat)
    ensures k > 0 ==> k * m >= m
    ensures k <= 0 ==> k * m <= 0
  {
  }

  /** A whole turn leads back to the same position. */
  lemma PosRepeats(anchor: int, n: int, capacity: nat)
    requires capacity > 0
    ensures Pos(anchor, n + capacity, capacity) == Pos(anchor, n, capacity)
  {
    var x := anchor + n;
    ModIs(x + capacity, capacity, x / capacity + 1, x % capacity);
  }

  lemma PosWithin(anchor: int, n: int, capacity: nat)
    requires 0 <= anchor + n < capacity
    ensures Pos(anchor, n, capacity) == anchor + n
  {
    ModIs(anchor + n, capacity, 0, anchor + n);
  }

  /** The slots of a ring in order, beginning behind the tail; the tail comes last. */
  function Rotated(index: seq<nat>, tail: nat): (r: seq<nat>)
    requires tail < |index|
    ensures |r| == |index|
  {
    index[tail + 1..] + index[..tail + 1]
  }

  /** The next slot, `(p + 1) & (capacity - 1)`. */
  function After(p: nat, capacity: nat): (r: nat)
    requires p < capacity
    ensures r == if p + 1 == capacity then 0 else p + 1
  {
    ModIs(p + 1, capacity, if p + 1 == capacity then 1 else 0, if p + 1 == capacity then 0 else p + 1);
    (p + 1) % capacity
  }

  /** The slot before, `(p - 1) & (capacity - 1)`. */
  function Before(p: nat, capacity: nat): (r: nat)
    requires p < capacity
    ensures r == if p == 0 then capacity - 1 else p - 1
  {
    ModIs(p - 1, capacity, if p == 0 then -1 else 0, if p == 0 then capacity - 1 else p - 1);
    (p - 1) % capacity
  }

  lemma PosNext(anchor: int, n: int, capacity: nat)
    requires capacity > 0
    ensures After(Pos(anchor, n, capacity), capacity) == Pos(anchor, n + 1, capacity)
    ensures Before(Pos(anchor, n + 1, capacity), capacity) == Pos(anchor, n, capacity)
  {
    PosMoves(anchor, n, 1, capacity);
    PosMoves(anchor, n + 1, -1, capacity);
  }

  /** The copying loop of new_block_index: it begins behind the tail and ends with it. */
  method CopyRing(index: seq<nat>, tail: nat) returns (r: seq<nat>)
    requires tail < |index|
    ensures r == Rotated(index, tail)
  {
    hide After;
    var prevPos := After(tail, |index|);
    r := [index[prevPos]];
    while prevPos != tail
      invariant 1 <= |r| <= |index|
      invariant forall j :: 0 <= j < |r| ==> r[j] == Rotated(index, tail)[j]
      invariant prevPos == (if tail + |r| < |index| then tail + |r| else tail + |r| - |index|)
      decreases |index| - |r|
    {
      prevPos := After(prevPos, |index|);
      r := r + [index[prevPos]];
    }
  }

  lemma RotatedAt(index: seq<nat>, anchor: int, last: int, n: int)
    requires |index| > 0 && last - |index| < n <= last
    ensures Rotated(index, Pos(anchor, last, |index|))[|index| - 1 - (last - n)] == index[Pos(anchor, n, |index|)]
  {
    var tail := Pos(anchor, last, |index|);
    PosMoves(anchor, last, n - last, |index|);
    var p := tail + (n - last);
    if p >= 0 {
      ModIs(p, |index|, 0, p);
    } else {
      ModIs(p, |index|, -1, p + |index|);
    }
  }
}
