/** The block index of one implicit sub-queue: a ring of entries that leads from the base of a block to
    the block, and that is doubled when it is full.

    The operations on the ring are here, each with what it keeps; BlockQueue interleaves them with the
    dequeuers. Indices are not bounded. */
module BlockIndex {
  import opened BlockIndexRing

  /** Block size and capacity may be any power of two from 2 on; their logarithms are chosen at will. */
  type Size = n: int | n >= 2 && IsPower(n) witness 2
  const BLOCK_SIZE: Size
  const INITIAL_CAPACITY: Size
  const INVALID: int := 1

  type Block = nat

  datatype Option<+T> = None | Some(value: T)

  datatype Entry = Entry(key: int, value: Option<Block>)

  /** History: the block with number `n`, whose base is `n * BLOCK_SIZE`, belongs at
      `Pos(anchor, n, |index|)`, and a header that was replaced knows the numbers below `hi`. */
  datatype Header = Header(tail: nat, index: seq<nat>, anchor: int, hi: int)

  /** History: the entries of the numbers from `low` up to `high` hold their keys, those from `next` on were
      taken back; `blocks` are the blocks in use by number. The last header is the current one. */
  datatype Ring = Ring(
    entries: seq<Entry>, headers: seq<Header>, low: int, next: int, high: int, blocks: map<int, Block>)

  /* The ring */

  function Cur(r: Ring): Header
    requires r.headers != []
  {
    r.headers[|r.headers| - 1]
  }

  /** The entry of number `n`. */
  function EntryOf(h: Header, n: int): nat
    requires h.index != []
  {
    h.index[Pos(h.anchor, n, |h.index|)]
  }

  predicate Reusable(e: Entry) {
    e.key == INVALID || e.value.None?
  }

  predicate HeaderOk(h: Header, entries: nat) {
    h.tail < |h.index| && forall p :: 0 <= p < |h.index| ==> h.index[p] < entries
  }

  /** One more than the greatest number that header `h` is asked for. */
  function HiOf(r: Ring, h: nat): int
    requires h < |r.headers|
  {
    if h + 1 == |r.headers| then r.high else r.headers[h].hi
  }

  predicate Shape(r: Ring) {
    r.headers != [] && forall h :: 0 <= h < |r.headers| ==> HeaderOk(r.headers[h], |r.entries|)
  }

  predicate Injective(index: seq<nat>) {
    forall p, q :: 0 <= p < q < |index| ==> index[p] != index[q]
  }

  /** Numbers in the window have their keys, and an old header that knows a number leads to the same entry. */
  predicate Layout(r: Ring) {
    && Shape(r) && Injective(Cur(r).index)
    && 0 <= r.low <= r.next <= r.high <= r.low + |Cur(r).index|
    && Cur(r).tail == Pos(Cur(r).anchor, r.next - 1, |Cur(r).index|)
    && (forall n :: r.low <= n < r.high ==> r.entries[EntryOf(Cur(r), n)].key == n * BLOCK_SIZE)
    && (forall h :: 0 <= h < |r.headers| - 1 ==> OldHeaderOk(r, h))
  }

  predicate OldHeaderOk(r: Ring, h: nat)
    requires Shape(r) && h < |r.headers|
  {
    var header := r.headers[h];
    && header.hi <= r.high && header.tail == Pos(header.anchor, header.hi - 1, |header.index|)
    && forall n :: r.low <= n < header.hi ==> EntryOf(header, n) == EntryOf(Cur(r), n)
  }

  /** An entry with a block is that of its number; only the entry being inserted may hold a stale value. */
  predicate Storage(r: Ring, dirty: int)
    requires Shape(r)
  {
    && (forall n :: n in r.blocks ==> Stored(r, dirty, n))
    && (forall e :: 0 <= e < |r.entries| ==> Accounted(r, dirty, e))
    && (dirty >= 0 ==> r.low <= dirty < r.high)
  }

  predicate Stored(r: Ring, dirty: int, n: int)
    requires Shape(r) && n in r.blocks
  {
    r.low <= n < r.high && n != dirty && r.entries[EntryOf(Cur(r), n)].value == Some(r.blocks[n])
  }

  predicate Accounted(r: Ring, dirty: int, e: nat)
    requires Shape(r) && e < |r.entries|
  {
    || Reusable(r.entries[e])
    || (dirty >= 0 && e == EntryOf(Cur(r), dirty))
    || exists n :: n in r.blocks && EntryOf(Cur(r), n) == e
  }

  /* What the producer does to the ring */

  function WithHeader(r: Ring, h: Header): Ring
    requires r.headers != []
  {
    r.(headers := r.headers[|r.headers| - 1 := h])
  }

  /** The slot behind the tail. */
  function FreshEntry(r: Ring): nat
    requires Shape(r)
  {
    var h := Cur(r);
    assert HeaderOk(r.headers[|r.headers| - 1], |r.entries|);
    h.index[After(h.tail, |h.index|)]
  }

  function KeyStored(r: Ring, key: int): Ring
    requires Shape(r) && FreshEntry(r) < |r.entries|
  {
    var e := FreshEntry(r);
    var over := r.next == r.high && r.high == r.low + |Cur(r).index|;
    r.(entries := r.entries[e := r.entries[e].(key := key)],
       low := if over then r.low + 1 else r.low,
       high := if r.next == r.high then r.high + 1 else r.high)
  }

  function TailStored(r: Ring): Ring
    requires Shape(r)
  {
    var h := Cur(r);
    assert HeaderOk(r.headers[|r.headers| - 1], |r.entries|);
    WithHeader(r, h.(tail := After(h.tail, |h.index|))).(next := r.next + 1)
  }

  /** rewind_block_index_tail */
  function TailBack(r: Ring): Ring
    requires Shape(r)
  {
    var h := Cur(r);
    assert HeaderOk(r.headers[|r.headers| - 1], |r.entries|);
    WithHeader(r, h.(tail := Before(h.tail, |h.index|))).(next := r.next - 1)
  }

  /** Entries without keys, whose values are not initialised. */
  function Blanks(n: nat, junk: seq<Option<Block>>): (r: seq<Entry>)
    ensures |r| == n && forall i :: 0 <= i < n ==> r[i].key == INVALID
  {
    seq(n, i requires 0 <= i < n => Entry(INVALID, if i < |junk| then junk[i] else None))
  }

  /** new_block_index: as many new entries as there were, whose values are not initialised, behind the old
      ones, which are taken over in their order with the tail as the last. */
  function Grown(r: Ring, junk: seq<Option<Block>>): Ring
    requires Shape(r)
  {
    var h := Cur(r);
    assert HeaderOk(r.headers[|r.headers| - 1], |r.entries|);
    var added := seq(|h.index|, i requires 0 <= i < |h.index| => |r.entries| + i);
    var header := Header(|h.index| - 1, Rotated(h.index, h.tail) + added, |h.index| - r.next, 0);
    r.(entries := r.entries + Blanks(|h.index|, junk), headers := WithHeader(r, h.(hi := r.high)).headers + [header])
  }

  /** The block of number `n` is stored, or removed, in entry `e`. */
  function ValueStored(r: Ring, e: nat, n: int, block: Block): Ring
    requires e < |r.entries|
  {
    r.(entries := r.entries[e := r.entries[e].(value := Some(block))], blocks := r.blocks[n := block])
  }

  function ValueCleared(r: Ring, e: nat, n: int): Ring
    requires e < |r.entries|
  {
    r.(entries := r.entries[e := r.entries[e].(value := None)], blocks := r.blocks - {n})
  }

  /* Each keeps the layout and the storage */

  /** Two numbers of the window have different entries. */
  lemma EntriesDiffer(r: Ring, m: int, n: int)
    requires Layout(r) && m != n && m < n + |Cur(r).index| && n < m + |Cur(r).index|
    ensures EntryOf(Cur(r), m) != EntryOf(Cur(r), n)
  {
    var h := Cur(r);
    if m < n { PosDiffers(h.anchor, m, n, |h.index|); } else { PosDiffers(h.anchor, n, m, |h.index|); }
    var p, q := Pos(h.anchor, m, |h.index|), Pos(h.anchor, n, |h.index|);
    assert p < q || q < p;
  }

  lemma FreshIs(r: Ring)
    requires Layout(r)
    ensures FreshEntry(r) == EntryOf(Cur(r), r.next) < |r.entries|
    ensures Cur(r).index != [] && HeaderOk(Cur(r), |r.entries|)
  {
    assert HeaderOk(r.headers[|r.headers| - 1], |r.entries|);
    PosNext(Cur(r).anchor, r.next - 1, |Cur(r).index|);
  }

  lemma ShapeOf(r: Ring)
    requires Layout(r)
    ensures Shape(r) && 0 <= r.low <= r.next <= r.high && Cur(r).index != [] && HeaderOk(Cur(r), |r.entries|)
    ensures Cur(r).tail == Pos(Cur(r).anchor, r.next - 1, |Cur(r).index|)
  {
    FreshIs(r);
  }

  /** The slot behind the tail holds a block only if the window fills the ring and its lowest block is in use. */
  lemma NoRoom(r: Ring)
    requires Layout(r) && Storage(r, -1) && r.next !in r.blocks
    requires FreshEntry(r) < |r.entries| && !Reusable(r.entries[FreshEntry(r)])
    ensures r.next == r.high == r.low + |Cur(r).index| && r.low in r.blocks
  {
    FreshIs(r);
    var e := FreshEntry(r);
    assert Accounted(r, -1, e);
    var n :| n in r.blocks && EntryOf(Cur(r), n) == e;
    assert Stored(r, -1, n);
    if n < r.next + |Cur(r).index| && r.next < n + |Cur(r).index| { EntriesDiffer(r, n, r.next); }
  }

  /** No header loses what a dequeuer may know of it. */
  predicate HeadersGrow(r: Ring, q: Ring) {
    |r.headers| <= |q.headers| && forall h :: 0 <= h < |r.headers| ==> HeaderGrows(r, q, h)
  }

  predicate HeaderGrows(r: Ring, q: Ring, h: nat)
    requires h < |r.headers| && h < |q.headers|
  {
    && q.headers[h].index == r.headers[h].index && q.headers[h].anchor == r.headers[h].anchor
    && HiOf(r, h) <= HiOf(q, h)
  }

  lemma KeyStoredKeeps(r: Ring, key: int)
    requires Layout(r) && Storage(r, -1) && r.next !in r.blocks && key == r.next * BLOCK_SIZE
    requires FreshEntry(r) < |r.entries| && Reusable(r.entries[FreshEntry(r)])
    ensures Layout(KeyStored(r, key)) && Storage(KeyStored(r, key), r.next) && r.next < KeyStored(r, key).high
    ensures HeadersGrow(r, KeyStored(r, key))
  {
    FreshIs(r);
    var q, e, h := KeyStored(r, key), FreshEntry(r), Cur(r);
    if q.low > r.low {
      PosRepeats(h.anchor, r.low, |h.index|);
      assert r.low in r.blocks ==> Stored(r, -1, r.low);
    }
    forall n | q.low <= n < q.high ensures q.entries[EntryOf(Cur(q), n)].key == n * BLOCK_SIZE {
      if n != r.next { EntriesDiffer(r, n, r.next); }
    }
    forall n | n in q.blocks ensures Stored(q, r.next, n) {
      assert Stored(r, -1, n);
      EntriesDiffer(r, n, r.next);
    }
    forall k | 0 <= k < |q.entries| ensures Accounted(q, r.next, k) {
      assert Accounted(r, -1, k);
    }
    forall k | 0 <= k < |q.headers| - 1 ensures OldHeaderOk(q, k) {
      assert OldHeaderOk(r, k);
    }
  }

  lemma TailStoredKeeps(r: Ring, dirty: int)
    requires Layout(r) && Storage(r, dirty) && r.next < r.high
    ensures Layout(TailStored(r)) && Storage(TailStored(r), dirty)
    ensures HeadersGrow(r, TailStored(r))
  {
    FreshIs(r);
    PosNext(Cur(r).anchor, r.next - 1, |Cur(r).index|);
    MovedKeeps(r, After(Cur(r).tail, |Cur(r).index|), r.next + 1, dirty);
  }

  lemma TailBackKeeps(r: Ring, dirty: int)
    requires Layout(r) && Storage(r, dirty) && r.low < r.next
    ensures Layout(TailBack(r)) && Storage(TailBack(r), dirty)
    ensures HeadersGrow(r, TailBack(r))
  {
    FreshIs(r);
    PosNext(Cur(r).anchor, r.next - 2, |Cur(r).index|);
    MovedKeeps(r, Before(Cur(r).tail, |Cur(r).index|), r.next - 1, dirty);
  }

  /** Moving the tail changes nothing but the tail. */
  lemma MovedKeeps(r: Ring, tail: nat, next: int, dirty: int)
    requires Layout(r) && Storage(r, dirty)
    requires r.low <= next <= r.high && tail == Pos(Cur(r).anchor, next - 1, |Cur(r).index|)
    ensures var q := WithHeader(r, Cur(r).(tail := tail)).(next := next);
      Layout(q) && Storage(q, dirty) && HeadersGrow(r, q)
  {
    hide Pos, Injective, Reusable;
    FreshIs(r);
    var q := WithHeader(r, Cur(r).(tail := tail)).(next := next);
    assert q.headers[..|r.headers| - 1] == r.headers[..|r.headers| - 1];
    assert Cur(q).index == Cur(r).index && Cur(q).anchor == Cur(r).anchor;
    assert Cur(q).tail == tail;
    assert Injective(Cur(q).index);
    assert forall n :: EntryOf(Cur(q), n) == EntryOf(Cur(r), n);
    forall k | 0 <= k < |q.headers| ensures HeaderOk(q.headers[k], |q.entries|) {
      assert HeaderOk(r.headers[k], |r.entries|);
    }
    forall k | 0 <= k < |q.headers| - 1 ensures OldHeaderOk(q, k) {
      assert OldHeaderOk(r, k);
    }
    forall n | n in q.blocks ensures Stored(q, dirty, n) {
      assert Stored(r, dirty, n);
    }
    forall k | 0 <= k < |q.entries| ensures Accounted(q, dirty, k) {
      assert Accounted(r, dirty, k);
    }
  }

  /** The block of an inserted number is stored; `dirty` is that number. */
  lemma ValueStoredKeeps(r: Ring, n: int, block: Block)
    requires Layout(r) && Storage(r, n) && n >= 0
    ensures EntryOf(Cur(r), n) < |r.entries|
    ensures var q := ValueStored(r, EntryOf(Cur(r), n), n, block);
      Layout(q) && Storage(q, -1) && HeadersGrow(r, q)
  {
    FreshIs(r);
    var e := EntryOf(Cur(r), n);
    var q := ValueStored(r, e, n, block);
    SameKeysKeep(r, q);
    forall m | m in q.blocks ensures Stored(q, -1, m) {
      if m != n {
        assert Stored(r, n, m);
        EntriesDiffer(r, m, n);
      }
    }
    forall k | 0 <= k < |q.entries| ensures Accounted(q, -1, k) {
      assert Accounted(r, n, k);
      if !Reusable(r.entries[k]) && k != e {
        var m :| m in r.blocks && EntryOf(Cur(r), m) == k;
        assert m in q.blocks && EntryOf(Cur(q), m) == k;
      }
      if k == e { assert n in q.blocks && EntryOf(Cur(q), n) == k; }
    }
  }

  /** The value of a number of the window is cleared. */
  lemma ValueClearedKeeps(r: Ring, n: int, dirty: int)
    requires Layout(r) && Storage(r, dirty) && r.low <= n < r.high
    ensures EntryOf(Cur(r), n) < |r.entries|
    ensures var q := ValueCleared(r, EntryOf(Cur(r), n), n);
      Layout(q) && Storage(q, if n == dirty then -1 else dirty) && HeadersGrow(r, q)
  {
    FreshIs(r);
    var e := EntryOf(Cur(r), n);
    var q, rest := ValueCleared(r, e, n), if n == dirty then -1 else dirty;
    SameKeysKeep(r, q);
    forall m | m in q.blocks ensures Stored(q, rest, m) {
      assert Stored(r, dirty, m);
      EntriesDiffer(r, m, n);
    }
    forall k | 0 <= k < |q.entries| ensures Accounted(q, rest, k) {
      assert Accounted(r, dirty, k);
      if !Reusable(r.entries[k]) && k != e && !(dirty >= 0 && k == EntryOf(Cur(r), dirty)) {
        var m :| m in r.blocks && EntryOf(Cur(r), m) == k;
        assert m in q.blocks && EntryOf(Cur(q), m) == k;
      }
    }
  }

  /** Storing values leaves the layout as it is. */
  lemma SameKeysKeep(r: Ring, q: Ring)
    requires Layout(r) && q == r.(entries := q.entries, blocks := q.blocks) && |q.entries| == |r.entries|
    requires forall e :: 0 <= e < |r.entries| ==> q.entries[e].key == r.entries[e].key
    ensures Layout(q) && HeadersGrow(r, q)
  {
    FreshIs(r);
    forall k | 0 <= k < |q.headers| - 1 ensures OldHeaderOk(q, k) {
      assert OldHeaderOk(r, k);
    }
  }

  /** A doubled ring leads from every number of the window to the same entry. */
  lemma GrownEntries(r: Ring, junk: seq<Option<Block>>, n: int)
    requires Layout(r) && r.next == r.high && r.next - |Cur(r).index| <= n < r.next
    ensures EntryOf(Cur(Grown(r, junk)), n) == EntryOf(Cur(r), n)
  {
    FreshIs(r);
    var h, g := Cur(r), Cur(Grown(r, junk));
    PosWithin(g.anchor, n, |g.index|);
    RotatedAt(h.index, h.anchor, r.next - 1, n);
  }

  lemma GrownInjective(r: Ring, junk: seq<Option<Block>>)
    requires Layout(r)
    ensures Injective(Cur(Grown(r, junk)).index) && HeaderOk(Cur(Grown(r, junk)), |Grown(r, junk).entries|)
  {
    FreshIs(r);
    var h, index := Cur(r), Cur(Grown(r, junk)).index;
    RotatedInjective(h.index, h.tail);
    var a := Rotated(h.index, h.tail);
    assert forall p :: 0 <= p < |a| ==> index[p] == a[p];
    assert forall p :: |a| <= p < |index| ==> index[p] == |r.entries| + p - |a|;
  }

  lemma RotatedInjective(index: seq<nat>, tail: nat)
    requires Injective(index) && tail < |index|
    ensures Injective(Rotated(index, tail))
    ensures forall p :: 0 <= p < |index| ==> Rotated(index, tail)[p] in index
  {
    var r := Rotated(index, tail);
    forall p, q | 0 <= p < q < |r| ensures r[p] != r[q] {
      var i := if p < |index| - tail - 1 then p + tail + 1 else p + tail + 1 - |index|;
      var j := if q < |index| - tail - 1 then q + tail + 1 else q + tail + 1 - |index|;
      assert r[p] == index[i] && r[q] == index[j];
      if i < j { assert index[i] != index[j]; } else { assert index[j] != index[i]; }
    }
  }

  /** Doubling keeps everything, and leaves an unused entry behind the tail. */
  lemma GrownKeeps(r: Ring, junk: seq<Option<Block>>)
    requires Layout(r) && Storage(r, -1) && r.next == r.high
    ensures Layout(Grown(r, junk)) && Storage(Grown(r, junk), -1) && HeadersGrow(r, Grown(r, junk))
    ensures |Cur(Grown(r, junk)).index| == 2 * |Cur(r).index|
    ensures FreshEntry(Grown(r, junk)) < |Grown(r, junk).entries|
    ensures Grown(r, junk).entries[FreshEntry(Grown(r, junk))].key == INVALID
  {
    hide FreshEntry;
    FreshIs(r);
    GrownInjective(r, junk);
    var q, h, g := Grown(r, junk), Cur(r), Cur(Grown(r, junk));
    PosWithin(g.anchor, r.next - 1, |g.index|);
    forall k | 0 <= k < |q.headers| ensures HeaderOk(q.headers[k], |q.entries|) {
      if k < |r.headers| { assert HeaderOk(r.headers[k], |r.entries|); }
    }
    forall n | q.low <= n < q.high ensures q.entries[EntryOf(g, n)].key == n * BLOCK_SIZE {
      GrownEntries(r, junk, n);
    }
    forall k | 0 <= k < |q.headers| - 1 ensures OldHeaderOk(q, k) {
      if k < |r.headers| - 1 { assert OldHeaderOk(r, k); }
      forall n | q.low <= n < q.headers[k].hi ensures EntryOf(q.headers[k], n) == EntryOf(g, n) {
        GrownEntries(r, junk, n);
      }
    }
    forall n | n in q.blocks ensures Stored(q, -1, n) {
      assert Stored(r, -1, n);
      GrownEntries(r, junk, n);
    }
    forall e | 0 <= e < |q.entries| ensures Accounted(q, -1, e) {
      if e < |r.entries| {
        assert Accounted(r, -1, e);
        if !Reusable(r.entries[e]) {
          var n :| n in r.blocks && EntryOf(h, n) == e;
          assert Stored(r, -1, n);
          GrownEntries(r, junk, n);
          assert n in q.blocks && EntryOf(g, n) == e;
        }
      }
    }
    FreshIs(q);
    PosWithin(g.anchor, r.next, |g.index|);
  }
}
