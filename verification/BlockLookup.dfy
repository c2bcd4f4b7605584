/** Every lookup in the block index lands, whatever the producer and the other dequeuers do meanwhile. */
module BlockLookup {
  import opened BlockIndexRing
  import opened BlockIndex
  import opened BlockQueue
  import opened BlockCounters

  /** The base that the producer computes is that of the next number. */
  lemma BaseIsNext(s: State)
    requires Sound(s) && (s.producer.Ready? || s.producer.Keyed? || s.producer.Rewound?)
    ensures Base(s) == s.ring.next * BLOCK_SIZE
  {
    hide Layout, Storage, ReadersOk, Published;
    PublishedIs(s.tail, 0);
  }

  lemma HeaderStays(r: Ring, q: Ring, h: nat, idx: nat, n: int)
    requires Shape(r) && Shape(q) && HeadersGrow(r, q) && h < |r.headers|
    ensures h < |q.headers| && HiOf(r, h) <= HiOf(q, h)
    ensures AtNumber(r, h, idx, n) ==> AtNumber(q, h, idx, n)
  {
    hide Pos, HiOf, HeaderOk;
    assert HeaderGrows(r, q, h);
    assert HeaderOk(q.headers[h], |q.entries|);
  }

  lemma WalkingStays(r: Ring, q: Ring, x: Reader, h: nat, idx: nat)
    requires Shape(r) && Shape(q) && HeadersGrow(r, q) && x.Busy? && Walking(r, x, h, idx)
    ensures Walking(q, x, h, idx)
  {
    hide AtNumber, HiOf, HeadersGrow, Shape, Num;
    HeaderStays(r, q, h, idx, Num(x.i));
  }

  /** A dequeuer on its way to its block. */
  lemma SeekingStays(r: Ring, q: Ring, head: int, more: int, x: Reader)
    requires Shape(r) && Shape(q) && HeadersGrow(r, q) && x.Busy? && PhaseOk(r, head, x)
    requires !x.phase.HasBlock? && !x.phase.MustFree?
    ensures PhaseOk(q, more, x)
  {
    hide AtNumber, HiOf, HeadersGrow, Shape, Num, Walking;
    match x.phase
    case NeedHeader =>
    case NeedTail(h) => HeaderStays(r, q, h, 0, 0);
    case NeedKey(h, t, m) => HeaderStays(r, q, h, t, m);
    case NeedValue(h, idx) => WalkingStays(r, q, x, h, idx);
  }

  /** A dequeuer that has its block, or is to free it. */
  lemma HoldingStays(r: Ring, q: Ring, head: int, more: int, x: Reader)
    requires Shape(r) && Shape(q) && HeadersGrow(r, q) && head <= more && x.Busy? && PhaseOk(r, head, x)
    requires x.phase.HasBlock? || x.phase.MustFree?
    requires var n := if x.phase.HasBlock? then Num(x.i) else x.phase.n;
      n in r.blocks ==> n in q.blocks && q.blocks[n] == r.blocks[n]
    ensures PhaseOk(q, more, x)
  {
    hide AtNumber, HiOf, HeadersGrow, Shape, Num, Walking;
    match x.phase
    case HasBlock(h, idx, value, at) => WalkingStays(r, q, x, h, idx);
    case MustFree(h, idx, n, block) => HeaderStays(r, q, h, idx, n);
  }

  /** A dequeuer is not disturbed as long as its own blocks stay. */
  lemma ReaderStays(r: Ring, q: Ring, head: int, more: int, x: Reader)
    requires Shape(r) && Shape(q) && HeadersGrow(r, q) && head <= more && ReaderOk(r, head, x)
    requires forall n :: (Covers(x, n) || Frees(x, n)) && n in r.blocks ==> n in q.blocks && q.blocks[n] == r.blocks[n]
    ensures ReaderOk(q, more, x)
  {
    hide HeadersGrow, Shape, Num, PhaseOk, Covers;
    if x.Busy? {
      if x.phase.HasBlock? {
        HasBlockCovers(r, head, x);
        HoldingStays(r, q, head, more, x);
      } else if x.phase.MustFree? {
        HoldingStays(r, q, head, more, x);
      } else {
        SeekingStays(r, q, head, more, x);
      }
    }
  }

  lemma HasBlockCovers(r: Ring, head: int, x: Reader)
    requires Shape(r) && x.Busy? && x.phase.HasBlock? && PhaseOk(r, head, x)
    ensures Covers(x, Num(x.i))
  {
    hide AtNumber, HiOf, Shape, Num;
    LastCovered(x);
  }

  lemma ReadersStay(r: Ring, q: Ring, head: int, more: int, readers: seq<Reader>)
    requires Shape(r) && Shape(q) && HeadersGrow(r, q) && head <= more && ReadersOk(r, head, readers)
    requires forall n :: n in r.blocks ==> n in q.blocks && q.blocks[n] == r.blocks[n]
    ensures ReadersOk(q, more, readers)
  {
    forall t | 0 <= t < |readers| ensures ReaderOk(q, more, readers[t]) {
      assert ReaderOk(r, head, readers[t]);
      ReaderStays(r, q, head, more, readers[t]);
    }
  }

  /* The steps of the producer */

  lemma StoreKeySound(s: State)
    requires Sound(s) && Enabled(s, StoreKey)
    ensures Sound(Step(s, StoreKey))
  {
    hide Layout, Storage;
    BaseIsNext(s);
    FreshIs(s.ring);
    ShapeOf(s.ring);
    var q := KeyStored(s.ring, Base(s));
    KeyStoredKeeps(s.ring, Base(s));
    ShapeOf(q);
    ReadersStay(s.ring, q, s.head, s.head, s.readers);
  }

  lemma StoreTailSound(s: State)
    requires Sound(s) && Enabled(s, StoreTail)
    ensures Sound(Step(s, StoreTail))
  {
    hide Layout;
    FreshIs(s.ring);
    ShapeOf(s.ring);
    TailStoredKeeps(s.ring, Dirty(s));
    ShapeOf(TailStored(s.ring));
    ReadersStay(s.ring, TailStored(s.ring), s.head, s.head, s.readers);
  }

  lemma GrowSound(s: State, junk: seq<Option<Block>>)
    requires Sound(s) && Enabled(s, Grow(junk))
    ensures Sound(Step(s, Grow(junk)))
  {
    hide Layout, Storage;
    FreshIs(s.ring);
    NoRoom(s.ring);
    ShapeOf(s.ring);
    GrownKeeps(s.ring, junk);
    ShapeOf(Grown(s.ring, junk));
    ReadersStay(s.ring, Grown(s.ring, junk), s.head, s.head, s.readers);
  }

  lemma StoreValueSound(s: State, block: Block)
    requires Sound(s) && Enabled(s, StoreValue(block))
    ensures Sound(Step(s, StoreValue(block)))
  {
    hide Layout, Storage;
    var r, n := s.ring, s.ring.next - 1;
    ShapeOf(r);
    ValueStoredKeeps(r, n, block);
    var q := ValueStored(r, EntryOf(Cur(r), n), n, block);
    ShapeOf(q);
    ReadersStay(r, q, s.head, s.head, s.readers);
  }

  lemma GiveUpSound(s: State)
    requires Sound(s) && Enabled(s, GiveUp)
    ensures Sound(Step(s, GiveUp))
  {
    hide Layout;
    ShapeOf(s.ring);
    TailBackKeeps(s.ring, Dirty(s));
    ShapeOf(TailBack(s.ring));
    ReadersStay(s.ring, TailBack(s.ring), s.head, s.head, s.readers);
  }

  lemma ClearValueSound(s: State)
    requires Sound(s) && Enabled(s, ClearValue)
    ensures Sound(Step(s, ClearValue))
  {
    hide Layout;
    var r := s.ring;
    ShapeOf(r);
    FreshIs(r);
    ValueClearedKeeps(r, r.next, r.next);
    var q := ValueCleared(r, EntryOf(Cur(r), r.next), r.next);
    ShapeOf(q);
    ReadersStay(r, q, s.head, s.head, s.readers);
  }

  lemma PublishSound(s: State)
    requires Sound(s) && Enabled(s, Publish)
    ensures |s.built| <= s.ring.next * BLOCK_SIZE ==> Sound(Step(s, Publish))
  {
    hide Layout, Storage, ReadersOk, Published, Reusable;
    BaseIsNext(s);
    PublishedIs(|s.built|, s.ring.next);
    PublishedIs(|s.built|, s.ring.next - 1);
  }

  lemma StartUndoSound(s: State)
    requires Sound(s) && Enabled(s, StartUndo)
    ensures Sound(Step(s, StartUndo))
  {
    hide Layout, ReadersOk;
    ShapeOf(s.ring);
    if s.inserted > 0 { assert Stored(s.ring, -1, Published(s.tail)); }
  }

  /** What the producer looks up when it takes back an insertion is the entry of that block, even where
      that lies ahead of the tail. */
  lemma UndoFinds(s: State)
    requires Sound(s) && s.producer.Undoing?
    ensures var k := s.producer.k;
      && Looked(s.ring, k * BLOCK_SIZE) == EntryOf(Cur(s.ring), k) < |s.ring.entries|
      && s.ring.entries[Looked(s.ring, k * BLOCK_SIZE)].key == k * BLOCK_SIZE
      && k in s.ring.blocks && s.ring.entries[Looked(s.ring, k * BLOCK_SIZE)].value == Some(s.ring.blocks[k])
  {
    hide Pos, Injective, Num, Published, Located;
    var r, k := s.ring, s.producer.k;
    ShapeOf(r);
    NumIs(k * BLOCK_SIZE, k);
    assert Stored(r, -1, k);
    LocatedIs(r, |r.headers| - 1, Cur(r).tail, r.next - 1, k * BLOCK_SIZE);
  }

  /** A lookup that starts from the entry of number `m` leads to the slot of the number asked for. */
  lemma LocatedIs(r: Ring, h: nat, t: nat, m: int, i: int)
    requires Layout(r) && h < |r.headers| && AtNumber(r, h, t, m) && r.low <= m < HiOf(r, h)
    ensures AtNumber(r, h, Located(r, h, t, i), Num(i))
    ensures r.entries[EntryAt(r, h, t)].key == m * BLOCK_SIZE
  {
    hide Pos;
    var header := r.headers[h];
    if h + 1 < |r.headers| { assert OldHeaderOk(r, h); }
    assert EntryOf(header, m) == EntryOf(Cur(r), m);
    OffsetIs(Num(i), m);
    hide Num;
    PosIsMoved(header.anchor, m, Num(i), |header.index|);
  }

  lemma OffsetIs(n: int, m: int)
    ensures (n * BLOCK_SIZE - m * BLOCK_SIZE) / BLOCK_SIZE == n - m
  {
    assert n * BLOCK_SIZE - m * BLOCK_SIZE == (n - m) * BLOCK_SIZE;
    ModIs((n - m) * BLOCK_SIZE, BLOCK_SIZE, n - m, 0);
  }

  lemma PosIsMoved(anchor: int, m: int, n: int, capacity: nat)
    requires capacity > 0
    ensures (Pos(anchor, m, capacity) + (n - m)) % capacity == Pos(anchor, n, capacity)
  {
    PosMoves(anchor, m, n - m, capacity);
  }

  lemma UndoValueSound(s: State)
    requires Sound(s) && Enabled(s, UndoValue)
    ensures Sound(Step(s, UndoValue))
  {
    hide Layout, Storage, ReadersOk;
    var r, k := s.ring, s.producer.k;
    ShapeOf(r);
    UndoFinds(s);
    UndoInWindow(s);
    ValueClearedKeeps(r, k, -1);
    var q := ValueCleared(r, EntryOf(Cur(r), k), k);
    ShapeOf(q);
    UndoneProducerOk(r, q, s.producer, s.inserted, s.head, s.tail);
    UndoneReadersOk(s, q);
  }

  lemma UndoneProducerOk(r: Ring, q: Ring, p: Producer, inserted: int, head: int, tail: int)
    requires p.Undoing? && ProducerOk(r, p, inserted, head, tail)
    requires q == r.(entries := q.entries, blocks := r.blocks - {p.k})
    ensures ProducerOk(q, Undone(p.k, p.end), inserted, head, tail)
  {
  }

  /** No dequeuer has to do with a block that was not published. */
  lemma UndoneReadersOk(s: State, q: Ring)
    requires Sound(s) && s.producer.Undoing? && Shape(q) && HeadersGrow(s.ring, q)
    requires q == s.ring.(entries := q.entries, blocks := s.ring.blocks - {s.producer.k})
    ensures ReadersOk(q, s.head, s.readers)
  {
    hide Layout, Storage;
    ShapeOf(s.ring);
    forall t | 0 <= t < |s.readers| ensures ReaderOk(q, s.head, s.readers[t]) {
      NotYetRead(s, t, s.producer.k);
      assert ReaderOk(s.ring, s.head, s.readers[t]);
      ReaderStays(s.ring, q, s.head, s.head, s.readers[t]);
    }
  }

  lemma UndoInWindow(s: State)
    requires Sound(s) && s.producer.Undoing?
    ensures s.ring.low <= s.producer.k < s.ring.high
  {
    assert Stored(s.ring, -1, s.producer.k);
  }

  lemma UndoTailSound(s: State)
    requires Sound(s) && Enabled(s, UndoTail)
    ensures Sound(Step(s, UndoTail))
  {
    hide Layout, Storage;
    ShapeOf(s.ring);
    TailBackKeeps(s.ring, -1);
    ShapeOf(TailBack(s.ring));
    ReadersStay(s.ring, TailBack(s.ring), s.head, s.head, s.readers);
  }

  /* The steps of the dequeuers */

  lemma GrantSound(s: State, t: nat, count: int)
    requires Sound(s) && Enabled(s, Grant(t, count))
    ensures Sound(Step(s, Grant(t, count)))
  {
    hide Layout, Storage, Num, Published, Step, PhaseOk;
    ShapeOf(s.ring);
    GrantIs(s, t, count);
    var r, q := s.ring, Step(s, Grant(t, count));
    forall n | Covers(q.readers[t], n) ensures n in r.blocks {
      PublishedIs(s.tail, n);
      Products(n, -1);
    }
    GrantedReaders(r, s.readers, t, s.head, count);
    MoreGranted(r, s.producer, s.inserted, s.head, q.head, s.tail);
  }

  lemma GrantedReaders(r: Ring, readers: seq<Reader>, t: nat, head: int, count: int)
    requires Shape(r) && ReadersOk(r, head, readers) && t < |readers| && head >= 0 && count > 0
    requires forall n :: Covers(Busy(head, head + count, NeedHeader), n) ==> n in r.blocks
    ensures ReadersOk(r, head + count, readers[t := Busy(head, head + count, NeedHeader)])
  {
    hide Num, AtNumber, Covers, Stop;
    forall u | 0 <= u < |readers| && u != t ensures ReaderOk(r, head + count, readers[u]) {
      assert ReaderOk(r, head, readers[u]);
    }
  }

  lemma MoreGranted(r: Ring, p: Producer, inserted: int, head: int, more: int, tail: int)
    requires ProducerOk(r, p, inserted, head, tail) && head <= more <= tail
    ensures ProducerOk(r, p, inserted, more, tail)
  {
    hide Published;
  }

  /** A step of one dequeuer that leaves the ring alone. */
  lemma WithSound(s: State, q: State, t: nat, x: Reader)
    requires Sound(s) && t < |s.readers| && ReaderOk(s.ring, s.head, x)
    requires q == s.(readers := s.readers[t := x], counters := q.counters, log := q.log)
    ensures Sound(q)
  {
    hide Layout, Storage, ProducerOk;
    ShapeOf(s.ring);
    forall u | 0 <= u < |q.readers| ensures ReaderOk(s.ring, s.head, q.readers[u]) {
      assert ReaderOk(s.ring, s.head, s.readers[u]);
    }
  }

  /** A dequeuer with something to take covers the blocks of its first and of its last index. */
  lemma LastCovered(x: Reader)
    requires x.Busy? && x.i < x.end
    ensures Covers(x, Num(x.i)) && Covers(x, Num(x.end - 1)) && Num(x.i) <= Num(x.end - 1)
  {
    hide Num;
    NumIs(x.i, Num(x.end - 1));
    NumIs(x.end - 1, Num(x.i));
  }

  lemma NeedHeaderSound(s: State, t: nat)
    requires Sound(s) && t < |s.readers| && s.readers[t].Busy? && s.readers[t].phase.NeedHeader?
    ensures Sound(ReadStep(s, t))
  {
    hide Num;
    ShapeOf(s.ring);
    var x := s.readers[t];
    assert ReaderOk(s.ring, s.head, x);
    LastCovered(x);
    assert Stored(s.ring, Dirty(s), Num(x.end - 1));
    WithSound(s, ReadStep(s, t), t, x.(phase := NeedTail(|s.ring.headers| - 1)));
  }

  lemma NeedTailSound(s: State, t: nat)
    requires Sound(s) && t < |s.readers| && s.readers[t].Busy? && s.readers[t].phase.NeedTail?
    ensures Sound(ReadStep(s, t))
  {
    hide Num, Published;
    ShapeOf(s.ring);
    var r, x := s.ring, s.readers[t];
    assert ReaderOk(r, s.head, x);
    HeadBelow(s);
    NumIs(x.end - 1, Published(s.tail));
    PublishedIs(s.tail, 0);
    var h := x.phase.h;
    if h + 1 < |r.headers| { assert OldHeaderOk(r, h); }
    assert HeaderOk(r.headers[h], |r.entries|);
    WithSound(s, ReadStep(s, t), t, x.(phase := NeedKey(h, r.headers[h].tail, TailNumber(r, h))));
  }

  /** The tail that a dequeuer loaded has a key, and leads to the slot of its block. */
  predicate TailLands(r: Ring, i: int, h: nat, t: nat)
    requires Shape(r)
  {
    && h < |r.headers| && t < |r.headers[h].index|
    && r.entries[EntryAt(r, h, t)].key != INVALID && AtNumber(r, h, Located(r, h, t, i), Num(i))
  }

  lemma NotInvalid(n: int)
    ensures n * BLOCK_SIZE != INVALID
  {
    Products(0, n);
    Products(n, 0);
  }

  lemma LookupLands(s: State, t: nat)
    requires Sound(s) && t < |s.readers| && s.readers[t].Busy? && s.readers[t].phase.NeedKey?
    ensures TailLands(s.ring, s.readers[t].i, s.readers[t].phase.h, s.readers[t].phase.t)
  {
    hide Num, Located, Pos;
    ShapeOf(s.ring);
    var r, x := s.ring, s.readers[t];
    assert ReaderOk(r, s.head, x);
    LastCovered(x);
    assert Stored(r, Dirty(s), Num(x.i));
    NotInvalid(x.phase.m);
    LocatedIs(r, x.phase.h, x.phase.t, x.phase.m, x.i);
  }

  lemma NeedKeySound(s: State, t: nat)
    requires Sound(s) && t < |s.readers| && s.readers[t].Busy? && s.readers[t].phase.NeedKey?
    ensures Sound(ReadStep(s, t))
  {
    hide Num, Located, Pos, Layout, Storage, ProducerOk;
    ShapeOf(s.ring);
    var r, x := s.ring, s.readers[t];
    assert ReaderOk(r, s.head, x);
    LastCovered(x);
    LookupLands(s, t);
    WithSound(s, ReadStep(s, t), t, x.(phase := NeedValue(x.phase.h, Located(r, x.phase.h, x.phase.t, x.i))));
  }

  /** The slot holds the entry of block `n`: its base for a key, and the block in use for that number. */
  predicate HasEntry(r: Ring, h: nat, idx: nat, n: int)
    requires Shape(r)
  {
    && h < |r.headers| && idx < |r.headers[h].index| && n in r.blocks
    && r.entries[EntryAt(r, h, idx)] == Entry(n * BLOCK_SIZE, Some(r.blocks[n]))
  }

  lemma SlotIs(s: State, h: nat, idx: nat, n: int)
    requires Sound(s) && h < |s.ring.headers| && n in s.ring.blocks
    requires n < HiOf(s.ring, h) && AtNumber(s.ring, h, idx, n)
    ensures HasEntry(s.ring, h, idx, n) && s.ring.low <= n < s.ring.high && n != Dirty(s)
    ensures Cur(s.ring).index != [] && EntryAt(s.ring, h, idx) == EntryOf(Cur(s.ring), n)
  {
    var r := s.ring;
    ShapeOf(r);
    assert Stored(r, Dirty(s), n);
    if h + 1 < |r.headers| { assert OldHeaderOk(r, h); }
    assert EntryOf(r.headers[h], n) == EntryOf(Cur(r), n);
  }

  lemma NeedValueSound(s: State, t: nat)
    requires Sound(s) && t < |s.readers| && s.readers[t].Busy? && s.readers[t].phase.NeedValue?
    ensures Sound(ReadStep(s, t))
  {
    hide Num, Layout, Storage;
    ShapeOf(s.ring);
    var r, x := s.ring, s.readers[t];
    assert ReaderOk(r, s.head, x);
    LastCovered(x);
    NumIs(x.i, 0);
    SlotIs(s, x.phase.h, x.phase.idx, Num(x.i));
    var value := r.entries[EntryAt(r, x.phase.h, x.phase.idx)].value;
    WithSound(s, ReadStep(s, t), t, x.(phase := HasBlock(x.phase.h, x.phase.idx, value, x.i)));
  }

  lemma TakenSound(s: State, t: nat)
    requires Sound(s) && t < |s.readers| && s.readers[t].Busy? && s.readers[t].phase.HasBlock?
    requires s.readers[t].phase.at < Stop(s.readers[t]) && s.readers[t].phase.value.Some?
    ensures Sound(Taken(s, t))
  {
    hide Layout, Storage, ProducerOk;
    ShapeOf(s.ring);
    assert ReaderOk(s.ring, s.head, s.readers[t]);
    WithSound(s, Taken(s, t), t, Taken(s, t).readers[t]);
  }

  /** The reader that goes on to its next block, or is done. */
  lemma OnwardOk(r: Ring, head: int, i: int, end: int, h: nat, idx: nat, n: int)
    requires Shape(r) && h < |r.headers| && AtNumber(r, h, idx, n) && 0 <= i <= end <= head
    requires i < end ==> i == (n + 1) * BLOCK_SIZE && Num(end - 1) < HiOf(r, h)
    requires forall m :: i < end && i < (m + 1) * BLOCK_SIZE && m * BLOCK_SIZE < end ==> m in r.blocks
    ensures ReaderOk(r, head, Onward(i, end, h, idx, |r.headers[h].index|))
  {
    hide Num;
    NumIs(i, n + 1);
    PosNext(r.headers[h].anchor, n, |r.headers[h].index|);
  }

  lemma MarkedSound(s: State, t: nat)
    requires Sound(s) && Counted(s) && t < |s.readers| && s.readers[t].Busy? && s.readers[t].phase.HasBlock?
    ensures Sound(Marked(s, t))
  {
    hide Layout, Storage, ProducerOk, Counted, Emptied, Num;
    ShapeOf(s.ring);
    var r, x := s.ring, s.readers[t];
    assert ReaderOk(r, s.head, x);
    var h, idx, n, i := x.phase.h, x.phase.idx, Num(x.i), Stop(x);
    LastCovered(x);
    NumIs(x.i, n);
    assert forall m :: i < x.end && i < (m + 1) * BLOCK_SIZE && m * BLOCK_SIZE < x.end ==> Covers(x, m);
    CounterFull(s, t);
    EmptiedGranted(s, t, n);
    OnwardOk(r, s.head, i, x.end, h, idx, n);
    WithSound(s, Marked(s, t), t, Marked(s, t).readers[t]);
  }

  lemma EmptiedGranted(s: State, t: nat, n: int)
    ensures Emptied(s, t, n) ==> (n + 1) * BLOCK_SIZE <= s.head
  {
  }

  /** The entry that a dequeuer clears is still that of the block it emptied. */
  lemma FreeFinds(s: State, t: nat)
    requires Sound(s) && t < |s.readers| && s.readers[t].Busy? && s.readers[t].phase.MustFree?
    ensures var x := s.readers[t];
      && HasEntry(s.ring, x.phase.h, x.phase.idx, x.phase.n) && x.phase.block == s.ring.blocks[x.phase.n]
      && s.ring.low <= x.phase.n < s.ring.high && x.phase.n != Dirty(s)
      && Cur(s.ring).index != [] && EntryAt(s.ring, x.phase.h, x.phase.idx) == EntryOf(Cur(s.ring), x.phase.n)
  {
    ShapeOf(s.ring);
    var x := s.readers[t];
    assert ReaderOk(s.ring, s.head, x);
    SlotIs(s, x.phase.h, x.phase.idx, x.phase.n);
  }

  lemma MustFreeSound(s: State, t: nat)
    requires Sound(s) && Counted(s) && t < |s.readers| && s.readers[t].Busy? && s.readers[t].phase.MustFree?
    ensures Sound(ReadStep(s, t))
  {
    hide Layout, Storage, Counted;
    ShapeOf(s.ring);
    var r, x := s.ring, s.readers[t];
    assert ReaderOk(r, s.head, x);
    var h, idx, n := x.phase.h, x.phase.idx, x.phase.n;
    FreeFinds(s, t);
    FreerIsAlone(s, t, n);
    ValueClearedKeeps(r, n, Dirty(s));
    var q := ValueCleared(r, EntryOf(Cur(r), n), n);
    ShapeOf(q);
    var y := Onward(x.i, x.end, h, idx, |r.headers[h].index|);
    var readers := s.readers[t := y];
    assert forall m :: (Covers(y, m) ==> Covers(x, m) && m != n) && !Frees(y, m);
    forall u | 0 <= u < |s.readers| ensures ReaderOk(q, s.head, readers[u]) {
      assert ReaderOk(r, s.head, s.readers[u]);
      if u == t {
        OnwardOk(r, s.head, x.i, x.end, h, idx, n);
        ReaderStays(r, q, s.head, s.head, y);
      } else {
        ReaderStays(r, q, s.head, s.head, s.readers[u]);
      }
    }
    FreedProducerOk(r, q, s.producer, s.inserted, s.head, s.tail, n);
  }

  /** Freeing a block of which all was granted is nothing to the producer. */
  lemma FreedProducerOk(r: Ring, q: Ring, p: Producer, inserted: int, head: int, tail: int, n: int)
    requires ProducerOk(r, p, inserted, head, tail) && (n + 1) * BLOCK_SIZE <= head
    requires q == r.(entries := q.entries, blocks := r.blocks - {n})
    ensures ProducerOk(q, p, inserted, head, tail)
  {
    hide Published;
    PublishedIs(tail, n);
  }

  lemma HasBlockSound(s: State, t: nat)
    requires Sound(s) && Counted(s) && t < |s.readers| && s.readers[t].Busy? && s.readers[t].phase.HasBlock?
    ensures Sound(ReadStep(s, t))
  {
    hide Layout, Storage, ProducerOk, Counted, Taken, Marked;
    ShapeOf(s.ring);
    assert ReaderOk(s.ring, s.head, s.readers[t]);
    if s.readers[t].phase.at < Stop(s.readers[t]) { TakenSound(s, t); } else { MarkedSound(s, t); }
  }

  lemma ReadSound(s: State, t: nat)
    requires Sound(s) && Counted(s) && t < |s.readers| && s.readers[t].Busy?
    ensures Sound(ReadStep(s, t))
  {
    hide *;
    match s.readers[t].phase
    case NeedHeader => NeedHeaderSound(s, t);
    case NeedTail(h) => NeedTailSound(s, t);
    case NeedKey(h, tail, m) => NeedKeySound(s, t);
    case NeedValue(h, idx) => NeedValueSound(s, t);
    case HasBlock(h, idx, value, at) => HasBlockSound(s, t);
    case MustFree(h, idx, n, block) => MustFreeSound(s, t);
  }

  /** Every transition keeps the block index right; what is constructed fits into what is inserted. */
  lemma StepSound(s: State, ev: Event)
    requires Sound(s) && Counted(s) && (s.producer.Ready? ==> |s.built| <= s.ring.next * BLOCK_SIZE)
    ensures Sound(Step(s, ev))
  {
    hide Sound, Counted, ReadStep, KeyStored, TailStored, TailBack, Grown, ValueStored, ValueCleared, Retracted;
    LayoutOf(s);
    if Enabled(s, ev) {
      match ev
      case StoreKey => StoreKeySound(s);
      case Grow(junk) => GrowSound(s, junk);
      case StoreTail => StoreTailSound(s);
      case StoreValue(block) => StoreValueSound(s, block);
      case GiveUp => GiveUpSound(s);
      case ClearValue => ClearValueSound(s);
      case Publish => PublishSound(s);
      case StartUndo => StartUndoSound(s);
      case UndoValue => UndoValueSound(s);
      case UndoTail => UndoTailSound(s);
      case Grant(t, count) => GrantSound(s, t, count);
      case Read(t) => ReadSound(s, t);
      case _ => SameSound(s, Step(s, ev));
    }
  }

  lemma SameSound(s: State, q: State)
    requires Sound(s) && q == s.(pool := q.pool, cells := q.cells, built := q.built)
    ensures Sound(q)
  {
    hide Layout, Storage, ProducerOk, ReadersOk;
  }

  /** Where the insertion finds no room it finds some behind the tail of the doubled ring. */
  lemma GrowingMakesRoom(s: State, junk: seq<Option<Block>>)
    requires Sound(s) && Enabled(s, Grow(junk))
    ensures var q := Step(s, Grow(junk));
      && Layout(q.ring) && |Cur(q.ring).index| == 2 * |Cur(s.ring).index|
      && FreshEntry(q.ring) < |q.ring.entries| && q.ring.entries[FreshEntry(q.ring)].key == INVALID
      && Enabled(q, StoreKey)
  {
    FreshIs(s.ring);
    NoRoom(s.ring);
    GrownKeeps(s.ring, junk);
  }
}
