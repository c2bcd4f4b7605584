/** An implicit sub-queue in use: the block index, the blocks with their elements, the producer and the
    dequeuers. Every transition is one atomic operation of the one producer, which inserts blocks, gives up
    or takes back insertions, constructs elements and publishes them, or of one of any number of dequeuers,
    each of which was granted a range of element indices and walks over the blocks of that range; taking one
    element and passing one block to or from the free list count as one operation each. A sequence of events
    is an interleaving of them. */
module BlockQueue {
  import opened Bits
  import opened BlockIndexRing
  import opened BlockIndex

  type Element = int

  datatype Producer =
    | Ready
    | Keyed                       // insert_block_index_entry stored the key
    | Tailed                      // and the tail; the block is not stored yet
    | Rewound                     // no block was to be had: the tail is back, the value not yet cleared
    | Undoing(k: int, end: int)   // a bulk enqueue takes back the insertions k, ..., end - 1
    | Undone(k: int, end: int)    // the value of k is cleared, the tail not yet moved

  /** Where a dequeuer stands; `m` is history, the number whose entry was the tail. With a block in hand it
      has taken the elements below `at`. */
  datatype Phase =
    | NeedHeader
    | NeedTail(h: nat)
    | NeedKey(h: nat, t: nat, m: int)
    | NeedValue(h: nat, idx: nat)
    | HasBlock(h: nat, idx: nat, value: Option<Block>, at: int)
    | MustFree(h: nat, idx: nat, n: int, block: Block)

  /** A dequeuer with the element indices from `i` up to `end` not yet marked as empty. */
  datatype Reader = Idle | Busy(i: int, end: int, phase: Phase)

  /** History: the element that was taken for an index. */
  datatype Taking = Taking(index: int, element: Element)

  /** `inserted` counts the blocks that the current enqueue has inserted, `counters` is
      elementsCompletelyDequeued of every block, `pool` are the blocks to be had, and `cells` the slots of the
      blocks. History: `built` are the elements in the order of their indices, `log` what was taken. */
  datatype State = State(
    ring: Ring, producer: Producer, inserted: int, head: int, tail: int, readers: seq<Reader>,
    counters: map<Block, int>, pool: set<Block>, cells: map<(Block, int), Element>,
    built: seq<Element>, log: seq<Taking>)

  datatype Event =
    | StoreKey | Grow(junk: seq<Option<Block>>) | StoreTail | StoreValue(block: Block)
    | GiveUp | ClearValue | Construct(e: Element) | Publish | StartUndo | UndoValue | UndoTail
    | Supply(block: Block)     // other producers, and allocation, add to the blocks to be had
    | Withdraw(block: Block)   // and take from them
    | Grant(t: nat, count: int) | Read(t: nat)

  /** The number of the block of an index. */
  function Num(i: int): int {
    i / BLOCK_SIZE
  }

  /** The numbers below this have published elements. */
  function Published(tail: int): int {
    (tail - 1) / BLOCK_SIZE + 1
  }

  lemma Products(m: int, n: int)
    ensures m < n ==> m * BLOCK_SIZE + BLOCK_SIZE <= n * BLOCK_SIZE
    ensures m <= n ==> m * BLOCK_SIZE <= n * BLOCK_SIZE
  {
    if m < n { MulMonotone(m + 1, n, BLOCK_SIZE); }
  }

  /** An index lies in the block of its number, and in no other one. */
  lemma NumIs(i: int, n: int)
    ensures Num(i) * BLOCK_SIZE <= i < Num(i) * BLOCK_SIZE + BLOCK_SIZE
    ensures n * BLOCK_SIZE <= i < n * BLOCK_SIZE + BLOCK_SIZE <==> Num(i) == n
    ensures n < Num(i) ==> n * BLOCK_SIZE + BLOCK_SIZE <= i
    ensures n > Num(i) ==> i < n * BLOCK_SIZE
    ensures 0 <= i <==> 0 <= Num(i)
  {
    DivMod(i, BLOCK_SIZE);
    Products(n, Num(i));
    Products(Num(i), n);
    Products(-1, Num(i));
    Products(Num(i), -1);
  }

  /** The published numbers are those up to that of the last published element. */
  lemma PublishedIs(tail: int, n: int)
    ensures n < Published(tail) <==> n * BLOCK_SIZE < tail
    ensures tail <= Published(tail) * BLOCK_SIZE < tail + BLOCK_SIZE
    ensures (tail - 1) / BLOCK_SIZE * BLOCK_SIZE + BLOCK_SIZE == Published(tail) * BLOCK_SIZE
  {
    NumIs(tail - 1, n);
  }

  /** The base of the next block, as the producer computes it from the tail and its loop. */
  function Base(s: State): int {
    (s.tail - 1) / BLOCK_SIZE * BLOCK_SIZE + (s.inserted + 1) * BLOCK_SIZE
  }

  predicate Covers(x: Reader, n: int) {
    x.Busy? && x.i < x.end && x.i < (n + 1) * BLOCK_SIZE && n * BLOCK_SIZE < x.end
  }

  predicate Frees(x: Reader, n: int) {
    x.Busy? && x.phase.MustFree? && x.phase.n == n
  }

  /** The end of what a dequeuer takes from the block of its next index. */
  function Stop(x: Reader): int
    requires x.Busy?
  {
    if x.end < (Num(x.i) + 1) * BLOCK_SIZE then x.end else (Num(x.i) + 1) * BLOCK_SIZE
  }

  /* What makes every transition well-defined, and is kept by it */

  /** The number being inserted, or -1. */
  function Dirty(s: State): int {
    match s.producer
    case Keyed => s.ring.next
    case Tailed => s.ring.next - 1
    case Rewound => s.ring.next
    case _ => -1
  }

  predicate InUse(r: Ring, lo: int, hi: int) {
    forall n :: lo <= n < hi ==> n in r.blocks
  }

  predicate NoneFrom(r: Ring, hi: int) {
    forall n :: n in r.blocks ==> n < hi
  }

  /** Of the blocks with published elements only those are out of use that were granted as a whole. */
  predicate Unspent(r: Ring, head: int, tail: int) {
    forall n :: 0 <= n < Published(tail) && (n + 1) * BLOCK_SIZE > head ==> n in r.blocks
  }

  /** The blocks `[k, end)` are those still to be taken back. */
  predicate UndoOk(r: Ring, published: int, k: int, end: int) {
    InUse(r, k, end) && forall n :: n in r.blocks ==> n < published || k <= n < end
  }

  /** The blocks behind the published ones are those inserted. */
  predicate InsertedOk(r: Ring, published: int, inserted: int) {
    inserted >= 0 && InUse(r, published, published + inserted) && NoneFrom(r, published + inserted)
  }

  predicate ProducerOk(r: Ring, p: Producer, inserted: int, head: int, tail: int) {
    var published := Published(tail);
    && 0 <= head <= tail && published <= r.next && Unspent(r, head, tail)
    && match p
       case Ready => InsertedOk(r, published, inserted) && r.next == published + inserted
       case Keyed => InsertedOk(r, published, inserted) && r.next == published + inserted
       case Rewound => InsertedOk(r, published, inserted) && r.next == published + inserted
       case Tailed => InsertedOk(r, published, inserted) && r.next == published + inserted + 1
       case Undoing(k, end) =>
         && r.low <= published <= k < end <= r.high && r.next == end - (k - published)
         && UndoOk(r, published, k, end) && inserted == 0
       case Undone(k, end) =>
         && r.low <= published <= k < end <= r.high && r.next == end - (k - published)
         && UndoOk(r, published, k + 1, end) && inserted == 0
  }

  /** Slot `idx` of header `h` is that of number `n`. */
  predicate AtNumber(r: Ring, h: nat, idx: nat, n: int)
    requires Shape(r) && h < |r.headers|
  {
    HeaderOk(r.headers[h], |r.entries|) && idx == Pos(r.headers[h].anchor, n, |r.headers[h].index|)
  }

  /** Header `h` knows the blocks up to that of the last index, and slot `idx` is that of the next one. */
  predicate Walking(r: Ring, x: Reader, h: nat, idx: nat)
    requires Shape(r) && x.Busy?
  {
    x.i < x.end && h < |r.headers| && Num(x.end - 1) < HiOf(r, h) && AtNumber(r, h, idx, Num(x.i))
  }

  predicate PhaseOk(r: Ring, head: int, x: Reader)
    requires Shape(r) && x.Busy?
  {
    match x.phase
    case NeedHeader => x.i < x.end
    case NeedTail(h) => x.i < x.end && h < |r.headers| && Num(x.end - 1) < HiOf(r, h)
    case NeedKey(h, t, m) =>
      x.i < x.end && h < |r.headers| && Num(x.end - 1) <= m < HiOf(r, h) && AtNumber(r, h, t, m)
    case NeedValue(h, idx) => Walking(r, x, h, idx)
    case HasBlock(h, idx, value, at) =>
      && Walking(r, x, h, idx) && x.i <= at <= Stop(x)
      && Num(x.i) in r.blocks && value == Some(r.blocks[Num(x.i)])
    case MustFree(h, idx, n, block) =>
      && h < |r.headers| && n < HiOf(r, h) && AtNumber(r, h, idx, n)
      && n in r.blocks && block == r.blocks[n] && (n + 1) * BLOCK_SIZE <= head
      && (x.i < x.end ==> x.i == (n + 1) * BLOCK_SIZE && Num(x.end - 1) < HiOf(r, h))
  }

  ghost predicate ReaderOk(r: Ring, head: int, x: Reader)
    requires Shape(r)
  {
    x.Busy? ==> 0 <= x.i <= x.end <= head && PhaseOk(r, head, x) && forall n :: Covers(x, n) ==> n in r.blocks
  }

  ghost predicate ReadersOk(r: Ring, head: int, readers: seq<Reader>)
    requires Shape(r)
  {
    forall t :: 0 <= t < |readers| ==> ReaderOk(r, head, readers[t])
  }

  /** The block index is right, and the producer and the dequeuers stand where it says. */
  ghost predicate Sound(s: State) {
    && Layout(s.ring) && Storage(s.ring, Dirty(s)) && ProducerOk(s.ring, s.producer, s.inserted, s.head, s.tail)
    && ReadersOk(s.ring, s.head, s.readers)
  }

  /* The transitions */

  /** get_block_index_index_for_index, once the tail `t` of the header is loaded. */
  function Located(r: Ring, h: nat, t: nat, i: int): nat
    requires Shape(r) && h < |r.headers| && t < |r.headers[h].index|
  {
    var index := r.headers[h].index;
    assert HeaderOk(r.headers[h], |r.entries|);
    var base := i / BLOCK_SIZE * BLOCK_SIZE;
    (t + (base - r.entries[index[t]].key) / BLOCK_SIZE) % |index|
  }

  function EntryAt(r: Ring, h: nat, idx: nat): (e: nat)
    requires Shape(r) && h < |r.headers| && idx < |r.headers[h].index|
    ensures e < |r.entries|
  {
    assert HeaderOk(r.headers[h], |r.entries|);
    r.headers[h].index[idx]
  }

  /** The producer's own lookup, when it takes back an insertion. */
  function Looked(r: Ring, i: int): nat
    requires Layout(r)
  {
    FreshIs(r);
    EntryAt(r, |r.headers| - 1, Located(r, |r.headers| - 1, Cur(r).tail, i))
  }

  predicate Enabled(s: State, ev: Event)
    requires Layout(s.ring)
  {
    FreshIs(s.ring);
    var r := s.ring;
    match ev
    case StoreKey => s.producer.Ready? && |s.built| == s.tail && Reusable(r.entries[FreshEntry(r)])
    case Grow(junk) => s.producer.Ready? && |s.built| == s.tail && !Reusable(r.entries[FreshEntry(r)])
    case StoreTail => s.producer.Keyed?
    case StoreValue(block) => s.producer.Tailed? && block in s.pool
    case GiveUp => s.producer.Tailed?
    case ClearValue => s.producer.Rewound?
    case Construct(e) => s.producer.Ready? && |s.built| < Base(s)
    case Publish => s.producer.Ready? && s.tail < |s.built| && Base(s) - BLOCK_SIZE < |s.built|
    case StartUndo => s.producer.Ready?
    case UndoValue => s.producer.Undoing?
    case UndoTail => s.producer.Undone?
    case Supply(block) => block !in s.pool && block !in r.blocks.Values
    case Withdraw(block) => block in s.pool
    case Grant(t, count) => t < |s.readers| && s.readers[t].Idle? && 0 < count && s.head + count <= s.tail
    case Read(t) => t < |s.readers| && s.readers[t].Busy?
  }

  function Step(s: State, ev: Event): (q: State)
    requires Sound(s)
    ensures |q.readers| == |s.readers|
  {
    FreshIs(s.ring);
    var r := s.ring;
    if !Enabled(s, ev) then s else
    match ev
    case StoreKey => s.(ring := KeyStored(r, Base(s)), producer := Keyed)
    case Grow(junk) => s.(ring := Grown(r, junk))
    case StoreTail => s.(ring := TailStored(r), producer := Tailed)
    case StoreValue(block) =>
      s.(ring := ValueStored(r, Cur(r).index[Cur(r).tail], r.next - 1, block), producer := Ready,
         inserted := s.inserted + 1, counters := s.counters[block := 0], pool := s.pool - {block})
    case GiveUp => s.(ring := TailBack(r), producer := Rewound)
    case ClearValue => s.(ring := ValueCleared(r, FreshEntry(r), r.next), producer := Ready)
    case Construct(e) =>
      s.(cells := s.cells[(BlockAt(r, |s.built|), |s.built| % BLOCK_SIZE) := e], built := s.built + [e])
    case Publish => s.(tail := |s.built|, inserted := 0)
    case StartUndo => Abandoned(s)
    case UndoValue => Retracted(s)
    case UndoTail =>
      var k := s.producer.k + 1;
      s.(ring := TailBack(r), producer := if k == s.producer.end then Ready else Undoing(k, s.producer.end))
    case Supply(block) => s.(pool := s.pool + {block})
    case Withdraw(block) => s.(pool := s.pool - {block})
    case Grant(t, count) =>
      s.(head := s.head + count, readers := s.readers[t := Busy(s.head, s.head + count, NeedHeader)])
    case Read(t) => ReadStep(s, t)
  }

  /** The block of an index, which the producer has at the end of its chain of blocks. */
  function BlockAt(r: Ring, i: int): Block {
    if Num(i) in r.blocks then r.blocks[Num(i)] else 0
  }

  /** An enqueue that fails destroys what it constructed, and takes back what it inserted. */
  function Abandoned(s: State): State
    requires s.producer.Ready? && 0 <= s.tail
  {
    var k := Published(s.tail);
    s.(producer := if s.inserted == 0 then Ready else Undoing(k, k + s.inserted), inserted := 0,
       built := if s.tail < |s.built| then s.built[..s.tail] else s.built)
  }

  function Retracted(s: State): State
    requires Layout(s.ring) && s.producer.Undoing?
  {
    var k := s.producer.k;
    FreshIs(s.ring);
    s.(ring := ValueCleared(s.ring, Looked(s.ring, k * BLOCK_SIZE), k), producer := Undone(k, s.producer.end),
       pool := s.pool + {BlockAt(s.ring, k * BLOCK_SIZE)})
  }

  /** The history of a tail: the number of the block inserted last when the header was current. */
  function TailNumber(r: Ring, h: nat): int
    requires h < |r.headers|
  {
    if h + 1 == |r.headers| then r.next - 1 else r.headers[h].hi - 1
  }

  /** A dequeuer goes on to its next block, or is done. */
  function Onward(i: int, end: int, h: nat, idx: nat, capacity: nat): Reader
    requires idx < capacity
  {
    if i == end then Idle else Busy(i, end, NeedValue(h, After(idx, capacity)))
  }

  function Counter(s: State, block: Block): int {
    if block in s.counters then s.counters[block] else 0
  }

  function CellAt(s: State, block: Block, i: int): Element {
    if (block, i % BLOCK_SIZE) in s.cells then s.cells[(block, i % BLOCK_SIZE)] else 0
  }

  function ReadStep(s: State, t: nat): (q: State)
    requires Sound(s) && t < |s.readers| && s.readers[t].Busy?
    ensures |q.readers| == |s.readers|
  {
    var r, x := s.ring, s.readers[t];
    assert ReaderOk(r, s.head, x);
    match x.phase
    case NeedHeader => With(s, t, x.(phase := NeedTail(|r.headers| - 1)))
    case NeedTail(h) => With(s, t, x.(phase := NeedKey(h, r.headers[h].tail, TailNumber(r, h))))
    case NeedKey(h, tail, m) => With(s, t, x.(phase := NeedValue(h, Located(r, h, tail, x.i))))
    case NeedValue(h, idx) => With(s, t, x.(phase := HasBlock(h, idx, r.entries[EntryAt(r, h, idx)].value, x.i)))
    case HasBlock(h, idx, value, at) => if at < Stop(x) then Taken(s, t) else Marked(s, t)
    case MustFree(h, idx, n, block) =>
      With(s, t, Onward(x.i, x.end, h, idx, |r.headers[h].index|)).(
        ring := ValueCleared(r, EntryAt(r, h, idx), n), pool := s.pool + {block})
  }

  /** A dequeuer takes one element out of its block. */
  function Taken(s: State, t: nat): State
    requires t < |s.readers| && s.readers[t].Busy? && s.readers[t].phase.HasBlock? && s.readers[t].phase.value.Some?
  {
    var x := s.readers[t];
    var at := x.phase.at;
    With(s, t, x.(phase := x.phase.(at := at + 1))).(
      log := s.log + [Taking(at, CellAt(s, x.phase.value.value, at))])
  }

  /** set_empty and set_many_empty: it adds to the counter what it took, and is to free the block if that
      makes it the whole block. */
  function Marked(s: State, t: nat): State
    requires Sound(s) && t < |s.readers| && s.readers[t].Busy? && s.readers[t].phase.HasBlock?
  {
    var x := s.readers[t];
    assert ReaderOk(s.ring, s.head, x);
    var HasBlock(h, idx, some, at) := x.phase;
    var sum := Counter(s, some.value) + (Stop(x) - x.i);
    With(s, t, if sum == BLOCK_SIZE then Busy(Stop(x), x.end, MustFree(h, idx, Num(x.i), some.value))
               else Onward(Stop(x), x.end, h, idx, |s.ring.headers[h].index|)).(
      counters := s.counters[some.value := sum])
  }

  function With(s: State, t: nat, x: Reader): State
    requires t < |s.readers|
  {
    s.(readers := s.readers[t := x])
  }
}
