/** What the dequeuers take out of the blocks is what the producer put in, each element once. */
module BlockContents {
  import opened Bits
  import opened BlockIndexRing
  import opened BlockIndex
  import opened BlockQueue
  import opened BlockCounters
  import opened BlockLookup

  /** What is constructed fits into the blocks inserted; nothing is constructed ahead of the tail while the
      producer inserts or takes back. */
  predicate BuiltOk(s: State) {
    s.tail <= |s.built| && if s.producer.Ready? then |s.built| <= s.ring.next * BLOCK_SIZE else |s.built| == s.tail
  }

  /** The slot of index `i` in its block holds the element. */
  predicate Holds(blocks: map<int, Block>, cells: map<(Block, int), Element>, built: seq<Element>, i: nat)
    requires i < |built|
  {
    Num(i) in blocks ==>
      (blocks[Num(i)], i % BLOCK_SIZE) in cells && cells[(blocks[Num(i)], i % BLOCK_SIZE)] == built[i]
  }

  ghost predicate CellsOk(blocks: map<int, Block>, cells: map<(Block, int), Element>, built: seq<Element>) {
    forall i :: 0 <= i < |built| ==> Holds(blocks, cells, built, i)
  }

  /** Dequeuer `x` was granted index `i` and has not yet taken its element. */
  predicate Awaits(x: Reader, i: int) {
    x.Busy? && NextOf(x) <= i < x.end
  }

  /** An index is taken for its own element, by nobody else and not again. */
  predicate TakingOk(s: State, k: nat)
    requires k < |s.log|
  {
    var i := s.log[k].index;
    && 0 <= i < s.head && i < |s.built| && s.log[k].element == s.built[i]
    && (forall t :: 0 <= t < |s.readers| ==> !Awaits(s.readers[t], i))
    && (forall j :: 0 <= j < k ==> s.log[j].index != i)
  }

  /** Two dequeuers do not wait for the same index. */
  ghost predicate RangesApart(readers: seq<Reader>) {
    forall t, u :: 0 <= t < |readers| && 0 <= u < |readers| && t != u ==> RangeApart(readers[t], readers[u])
  }

  predicate RangeApart(x: Reader, y: Reader) {
    x.Busy? && y.Busy? ==> x.end <= NextOf(y) || y.end <= NextOf(x) || x.end <= NextOf(x) || y.end <= NextOf(y)
  }

  /** The log holds what was granted and is no longer awaited. */
  ghost predicate LogOk(s: State) {
    && (forall k :: 0 <= k < |s.log| ==> TakingOk(s, k))
    && RangesApart(s.readers)
    && |s.log| + Total(s.readers, 0, Untaken) == s.head
  }

  ghost predicate Filled(s: State) {
    BuiltOk(s) && CellsOk(s.ring.blocks, s.cells, s.built) && LogOk(s)
  }

  /* Every transition keeps the contents */

  lemma StepBuilt(s: State, ev: Event)
    requires Sound(s) && BuiltOk(s)
    ensures BuiltOk(Step(s, ev))
  {
    hide Layout, Storage, ReadersOk, ReadStep, Published, Base, ProducerOk, Looked, BlockAt;
    LayoutOf(s);
    NextCovers(s);
    HeadBelow(s);
    if Enabled(s, ev) {
      match ev
      case Construct(e) => BaseIsNext(s);
      case Read(t) => ReadKeeps(s, t);
      case _ =>
    }
  }

  /** What is published lies below the blocks inserted, also once those behind it are taken back. */
  lemma NextCovers(s: State)
    requires Sound(s)
    ensures s.tail <= s.ring.next * BLOCK_SIZE
    ensures s.producer.Tailed? ==> s.tail <= (s.ring.next - 1) * BLOCK_SIZE
    ensures s.producer.Undone? ==> s.tail <= (s.ring.next - 1) * BLOCK_SIZE
  {
    hide Layout, Storage, ReadersOk, Published;
    PublishedIs(s.tail, 0);
    Products(Published(s.tail), s.ring.next);
    Products(Published(s.tail), s.ring.next - 1);
  }

  /** A dequeuer changes nothing of the producer's. */
  lemma ReadKeeps(s: State, t: nat)
    requires Sound(s) && t < |s.readers| && s.readers[t].Busy?
    ensures var q := ReadStep(s, t);
      && q.producer == s.producer && q.built == s.built && q.tail == s.tail && q.head == s.head && q.cells == s.cells
      && q.ring.next == s.ring.next && (forall n :: n in q.ring.blocks ==> n in s.ring.blocks)
      && (forall n :: n in q.ring.blocks ==> q.ring.blocks[n] == s.ring.blocks[n])
      && q.readers == s.readers[t := q.readers[t]]
  {
    hide Layout, Storage, ProducerOk, ReadersOk, Num;
    ReaderAt(s, t);
  }

  lemma ReaderAt(s: State, t: nat)
    requires Sound(s) && t < |s.readers|
    ensures Shape(s.ring) && ReaderOk(s.ring, s.head, s.readers[t])
  {
    hide Layout, Storage, ProducerOk, PhaseOk;
    ShapeOf(s.ring);
  }

  /** Where no block is added the cells stay right. */
  lemma FewerBlocks(blocks: map<int, Block>, fewer: map<int, Block>, cells: map<(Block, int), Element>,
                    built: seq<Element>)
    requires CellsOk(blocks, cells, built)
    requires forall n :: n in fewer ==> n in blocks && fewer[n] == blocks[n]
    ensures CellsOk(fewer, cells, built)
  {
    forall i | 0 <= i < |built| ensures Holds(fewer, cells, built, i) {
      assert Holds(blocks, cells, built, i);
    }
  }

  /** Two indices of one block have different slots. */
  lemma SlotsDiffer(i: int, j: int)
    ensures i != j && Num(i) == Num(j) ==> i % BLOCK_SIZE != j % BLOCK_SIZE
  {
    DivMod(i, BLOCK_SIZE);
    DivMod(j, BLOCK_SIZE);
  }

  lemma ConstructCells(blocks: map<int, Block>, pool: set<Block>, cells: map<(Block, int), Element>,
                       built: seq<Element>, e: Element)
    requires CellsOk(blocks, cells, built) && BlocksApart(blocks, pool) && Num(|built|) in blocks
    ensures CellsOk(blocks, cells[(blocks[Num(|built|)], |built| % BLOCK_SIZE) := e], built + [e])
  {
    hide Num;
    var all := cells[(blocks[Num(|built|)], |built| % BLOCK_SIZE) := e];
    forall i | 0 <= i < |built + [e]| ensures Holds(blocks, all, built + [e], i) {
      if i < |built| && Num(i) in blocks {
        assert Holds(blocks, cells, built, i);
        SlotsDiffer(i, |built|);
      }
    }
  }

  /** There is a block for the next element. */
  lemma NextHasBlock(s: State)
    requires Sound(s) && s.producer.Ready? && s.tail <= |s.built| < Base(s)
    ensures Num(|s.built|) in s.ring.blocks
  {
    hide Layout, Storage, ReadersOk, Num, Published;
    var n, published := Num(|s.built|), Published(s.tail);
    HeadBelow(s);
    BaseIsNext(s);
    NumIs(|s.built|, published + s.inserted);
    NumIs(|s.built|, n);
  }

  lemma StoreValueCells(s: State, block: Block)
    requires Sound(s) && Filled(s) && Enabled(s, StoreValue(block))
    ensures CellsOk(s.ring.blocks[s.ring.next - 1 := block], s.cells, s.built)
  {
    hide Layout, Storage, ReadersOk, LogOk, Num, Published;
    var n := s.ring.next - 1;
    NextCovers(s);
    var blocks := s.ring.blocks[n := block];
    forall i | 0 <= i < |s.built| ensures Holds(blocks, s.cells, s.built, i) {
      assert Holds(s.ring.blocks, s.cells, s.built, i);
      NumIs(i, n);
    }
  }

  lemma StepCells(s: State, ev: Event)
    requires Sound(s) && Counted(s) && Filled(s)
    ensures var q := Step(s, ev); CellsOk(q.ring.blocks, q.cells, q.built)
  {
    hide Layout, Storage, ReadersOk, ReadStep, CellsOk, CountsOk;
    LayoutOf(s);
    var q := Step(s, ev);
    if Enabled(s, ev) {
      match ev
      case StoreValue(block) => StoreValueCells(s, block);
      case Construct(e) =>
        NextHasBlock(s);
        ConstructCells(s.ring.blocks, s.pool, s.cells, s.built, e);
      case StartUndo => ShorterCells(s.ring.blocks, s.cells, s.built, s.tail);
      case Read(t) =>
        ReadKeeps(s, t);
        FewerBlocks(s.ring.blocks, q.ring.blocks, s.cells, s.built);
      case UndoValue => FewerBlocks(s.ring.blocks, q.ring.blocks, s.cells, s.built);
      case ClearValue => FewerBlocks(s.ring.blocks, q.ring.blocks, s.cells, s.built);
      case _ =>
    }
  }

  lemma ShorterCells(blocks: map<int, Block>, cells: map<(Block, int), Element>, built: seq<Element>, n: int)
    requires CellsOk(blocks, cells, built) && 0 <= n <= |built|
    ensures CellsOk(blocks, cells, built[..n])
  {
    forall i | 0 <= i < n ensures Holds(blocks, cells, built[..n], i) {
      assert Holds(blocks, cells, built, i);
    }
  }

  /** A step that neither grants nor takes, and keeps what is published. */
  lemma SameLog(s: State, q: State)
    requires LogOk(s) && q.log == s.log && q.head == s.head && |q.readers| == |s.readers|
    requires s.head <= |q.built| && forall i :: 0 <= i < s.head && i < |s.built| ==> q.built[i] == s.built[i]
    requires forall t :: 0 <= t < |s.readers| ==> SameRange(s.readers[t], q.readers[t])
    ensures LogOk(q)
  {
    forall k | 0 <= k < |q.log| ensures TakingOk(q, k) {
      assert TakingOk(s, k);
      forall t | 0 <= t < |q.readers| ensures !Awaits(q.readers[t], q.log[k].index) {
        assert SameRange(s.readers[t], q.readers[t]);
      }
    }
    forall t, u | 0 <= t < |q.readers| && 0 <= u < |q.readers| && t != u
      ensures RangeApart(q.readers[t], q.readers[u])
    {
      assert RangeApart(s.readers[t], s.readers[u]) && SameRange(s.readers[t], q.readers[t]);
      assert SameRange(s.readers[u], q.readers[u]);
    }
    SameTotal(s.readers, q.readers);
  }

  /** The dequeuer awaits the same indices. */
  predicate SameRange(x: Reader, y: Reader) {
    || (x.Busy? && y.Busy? && x.end == y.end && NextOf(x) == NextOf(y))
    || ((x.Busy? ==> x.end <= NextOf(x)) && (y.Busy? ==> y.end <= NextOf(y)))
  }

  lemma {:induction false} SameTotal(a: seq<Reader>, b: seq<Reader>)
    requires |a| == |b| && forall t :: 0 <= t < |a| ==> SameRange(a[t], b[t])
    ensures Total(a, 0, Untaken) == Total(b, 0, Untaken)
  {
    if a != [] {
      var last := |a| - 1;
      assert SameRange(a[last], b[last]);
      SameTotal(a[..last], b[..last]);
    }
  }

  lemma GrantLog(s: State, t: nat, count: int)
    requires Sound(s) && LogOk(s) && BuiltOk(s) && Enabled(s, Grant(t, count))
    ensures LogOk(Step(s, Grant(t, count)))
  {
    hide Layout, Storage, ProducerOk, PhaseOk, Total, Step;
    GrantIs(s, t, count);
    var q, x := Step(s, Grant(t, count)), Busy(s.head, s.head + count, NeedHeader);
    forall k | 0 <= k < |q.log| ensures TakingOk(q, k) {
      assert TakingOk(s, k);
    }
    forall u, v | 0 <= u < |q.readers| && 0 <= v < |q.readers| && u != v
      ensures RangeApart(q.readers[u], q.readers[v])
    {
      assert RangeApart(s.readers[u], s.readers[v]);
      ReaderAt(s, u);
      ReaderAt(s, v);
    }
    TotalOfUpdate(s.readers, t, x, 0, Untaken);
  }

  /** What is taken is the element of its index. */
  lemma TakesItsElement(s: State, t: nat)
    requires Sound(s) && Filled(s) && t < |s.readers| && s.readers[t].Busy? && s.readers[t].phase.HasBlock?
    requires s.readers[t].phase.at < Stop(s.readers[t])
    ensures var at := s.readers[t].phase.at;
      && s.readers[t].phase.value.Some? && 0 <= at < s.head <= |s.built|
      && CellAt(s, s.readers[t].phase.value.value, at) == s.built[at]
  {
    hide Layout, Storage, LogOk, ProducerOk, Num, AtNumber;
    ReaderAt(s, t);
    var x := s.readers[t];
    HeadBelow(s);
    NumIs(x.i, Num(x.i));
    NumIs(x.phase.at, Num(x.i));
    assert Holds(s.ring.blocks, s.cells, s.built, x.phase.at);
  }

  lemma TakenLog(s: State, t: nat)
    requires Sound(s) && Filled(s) && t < |s.readers| && s.readers[t].Busy? && s.readers[t].phase.HasBlock?
    requires s.readers[t].phase.at < Stop(s.readers[t])
    ensures s.readers[t].phase.value.Some? && LogOk(Taken(s, t))
  {
    hide Layout, Storage, ProducerOk, PhaseOk, Total, CellsOk, CellAt;
    TakesItsElement(s, t);
    ReaderAt(s, t);
    var q, x := Taken(s, t), s.readers[t];
    var at, y := x.phase.at, q.readers[t];
    forall k | 0 <= k < |q.log| ensures TakingOk(q, k) {
      if k < |s.log| {
        assert TakingOk(s, k);
      } else {
        forall j | 0 <= j < k ensures q.log[j].index != at {
          assert TakingOk(s, j);
        }
        forall u | 0 <= u < |q.readers| ensures !Awaits(q.readers[u], at) {
          if u != t { assert RangeApart(s.readers[t], s.readers[u]); }
        }
      }
    }
    forall u, v | 0 <= u < |q.readers| && 0 <= v < |q.readers| && u != v
      ensures RangeApart(q.readers[u], q.readers[v])
    {
      assert RangeApart(s.readers[u], s.readers[v]);
    }
    TotalOfUpdate(s.readers, t, y, 0, Untaken);
  }

  lemma ReadLog(s: State, t: nat)
    requires Sound(s) && Filled(s) && t < |s.readers| && s.readers[t].Busy?
    ensures LogOk(ReadStep(s, t))
  {
    hide Layout, Storage, ProducerOk, CellsOk, LogOk, Num;
    ReaderAt(s, t);
    HeadWithin(s);
    if s.readers[t].phase.HasBlock? && s.readers[t].phase.at < Stop(s.readers[t]) {
      TakenLog(s, t);
    } else {
      var q := ReadStep(s, t);
      forall u | 0 <= u < |s.readers| ensures SameRange(s.readers[u], q.readers[u]) {
      }
      SameLog(s, q);
    }
  }

  lemma HeadWithin(s: State)
    requires Sound(s)
    ensures 0 <= s.head <= s.tail
  {
  }

  lemma StepLog(s: State, ev: Event)
    requires Sound(s) && Filled(s)
    ensures LogOk(Step(s, ev))
  {
    hide Layout, Storage, ProducerOk, CellsOk, LogOk, ReadStep;
    LayoutOf(s);
    HeadWithin(s);
    if Enabled(s, ev) {
      match ev
      case Grant(t, count) => GrantLog(s, t, count);
      case Read(t) => ReadLog(s, t);
      case _ => SameLog(s, Step(s, ev));
    }
  }

  lemma StepFilled(s: State, ev: Event)
    requires Sound(s) && Counted(s) && Filled(s)
    ensures Filled(Step(s, ev))
  {
    hide Sound, Counted, Step, BuiltOk, CellsOk, LogOk;
    StepBuilt(s, ev);
    StepCells(s, ev);
    StepLog(s, ev);
  }
}
