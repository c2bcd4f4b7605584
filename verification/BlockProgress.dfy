/** What gets done on the blocks of a sub-queue: dequeuers end, enqueues publish, and blocks come back. */
module BlockProgress {
  import opened Bits
  import opened BlockIndexRing
  import opened BlockIndex
  import opened BlockQueue
  import opened BlockCounters
  import opened BlockLookup
  import opened BlockContents
  import opened BlockRuns

  /* A dequeuer is done after a number of its own operations that nobody else can make larger. */

  /** How many operations a dequeuer has left at most: those of the lookup, one for each element, and no more than
      three for each block behind. */
  function Work(x: Reader): int {
    match x
    case Idle => 0
    case Busy(i, end, phase) =>
      match phase
      case NeedHeader => 4 * (end - i) + 4
      case NeedTail(_) => 4 * (end - i) + 3
      case NeedKey(_, _, _) => 4 * (end - i) + 2
      case NeedValue(_, _) => 4 * (end - i) + 1
      case HasBlock(_, _, _, at) => 4 * (end - i) - (at - i)
      case MustFree(_, _, _, _) => 4 * (end - i) + 2
  }

  lemma WorkIsLeft(s: State, t: nat)
    requires Inv(s) && t < |s.readers|
    ensures Work(s.readers[t]) >= 0 && (Work(s.readers[t]) == 0 <==> s.readers[t].Idle?)
  {
    hide Layout, Storage, ProducerOk, Counted, Filled, Num;
    ReaderAt(s, t);
    var x := s.readers[t];
    if x.Busy? && x.phase.HasBlock? { NumIs(x.i, Num(x.i)); }
  }

  lemma ReadWorks(s: State, t: nat)
    requires Inv(s) && t < |s.readers| && s.readers[t].Busy?
    ensures Work(ReadStep(s, t).readers[t]) < Work(s.readers[t])
  {
    hide Layout, Storage, ProducerOk, Counted, Filled, Num, Located, EntryAt, CellAt, Counter;
    ReaderAt(s, t);
    var x := s.readers[t];
    if x.phase.HasBlock? { NumIs(x.i, Num(x.i)); }
  }

  lemma OthersLeave(s: State, ev: Event, t: nat)
    requires Inv(s) && t < |s.readers| && ev != Read(t) && !(ev.Grant? && ev.t == t)
    ensures Step(s, ev).readers[t] == s.readers[t]
  {
    hide Layout, Storage, ProducerOk, Counted, Filled, Num, Located, EntryAt, CellAt, Counter, Looked, Base;
    if ev.Read? && ev.t < |s.readers| && s.readers[ev.t].Busy? {
      ReaderAt(s, ev.t);
    }
  }

  /** How often dequeuer `t` gets its turn. */
  function Turns(events: seq<Event>, t: nat): nat {
    if events == [] then 0 else (if events[0] == Read(t) then 1 else 0) + Turns(events[1..], t)
  }

  predicate NoGrant(events: seq<Event>, t: nat) {
    forall k :: 0 <= k < |events| ==> !(events[k].Grant? && events[k].t == t)
  }

  /** Whatever the others do in between, a dequeuer is done once it had as many turns as it has work. */
  lemma {:induction false} WaitFree(s: State, events: seq<Event>, t: nat)
    requires Inv(s) && t < |s.readers| && NoGrant(events, t) && Turns(events, t) >= Work(s.readers[t])
    ensures Run(s, events).readers[t].Idle?
    decreases |events|
  {
    hide Sound, Counted, Filled, Work, Step;
    WorkIsLeft(s, t);
    if events != [] {
      StepInv(s, events[0]);
      var q := Step(s, events[0]);
      if events[0] != Read(t) {
        OthersLeave(s, events[0], t);
      } else {
        ReadTurn(s, t);
      }
      assert NoGrant(events[1..], t);
      WaitFree(q, events[1..], t);
    }
  }

  lemma ReadTurn(s: State, t: nat)
    requires Inv(s) && t < |s.readers|
    ensures Work(Step(s, Read(t)).readers[t]) <= (if Work(s.readers[t]) == 0 then 0 else Work(s.readers[t]) - 1)
  {
    hide Layout, Storage, ProducerOk, Counted, Filled, ReadStep, Work;
    WorkIsLeft(s, t);
    if s.readers[t].Busy? { ReadWorks(s, t); }
  }

  /** For the elements granted to a dequeuer that has just begun: from every state that can be reached, four turns
      for each element and four more are enough. */
  lemma DequeueEnds(junk: seq<Option<Block>>, readers: nat, before: seq<Event>, events: seq<Event>, t: nat)
    requires t < readers && NoGrant(events, t)
    ensures var s := Run(Start(junk, readers), before);
      && (s.readers[t].Busy? && Turns(events, t) >= 4 * (s.readers[t].end - s.readers[t].i) + 4 ==>
            Run(s, events).readers[t].Idle?)
      && (s.readers[t].Idle? ==> Run(s, events).readers[t].Idle?)
  {
    hide Inv;
    var s := Run(Start(junk, readers), before);
    if s.readers[t].Busy? && Turns(events, t) >= 4 * (s.readers[t].end - s.readers[t].i) + 4 {
      WorkIsLeft(s, t);
      WorkAtMost(s, t);
      WaitFree(s, events, t);
    }
    if s.readers[t].Idle? { WaitFree(s, events, t); }
  }

  lemma WorkAtMost(s: State, t: nat)
    requires Inv(s) && t < |s.readers| && s.readers[t].Busy?
    ensures Work(s.readers[t]) <= 4 * (s.readers[t].end - s.readers[t].i) + 4
  {
    hide Layout, Storage, ProducerOk, Counted, Filled, Num;
    ReaderAt(s, t);
  }

  /* No block is lost. */

  /** The blocks in use and those to be had. */
  function Blocks(s: State): set<Block> {
    s.pool + Images(s.ring.blocks)
  }

  function Images(blocks: map<int, Block>): set<Block> {
    set n | n in blocks :: blocks[n]
  }

  lemma PutIn(blocks: map<int, Block>, pool: set<Block>, n: int, block: Block)
    requires n !in blocks && block in pool
    ensures (pool - {block}) + Images(blocks[n := block]) == pool + Images(blocks)
  {
    var more := blocks[n := block];
    assert more[n] == block && forall m :: m in blocks ==> more[m] == blocks[m];
  }

  lemma TakenOut(blocks: map<int, Block>, pool: set<Block>, n: int)
    requires n in blocks
    ensures (pool + {blocks[n]}) + Images(blocks - {n}) == pool + Images(blocks)
  {
    var fewer := blocks - {n};
    assert forall m :: m in blocks && m != n ==> m in fewer && fewer[m] == blocks[m];
  }

  lemma SoundOf(s: State)
    requires Inv(s)
    ensures Sound(s)
  {
  }

  lemma Disabled(s: State, ev: Event)
    requires Inv(s)
    ensures Layout(s.ring) && (!Enabled(s, ev) ==> Step(s, ev) == s)
  {
    hide Storage, ProducerOk, ReadersOk, Counted, Filled;
    LayoutOf(s);
  }

  /** Only who adds to the blocks to be had, or takes from them, from outside changes what blocks there are. */
  lemma StepBlocks(s: State, ev: Event)
    requires Inv(s)
    ensures Blocks(Step(s, ev)) ==
      if Enabled(s, ev) && ev.Supply? then Blocks(s) + {ev.block}
      else if Enabled(s, ev) && ev.Withdraw? then Blocks(s) - {ev.block}
      else Blocks(s)
  {
    hide Inv, Step, Blocks, Enabled;
    SoundOf(s);
    LayoutOf(s);
    if Enabled(s, ev) {
      match ev
      case StoreValue(block) => StoredBlocks(s, block);
      case UndoValue => RetractedBlocks(s);
      case Read(t) => ReadBlocks(s, t);
      case Withdraw(block) => WithdrawnBlocks(s, block);
      case Supply(block) => SuppliedBlocks(s, block);
      case _ => OtherBlocks(s, ev);
    } else {
      Disabled(s, ev);
    }
  }

  lemma SuppliedBlocks(s: State, block: Block)
    requires Inv(s) && Enabled(s, Supply(block))
    ensures Blocks(Step(s, Supply(block))) == Blocks(s) + {block}
  {
    hide Sound, Counted, Filled;
  }

  lemma WithdrawnBlocks(s: State, block: Block)
    requires Inv(s) && Enabled(s, Withdraw(block))
    ensures Blocks(Step(s, Withdraw(block))) == Blocks(s) - {block}
  {
    hide Layout, Storage, CountsOk, Filled, ProducerOk, ReadersOk;
    assert block !in Images(s.ring.blocks);
  }

  /** The operations that neither store nor take out a block. */
  lemma OtherBlocks(s: State, ev: Event)
    requires Inv(s) && Enabled(s, ev)
    requires !ev.StoreValue? && !ev.UndoValue? && !ev.Read? && !ev.Supply? && !ev.Withdraw?
    ensures Blocks(Step(s, ev)) == Blocks(s)
  {
    hide Storage, Counted, Filled, ReadersOk;
    var q := Step(s, ev);
    if ev.ClearValue? { assert s.ring.next !in s.ring.blocks; }
    assert q.pool == s.pool && q.ring.blocks == s.ring.blocks;
  }

  lemma StoredBlocks(s: State, block: Block)
    requires Inv(s) && Enabled(s, StoreValue(block))
    ensures Blocks(Step(s, StoreValue(block))) == Blocks(s)
  {
    hide Layout, Storage, Counted, Filled, ReadersOk, Published;
    LayoutOf(s);
    PutIn(s.ring.blocks, s.pool, s.ring.next - 1, block);
  }

  lemma RetractedBlocks(s: State)
    requires Inv(s) && Enabled(s, UndoValue)
    ensures Blocks(Step(s, UndoValue)) == Blocks(s)
  {
    hide Layout, Storage, Counted, Filled, ReadersOk, Published, Num, Looked;
    LayoutOf(s);
    var k := s.producer.k;
    NumIs(k * BLOCK_SIZE, k);
    TakenOut(s.ring.blocks, s.pool, k);
  }

  lemma ReadBlocks(s: State, t: nat)
    requires Inv(s) && Enabled(s, Read(t))
    ensures Blocks(Step(s, Read(t))) == Blocks(s)
  {
    hide Layout, Storage, ProducerOk, Counted, Filled, Num, Located, EntryAt, CellAt, Counter;
    ReaderAt(s, t);
    var x := s.readers[t];
    if x.phase.MustFree? { TakenOut(s.ring.blocks, s.pool, x.phase.n); }
  }

  /** When no dequeuer is at work, all blocks are to be had but those that still hold elements, or that the enqueue
      under way has inserted. */
  lemma SpentBlocksComeBack(junk: seq<Option<Block>>, readers: nat, events: seq<Event>, n: int)
    ensures var s := Run(Start(junk, readers), events);
      (forall t :: 0 <= t < readers ==> s.readers[t].Idle?) && n in s.ring.blocks ==> s.head < (n + 1) * BLOCK_SIZE
  {
    hide Inv;
    var s := Run(Start(junk, readers), events);
    if n in s.ring.blocks { EmptyMeansSpent(junk, readers, events, n); }
  }

  /* An enqueue that nobody disturbs publishes its element. */

  lemma RunFirst(s: State, e: Event, rest: seq<Event>)
    requires Inv(s)
    ensures Inv(Step(s, e)) && Run(s, [e] + rest) == Run(Step(s, e), rest)
  {
    hide Sound, Counted, Filled, Step;
    StepInv(s, e);
    assert ([e] + rest)[1..] == rest;
  }

  lemma RunNothing(s: State)
    requires Inv(s)
    ensures Run(s, []) == s
  {
    hide Sound, Counted, Filled;
  }

  lemma SameBase(s: State, q: State)
    requires q.tail == s.tail && q.inserted == s.inserted
    ensures Base(q) == Base(s)
  {
  }

  /** Between two enqueues of the producer. */
  predicate AtRest(s: State) {
    s.producer.Ready? && |s.built| == s.tail && s.inserted == 0
  }

  /** One element more is published, and the dequeuers and what they took stay as they are. */
  predicate Enqueued(s: State, q: State, e: Element) {
    && q.built == s.built + [e] && q.tail == s.tail + 1 && AtRest(q)
    && q.head == s.head && q.readers == s.readers && q.log == s.log
  }

  lemma NumOf(i: int)
    ensures Num(i) == i / BLOCK_SIZE
  {
  }

  lemma Aligned(i: int)
    ensures i % BLOCK_SIZE == 0 <==> Num(i - 1) + 1 == Num(i)
    ensures i % BLOCK_SIZE == 0 <==> i == Num(i) * BLOCK_SIZE
    ensures i % BLOCK_SIZE != 0 <==> Num(i - 1) == Num(i)
  {
    hide Num;
    NumIs(i, Num(i));
    NumIs(i - 1, Num(i));
    NumIs(i - 1, Num(i) - 1);
    NumOf(i);
    DivMod(i, BLOCK_SIZE);
    Products(Num(i) - 1, Num(i));
  }

  /** In the middle of a block an element is constructed and published. */
  lemma EnqueueWithin(s: State, e: Element)
    requires Inv(s) && AtRest(s) && s.tail % BLOCK_SIZE != 0
    ensures var q := Run(s, [Construct(e), Publish]);
      Enqueued(s, q, e) && q.ring == s.ring && q.pool == s.pool
  {
    hide Sound, Counted, Filled, Step, Run, Num;
    Aligned(s.tail);
    NumIs(s.tail, Num(s.tail));
    BaseOf(s);
    assert s.tail < Base(s) <= s.tail + BLOCK_SIZE;
    Published1(s, e);
  }

  lemma BaseOf(s: State)
    ensures Base(s) == (Num(s.tail - 1) + s.inserted + 1) * BLOCK_SIZE
  {
  }

  /** Where there is room, the element is constructed, and the tail moved. */
  lemma Published1(s: State, e: Element)
    requires Inv(s) && s.producer.Ready? && |s.built| == s.tail < Base(s) <= s.tail + BLOCK_SIZE
    ensures var q := Run(s, [Construct(e), Publish]);
      Enqueued(s, q, e) && q.ring == s.ring && q.pool == s.pool
  {
    hide Sound, Counted, Filled, Run, Base;
    var s1 := Step(s, Construct(e));
    LayoutOf(s);
    RunFirst(s, Construct(e), [Publish]);
    LayoutOf(s1);
    RunFirst(s1, Publish, []);
    assert [Construct(e), Publish] == [Construct(e)] + [Publish] && [Publish] + [] == [Publish];
    RunNothing(Step(s1, Publish));
    SameBase(s, s1);
  }

  /** The operations that insert a block into the index. */
  function Insert(block: Block): seq<Event> {
    [StoreKey, StoreTail, StoreValue(block)]
  }

  /** The fields that an insertion leaves alone. */
  predicate SameBut(s: State, q: State) {
    && q.built == s.built && q.tail == s.tail && q.head == s.head && q.readers == s.readers && q.log == s.log
    && q.cells == s.cells
  }

  lemma KeyTurn(s: State)
    requires Inv(s) && Enabled(s, StoreKey)
    ensures var q := Step(s, StoreKey);
      && SameBut(s, q) && q.producer == Keyed && q.inserted == s.inserted && q.pool == s.pool
      && q.ring.next == s.ring.next && q.ring.blocks == s.ring.blocks
  {
    hide Layout, Storage, ProducerOk, ReadersOk, Counted, Filled, Base;
    LayoutOf(s);
  }

  lemma TailTurn(s: State)
    requires Inv(s) && s.producer.Keyed?
    ensures var q := Step(s, StoreTail);
      && SameBut(s, q) && q.producer == Tailed && q.inserted == s.inserted && q.pool == s.pool
      && q.ring.next == s.ring.next + 1 && q.ring.blocks == s.ring.blocks
  {
    hide Layout, Storage, ProducerOk, ReadersOk, Counted, Filled, Base;
    LayoutOf(s);
  }

  lemma ValueTurn(s: State, block: Block)
    requires Inv(s) && s.producer.Tailed? && block in s.pool
    ensures var q := Step(s, StoreValue(block));
      && SameBut(s, q) && q.producer == Ready && q.inserted == s.inserted + 1 && q.pool == s.pool - {block}
      && q.ring.next == s.ring.next && q.ring.blocks == s.ring.blocks[s.ring.next - 1 := block]
  {
    hide Layout, Storage, ProducerOk, ReadersOk, Counted, Filled, Base;
    LayoutOf(s);
  }

  lemma GrowTurn(s: State, junk: seq<Option<Block>>)
    requires Inv(s) && Enabled(s, Grow(junk))
    ensures var q := Step(s, Grow(junk));
      && SameBut(s, q) && q.producer == Ready && q.inserted == s.inserted && q.pool == s.pool
      && q.ring.next == s.ring.next && q.ring.blocks == s.ring.blocks
  {
    hide Layout, Storage, ProducerOk, ReadersOk, Counted, Filled, Base;
    LayoutOf(s);
  }

  lemma InsertRuns(s: State, block: Block)
    requires Inv(s) && AtRest(s) && block in s.pool && Enabled(s, StoreKey)
    ensures var q := Run(s, Insert(block));
      && SameBut(s, q) && q.producer == Ready && q.inserted == 1 && q.pool == s.pool - {block}
      && q.ring.next == s.ring.next + 1 && q.ring.blocks == s.ring.blocks[s.ring.next := block]
  {
    hide Sound, Counted, Filled, Step, Run, Enabled;
    var s1 := Step(s, StoreKey);
    KeyTurn(s);
    RunFirst(s, StoreKey, [StoreTail, StoreValue(block)]);
    var s2 := Step(s1, StoreTail);
    TailTurn(s1);
    RunFirst(s1, StoreTail, [StoreValue(block)]);
    ValueTurn(s2, block);
    RunFirst(s2, StoreValue(block), []);
    assert Insert(block) == [StoreKey] + [StoreTail, StoreValue(block)];
    assert [StoreTail, StoreValue(block)] == [StoreTail] + [StoreValue(block)];
    assert [StoreValue(block)] == [StoreValue(block)] + [];
    RunNothing(Step(s2, StoreValue(block)));
  }

  lemma {:induction false} RunBoth(s: State, a: seq<Event>, b: seq<Event>)
    requires Inv(s)
    ensures Run(s, a + b) == Run(Run(s, a), b)
    decreases |a|
  {
    hide Sound, Counted, Filled, Step;
    if a == [] {
      assert a + b == b;
    } else {
      StepInv(s, a[0]);
      RunBoth(Step(s, a[0]), a[1..], b);
      assert (a + b)[1..] == a[1..] + b;
    }
  }

  /** At the start of a block a block is inserted first; the index grows if it has no room. */
  lemma EnqueueNext(s: State, block: Block, junk: seq<Option<Block>>, e: Element)
    requires Inv(s) && AtRest(s) && s.tail % BLOCK_SIZE == 0 && block in s.pool
    ensures Enabled(s, StoreKey) || Enabled(s, Grow(junk))
    ensures var room := if Enabled(s, StoreKey) then [] else [Grow(junk)];
      var q := Run(s, room + (Insert(block) + [Construct(e), Publish]));
      && Enqueued(s, q, e) && q.pool == s.pool - {block}
      && q.ring.blocks == s.ring.blocks[Num(s.tail) := block]
  {
    hide Layout, Step, ProducerOk, Dirty;
    LayoutOf(s);
    var room := if Enabled(s, StoreKey) then [] else [Grow(junk)];
    var s1 := Run(s, room);
    RunBoth(s, room, Insert(block) + [Construct(e), Publish]);
    RunBoth(s1, Insert(block), [Construct(e), Publish]);
    RoomMade(s, junk);
    InsertRuns(s1, block);
    var s2 := Run(s1, Insert(block));
    NextIs(s);
    Aligned(s.tail);
    NumIs(s.tail, Num(s.tail));
    BaseOf(s2);
    assert s2.tail < Base(s2) <= s2.tail + BLOCK_SIZE;
    Published1(s2, e);
  }

  lemma RoomMade(s: State, junk: seq<Option<Block>>)
    requires Inv(s) && AtRest(s)
    ensures Layout(s.ring)
    ensures var room := if Enabled(s, StoreKey) then [] else [Grow(junk)];
      var q := Run(s, room);
      && (Enabled(s, StoreKey) || Enabled(s, Grow(junk))) && Layout(q.ring) && Enabled(q, StoreKey)
      && SameBut(s, q) && AtRest(q) && q.pool == s.pool && q.ring.next == s.ring.next && q.ring.blocks == s.ring.blocks
  {
    hide Sound, Counted, Filled, Step, Reusable, FreshEntry;
    LayoutOf(s);
    if !Enabled(s, StoreKey) {
      GrowTurn(s, junk);
      GrowingMakesRoom(s, junk);
      RunFirst(s, Grow(junk), []);
      assert [Grow(junk)] + [] == [Grow(junk)];
    }
  }

  lemma NextIs(s: State)
    requires Inv(s) && AtRest(s)
    ensures s.ring.next == Num(s.tail - 1) + 1
  {
    hide Layout, Storage, ReadersOk, Counted, Filled;
  }

  /** From every state that can be reached with the producer at rest, an enqueue that is not disturbed, and has a
      block to be had if it needs one, publishes its element, and in at most six operations. */
  lemma EnqueuePublishes(junk: seq<Option<Block>>, readers: nat, events: seq<Event>, block: Block, e: Element)
    returns (operations: seq<Event>)
    ensures var s := Run(Start(junk, readers), events);
      AtRest(s) && (s.tail % BLOCK_SIZE == 0 ==> block in s.pool) ==>
        |operations| <= 6 && Enqueued(s, Run(s, operations), e)
  {
    hide Inv, Run, Enqueued;
    var s := Run(Start(junk, readers), events);
    operations := [];
    if AtRest(s) && (s.tail % BLOCK_SIZE == 0 ==> block in s.pool) {
      if s.tail % BLOCK_SIZE != 0 {
        operations := [Construct(e), Publish];
        EnqueueWithin(s, e);
      } else {
        SoundOf(s);
        LayoutOf(s);
        operations := (if Enabled(s, StoreKey) then [] else [Grow(junk)]) + (Insert(block) + [Construct(e), Publish]);
        EnqueueNext(s, block, junk, e);
      }
    }
  }
}
