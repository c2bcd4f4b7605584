/** What holds of a sub-queue in every run. */
module BlockRuns {
  import opened BlockIndexRing
  import opened BlockIndex
  import opened BlockQueue
  import opened BlockCounters
  import opened BlockLookup
  import opened BlockContents
  import opened Pigeonhole

  ghost predicate Inv(s: State) {
    Sound(s) && Counted(s) && Filled(s)
  }

  lemma StepInv(s: State, ev: Event)
    requires Inv(s)
    ensures Inv(Step(s, ev))
  {
    hide Sound, Counted, Step, CellsOk, LogOk;
    StepSound(s, ev);
    StepCounted(s, ev);
    StepFilled(s, ev);
  }

  /** A new sub-queue: the entries have no keys, and values that are not initialised. */
  function Init(junk: seq<Option<Block>>, readers: nat): State {
    var header := Header(INITIAL_CAPACITY - 1, seq(INITIAL_CAPACITY, i requires 0 <= i < INITIAL_CAPACITY => i), 0, 0);
    var ring := Ring(Blanks(INITIAL_CAPACITY, junk), [header], 0, 0, 0, map[]);
    State(ring, Ready, 0, 0, 0, seq(readers, _ => Idle), map[], {}, map[], [], [])
  }

  lemma InitInv(junk: seq<Option<Block>>, readers: nat)
    ensures Inv(Init(junk, readers))
  {
    var s := Init(junk, readers);
    PosWithin(INITIAL_CAPACITY, -1, INITIAL_CAPACITY);
    PosRepeats(0, -1, INITIAL_CAPACITY);
    assert HeaderOk(s.ring.headers[0], |s.ring.entries|);
    TotalOfIdle(readers, 0, Untaken);
  }

  function Start(junk: seq<Option<Block>>, readers: nat): (s: State)
    ensures Inv(s) && |s.readers| == readers
  {
    InitInv(junk, readers);
    Init(junk, readers)
  }

  function Run(s: State, events: seq<Event>): (q: State)
    requires Inv(s)
    ensures Inv(q) && |q.readers| == |s.readers|
    decreases |events|
  {
    if events == [] then s else
    StepInv(s, events[0]);
    Run(Step(s, events[0]), events[1..])
  }

  /* The index */

  /** Where a dequeuer stands with its lookup it stands right: the tail it loaded has a key and leads to its
      slot, the slot it found holds the base and the block of its element, that block is what it then reads,
      and the entry that it clears is still that of its block. */
  predicate LandsRight(r: Ring, x: Reader)
    requires Shape(r)
  {
    match x
    case Busy(i, end, NeedKey(h, t, m)) => TailLands(r, i, h, t)
    case Busy(i, end, NeedValue(h, idx)) => HasEntry(r, h, idx, Num(i))
    case Busy(i, end, HasBlock(h, idx, value, at)) => HasEntry(r, h, idx, Num(i)) && value == Some(r.blocks[Num(i)])
    case Busy(i, end, MustFree(h, idx, n, block)) => HasEntry(r, h, idx, n) && block == r.blocks[n]
    case _ => true
  }

  lemma Lands(s: State, t: nat)
    requires Inv(s) && t < |s.readers|
    ensures Shape(s.ring) && LandsRight(s.ring, s.readers[t])
  {
    hide Layout, Storage, ProducerOk, Counted, Filled, HasEntry, TailLands, Num;
    ReaderAt(s, t);
    var x := s.readers[t];
    if x.Busy? && (x.phase.NeedValue? || x.phase.HasBlock?) {
      LastCovered(x);
      SlotIs(s, x.phase.h, x.phase.idx, Num(x.i));
    } else if x.Busy? && x.phase.NeedKey? {
      LookupLands(s, t);
    } else if x.Busy? && x.phase.MustFree? {
      FreeFinds(s, t);
    }
  }

  lemma EveryLookupLands(junk: seq<Option<Block>>, readers: nat, events: seq<Event>, t: nat)
    requires t < readers
    ensures Shape(Run(Start(junk, readers), events).ring)
    ensures LandsRight(Run(Start(junk, readers), events).ring, Run(Start(junk, readers), events).readers[t])
  {
    Lands(Run(Start(junk, readers), events), t);
  }

  /** Every header has twice the capacity of the one before it, and so a power of two. */
  ghost predicate CapacitiesOk(r: Ring) {
    forall h :: 0 <= h < |r.headers| ==> |r.headers[h].index| == Doubled(h) && IsPower(|r.headers[h].index|)
  }

  function Doubled(h: nat): int {
    if h == 0 then INITIAL_CAPACITY else 2 * Doubled(h - 1)
  }

  lemma StepCapacities(s: State, ev: Event)
    requires Inv(s) && CapacitiesOk(s.ring)
    ensures CapacitiesOk(Step(s, ev).ring)
  {
    hide Layout, FreshEntry, Base, CountsOk, LogOk, CellsOk, Num, Rotated, Blanks, InUse, NoneFrom;
    LayoutOf(s);
    ShapeOf(s.ring);
    if Enabled(s, ev) {
      match ev
      case Read(t) => ReadHeaders(s, t);
      case _ =>
    }
  }

  lemma ReadHeaders(s: State, t: nat)
    requires Inv(s) && t < |s.readers| && s.readers[t].Busy?
    ensures ReadStep(s, t).ring.headers == s.ring.headers
  {
    hide Layout, Storage, ProducerOk, Counted, Filled, Num, Located;
    ReaderAt(s, t);
  }

  lemma {:induction false} RunCapacities(s: State, events: seq<Event>)
    requires Inv(s) && CapacitiesOk(s.ring)
    ensures CapacitiesOk(Run(s, events).ring)
    decreases |events|
  {
    if events != [] {
      StepInv(s, events[0]);
      StepCapacities(s, events[0]);
      RunCapacities(Step(s, events[0]), events[1..]);
    }
  }

  /** In every run the capacity is a power of two, so that masking with one less is the remainder. */
  lemma CapacitiesArePowers(junk: seq<Option<Block>>, readers: nat, events: seq<Event>, h: nat)
    ensures var r := Run(Start(junk, readers), events).ring;
      h < |r.headers| ==> |r.headers[h].index| == Doubled(h) && IsPower(|r.headers[h].index|)
  {
    RunCapacities(Start(junk, readers), events);
  }

  /* The counters */

  /** Of every block in use, the counter, the elements granted but not yet marked as empty and those not yet
      granted make up the block. */
  lemma CountersAreConserved(junk: seq<Option<Block>>, readers: nat, events: seq<Event>, n: int)
    ensures var s := Run(Start(junk, readers), events);
      n in s.ring.blocks ==>
        Counter(s, s.ring.blocks[n]) + Total(s.readers, n, Granted) + Left(s.head, n) == BLOCK_SIZE
  {
    var s := Run(Start(junk, readers), events);
    if n in s.ring.blocks { assert CountOk(s.ring.blocks, s.counters, s.readers, s.head, n); }
  }

  /** A counter says that its block is empty exactly when all of the block was granted and nobody is still to
      read it; and then exactly one dequeuer is to free it. */
  lemma EmptyMeansSpent(junk: seq<Option<Block>>, readers: nat, events: seq<Event>, n: int)
    ensures var s := Run(Start(junk, readers), events);
      n in s.ring.blocks ==>
        && (Counter(s, s.ring.blocks[n]) == BLOCK_SIZE <==>
            (n + 1) * BLOCK_SIZE <= s.head && forall u :: 0 <= u < readers ==> !Covers(s.readers[u], n))
        && (Counter(s, s.ring.blocks[n]) == BLOCK_SIZE <==> exists t :: 0 <= t < readers && Frees(s.readers[t], n))
  {
    var s := Run(Start(junk, readers), events);
    if n in s.ring.blocks { SpentIs(s, n); }
  }

  lemma SpentIs(s: State, n: int)
    requires Inv(s) && n in s.ring.blocks
    ensures Counter(s, s.ring.blocks[n]) == BLOCK_SIZE <==>
      (n + 1) * BLOCK_SIZE <= s.head && forall u :: 0 <= u < |s.readers| ==> !Covers(s.readers[u], n)
    ensures Counter(s, s.ring.blocks[n]) == BLOCK_SIZE <==> exists t :: 0 <= t < |s.readers| && Frees(s.readers[t], n)
  {
    hide Layout, Storage, ProducerOk, PhaseOk, Filled, Weigh, Total;
    assert CountOk(s.ring.blocks, s.counters, s.readers, s.head, n);
    forall u | 0 <= u < |s.readers|
      ensures Covers(s.readers[u], n) ==> Total(s.readers, n, Granted) > 0
      ensures !Covers(s.readers[u], n) ==> Weigh(s.readers[u], n, Granted) == 0
      ensures Frees(s.readers[u], n) ==> Total(s.readers, n, Freeing) > 0
    {
      ReaderAt(s, u);
      CoversWeighs(s.readers[u], n);
      FreesWeighs(s.readers[u], n);
      TwoOfTotal(s.readers, u, u, n, Granted);
      TwoOfTotal(s.readers, u, u, n, Freeing);
    }
    if forall u :: 0 <= u < |s.readers| ==> !Covers(s.readers[u], n) { NoneIsTotal(s.readers, n, Granted); }
    if Counter(s, s.ring.blocks[n]) == BLOCK_SIZE {
      var t := SomeoneWeighs(s.readers, n, Freeing);
      FreesWeighs(s.readers[t], n);
    }
  }

  /** While a dequeuer is to free a block, no other one has to do with it. */
  lemma FreedByOne(junk: seq<Option<Block>>, readers: nat, events: seq<Event>, t: nat, u: nat, n: int)
    requires t < readers && u < readers && t != u
    ensures var s := Run(Start(junk, readers), events);
      Frees(s.readers[t], n) ==>
        (n + 1) * BLOCK_SIZE <= s.head && !Covers(s.readers[u], n) && !Frees(s.readers[u], n)
  {
    var s := Run(Start(junk, readers), events);
    if Frees(s.readers[t], n) { FreerIsAlone(s, t, n); }
  }

  /** The assertions of set_empty and set_many_empty: what a dequeuer adds fits into the counter. */
  lemma CountersNeverOverflow(junk: seq<Option<Block>>, readers: nat, events: seq<Event>, t: nat)
    requires t < readers
    ensures var s := Run(Start(junk, readers), events); var x := s.readers[t];
      x.Busy? && x.phase.HasBlock? ==>
        && x.phase.value.Some? && Counter(s, x.phase.value.value) < BLOCK_SIZE
        && Counter(s, x.phase.value.value) + (Stop(x) - x.i) <= BLOCK_SIZE
  {
    var s := Run(Start(junk, readers), events);
    if s.readers[t].Busy? && s.readers[t].phase.HasBlock? {
      LastWeighs(s, t);
      CounterFull(s, t);
    }
  }

  /** No block is in use twice, nor to be had while it is in use. */
  lemma BlocksAreDistinct(junk: seq<Option<Block>>, readers: nat, events: seq<Event>, m: int, n: int)
    ensures var s := Run(Start(junk, readers), events);
      m in s.ring.blocks && n in s.ring.blocks ==>
        s.ring.blocks[m] !in s.pool && (s.ring.blocks[m] == s.ring.blocks[n] ==> m == n)
  {
    assert Inv(Run(Start(junk, readers), events));
  }

  /* The contents */

  /** Whatever was taken for an index is the element that was put in at that index, and no index is taken twice. */
  lemma TakenAsPutIn(junk: seq<Option<Block>>, readers: nat, events: seq<Event>, k: nat)
    ensures var s := Run(Start(junk, readers), events);
      k < |s.log| ==>
        && 0 <= s.log[k].index < s.head <= s.tail <= |s.built| && s.log[k].element == s.built[s.log[k].index]
        && forall j :: 0 <= j < |s.log| && j != k ==> s.log[j].index != s.log[k].index
  {
    var s := Run(Start(junk, readers), events);
    if k < |s.log| { TakenOnce(s, k); }
  }

  lemma TakenOnce(s: State, k: nat)
    requires Inv(s) && k < |s.log|
    ensures 0 <= s.log[k].index < s.head <= s.tail <= |s.built| && s.log[k].element == s.built[s.log[k].index]
    ensures forall j :: 0 <= j < |s.log| && j != k ==> s.log[j].index != s.log[k].index
  {
    hide Layout, Storage, Counted, CellsOk;
    HeadWithin(s);
    assert TakingOk(s, k);
    forall j | 0 <= j < |s.log| && j != k ensures s.log[j].index != s.log[k].index {
      assert TakingOk(s, j);
    }
  }

  /** Once no dequeuer is at work, every element that was granted has been taken. */
  lemma EveryElementTaken(junk: seq<Option<Block>>, readers: nat, events: seq<Event>, i: nat)
    ensures var s := Run(Start(junk, readers), events);
      (forall t :: 0 <= t < readers ==> s.readers[t].Idle?) && i < s.head ==>
        i < |s.built| && Taking(i, s.built[i]) in s.log
  {
    var s := Run(Start(junk, readers), events);
    if (forall t :: 0 <= t < readers ==> s.readers[t].Idle?) && i < s.head {
      TakenWhenIdle(s, i);
    }
  }

  lemma LogIndices(s: State)
    requires LogOk(s)
    ensures forall k :: 0 <= k < |s.log| ==> 0 <= s.log[k].index < s.head
  {
    forall k | 0 <= k < |s.log| ensures 0 <= s.log[k].index < s.head {
      assert TakingOk(s, k);
    }
  }

  lemma TakenWhenIdle(s: State, i: nat)
    requires Inv(s) && i < s.head && forall t :: 0 <= t < |s.readers| ==> s.readers[t].Idle?
    ensures i < |s.built| && Taking(i, s.built[i]) in s.log
  {
    hide Layout, Storage, Counted, CellsOk;
    HeadWithin(s);
    NoneIsTotal(s.readers, 0, Untaken);
    LogIndices(s);
    var indices := seq(|s.log|, k requires 0 <= k < |s.log| => s.log[k].index as nat);
    forall j, k | 0 <= j < k < |indices| ensures indices[j] != indices[k] {
      assert TakingOk(s, k);
    }
    AllBelow(indices, s.head, i);
    var k :| 0 <= k < |indices| && indices[k] == i;
    assert TakingOk(s, k);
    assert s.log[k] == Taking(i, s.built[i]);
  }
}
