/** The counters that say when a block is empty. A dequeuer sees only the counter of its block, never the
    other dequeuers; what the counter means is a sum over all of them. */
module BlockCounters {
  import opened BlockIndexRing
  import opened BlockIndex
  import opened BlockQueue

  /** What is summed over the dequeuers, for block `n`. */
  datatype Weight =
    | Granted    // its elements that were granted and not yet marked as empty
    | Freeing    // the dequeuers that are to free it
    | Untaken    // all elements that were granted and not yet taken

  function Max(a: int, b: int): int {
    if a < b then b else a
  }

  function Min(a: int, b: int): int {
    if a < b then a else b
  }

  /** The number of indices from `lo` up to `hi` that belong to block `n`. */
  function Overlap(lo: int, hi: int, n: int): nat {
    Max(0, Min(hi, (n + 1) * BLOCK_SIZE) - Max(lo, n * BLOCK_SIZE))
  }

  /** The next index that a dequeuer takes. */
  function NextOf(x: Reader): int
    requires x.Busy?
  {
    if x.phase.HasBlock? then x.phase.at else x.i
  }

  function Weigh(x: Reader, n: int, w: Weight): nat {
    match w
    case Granted => if x.Busy? then Overlap(x.i, x.end, n) else 0
    case Freeing => if Frees(x, n) then 1 else 0
    case Untaken => if x.Busy? then Max(0, x.end - NextOf(x)) else 0
  }

  function Total(readers: seq<Reader>, n: int, w: Weight): nat {
    if readers == [] then 0
    else Total(readers[..|readers| - 1], n, w) + Weigh(readers[|readers| - 1], n, w)
  }

  lemma {:induction false} TotalOfUpdate(readers: seq<Reader>, t: nat, x: Reader, n: int, w: Weight)
    requires t < |readers|
    ensures Total(readers[t := x], n, w) == Total(readers, n, w) - Weigh(readers[t], n, w) + Weigh(x, n, w)
  {
    hide Weigh;
    var last := |readers| - 1;
    if t < last {
      TotalOfUpdate(readers[..last], t, x, n, w);
      assert readers[t := x][..last] == readers[..last][t := x];
    } else {
      assert readers[t := x][..last] == readers[..last];
    }
  }

  lemma {:induction false} TotalOfIdle(count: nat, n: int, w: Weight)
    ensures Total(seq(count, _ => Idle), n, w) == 0
  {
    if count > 0 {
      TotalOfIdle(count - 1, n, w);
      assert seq<Reader>(count, _ => Idle)[..count - 1] == seq(count - 1, _ => Idle);
    }
  }

  /** Two dequeuers together weigh no more than all. */
  lemma {:induction false} TwoOfTotal(readers: seq<Reader>, t: nat, u: nat, n: int, w: Weight)
    requires t < |readers| && u < |readers|
    ensures Weigh(readers[t], n, w) <= Total(readers, n, w)
    ensures t != u ==> Weigh(readers[t], n, w) + Weigh(readers[u], n, w) <= Total(readers, n, w)
  {
    hide Weigh;
    var last := |readers| - 1;
    var front := readers[..last];
    if t < last && u < last {
      TwoOfTotal(front, t, u, n, w);
    } else if t < last {
      TwoOfTotal(front, t, t, n, w);
    } else if u < last {
      TwoOfTotal(front, u, u, n, w);
    }
  }

  /** If only one dequeuer weighs anything, it weighs all. */
  lemma {:induction false} OneIsTotal(readers: seq<Reader>, t: nat, n: int, w: Weight)
    requires t < |readers| && forall u :: 0 <= u < |readers| && u != t ==> Weigh(readers[u], n, w) == 0
    ensures Total(readers, n, w) == Weigh(readers[t], n, w)
  {
    hide Weigh;
    var last := |readers| - 1;
    if t < last {
      OneIsTotal(readers[..last], t, n, w);
      assert Weigh(readers[last], n, w) == 0;
    } else {
      NoneIsTotal(readers[..last], n, w);
    }
  }

  lemma {:induction false} NoneIsTotal(readers: seq<Reader>, n: int, w: Weight)
    requires forall u :: 0 <= u < |readers| ==> Weigh(readers[u], n, w) == 0
    ensures Total(readers, n, w) == 0
  {
    hide Weigh;
    if readers != [] {
      NoneIsTotal(readers[..|readers| - 1], n, w);
      assert Weigh(readers[|readers| - 1], n, w) == 0;
    }
  }

  lemma {:induction false} SomeoneWeighs(readers: seq<Reader>, n: int, w: Weight) returns (t: nat)
    requires Total(readers, n, w) > 0
    ensures t < |readers| && Weigh(readers[t], n, w) > 0
  {
    hide Weigh;
    t := |readers| - 1;
    if Weigh(readers[t], n, w) == 0 {
      t := SomeoneWeighs(readers[..t], n, w);
    }
  }

  /* What the counters count */

  /** The elements of block `n` that are not yet granted. */
  function Left(head: int, n: int): nat {
    Overlap(head, (n + 1) * BLOCK_SIZE, n)
  }

  /** The counter of a block in use, its elements that were granted and not yet marked, and those not yet
      granted make up the block; and if they are all marked, exactly one dequeuer is to free it. */
  predicate CountOk(blocks: map<int, Block>, counters: map<Block, int>, readers: seq<Reader>, head: int, n: int)
    requires n in blocks
  {
    && blocks[n] in counters
    && counters[blocks[n]] + Total(readers, n, Granted) + Left(head, n) == BLOCK_SIZE
    && Total(readers, n, Freeing) == if counters[blocks[n]] == BLOCK_SIZE then 1 else 0
  }

  ghost predicate CountsOk(blocks: map<int, Block>, counters: map<Block, int>, readers: seq<Reader>, head: int) {
    forall n :: n in blocks ==> CountOk(blocks, counters, readers, head, n)
  }

  /** No block is in use for two numbers, and none of them is to be had. */
  ghost predicate BlocksApart(blocks: map<int, Block>, pool: set<Block>) {
    && (forall m, n :: m in blocks && n in blocks && m != n ==> blocks[m] != blocks[n])
    && (forall n :: n in blocks ==> blocks[n] !in pool)
  }

  ghost predicate Counted(s: State) {
    CountsOk(s.ring.blocks, s.counters, s.readers, s.head) && BlocksApart(s.ring.blocks, s.pool)
  }

  /* What a dequeuer learns from the counter */

  /** Block `n` is empty but for what dequeuer `t` has of it: all of it was granted, and nobody else still has
      some of it or is to free it. */
  predicate Emptied(s: State, t: nat, n: int) {
    && (n + 1) * BLOCK_SIZE <= s.head
    && forall u :: 0 <= u < |s.readers| && u != t ==> !Covers(s.readers[u], n) && !Frees(s.readers[u], n)
  }

  lemma CoversWeighs(x: Reader, n: int)
    requires x.Busy? ==> x.i <= x.end
    ensures Covers(x, n) <==> Weigh(x, n, Granted) > 0
  {
  }

  lemma LastWeighs(s: State, t: nat)
    requires Sound(s) && t < |s.readers| && s.readers[t].Busy? && s.readers[t].phase.HasBlock?
    ensures var x := s.readers[t]; var n := Num(x.i);
      && n in s.ring.blocks && x.phase.value == Some(s.ring.blocks[n]) && 0 < Stop(x) - x.i == Weigh(x, n, Granted)
  {
    hide Layout, Storage, ProducerOk, Num;
    ShapeOf(s.ring);
    assert ReaderOk(s.ring, s.head, s.readers[t]);
    NumIs(s.readers[t].i, 0);
    NumIs(s.readers[t].i, Num(s.readers[t].i));
  }

  /** Adding what a dequeuer took never exceeds the block, as the source asserts, and makes it the whole block
      exactly if nobody else has to do with it any more. */
  lemma CounterFull(s: State, t: nat)
    requires Sound(s) && Counted(s)
    requires t < |s.readers| && s.readers[t].Busy? && s.readers[t].phase.HasBlock?
    ensures var x := s.readers[t]; var n := Num(x.i);
      && n in s.ring.blocks && s.ring.blocks[n] in s.counters
      && var sum := s.counters[s.ring.blocks[n]] + (Stop(x) - x.i);
      && s.counters[s.ring.blocks[n]] < BLOCK_SIZE && sum <= BLOCK_SIZE
      && (sum == BLOCK_SIZE <==> Emptied(s, t, n))
  {
    hide Layout, Storage, ProducerOk, PhaseOk, Weigh, Total;
    ShapeOf(s.ring);
    LastWeighs(s, t);
    var x := s.readers[t];
    var n := Num(x.i);
    assert CountOk(s.ring.blocks, s.counters, s.readers, s.head, n);
    TwoOfTotal(s.readers, t, t, n, Granted);
    forall u | 0 <= u < |s.readers| && u != t
      ensures Weigh(s.readers[t], n, Granted) + Weigh(s.readers[u], n, Granted) <= Total(s.readers, n, Granted)
      ensures Weigh(s.readers[u], n, Freeing) <= Total(s.readers, n, Freeing)
      ensures Covers(s.readers[u], n) <==> Weigh(s.readers[u], n, Granted) > 0
      ensures Frees(s.readers[u], n) <==> Weigh(s.readers[u], n, Freeing) > 0
    {
      TwoOfTotal(s.readers, t, u, n, Granted);
      TwoOfTotal(s.readers, u, u, n, Freeing);
      assert ReaderOk(s.ring, s.head, s.readers[u]);
      CoversWeighs(s.readers[u], n);
      FreesWeighs(s.readers[u], n);
    }
    if Emptied(s, t, n) { OneIsTotal(s.readers, t, n, Granted); }
  }

  lemma FreesWeighs(x: Reader, n: int)
    ensures Frees(x, n) <==> Weigh(x, n, Freeing) > 0
  {
  }

  /** The block that a dequeuer is to free has been marked whole; nobody else reads or frees it. */
  lemma FreerIsAlone(s: State, t: nat, n: int)
    requires Sound(s) && Counted(s) && t < |s.readers| && Frees(s.readers[t], n)
    ensures n in s.ring.blocks && Emptied(s, t, n) && Counter(s, s.ring.blocks[n]) == BLOCK_SIZE
  {
    hide Layout, Storage, ProducerOk, Weigh, Total;
    ShapeOf(s.ring);
    assert ReaderOk(s.ring, s.head, s.readers[t]);
    assert CountOk(s.ring.blocks, s.counters, s.readers, s.head, n);
    FreesWeighs(s.readers[t], n);
    TwoOfTotal(s.readers, t, t, n, Freeing);
    forall u | 0 <= u < |s.readers| && u != t ensures !Covers(s.readers[u], n) && !Frees(s.readers[u], n) {
      assert ReaderOk(s.ring, s.head, s.readers[u]);
      TwoOfTotal(s.readers, u, u, n, Granted);
      TwoOfTotal(s.readers, t, u, n, Freeing);
      CoversWeighs(s.readers[u], n);
      FreesWeighs(s.readers[u], n);
    }
  }

  /* Every transition keeps the counts */

  /** A dequeuer whose indices and block to free stay the same weighs the same. */
  lemma SameWeights(blocks: map<int, Block>, counters: map<Block, int>, readers: seq<Reader>, head: int,
                    t: nat, x: Reader)
    requires CountsOk(blocks, counters, readers, head) && t < |readers|
    requires forall n :: n in blocks ==>
      Weigh(x, n, Granted) == Weigh(readers[t], n, Granted) && Weigh(x, n, Freeing) == Weigh(readers[t], n, Freeing)
    ensures CountsOk(blocks, counters, readers[t := x], head)
  {
    hide Weigh, Total;
    forall n | n in blocks ensures CountOk(blocks, counters, readers[t := x], head, n) {
      assert CountOk(blocks, counters, readers, head, n);
      TotalOfUpdate(readers, t, x, n, Granted);
      TotalOfUpdate(readers, t, x, n, Freeing);
    }
  }

  lemma TailedIs(s: State)
    requires Sound(s) && s.producer.Tailed?
    ensures s.ring.next - 1 == Published(s.tail) + s.inserted && s.inserted >= 0
  {
    hide Layout, Storage, ReadersOk, Published;
  }

  /** Nothing of a block behind the published ones is granted. */
  lemma NotYetGranted(s: State, k: int)
    requires Sound(s) && k >= Published(s.tail)
    ensures Left(s.head, k) == BLOCK_SIZE
  {
    hide Layout, Storage, ReadersOk, Num, Published;
    PublishedIs(s.tail, k);
    HeadBelow(s);
  }

  lemma StoreValueCounted(s: State, block: Block)
    requires Sound(s) && Counted(s) && Enabled(s, StoreValue(block))
    ensures Counted(Step(s, StoreValue(block)))
  {
    hide Layout, Storage, Weigh, Total, PhaseOk, Num, Published, Base, Left;
    var q, k := Step(s, StoreValue(block)), s.ring.next - 1;
    TailedIs(s);
    NotYetGranted(s, k);
    forall n | n in q.ring.blocks ensures CountOk(q.ring.blocks, q.counters, q.readers, q.head, n) {
      if n == k {
        forall u | 0 <= u < |s.readers|
          ensures Weigh(s.readers[u], k, Granted) == 0 && Weigh(s.readers[u], k, Freeing) == 0
        {
          NotYetRead(s, u, k);
        }
        NoneIsTotal(s.readers, k, Granted);
        NoneIsTotal(s.readers, k, Freeing);
      } else {
        assert CountOk(s.ring.blocks, s.counters, s.readers, s.head, n);
      }
    }
  }

  /** Nobody has to do with a block behind the published ones. */
  lemma NotYetRead(s: State, u: nat, k: int)
    requires Sound(s) && u < |s.readers| && k >= Published(s.tail)
    ensures !Covers(s.readers[u], k) && !Frees(s.readers[u], k)
    ensures Weigh(s.readers[u], k, Granted) == 0 && Weigh(s.readers[u], k, Freeing) == 0
  {
    hide Layout, Storage, Num, Published;
    ShapeOf(s.ring);
    assert ReaderOk(s.ring, s.head, s.readers[u]);
    PublishedIs(s.tail, k);
    HeadBelow(s);
    CoversWeighs(s.readers[u], k);
  }

  lemma HeadBelow(s: State)
    requires Sound(s)
    ensures 0 <= s.head <= s.tail && Published(s.tail) <= s.ring.next
  {
    hide Layout, Storage, ReadersOk, Published;
  }

  lemma GrantCounted(s: State, t: nat, count: int)
    requires Sound(s) && Counted(s) && Enabled(s, Grant(t, count))
    ensures Counted(Step(s, Grant(t, count)))
  {
    hide Layout, Storage, Total, PhaseOk, Step;
    var q, x := Step(s, Grant(t, count)), Busy(s.head, s.head + count, NeedHeader);
    GrantIs(s, t, count);
    forall n | n in q.ring.blocks ensures CountOk(q.ring.blocks, q.counters, q.readers, q.head, n) {
      assert CountOk(s.ring.blocks, s.counters, s.readers, s.head, n);
      TotalOfUpdate(s.readers, t, x, n, Granted);
      TotalOfUpdate(s.readers, t, x, n, Freeing);
    }
  }

  lemma GrantIs(s: State, t: nat, count: int)
    requires Sound(s) && Enabled(s, Grant(t, count))
    ensures t < |s.readers| && s.readers[t].Idle? && count > 0
    ensures Step(s, Grant(t, count)) ==
      s.(head := s.head + count, readers := s.readers[t := Busy(s.head, s.head + count, NeedHeader)])
  {
  }

  lemma MarkedCounted(s: State, t: nat)
    requires Sound(s) && Counted(s) && t < |s.readers| && s.readers[t].Busy? && s.readers[t].phase.HasBlock?
    ensures Counted(Marked(s, t))
  {
    hide Layout, Storage, ProducerOk, PhaseOk, Total, Num, Overlap, Left;
    ShapeOf(s.ring);
    LastWeighs(s, t);
    CounterFull(s, t);
    var q, x := Marked(s, t), s.readers[t];
    var y, k := q.readers[t], Num(x.i);
    assert ReaderOk(s.ring, s.head, x);
    forall n | n in q.ring.blocks ensures CountOk(q.ring.blocks, q.counters, q.readers, q.head, n) {
      assert CountOk(s.ring.blocks, s.counters, s.readers, s.head, n);
      OverlapMarked(x, n);
      TotalOfUpdate(s.readers, t, y, n, Granted);
      TotalOfUpdate(s.readers, t, y, n, Freeing);
    }
  }

  /** What a dequeuer marks is what it had of its block. */
  lemma OverlapMarked(x: Reader, n: int)
    requires x.Busy? && x.i < x.end
    ensures Overlap(x.i, x.end, n) == Overlap(Stop(x), x.end, n) + (if n == Num(x.i) then Stop(x) - x.i else 0)
    ensures Overlap(x.end, x.end, n) == 0
  {
    hide Num;
    NumIs(x.i, n);
    NumIs(x.i, n - 1);
    Products(n, Num(x.i));
    Products(Num(x.i), n);
  }

  lemma MustFreeCounted(s: State, t: nat)
    requires Sound(s) && Counted(s) && t < |s.readers| && s.readers[t].Busy? && s.readers[t].phase.MustFree?
    ensures Counted(ReadStep(s, t))
  {
    hide Layout, Storage, ProducerOk, Total;
    ShapeOf(s.ring);
    var q, x := ReadStep(s, t), s.readers[t];
    assert ReaderOk(s.ring, s.head, x);
    forall n | n in q.ring.blocks ensures CountOk(q.ring.blocks, q.counters, q.readers, q.head, n) {
      assert CountOk(s.ring.blocks, s.counters, s.readers, s.head, n);
      TotalOfUpdate(s.readers, t, q.readers[t], n, Granted);
      TotalOfUpdate(s.readers, t, q.readers[t], n, Freeing);
    }
  }

  lemma ReadCounted(s: State, t: nat)
    requires Sound(s) && Counted(s) && t < |s.readers| && s.readers[t].Busy?
    ensures Counted(ReadStep(s, t))
  {
    hide Layout, Storage, ProducerOk, Total;
    ShapeOf(s.ring);
    assert ReaderOk(s.ring, s.head, s.readers[t]);
    if s.readers[t].phase.HasBlock? && s.readers[t].phase.at == Stop(s.readers[t]) {
      MarkedCounted(s, t);
    } else if s.readers[t].phase.MustFree? {
      MustFreeCounted(s, t);
    } else {
      SameWeights(s.ring.blocks, s.counters, s.readers, s.head, t, ReadStep(s, t).readers[t]);
    }
  }

  /** The steps of the producer that do not store a block. */
  lemma OtherCounted(s: State, ev: Event)
    requires Sound(s) && Counted(s) && Enabled(s, ev) && !ev.StoreValue? && !ev.Grant? && !ev.Read?
    ensures Counted(Step(s, ev))
  {
    hide Layout, Storage, Total, PhaseOk, Left, Num, Published, Base, Looked;
    var q := Step(s, ev);
    if ev.UndoValue? { NumIs(s.producer.k * BLOCK_SIZE, s.producer.k); }
    forall n | n in q.ring.blocks ensures CountOk(q.ring.blocks, q.counters, q.readers, q.head, n) {
      assert CountOk(s.ring.blocks, s.counters, s.readers, s.head, n);
    }
  }

  lemma StepCounted(s: State, ev: Event)
    requires Sound(s) && Counted(s)
    ensures Counted(Step(s, ev))
  {
    hide Counted, Sound, ReadStep;
    LayoutOf(s);
    if Enabled(s, ev) {
      match ev
      case StoreValue(block) => StoreValueCounted(s, block);
      case Grant(t, count) => GrantCounted(s, t, count);
      case Read(t) => ReadCounted(s, t);
      case _ => OtherCounted(s, ev);
    }
  }

  lemma LayoutOf(s: State)
    requires Sound(s)
    ensures Layout(s.ring)
  {
  }
}
