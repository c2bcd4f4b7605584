/** The ticket counters and the blocks of an implicit sub-queue together: the producer publishes to both, and
    what a consumer's ticket lets it add to headIndex is what it is granted of the blocks. */
module QueueRuns {
  import Tickets = DequeueTickets
  import Blocks = BlockQueue
  import Index = BlockIndex
  import Contents = BlockContents
  import BlockRuns

  datatype State = State(tickets: Tickets.State, blocks: Blocks.State)

  /** An operation of the ticket protocol, or one of the producer or a dequeuer on the blocks. */
  datatype Event = Ticket(ticket: Tickets.Event) | Block(block: Blocks.Event)

  /** The two halves agree, and a thread draws a ticket only when it is done with the blocks of the last. */
  ghost predicate Inv(s: State) {
    && Tickets.Inv(s.tickets) && BlockRuns.Inv(s.blocks)
    && s.tickets.head == s.blocks.head && s.tickets.tail == s.blocks.tail
    && |s.tickets.consumers| == |s.blocks.readers|
    && forall t :: 0 <= t < |s.blocks.readers| ==> OneAtATime(s, t)
  }

  predicate OneAtATime(s: State, t: nat)
    requires t < |s.blocks.readers| == |s.tickets.consumers|
  {
    s.blocks.readers[t].Busy? ==> s.tickets.consumers[t].Idle?
  }

  function Step(s: State, ev: Event): State
    requires Inv(s)
  {
    match ev
    case Ticket(e) =>
      if e.Publish? || (e.Begin? && e.t < |s.blocks.readers| && s.blocks.readers[e.t].Busy?) then s else
      s.(tickets := Tickets.Step(s.tickets, e),
         blocks := if Claims(s, e) then Blocks.Step(s.blocks, GrantOf(s, e)) else s.blocks)
    case Block(e) =>
      if e.Grant? then s else
      var blocks := Blocks.Step(s.blocks, e);
      s.(blocks := blocks, tickets := Published(s.tickets, blocks.tail - s.tickets.tail))
  }

  /** The producer's store to tailIndex, if it made one. */
  function Published(tickets: Tickets.State, count: int): Tickets.State {
    if count > 0 then Tickets.Step(tickets, Tickets.Publish(count)) else tickets
  }

  /** The consumer adds its grant to headIndex, and there is something to it. */
  predicate Claims(s: State, e: Tickets.Event)
    requires Inv(s)
  {
    && e.Continue? && e.t < |s.tickets.consumers| && s.tickets.consumers[e.t].Claiming?
    && s.tickets.consumers[e.t].k < |s.tickets.tickets| && s.tickets.tickets[s.tickets.consumers[e.t].k].grant > 0
  }

  function GrantOf(s: State, e: Tickets.Event): Blocks.Event
    requires Inv(s) && Claims(s, e)
  {
    Blocks.Grant(e.t, s.tickets.tickets[s.tickets.consumers[e.t].k].grant)
  }

  /** A claim is always granted: the guard on the blocks is what the ticket protocol guarantees. */
  lemma ClaimIsGranted(s: State, e: Tickets.Event)
    requires Inv(s) && Claims(s, e)
    ensures Blocks.Sound(s.blocks)
    ensures e.t < |s.blocks.readers| && s.blocks.readers[e.t].Idle?
    ensures s.blocks.head + GrantOf(s, e).count <= s.blocks.tail
    ensures var q := Step(s, Ticket(e));
      && q.blocks == s.blocks.(
           head := s.blocks.head + GrantOf(s, e).count,
           readers := s.blocks.readers[e.t := Blocks.Busy(s.blocks.head, s.blocks.head + GrantOf(s, e).count,
                                                          Blocks.NeedHeader)])
      && q.tickets.head == q.blocks.head
  {
    hide Tickets.Inv, Index.Layout, Index.Storage, Blocks.ProducerOk, Blocks.ReadersOk;
    Tickets.ClaimFits(s.tickets, e.t);
    assert OneAtATime(s, e.t);
  }

  /** The operations on the blocks other than a grant. */
  lemma BlockStepKeeps(s: Blocks.State, e: Blocks.Event)
    requires BlockRuns.Inv(s) && !e.Grant?
    ensures var q := Blocks.Step(s, e);
      && q.head == s.head && q.tail >= s.tail && |q.readers| == |s.readers|
      && forall t :: 0 <= t < |s.readers| && q.readers[t].Busy? ==> s.readers[t].Busy?
  {
    hide Index.Layout, Index.Storage, Blocks.ProducerOk, Blocks.ReadersOk, Blocks.ReadStep, Index.KeyStored;
    Contents.HeadWithin(s);
    if e.Read? && e.t < |s.readers| && s.readers[e.t].Busy? { Contents.ReadKeeps(s, e.t); }
  }

  /** The operations of the ticket protocol other than a store to tailIndex. */
  lemma TicketStepKeeps(s: Tickets.State, e: Tickets.Event)
    requires Tickets.Inv(s) && !e.Publish?
    ensures var q := Tickets.Step(s, e);
      && q.tail == s.tail && |q.consumers| == |s.consumers|
      && (forall t :: 0 <= t < |s.consumers| && t != e.t ==> q.consumers[t] == s.consumers[t])
      && (e.t < |s.consumers| && s.consumers[e.t].Idle? && e.Continue? ==> q.consumers[e.t].Idle?)
      && (!(e.Continue? && e.t < |s.consumers| && s.consumers[e.t].Claiming?) ==> q.head == s.head)
  {
  }

  lemma StepTicketInv(s: State, e: Tickets.Event)
    requires Inv(s)
    ensures Inv(Step(s, Ticket(e)))
  {
    hide Tickets.Inv, BlockRuns.Inv, Tickets.Step, Blocks.Step;
    var q := Step(s, Ticket(e));
    SoundOf(s);
    if q != s {
      Tickets.StepInv(s.tickets, e);
      TicketStepKeeps(s.tickets, e);
      if Claims(s, e) {
        BlockRuns.StepInv(s.blocks, GrantOf(s, e));
        ClaimIsGranted(s, e);
        ClaimDone(s.tickets, e.t);
      } else if e.Continue? && e.t < |s.tickets.consumers| && s.tickets.consumers[e.t].Claiming? {
        ClaimDone(s.tickets, e.t);
      }
      forall t | 0 <= t < |q.blocks.readers| ensures OneAtATime(q, t) {
        assert OneAtATime(s, t);
      }
    }
  }

  lemma SoundOf(s: State)
    requires Inv(s)
    ensures Blocks.Sound(s.blocks)
  {
  }

  lemma ClaimDone(s: Tickets.State, t: nat)
    requires Tickets.Inv(s) && t < |s.consumers| && s.consumers[t].Claiming?
    ensures var q := Tickets.Step(s, Tickets.Continue(t)); var k := s.consumers[t].k;
      k < |s.tickets| && q.head == s.head + s.tickets[k].grant && q.consumers == s.consumers[t := Tickets.Idle]
  {
    assert Tickets.ConsumerInv(s, t);
  }

  lemma StepBlockInv(s: State, e: Blocks.Event)
    requires Inv(s)
    ensures Inv(Step(s, Block(e)))
  {
    hide Tickets.Inv, BlockRuns.Inv, Blocks.Step;
    var q := Step(s, Block(e));
    if !e.Grant? {
      SoundOf(s);
      BlockRuns.StepInv(s.blocks, e);
      BlockStepKeeps(s.blocks, e);
      var count := q.blocks.tail - s.tickets.tail;
      if count > 0 { Tickets.StepInv(s.tickets, Tickets.Publish(count)); }
      forall t | 0 <= t < |q.blocks.readers| ensures OneAtATime(q, t) {
        assert OneAtATime(s, t);
      }
    }
  }

  function Start(junk: seq<Index.Option<Index.Block>>, threads: nat): (s: State)
    ensures Inv(s)
  {
    Tickets.InitInv(threads);
    State(Tickets.Init(threads), BlockRuns.Start(junk, threads))
  }

  function Run(s: State, events: seq<Event>): (q: State)
    requires Inv(s)
    ensures Inv(q)
    decreases |events|
  {
    if events == [] then s else
    StepInv(s, events[0]);
    Run(Step(s, events[0]), events[1..])
  }

  lemma StepInv(s: State, ev: Event)
    requires Inv(s)
    ensures Inv(Step(s, ev))
  {
    match ev
    case Ticket(e) => StepTicketInv(s, e);
    case Block(e) => StepBlockInv(s, e);
  }

  /** In every run of any number of consumers with the producer, what was taken for an index is what was put in
      there, below tailIndex and once; and when nobody is at work, all that was added to headIndex was taken. */
  lemma QueueDelivers(junk: seq<Index.Option<Index.Block>>, threads: nat, events: seq<Event>, i: nat)
    ensures var s := Run(Start(junk, threads), events).blocks;
      && s.head <= s.tail <= |s.built|
      && (forall k :: 0 <= k < |s.log| && s.log[k].index == i ==>
            && i < s.head && s.log[k].element == s.built[i]
            && forall j :: 0 <= j < |s.log| && j != k ==> s.log[j].index != i)
      && ((forall t :: 0 <= t < |s.readers| ==> s.readers[t].Idle?) && i < s.head ==>
            Blocks.Taking(i, s.built[i]) in s.log)
  {
    hide Index.Layout, Index.Storage, Blocks.ProducerOk, Blocks.ReadersOk, Tickets.Inv;
    var s := Run(Start(junk, threads), events).blocks;
    Contents.HeadWithin(s);
    forall k | 0 <= k < |s.log| && s.log[k].index == i
      ensures i < s.head && s.log[k].element == s.built[i]
      ensures forall j :: 0 <= j < |s.log| && j != k ==> s.log[j].index != i
    {
      BlockRuns.TakenOnce(s, k);
    }
    if (forall t :: 0 <= t < |s.readers| ==> s.readers[t].Idle?) && i < s.head { BlockRuns.TakenWhenIdle(s, i); }
  }
}
