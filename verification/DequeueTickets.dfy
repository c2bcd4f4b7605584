/** The ticket counters that let any number of consumers dequeue from one sub-queue.

    Every transition below is one atomic operation of `dequeue` or `dequeue_bulk`, so a sequence of
    events is an interleaving of any number of consumers with the producer. A single `dequeue` is the
    bulk form with `max == 1`: its tests `optimistic - overcommit < tail` and
    `ticket - overcommit < tail` are the bulk tests `desired > 0` and `actual > 0`. */
module DequeueTickets {

  /** Where a consumer stands between two atomic operations, with its local variables. */
  datatype Pc =
    | Idle
    | GotTail(max: nat, tail: nat)
    | GotOvercommit(max: nat, tail: nat, seen: nat)
    | Ready(want: nat, seen: nat)
    | Ticketed(k: nat)
    | Returning(k: nat)  // about to add the part that was not granted to dequeueOvercommit
    | Claiming(k: nat)   // about to add the grant to headIndex

  /** History of one `fetch_add` on dequeueOptimisticCount. `taken` and `returned` are what its owner
      has added to headIndex and dequeueOvercommit so far. */
  datatype Ticket = Ticket(
    owner: nat, number: nat, want: nat, seen: nat,
    decided: bool, grant: nat, taken: nat, returned: nat)

  /** A contiguous run of indices one consumer received from headIndex. */
  datatype Claim = Claim(first: nat, count: nat) {
    predicate Has(index: nat) { first <= index < first + count }
  }

  predicate Claimed(claims: seq<Claim>, index: nat) {
    exists i :: 0 <= i < |claims| && claims[i].Has(index)
  }

  /** The four shared counters, the consumers, and two history variables. */
  datatype State = State(
    tail: nat, head: nat, optimistic: nat, overcommit: nat,
    consumers: seq<Pc>, tickets: seq<Ticket>, claims: seq<Claim>)

  datatype Event =
    | Publish(count: nat)         // the producer's store to tailIndex
    | Begin(t: nat, max: nat)     // consumer t enters a dequeue and loads tailIndex
    | Continue(t: nat)            // consumer t performs its next atomic operation

  function Init(consumers: nat): State {
    State(0, 0, 0, 0, seq(consumers, _ => Idle), [], [])
  }

  function Min(a: int, b: int): int {
    if a < b then a else b
  }

  /** The decision taken after reloading tailIndex: how much of the request is covered. */
  function Decide(ticket: Ticket, tail: nat): Ticket {
    var actual := tail - (ticket.number - ticket.seen);
    if actual > 0
    then ticket.(decided := true, grant := Min(ticket.want, actual))
    else ticket.(decided := true, grant := 0)
  }

  function Step(s: State, e: Event): State {
    match e
    case Publish(count) => s.(tail := s.tail + count)
    case Begin(t, max) =>
      if t < |s.consumers| && s.consumers[t].Idle?
      then s.(consumers := s.consumers[t := GotTail(max, s.tail)])
      else s
    case Continue(t) =>
      if t >= |s.consumers| then s else
      match s.consumers[t]
      case Idle => s
      case GotTail(max, tail) =>
        s.(consumers := s.consumers[t := GotOvercommit(max, tail, s.overcommit)])
      case GotOvercommit(max, tail, seen) =>
        var desired := tail - (s.optimistic - seen);
        s.(consumers := s.consumers[t := if desired > 0 then Ready(Min(desired, max), seen) else Idle])
      case Ready(want, seen) =>
        s.(optimistic := s.optimistic + want,
           tickets := s.tickets + [Ticket(t, s.optimistic, want, seen, false, 0, 0, 0)],
           consumers := s.consumers[t := Ticketed(|s.tickets|)])
      case Ticketed(k) =>
        if k >= |s.tickets| then s else
        var ticket := Decide(s.tickets[k], s.tail);
        var denied := s.tail - (ticket.number - ticket.seen) <= 0;
        s.(tickets := s.tickets[k := ticket],
           consumers := s.consumers[t := if denied || ticket.grant < ticket.want then Returning(k) else Claiming(k)])
      case Returning(k) =>
        if k >= |s.tickets| then s else
        var ticket := s.tickets[k];
        if ticket.grant > ticket.want then s else
        var rest := ticket.want - ticket.grant;
        s.(overcommit := s.overcommit + rest,
           tickets := s.tickets[k := ticket.(returned := rest)],
           consumers := s.consumers[t := if ticket.grant > 0 then Claiming(k) else Idle])
      case Claiming(k) =>
        if k >= |s.tickets| then s else
        var ticket := s.tickets[k];
        s.(head := s.head + ticket.grant,
           tickets := s.tickets[k := ticket.(taken := ticket.grant)],
           claims := s.claims + [Claim(s.head, ticket.grant)],
           consumers := s.consumers[t := Idle])
  }

  function Run(s: State, events: seq<Event>): State
    decreases |events|
  {
    if events == [] then s else Run(Step(s, events[0]), events[1..])
  }

  /* Sums over the ticket history */

  datatype Field = Want | Grant | Taken | Returned

  function Value(ticket: Ticket, f: Field): nat {
    match f
    case Want => ticket.want
    case Grant => ticket.grant
    case Taken => ticket.taken
    case Returned => ticket.returned
  }

  /** The sum of field `f` over the first `n` tickets. */
  function Sum(tickets: seq<Ticket>, n: nat, f: Field): nat
    requires n <= |tickets|
  {
    if n == 0 then 0 else Sum(tickets, n - 1, f) + Value(tickets[n - 1], f)
  }

  lemma {:induction false} SumOfUpdate(tickets: seq<Ticket>, k: nat, ticket: Ticket, n: nat, f: Field)
    requires k < |tickets| && n <= |tickets|
    ensures Sum(tickets[k := ticket], n, f)
         == Sum(tickets, n, f) + (if k < n then Value(ticket, f) - Value(tickets[k], f) else 0)
  {
    if n > 0 {
      SumOfUpdate(tickets, k, ticket, n - 1, f);
    }
  }

  lemma {:induction false} SumOfAppend(tickets: seq<Ticket>, ticket: Ticket, n: nat, f: Field)
    requires n <= |tickets|
    ensures Sum(tickets + [ticket], n, f) == Sum(tickets, n, f)
  {
    if n > 0 {
      SumOfAppend(tickets, ticket, n - 1, f);
    }
  }

  lemma {:induction false} SumOfSum(tickets: seq<Ticket>, n: nat)
    requires n <= |tickets|
    requires forall k :: 0 <= k < n ==> tickets[k].grant + tickets[k].returned <= tickets[k].want
    ensures Sum(tickets, n, Grant) + Sum(tickets, n, Returned) <= Sum(tickets, n, Want)
  {
    if n > 0 {
      SumOfSum(tickets, n - 1);
    }
  }

  /* The invariant */

  ghost predicate TicketInv(s: State, k: nat)
    requires k < |s.tickets|
  {
    var ticket := s.tickets[k];
    && ticket.number == Sum(s.tickets, k, Want)
    && ticket.seen <= Sum(s.tickets, k, Returned)
    && ticket.grant <= ticket.want
    && ticket.taken <= ticket.grant
    && ticket.returned <= ticket.want - ticket.grant
    && (!ticket.decided ==> ticket.grant == 0 && ticket.returned == 0)
    && (ticket.grant > 0 ==> ticket.number - ticket.seen + ticket.grant <= s.tail)
    && (ticket.taken + ticket.returned < ticket.want ==>
          ticket.owner < |s.consumers| && Holds(s.consumers[ticket.owner], k))
  }

  /** Consumer program point `pc` is past the ticket `k` and has not finished with it. */
  predicate Holds(pc: Pc, k: nat) {
    (pc.Ticketed? || pc.Returning? || pc.Claiming?) && pc.k == k
  }

  ghost predicate ConsumerInv(s: State, t: nat)
    requires t < |s.consumers|
  {
    match s.consumers[t]
    case Idle => true
    case GotTail(_, tail) => tail <= s.tail
    case GotOvercommit(_, tail, seen) => tail <= s.tail && seen <= s.overcommit
    case Ready(_, seen) => seen <= s.overcommit
    case Ticketed(k) =>
      && k < |s.tickets| && s.tickets[k].owner == t
      && !s.tickets[k].decided && s.tickets[k].taken == 0
    case Returning(k) =>
      && k < |s.tickets| && s.tickets[k].owner == t
      && s.tickets[k].decided && s.tickets[k].taken == 0 && s.tickets[k].returned == 0
    case Claiming(k) =>
      && k < |s.tickets| && s.tickets[k].owner == t && s.tickets[k].decided && s.tickets[k].taken == 0
      && s.tickets[k].returned == s.tickets[k].want - s.tickets[k].grant
  }

  /** The claims are handed out back to back, from index 0 up to headIndex. */
  ghost predicate ClaimsTile(claims: seq<Claim>, head: nat) {
    if claims == [] then head == 0 else
    var last := claims[|claims| - 1];
    last.first + last.count == head && ClaimsTile(claims[..|claims| - 1], last.first)
  }

  ghost predicate Inv(s: State) {
    && s.optimistic == Sum(s.tickets, |s.tickets|, Want)
    && s.overcommit == Sum(s.tickets, |s.tickets|, Returned)
    && s.head == Sum(s.tickets, |s.tickets|, Taken)
    && (forall k :: 0 <= k < |s.tickets| ==> TicketInv(s, k))
    && (forall t :: 0 <= t < |s.consumers| ==> ConsumerInv(s, t))
    && ClaimsTile(s.claims, s.head)
  }

  lemma InitInv(consumers: nat)
    ensures Inv(Init(consumers))
  {
  }

  /** Appending a ticket, and rewriting ticket `k`, seen through every prefix sum at once. */
  lemma SumsAfterAppend(tickets: seq<Ticket>, ticket: Ticket)
    ensures forall n, f :: 0 <= n <= |tickets| ==> Sum(tickets + [ticket], n, f) == Sum(tickets, n, f)
  {
    forall n: nat, f | n <= |tickets| ensures Sum(tickets + [ticket], n, f) == Sum(tickets, n, f) {
      SumOfAppend(tickets, ticket, n, f);
    }
  }

  lemma SumsAfterUpdate(tickets: seq<Ticket>, k: nat, ticket: Ticket)
    requires k < |tickets|
    ensures forall n, f | 0 <= n <= |tickets| :: Sum(tickets[k := ticket], n, f)
              == Sum(tickets, n, f) + (if k < n then Value(ticket, f) - Value(tickets[k], f) else 0)
  {
    forall n: nat, f | n <= |tickets|
      ensures Sum(tickets[k := ticket], n, f)
           == Sum(tickets, n, f) + (if k < n then Value(ticket, f) - Value(tickets[k], f) else 0)
    {
      SumOfUpdate(tickets, k, ticket, n, f);
    }
  }

  /** Everything granted before ticket `k` fits in `number - seen`: whatever overcommit the ticket saw
      was returned by earlier tickets, which therefore were granted that much less. */
  lemma GrantsBefore(s: State, k: nat)
    requires Inv(s) && k < |s.tickets|
    ensures Sum(s.tickets, k, Grant) <= s.tickets[k].number - s.tickets[k].seen
  {
    assert TicketInv(s, k);
    forall j | 0 <= j < k ensures s.tickets[j].grant + s.tickets[j].returned <= s.tickets[j].want {
      assert TicketInv(s, j);
    }
    SumOfSum(s.tickets, k);
  }

  /** Looking at the granted ticket with the largest number bounds all grants by tailIndex. */
  lemma {:induction false} GrantsPublished(s: State, n: nat)
    requires Inv(s) && n <= |s.tickets|
    ensures Sum(s.tickets, n, Grant) <= s.tail
  {
    if n > 0 {
      assert TicketInv(s, n - 1);
      if s.tickets[n - 1].grant == 0 {
        GrantsPublished(s, n - 1);
      } else {
        GrantsBefore(s, n - 1);
      }
    }
  }

  lemma StepTicket(s: State, t: nat)
    requires Inv(s) && t < |s.consumers| && s.consumers[t].Ready?
    ensures Inv(Step(s, Continue(t)))
  {
    var s' := Step(s, Continue(t));
    assert ConsumerInv(s, t);
    SumsAfterAppend(s.tickets, s'.tickets[|s.tickets|]);
    forall k | 0 <= k < |s'.tickets| ensures TicketInv(s', k) {
      assert k < |s.tickets| ==> TicketInv(s, k);
    }
    forall u | 0 <= u < |s'.consumers| ensures ConsumerInv(s', u) {
      assert ConsumerInv(s, u);
    }
  }

  lemma StepDecide(s: State, t: nat)
    requires Inv(s) && t < |s.consumers| && s.consumers[t].Ticketed?
    ensures Inv(Step(s, Continue(t)))
  {
    hide Sum;
    var s' := Step(s, Continue(t));
    assert ConsumerInv(s, t);
    var k := s.consumers[t].k;
    assert TicketInv(s, k);
    SumsAfterUpdate(s.tickets, k, s'.tickets[k]);
    forall j | 0 <= j < |s'.tickets| ensures TicketInv(s', j) {
      assert TicketInv(s, j);
    }
    forall u | 0 <= u < |s'.consumers| ensures ConsumerInv(s', u) {
      assert ConsumerInv(s, u);
    }
  }

  lemma StepSettle(s: State, t: nat)
    requires Inv(s) && t < |s.consumers| && (s.consumers[t].Returning? || s.consumers[t].Claiming?)
    ensures Inv(Step(s, Continue(t)))
  {
    hide Sum;
    var s' := Step(s, Continue(t));
    assert ConsumerInv(s, t);
    var k := s.consumers[t].k;
    assert TicketInv(s, k);
    SumsAfterUpdate(s.tickets, k, s'.tickets[k]);
    forall j | 0 <= j < |s'.tickets| ensures TicketInv(s', j) {
      assert TicketInv(s, j);
    }
    forall u | 0 <= u < |s'.consumers| ensures ConsumerInv(s', u) {
      assert ConsumerInv(s, u);
    }
    if s'.claims != s.claims {
      assert s'.claims[..|s'.claims| - 1] == s.claims;
    }
  }

  lemma StepInv(s: State, e: Event)
    requires Inv(s)
    ensures Inv(Step(s, e))
  {
    var s' := Step(s, e);
    if e.Continue? && e.t < |s.consumers| && s.consumers[e.t].Ready? {
      StepTicket(s, e.t);
    } else if e.Continue? && e.t < |s.consumers| && s.consumers[e.t].Ticketed? {
      StepDecide(s, e.t);
    } else if e.Continue? && e.t < |s.consumers| && (s.consumers[e.t].Returning? || s.consumers[e.t].Claiming?) {
      StepSettle(s, e.t);
    } else {
      forall k | 0 <= k < |s'.tickets| ensures TicketInv(s', k) {
        assert TicketInv(s, k);
      }
      forall u | 0 <= u < |s'.consumers| ensures ConsumerInv(s', u) {
        assert ConsumerInv(s, u);
      }
    }
  }

  lemma {:induction false} RunInv(s: State, events: seq<Event>)
    requires Inv(s)
    ensures Inv(Run(s, events))
    decreases |events|
  {
    if events != [] {
      StepInv(s, events[0]);
      RunInv(Step(s, events[0]), events[1..]);
    }
  }

  /* What the invariant means for callers */

  lemma {:induction false} TakenBesides(s: State, n: nat, k: nat)
    requires Inv(s) && k < n <= |s.tickets| && s.tickets[k].taken == 0
    ensures Sum(s.tickets, n, Taken) + s.tickets[k].grant <= Sum(s.tickets, n, Grant)
  {
    assert TicketInv(s, n - 1);
    if k < n - 1 {
      TakenBesides(s, n - 1, k);
    } else {
      TakenWithinGrants(s, n - 1);
    }
  }

  /** What a consumer is about to add to headIndex fits below tailIndex. */
  lemma ClaimFits(s: State, t: nat)
    requires Inv(s) && t < |s.consumers| && s.consumers[t].Claiming?
    ensures var k := s.consumers[t].k; k < |s.tickets| && s.head + s.tickets[k].grant <= s.tail
  {
    assert ConsumerInv(s, t);
    TakenBesides(s, |s.tickets|, s.consumers[t].k);
    GrantsPublished(s, |s.tickets|);
  }

  /** Granted but not yet added to headIndex, summed over the consumers. */
  function PendingGrants(s: State): int {
    Sum(s.tickets, |s.tickets|, Grant) - Sum(s.tickets, |s.tickets|, Taken)
  }

  predicate Quiescent(s: State) {
    forall t :: 0 <= t < |s.consumers| ==> s.consumers[t].Idle?
  }

  /** In every reachable state headIndex plus all pending claims stays within tailIndex. */
  lemma NeverPastTail(consumers: nat, events: seq<Event>)
    ensures var s := Run(Init(consumers), events);
            s.head + PendingGrants(s) <= s.tail && s.head <= s.tail
  {
    var s := Run(Init(consumers), events);
    InitInv(consumers);
    RunInv(Init(consumers), events);
    GrantsPublished(s, |s.tickets|);
    TakenWithinGrants(s, |s.tickets|);
  }

  lemma {:induction false} TakenWithinGrants(s: State, n: nat)
    requires Inv(s) && n <= |s.tickets|
    ensures Sum(s.tickets, n, Taken) <= Sum(s.tickets, n, Grant)
  {
    if n > 0 {
      assert TicketInv(s, n - 1);
      TakenWithinGrants(s, n - 1);
    }
  }

  /** The assertion `overcommit <= myDequeueCount` of both dequeue functions. */
  lemma SnapshotWithinTicket(consumers: nat, events: seq<Event>, t: nat)
    ensures var s := Run(Init(consumers), events);
            t < |s.consumers| && s.consumers[t].Ready? ==> s.consumers[t].seen <= s.optimistic
  {
    var s := Run(Init(consumers), events);
    InitInv(consumers);
    RunInv(Init(consumers), events);
    if t < |s.consumers| && s.consumers[t].Ready? {
      assert ConsumerInv(s, t);
      forall j | 0 <= j < |s.tickets| ensures s.tickets[j].grant + s.tickets[j].returned <= s.tickets[j].want {
        assert TicketInv(s, j);
      }
      SumOfSum(s.tickets, |s.tickets|);
    }
  }

  lemma {:induction false} ClaimsBelowHead(claims: seq<Claim>, head: nat, i: nat)
    requires ClaimsTile(claims, head) && i < |claims|
    ensures claims[i].first + claims[i].count <= head
  {
    var n := |claims| - 1;
    if i < n {
      ClaimsBelowHead(claims[..n], claims[n].first, i);
    }
  }

  /** Two claims never share an index, and every claimed index was published before it was claimed. */
  lemma {:induction false} ClaimsDisjoint(claims: seq<Claim>, head: nat, i: nat, j: nat)
    requires ClaimsTile(claims, head) && i < j < |claims|
    ensures claims[i].first + claims[i].count <= claims[j].first
  {
    var n := |claims| - 1;
    if j < n {
      ClaimsDisjoint(claims[..n], claims[n].first, i, j);
    } else {
      ClaimsBelowHead(claims[..n], claims[n].first, i);
    }
  }

  /** Every index below headIndex belongs to some claim: nothing that was taken is lost. */
  lemma {:induction false} ClaimsCover(claims: seq<Claim>, head: nat, index: nat) returns (i: nat)
    requires ClaimsTile(claims, head) && index < head
    ensures i < |claims| && claims[i].Has(index)
  {
    var n := |claims| - 1;
    if claims[n].first <= index {
      i := n;
    } else {
      i := ClaimsCover(claims[..n], claims[n].first, index);
    }
  }

  lemma ClaimsAreDistinctAndPublished(consumers: nat, events: seq<Event>)
    ensures var s := Run(Init(consumers), events);
            && (forall i, j :: 0 <= i < j < |s.claims| ==>
                  s.claims[i].first + s.claims[i].count <= s.claims[j].first)
            && (forall i :: 0 <= i < |s.claims| ==> s.claims[i].first + s.claims[i].count <= s.tail)
            && (forall index :: 0 <= index < s.head ==> Claimed(s.claims, index))
  {
    var s := Run(Init(consumers), events);
    InitInv(consumers);
    RunInv(Init(consumers), events);
    NeverPastTail(consumers, events);
    forall i, j | 0 <= i < j < |s.claims| ensures s.claims[i].first + s.claims[i].count <= s.claims[j].first {
      ClaimsDisjoint(s.claims, s.head, i, j);
    }
    forall i | 0 <= i < |s.claims| ensures s.claims[i].first + s.claims[i].count <= s.tail {
      ClaimsBelowHead(s.claims, s.head, i);
    }
    forall index | 0 <= index < s.head ensures Claimed(s.claims, index)
    {
      var i := ClaimsCover(s.claims, s.head, index);
    }
  }

  lemma {:induction false} SettledSums(tickets: seq<Ticket>, n: nat)
    requires n <= |tickets|
    requires forall k :: 0 <= k < n ==> tickets[k].taken + tickets[k].returned == tickets[k].want
    ensures Sum(tickets, n, Taken) + Sum(tickets, n, Returned) == Sum(tickets, n, Want)
  {
    if n > 0 {
      SettledSums(tickets, n - 1);
    }
  }

  /** With no dequeue in flight the counters agree again. */
  lemma QuiescentCounters(consumers: nat, events: seq<Event>)
    ensures var s := Run(Init(consumers), events);
            Quiescent(s) ==> s.optimistic == s.head + s.overcommit
  {
    var s := Run(Init(consumers), events);
    InitInv(consumers);
    RunInv(Init(consumers), events);
    if Quiescent(s) {
      forall k | 0 <= k < |s.tickets| ensures s.tickets[k].taken + s.tickets[k].returned == s.tickets[k].want {
        assert TicketInv(s, k);
      }
      SettledSums(s.tickets, |s.tickets|);
    }
  }

  /** The atomic operations of one uninterrupted dequeue by consumer `t`. */
  function Alone(t: nat, max: nat): seq<Event> {
    [Begin(t, max), Continue(t), Continue(t), Continue(t), Continue(t), Continue(t), Continue(t)]
  }

  /** The events of a dequeue one after the other. */
  lemma AloneRuns(s: State, t: nat, max: nat)
    ensures var es := Alone(t, max);
            |es| == 7
            && Run(s, es)
               == Step(Step(Step(Step(Step(Step(Step(s, es[0]), es[1]), es[2]), es[3]), es[4]), es[5]), es[6])
  {
    hide Step;
    var es := Alone(t, max);
    var s1 := Step(s, es[0]);
    var s2 := Step(s1, es[1]);
    var s3 := Step(s2, es[2]);
    var s4 := Step(s3, es[3]);
    var s5 := Step(s4, es[4]);
    var s6 := Step(s5, es[5]);
    RunTail(s, es);
    RunTail(s1, es[1..]);
    RunTail(s2, es[2..]);
    RunTail(s3, es[3..]);
    RunTail(s4, es[4..]);
    RunTail(s5, es[5..]);
    RunTail(s6, es[6..]);
    assert es[1..][1..] == es[2..] && es[2..][1..] == es[3..] && es[3..][1..] == es[4..];
    assert es[4..][1..] == es[5..] && es[5..][1..] == es[6..] && es[6..][1..] == [];
  }

  /** A dequeue that runs alone takes exactly the oldest min(max, size) elements: a consumer is never
      turned away from elements that are there, however many overcommits came before. */
  lemma AloneTakesWhatIsThere(consumers: nat, events: seq<Event>, t: nat, max: nat)
    requires t < consumers
    ensures var s := Run(Init(consumers), events);
            Quiescent(s) && 0 < Min(max, s.tail - s.head) ==>
              var s' := Run(s, Alone(t, max));
              && Quiescent(s')
              && s'.claims == s.claims + [Claim(s.head, Min(max, s.tail - s.head))]
              && s'.head == s.head + Min(max, s.tail - s.head)
              && s'.tail == s.tail && s'.overcommit == s.overcommit
  {
    hide Step, Run, Alone, Quiescent, Min;
    var s := Run(Init(consumers), events);
    RunKeepsConsumers(Init(consumers), events);
    QuiescentCounters(consumers, events);
    if Quiescent(s) && 0 < Min(max, s.tail - s.head) {
      AloneRuns(s, t, max);
      AloneSteps(s, t, max);
    }
  }

  lemma AloneSteps(s: State, t: nat, max: nat)
    requires t < |s.consumers| && Quiescent(s) && 0 < Min(max, s.tail - s.head) && s.optimistic == s.head + s.overcommit
    ensures var es := Alone(t, max);
            |es| == 7 &&
            var s' := Step(Step(Step(Step(Step(Step(Step(s, es[0]), es[1]), es[2]), es[3]), es[4]), es[5]), es[6]);
            && Quiescent(s')
            && s'.claims == s.claims + [Claim(s.head, Min(max, s.tail - s.head))]
            && s'.head == s.head + Min(max, s.tail - s.head)
            && s'.tail == s.tail && s'.overcommit == s.overcommit
  {
    var es := Alone(t, max);
    var s1 := Step(s, es[0]);
    var s2 := Step(s1, es[1]);
    var s3 := Step(s2, es[2]);
    var s4 := Step(s3, es[3]);
    var s5 := Step(s4, es[4]);
    var s6 := Step(s5, es[5]);
    assert s3.consumers[t] == Ready(Min(max, s.tail - s.head), s.overcommit);
    assert s5.consumers[t] == Claiming(|s.tickets|);
    assert s6.consumers[t].Idle? && Step(s6, es[6]) == s6;
  }

  lemma RunTail(s: State, events: seq<Event>)
    requires events != []
    ensures Run(s, events) == Run(Step(s, events[0]), events[1..])
  {
  }

  lemma {:induction false} RunKeepsConsumers(s: State, events: seq<Event>)
    ensures |Run(s, events).consumers| == |s.consumers|
    decreases |events|
  {
    if events != [] {
      RunKeepsConsumers(Step(s, events[0]), events[1..]);
    }
  }
}
