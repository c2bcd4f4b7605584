/** The lightweight semaphore and the blocking queue built on it.

    Every transition is one atomic operation on `m_count`, one operation on the kernel semaphore, or
    one call into the inner queue; a sequence of events is an interleaving of any number of threads.
    Waiting for one permit is waiting for many with `max == 1`: the two families of functions then
    perform the same operations. */
module Semaphore {
  const SPINS: nat := 10000

  datatype Patience = Never | Forever | Timed

  datatype Op =
    | Enqueue(count: nat)                       // enqueue (count == 1) and enqueue_bulk
    | Take(max: nat, patience: Patience)        // try_dequeue, wait_dequeue, wait_dequeue_timed, and bulk

  /** Where a thread stands between two operations. `got` permits are already its own. */
  datatype Pc =
    | Idle
    | Inserted(count: nat)                             // inner.enqueue succeeded, signal not yet called
    | Posting(left: nat)                               // kernel posts still to make
    | TryLoad(max: nat, got: nat, patience: Patience)
    | TryExchange(max: nat, got: nat, patience: Patience, seen: int)
    | SpinLoad(max: nat, patience: Patience, spin: nat)
    | SpinExchange(max: nat, patience: Patience, spin: nat, seen: int)
    | Subtract(max: nat, patience: Patience)
    | Asleep(max: nat, patience: Patience)             // in m_sema.wait or m_sema.timed_wait
    | UndoLoad(max: nat)                               // timed out, still counted in m_count
    | UndoTryWait(max: nat)
    | UndoExchange(max: nat, seen: int)
    | Holding(permits: nat)                            // must now dequeue this many elements

  datatype State = State(
    count: int, kernel: nat, elements: nat, threads: seq<Pc>,
    initial: nat, signalled: nat, acquired: nat)   // history

  /** `choice` settles what the environment decides: whether a weak exchange fails spuriously, whether
      a timed wait expires, and how many elements the inner queue yields. */
  datatype Event = Start(t: nat, op: Op) | Continue(t: nat, choice: nat)

  function Init(threads: nat, initial: nat): State {
    State(initial, 0, 0, seq(threads, _ => Idle), initial, 0, 0)
  }

  function Min(a: int, b: int): int {
    if a < b then a else b
  }

  function Max(a: int, b: int): int {
    if a < b then b else a
  }

  /** What is left of `count` after taking up to `max`. */
  function Remainder(count: int, max: nat): int {
    if count > max then count - max else 0
  }

  /** A thread that owns its first permit and tries for the rest. */
  function Gained(max: nat): Pc {
    if max > 1 then TryLoad(max - 1, 1, Never) else Holding(1)
  }

  /** The end of `tryWaitMany`: nothing (more) to be had without waiting. */
  function Exhausted(max: nat, got: nat, patience: Patience): Pc {
    if got > 0 then Holding(got)
    else if patience.Never? || max == 0 then Idle
    else SpinLoad(max, patience, SPINS - 1)
  }

  function NextSpin(max: nat, patience: Patience, spin: nat): Pc {
    if spin > 0 then SpinLoad(max, patience, spin - 1) else Subtract(max, patience)
  }

  function Step(s: State, e: Event): State {
    if e.t >= |s.threads| then s else
    match e
    case Start(t, op) =>
      if !s.threads[t].Idle? then s else
      (match op
       case Enqueue(count) =>
         s.(elements := s.elements + count, threads := s.threads[t := Inserted(count)])
       case Take(max, patience) => s.(threads := s.threads[t := TryLoad(max, 0, patience)]))
    case Continue(t, choice) => Advance(s, t, choice)
  }

  function Advance(s: State, t: nat, choice: nat): State
    requires t < |s.threads|
  {
    match s.threads[t]
    case Idle => s
    case Inserted(count) =>
      var toRelease := Min(-s.count, count);
      s.(count := s.count + count, signalled := s.signalled + count,
         threads := s.threads[t := if toRelease > 0 then Posting(toRelease) else Idle])
    case Posting(left) =>
      if left == 0 then s.(threads := s.threads[t := Idle])
      else s.(kernel := s.kernel + 1, threads := s.threads[t := Posting(left - 1)])
    case TryLoad(max, got, patience) =>
      s.(threads := s.threads[t := if s.count > 0 then TryExchange(max, got, patience, s.count)
                                   else Exhausted(max, got, patience)])
    case TryExchange(max, got, patience, seen) =>
      if s.count == seen && seen > 0 && choice > 0 then
        var rest := Remainder(seen, max);
        var taken := seen - rest;
        s.(count := rest, acquired := s.acquired + taken,
           threads := s.threads[t := if taken > 0 then Holding(got + taken) else Exhausted(max, got, patience)])
      else
        s.(threads := s.threads[t := if s.count > 0 then TryExchange(max, got, patience, s.count)
                                     else Exhausted(max, got, patience)])
    case SpinLoad(max, patience, spin) =>
      s.(threads := s.threads[t := if s.count > 0 then SpinExchange(max, patience, spin, s.count)
                                   else NextSpin(max, patience, spin)])
    case SpinExchange(max, patience, spin, seen) =>
      if s.count == seen && seen > 0 then
        var rest := Remainder(seen, max);
        s.(count := rest, acquired := s.acquired + (seen - rest),
           threads := s.threads[t := Holding(seen - rest)])
      else
        s.(threads := s.threads[t := NextSpin(max, patience, spin)])
    case Subtract(max, patience) =>
      if s.count > 0
      then s.(count := s.count - 1, acquired := s.acquired + 1, threads := s.threads[t := Gained(max)])
      else s.(count := s.count - 1, threads := s.threads[t := Asleep(max, patience)])
    case Asleep(max, patience) =>
      if s.kernel > 0 && (patience.Forever? || choice > 0) then
        s.(kernel := s.kernel - 1, acquired := s.acquired + 1, threads := s.threads[t := Gained(max)])
      else if patience.Forever? then s
      else s.(threads := s.threads[t := UndoLoad(max)])
    case UndoLoad(max) =>
      s.(threads := s.threads[t := if s.count >= 0 then UndoTryWait(max) else UndoExchange(max, s.count)])
    case UndoTryWait(max) =>
      if s.kernel > 0
      then s.(kernel := s.kernel - 1, acquired := s.acquired + 1, threads := s.threads[t := Gained(max)])
      else s.(threads := s.threads[t := UndoLoad(max)])
    case UndoExchange(max, seen) =>
      if s.count == seen && seen < 0
      then s.(count := s.count + 1, threads := s.threads[t := Idle])
      else s.(threads := s.threads[t := UndoLoad(max)])
    case Holding(permits) =>
      var taken := Min(choice, Min(permits, s.elements));
      s.(elements := s.elements - taken,
         threads := s.threads[t := if taken == permits then Idle else Holding(permits - taken)])
  }

  function Run(s: State, events: seq<Event>): State
    decreases |events|
  {
    if events == [] then s else Run(Step(s, events[0]), events[1..])
  }

  /* What each thread accounts for */

  datatype Measure =
    | Posts      // kernel posts it still owes
    | Sleepers   // 1 if m_count was lowered on its behalf and it has neither a permit nor given up
    | Permits    // permits it owns and has not yet turned into elements
    | Unsignalled  // elements it inserted and has not yet signalled

  function Value(pc: Pc, m: Measure): nat {
    match m
    case Posts => if pc.Posting? then pc.left else 0
    case Sleepers => if pc.Asleep? || pc.UndoLoad? || pc.UndoTryWait? || pc.UndoExchange? then 1 else 0
    case Permits =>
      if pc.TryLoad? || pc.TryExchange? then pc.got else if pc.Holding? then pc.permits else 0
    case Unsignalled => if pc.Inserted? then pc.count else 0
  }

  function Sum(threads: seq<Pc>, m: Measure): nat {
    if threads == [] then 0 else Sum(threads[..|threads| - 1], m) + Value(threads[|threads| - 1], m)
  }

  lemma {:induction false} SumOfUpdate(threads: seq<Pc>, t: nat, pc: Pc, m: Measure)
    requires t < |threads|
    ensures Sum(threads[t := pc], m) == Sum(threads, m) + Value(pc, m) - Value(threads[t], m)
  {
    var last := |threads| - 1;
    if t < last {
      SumOfUpdate(threads[..last], t, pc, m);
      assert threads[t := pc][..last] == threads[..last][t := pc];
    } else {
      assert threads[t := pc][..last] == threads[..last];
    }
  }

  lemma {:induction false} SumBound(threads: seq<Pc>, t: nat, m: Measure)
    requires t < |threads|
    ensures Value(threads[t], m) <= Sum(threads, m)
  {
    var last := |threads| - 1;
    if t < last {
      SumBound(threads[..last], t, m);
    }
  }

  lemma {:induction false} SumOfIdle(threads: nat, m: Measure)
    ensures Sum(seq(threads, _ => Idle), m) == 0
  {
    if threads > 0 {
      SumOfIdle(threads - 1, m);
      assert seq<Pc>(threads, _ => Idle)[..threads - 1] == seq(threads - 1, _ => Idle);
    }
  }

  /* The invariant */

  predicate PcInv(pc: Pc) {
    (pc.TryExchange? ==> pc.seen > 0)
  }

  ghost predicate Inv(s: State) {
    && Max(s.count, 0) + s.kernel + Sum(s.threads, Posts) == s.initial + s.signalled - s.acquired
    && Sum(s.threads, Sleepers) == Max(-s.count, 0) + s.kernel + Sum(s.threads, Posts)
    && s.elements + s.acquired == s.signalled + Sum(s.threads, Unsignalled) + Sum(s.threads, Permits)
    && (forall t :: 0 <= t < |s.threads| ==> PcInv(s.threads[t]))
  }

  lemma InitInv(threads: nat, initial: nat)
    ensures Inv(Init(threads, initial))
  {
    SumOfIdle(threads, Posts);
    SumOfIdle(threads, Sleepers);
    SumOfIdle(threads, Permits);
    SumOfIdle(threads, Unsignalled);
  }

  function Change(s: State, s': State, t: nat, m: Measure): int
    requires t < |s.threads| && t < |s'.threads|
  {
    Value(s'.threads[t], m) - Value(s.threads[t], m)
  }

  /** Each operation keeps three accounts balanced by itself: permits, sleepers and elements. */
  lemma StepFrame(s: State, e: Event)
    requires e.t < |s.threads| && PcInv(s.threads[e.t])
    ensures var s' := Step(s, e);
            && |s'.threads| == |s.threads| && s'.threads == s.threads[e.t := s'.threads[e.t]]
            && PcInv(s'.threads[e.t]) && s'.initial == s.initial
  {
  }

  lemma StepPermits(s: State, e: Event)
    requires e.t < |s.threads| && PcInv(s.threads[e.t])
    ensures var s' := Step(s, e);
            && |s'.threads| == |s.threads|
            && Max(s'.count, 0) - Max(s.count, 0) + s'.kernel - s.kernel + Change(s, s', e.t, Posts)
                 == (s'.signalled - s.signalled) - (s'.acquired - s.acquired)
  {
  }

  lemma StepSleepers(s: State, e: Event)
    requires e.t < |s.threads| && PcInv(s.threads[e.t])
    ensures var s' := Step(s, e);
            && |s'.threads| == |s.threads|
            && Change(s, s', e.t, Sleepers)
                 == Max(-s'.count, 0) - Max(-s.count, 0) + s'.kernel - s.kernel + Change(s, s', e.t, Posts)
  {
  }

  lemma StepElements(s: State, e: Event)
    requires e.t < |s.threads| && PcInv(s.threads[e.t])
    ensures var s' := Step(s, e);
            && |s'.threads| == |s.threads|
            && s'.elements - s.elements + s'.acquired - s.acquired
                 == s'.signalled - s.signalled + Change(s, s', e.t, Unsignalled) + Change(s, s', e.t, Permits)
  {
    hide Min;
  }

  lemma StepInv(s: State, e: Event)
    requires Inv(s)
    ensures Inv(Step(s, e))
  {
    if e.t < |s.threads| {
      StepFrame(s, e);
      StepPermits(s, e);
      StepSleepers(s, e);
      StepElements(s, e);
      var pc := Step(s, e).threads[e.t];
      SumOfUpdate(s.threads, e.t, pc, Posts);
      SumOfUpdate(s.threads, e.t, pc, Sleepers);
      SumOfUpdate(s.threads, e.t, pc, Permits);
      SumOfUpdate(s.threads, e.t, pc, Unsignalled);
    }
  }

  lemma {:induction false} RunInv(s: State, events: seq<Event>)
    requires Inv(s)
    ensures Inv(Run(s, events))
    decreases |events|
  {
    if events != [] {
      StepInv(s, events[0]);
      RunInv(Step(s, events[0]), events[1..]);
    }
  }

  lemma Reached(threads: nat, initial: nat, events: seq<Event>)
    ensures Inv(Run(Init(threads, initial), events))
  {
    InitInv(threads, initial);
    RunInv(Init(threads, initial), events);
  }

  /* What the invariant means for callers */

  lemma {:induction false} RunKeepsInitial(s: State, events: seq<Event>)
    ensures Run(s, events).initial == s.initial
    decreases |events|
  {
    if events != [] {
      RunKeepsInitial(Step(s, events[0]), events[1..]);
    }
  }

  /** No permit is lost or invented, in any interleaving. */
  lemma PermitsAreConserved(threads: nat, initial: nat, events: seq<Event>)
    ensures var s := Run(Init(threads, initial), events);
            Max(s.count, 0) + s.kernel + Sum(s.threads, Posts) == initial + s.signalled - s.acquired
  {
    Reached(threads, initial, events);
    RunKeepsInitial(Init(threads, initial), events);
  }

  /** Nobody sleeps beside a free permit: if a thread waits and no kernel post is there or on its way,
      every permit ever issued has been taken. */
  lemma NoLostWakeup(threads: nat, initial: nat, events: seq<Event>, t: nat)
    ensures var s := Run(Init(threads, initial), events);
            t < |s.threads| && s.threads[t].Asleep? && s.kernel == 0 && Sum(s.threads, Posts) == 0 ==>
              s.acquired == initial + s.signalled
  {
    Reached(threads, initial, events);
    RunKeepsInitial(Init(threads, initial), events);
    var s := Run(Init(threads, initial), events);
    if t < |s.threads| && s.threads[t].Asleep? {
      SumBound(s.threads, t, Sleepers);
    }
  }

  /** Once no thread is inside a wait, no kernel permit is left over: time-outs are rolled back. */
  lemma NoStrayPosts(threads: nat, initial: nat, events: seq<Event>)
    ensures var s := Run(Init(threads, initial), events);
            Sum(s.threads, Sleepers) == 0 ==>
              s.kernel == 0 && Sum(s.threads, Posts) == 0 && s.count == initial + s.signalled - s.acquired
  {
    Reached(threads, initial, events);
    RunKeepsInitial(Init(threads, initial), events);
  }

  /** In the blocking queue, whose semaphore starts at zero, each permit has its element: the holders
      together never own more permits than there are elements, so the retry loop of every holder ends
      as soon as the inner queue yields. */
  lemma HoldersAreServed(threads: nat, events: seq<Event>, t: nat)
    ensures var s := Run(Init(threads, 0), events);
            && Sum(s.threads, Permits) + Max(s.count, 0) + s.kernel <= s.elements
            && (t < |s.threads| && s.threads[t].Holding? ==> s.threads[t].permits <= s.elements)
  {
    Reached(threads, 0, events);
    RunKeepsInitial(Init(threads, 0), events);
    var s := Run(Init(threads, 0), events);
    if t < |s.threads| {
      SumBound(s.threads, t, Permits);
    }
  }

  /** With nobody inside an operation, the semaphore counts exactly the elements. */
  lemma QuietCountIsSize(threads: nat, events: seq<Event>)
    ensures var s := Run(Init(threads, 0), events);
            (forall t :: 0 <= t < |s.threads| ==> s.threads[t].Idle?) ==> s.count == s.elements
  {
    Reached(threads, 0, events);
    RunKeepsInitial(Init(threads, 0), events);
    var s := Run(Init(threads, 0), events);
    if forall t :: 0 <= t < |s.threads| ==> s.threads[t].Idle? {
      assert s.threads == seq(|s.threads|, _ => Idle);
      SumOfIdle(|s.threads|, Posts);
      SumOfIdle(|s.threads|, Sleepers);
      SumOfIdle(|s.threads|, Permits);
      SumOfIdle(|s.threads|, Unsignalled);
    }
  }

  /* What a thread does that is not disturbed */

  lemma RunNothing(s: State)
    ensures Run(s, []) == s
  {
  }

  lemma RunOne(s: State, e: Event, rest: seq<Event>)
    ensures Run(s, [e] + rest) == Run(Step(s, e), rest)
  {
    hide Step;
    assert ([e] + rest)[1..] == rest;
  }

  lemma RunThree(s: State, a: Event, b: Event, c: Event)
    ensures Run(s, [a, b, c]) == Step(Step(Step(s, a), b), c)
  {
    hide Step;
    RunOne(s, a, [b, c]);
    RunOne(Step(s, a), b, [c]);
    RunOne(Step(Step(s, a), b), c, []);
    assert [a, b, c] == [a] + [b, c] && [b, c] == [b] + [c] && [c] == [c] + [];
  }

  lemma Looks(s: State, t: nat, max: nat, patience: Patience, choice: nat)
    requires t < |s.threads| && s.threads[t].Idle?
    ensures Step(Step(s, Start(t, Take(max, patience))), Continue(t, choice))
         == s.(threads := s.threads[t := if s.count > 0 then TryExchange(max, 0, patience, s.count)
                                         else Exhausted(max, 0, patience)])
  {
    hide Exhausted;
    assert s.threads[t := TryLoad(max, 0, patience)][t := Exhausted(max, 0, patience)]
        == s.threads[t := Exhausted(max, 0, patience)];
    assert s.threads[t := TryLoad(max, 0, patience)][t := TryExchange(max, 0, patience, s.count)]
        == s.threads[t := TryExchange(max, 0, patience, s.count)];
  }

  lemma Exchanges(s: State, t: nat, max: nat, patience: Patience, choice: nat)
    requires t < |s.threads| && max > 0 && s.count > 0 && choice > 0
    requires s.threads[t] == TryExchange(max, 0, patience, s.count)
    ensures Step(s, Continue(t, choice))
         == s.(count := s.count - Min(max, s.count), acquired := s.acquired + Min(max, s.count),
               threads := s.threads[t := Holding(Min(max, s.count))])
  {
    hide Exhausted;
  }

  /** A take that is not disturbed owns at once the smaller of what it asks for and what there is, however patient
      it is; with nothing there, one that does not wait gives up. */
  lemma AloneOwns(s: State, t: nat, max: nat, patience: Patience, choice: nat, more: nat)
    requires t < |s.threads| && s.threads[t].Idle? && max > 0
    ensures s.count > 0 && more > 0 ==>
              Run(s, [Start(t, Take(max, patience)), Continue(t, choice), Continue(t, more)])
              == s.(count := s.count - Min(max, s.count), acquired := s.acquired + Min(max, s.count),
                    threads := s.threads[t := Holding(Min(max, s.count))])
    ensures s.count <= 0 ==> Run(s, [Start(t, Take(max, Never)), Continue(t, choice)]) == s
  {
    hide Run, Step, Min;
    if s.count > 0 && more > 0 {
      RunThree(s, Start(t, Take(max, patience)), Continue(t, choice), Continue(t, more));
      Looks(s, t, max, patience, choice);
      var seen := TryExchange(max, 0, patience, s.count);
      Exchanges(s.(threads := s.threads[t := seen]), t, max, patience, more);
      assert s.threads[t := seen][t := Holding(Min(max, s.count))] == s.threads[t := Holding(Min(max, s.count))];
    }
    if s.count <= 0 {
      var a, b := Start(t, Take(max, Never)), Continue(t, choice);
      RunOne(s, a, [b]);
      RunOne(Step(s, a), b, []);
      assert [a, b] == [a] + [b] && [b] == [b] + [];
      RunNothing(Step(Step(s, a), b));
      Looks(s, t, max, Never, choice);
      assert s.threads[t := Idle] == s.threads;
    }
  }

  /** In the blocking queue, from every state that can be reached, such a take ends with that many elements taken
      out, if the inner queue yields what it holds. */
  lemma AloneTakesWhatIsThere(threads: nat, events: seq<Event>, t: nat, max: nat, patience: Patience)
    ensures var s := Run(Init(threads, 0), events);
            t < |s.threads| && s.threads[t].Idle? && max > 0 && s.count > 0 ==>
              var taken := Min(max, s.count);
              && taken <= s.elements
              && Run(s, [Start(t, Take(max, patience)), Continue(t, 0), Continue(t, 1)] + [Continue(t, taken)])
                 == s.(count := s.count - taken, acquired := s.acquired + taken, elements := s.elements - taken)
  {
    hide Run, Inv;
    var s := Run(Init(threads, 0), events);
    if t < |s.threads| && s.threads[t].Idle? && max > 0 && s.count > 0 {
      var taken := Min(max, s.count);
      HoldersAreServed(threads, events, t);
      AloneOwns(s, t, max, patience, 0, 1);
      var es, e := [Start(t, Take(max, patience)), Continue(t, 0), Continue(t, 1)], Continue(t, taken);
      RunAppend(s, es, e);
      assert s.threads[t := Holding(taken)][t := Idle] == s.threads;
    }
  }

  lemma {:induction false} RunAppend(s: State, events: seq<Event>, e: Event)
    ensures Run(s, events + [e]) == Step(Run(s, events), e)
    decreases |events|
  {
    hide Step;
    if events == [] {
      RunOne(s, e, []);
      assert [] + [e] == [e] + [];
    } else {
      RunAppend(Step(s, events[0]), events[1..], e);
      assert (events + [e])[1..] == events[1..] + [e];
    }
  }

  /** Unless a post is still on its way, one element put in lets a thread that sleeps have its permit. */
  lemma EnqueueWakes(threads: nat, events: seq<Event>, t: nat, u: nat)
    ensures var s := Run(Init(threads, 0), events);
            t < |s.threads| && u < |s.threads| && s.threads[t].Idle? && s.threads[u].Asleep?
            && Sum(s.threads, Posts) == 0 ==>
              var s' := Run(s, [Start(t, Enqueue(1)), Continue(t, 0), Continue(t, 0)] + [Continue(u, 1)]);
              u < |s'.threads| && Value(s'.threads[u], Permits) == 1
  {
    hide Run;
    var s := Run(Init(threads, 0), events);
    if t < |s.threads| && u < |s.threads| && s.threads[t].Idle? && s.threads[u].Asleep? && Sum(s.threads, Posts) == 0 {
      Reached(threads, 0, events);
      SumBound(s.threads, u, Sleepers);
      assert s.count < 0 || s.kernel > 0;
      var a, b, c := Start(t, Enqueue(1)), Continue(t, 0), Continue(t, 0);
      RunThree(s, a, b, c);
      RunAppend(s, [a, b, c], Continue(u, 1));
      Posted(s, t, u);
    }
  }

  lemma Posted(s: State, t: nat, u: nat)
    requires t < |s.threads| && u < |s.threads| && s.threads[t].Idle? && s.threads[u].Asleep?
    requires s.count < 0 || s.kernel > 0
    ensures var s' := Step(Step(Step(s, Start(t, Enqueue(1))), Continue(t, 0)), Continue(t, 0));
            u < |s'.threads| && s'.threads[u] == s.threads[u] && s'.kernel > 0
  {
  }
}
