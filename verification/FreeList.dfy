/** The lock-free free list: a stack of nodes whose links are protected by reference counts.

    Every transition is one atomic operation of `add`, `try_get` or `add_knowing_refcount_is_zero`;
    a sequence of events is an interleaving of any number of threads. The 32-bit word of a node is
    kept as the source keeps it: the count in the low 31 bits, SHOULD_BE_ON_FREELIST above them, and
    additions modulo 2^32. */
module FreeList {
  const SHOULD_BE_ON: nat := 0x8000_0000
  const WORD: nat := 0x1_0000_0000

  type Node = nat

  datatype Option<+T> = None | Some(value: T)

  /** What a thread continues with once `add_knowing_refcount_is_zero` is done. */
  datatype After = Return | Retry(head: Option<Node>)

  /** Where a thread stands between two atomic operations, with its local variables. */
  datatype Pc =
    | Idle
    // add_knowing_refcount_is_zero
    | AddLoad(n: Node, after: After)
    | AddSetNext(n: Node, head: Option<Node>, after: After)
    | AddSetRefs(n: Node, head: Option<Node>, after: After)
    | AddSwing(n: Node, head: Option<Node>, after: After)
    | AddFailed(n: Node, head: Option<Node>, after: After)
    // try_get
    | GetLoad
    | GetRefs(n: Node)
    | GetAcquire(n: Node, refs: nat)
    | GetNext(n: Node)
    | GetSwing(n: Node, next: Option<Node>)
    | GetCheck(n: Node)
    | GetDrop(n: Node)
    | GetRelease(n: Node, head: Option<Node>)

  /** History: what has become of a node. */
  datatype Phase =
    | Held              // in the hands of a caller, which may pass it to `add`
    | Pending           // `add` was called; the last reader will link it
    | Adding(t: nat)    // thread t is linking it
    | Linked            // on the list
    | Taking(t: nat)    // unlinked by thread t, whose two references are still counted

  datatype State = State(
    head: Option<Node>, refs: seq<nat>, next: seq<Option<Node>>, threads: seq<Pc>,
    phase: seq<Phase>, chain: seq<Node>)

  datatype Event = StartAdd(t: nat, n: Node) | StartGet(t: nat) | Continue(t: nat)

  function Init(threads: nat, nodes: nat): State {
    State(None, seq(nodes, _ => 0), seq(nodes, _ => None), seq(threads, _ => Idle), seq(nodes, _ => Held), [])
  }

  /** The head of the list whose remaining nodes are `chain`. */
  function First(chain: seq<Node>): Option<Node> {
    if chain == [] then None else Some(chain[0])
  }

  function Resume(after: After): Pc {
    match after
    case Return => Idle
    case Retry(head) => Revisit(head)
  }

  /** The test `head != nullptr` of the `try_get` loop. */
  function Revisit(head: Option<Node>): Pc {
    if head.Some? then GetRefs(head.value) else Idle
  }

  predicate NodeOf(s: State, pc: Pc) {
    pc.Idle? || pc.GetLoad? || pc.n < |s.refs| == |s.next| == |s.phase|
  }

  function Step(s: State, e: Event): State {
    match e
    case StartAdd(t, n) =>
      if t < |s.threads| && s.threads[t].Idle? && n < |s.refs| == |s.phase| && s.phase[n].Held? then
        s.(refs := s.refs[n := (s.refs[n] + SHOULD_BE_ON) % WORD],
           phase := s.phase[n := if s.refs[n] == 0 then Adding(t) else Pending],
           threads := s.threads[t := if s.refs[n] == 0 then AddLoad(n, Return) else Idle])
      else s
    case StartGet(t) =>
      if t < |s.threads| && s.threads[t].Idle? then s.(threads := s.threads[t := GetLoad]) else s
    case Continue(t) =>
      if t < |s.threads| then Advance(s, t) else s
  }

  function Advance(s: State, t: nat): State
    requires t < |s.threads|
  {
    if !NodeOf(s, s.threads[t]) then s else
    match s.threads[t]
    case Idle => s
    case AddLoad(n, after) => s.(threads := s.threads[t := AddSetNext(n, s.head, after)])
    case AddSetNext(n, head, after) =>
      s.(next := s.next[n := head], threads := s.threads[t := AddSetRefs(n, head, after)])
    case AddSetRefs(n, head, after) =>
      s.(refs := s.refs[n := 1], threads := s.threads[t := AddSwing(n, head, after)])
    case AddSwing(n, head, after) =>
      if s.head == head
      then s.(head := Some(n), chain := [n] + s.chain, phase := s.phase[n := Linked],
              threads := s.threads[t := Resume(after)])
      else s.(threads := s.threads[t := AddFailed(n, s.head, after)])
    case AddFailed(n, head, after) =>
      var refs := s.refs[n];
      s.(refs := s.refs[n := (refs + SHOULD_BE_ON - 1) % WORD],
         phase := if refs == 1 then s.phase else s.phase[n := Pending],
         threads := s.threads[t := if refs == 1 then AddSetNext(n, head, after) else Resume(after)])
    case GetLoad => s.(threads := s.threads[t := Revisit(s.head)])
    case GetRefs(n) =>
      s.(threads := s.threads[t := if s.refs[n] % SHOULD_BE_ON == 0 then GetLoad else GetAcquire(n, s.refs[n])])
    case GetAcquire(n, refs) =>
      if s.refs[n] == refs
      then s.(refs := s.refs[n := (refs + 1) % WORD], threads := s.threads[t := GetNext(n)])
      else s.(threads := s.threads[t := GetLoad])
    case GetNext(n) => s.(threads := s.threads[t := GetSwing(n, s.next[n])])
    case GetSwing(n, next) =>
      if s.head == Some(n) && s.chain != []
      then s.(head := next, chain := s.chain[1..], phase := s.phase[n := Taking(t)],
              threads := s.threads[t := GetCheck(n)])
      else s.(threads := s.threads[t := GetRelease(n, s.head)])
    case GetCheck(n) => s.(threads := s.threads[t := GetDrop(n)])
    case GetDrop(n) =>
      s.(refs := s.refs[n := (s.refs[n] + WORD - 2) % WORD], phase := s.phase[n := Held],
         threads := s.threads[t := Idle])
    case GetRelease(n, head) =>
      var refs := s.refs[n];
      s.(refs := s.refs[n := (refs + WORD - 1) % WORD],
         phase := if refs == SHOULD_BE_ON + 1 then s.phase[n := Adding(t)] else s.phase,
         threads := s.threads[t := if refs == SHOULD_BE_ON + 1 then AddLoad(n, Retry(head)) else Revisit(head)])
  }

  function Run(s: State, events: seq<Event>): State
    decreases |events|
  {
    if events == [] then s else Run(Step(s, events[0]), events[1..])
  }

  /* Counting readers */

  /** The thread holds a reference it took with the increment in `try_get`. */
  predicate Reads(pc: Pc, n: Node) {
    (pc.GetNext? || pc.GetSwing? || pc.GetCheck? || pc.GetDrop? || pc.GetRelease?) && pc.n == n
  }

  function Readers(threads: seq<Pc>, n: Node): nat {
    if threads == [] then 0
    else Readers(threads[..|threads| - 1], n) + (if Reads(threads[|threads| - 1], n) then 1 else 0)
  }

  lemma {:induction false} ReadersOfUpdate(threads: seq<Pc>, t: nat, pc: Pc, n: Node)
    requires t < |threads|
    ensures Readers(threads[t := pc], n)
         == Readers(threads, n) + (if Reads(pc, n) then 1 else 0) - (if Reads(threads[t], n) then 1 else 0)
  {
    var last := |threads| - 1;
    if t < last {
      ReadersOfUpdate(threads[..last], t, pc, n);
      assert threads[t := pc][..last] == threads[..last][t := pc];
    } else {
      assert threads[t := pc][..last] == threads[..last];
    }
  }

  lemma {:induction false} ReadersBound(threads: seq<Pc>, n: Node)
    ensures Readers(threads, n) <= |threads|
  {
    if threads != [] {
      ReadersBound(threads[..|threads| - 1], n);
    }
  }

  lemma {:induction false} ReaderCounts(threads: seq<Pc>, t: nat, n: Node)
    requires t < |threads| && Reads(threads[t], n)
    ensures Readers(threads, n) >= 1
  {
    var last := |threads| - 1;
    if t < last {
      ReaderCounts(threads[..last], t, n);
    }
  }

  /* The invariant */

  /** The adding thread has stored the count 1 and has not yet found its exchange to fail. */
  predicate Published(pc: Pc) {
    pc.AddSwing? || pc.AddFailed?
  }

  /** The thread is inside `add_knowing_refcount_is_zero`. */
  predicate InAdd(pc: Pc) {
    pc.AddLoad? || pc.AddSetNext? || pc.AddSetRefs? || pc.AddSwing? || pc.AddFailed?
  }

  /** The thread has unlinked its node and not yet dropped the two references. */
  predicate InTake(pc: Pc) {
    pc.GetCheck? || pc.GetDrop?
  }

  /** The list's own reference: the node is linked, about to be, or just unlinked. */
  predicate ListRef(s: State, n: Node)
    requires n < |s.phase|
  {
    match s.phase[n]
    case Adding(t) => t < |s.threads| && Published(s.threads[t])
    case Linked => true
    case Taking(_) => true
    case _ => false
  }

  /** The should-be-on-list bit. */
  predicate Flagged(s: State, n: Node)
    requires n < |s.phase|
  {
    match s.phase[n]
    case Pending => true
    case Adding(t) => t < |s.threads| && !Published(s.threads[t])
    case _ => false
  }

  ghost predicate NodeInv(s: State, n: Node)
    requires n < |s.refs| && |s.refs| == |s.next| == |s.phase|
  {
    && s.refs[n] == Readers(s.threads, n)
        + (if ListRef(s, n) then 1 else 0) + (if Flagged(s, n) then SHOULD_BE_ON else 0)
    && (s.phase[n].Linked? <==> n in s.chain)
    && (s.phase[n].Adding? ==>
          s.phase[n].t < |s.threads| && InAdd(s.threads[s.phase[n].t]) && s.threads[s.phase[n].t].n == n)
    && (s.phase[n].Taking? ==>
          s.phase[n].t < |s.threads| && InTake(s.threads[s.phase[n].t]) && s.threads[s.phase[n].t].n == n)
    && (s.phase[n].Pending? ==> Readers(s.threads, n) >= 1)
    && (Flagged(s, n) && s.phase[n].Adding? ==> Readers(s.threads, n) == 0)
  }

  ghost predicate ThreadInv(s: State, t: nat)
    requires t < |s.threads| && |s.refs| == |s.next| == |s.phase|
  {
    var pc := s.threads[t];
    && NodeOf(s, pc)
    && (InAdd(pc) ==> s.phase[pc.n] == Adding(t))
    && (InTake(pc) ==> s.phase[pc.n] == Taking(t))
    && ((pc.AddSetRefs? || pc.AddSwing?) ==> s.next[pc.n] == pc.head)
    && (pc.GetSwing? ==> s.next[pc.n] == pc.next)
    && (pc.GetAcquire? ==> pc.refs % SHOULD_BE_ON != 0)
    && (InAdd(pc) && pc.after.Retry? ==> NodeOf(s, Revisit(pc.after.head)))
    && (pc.GetRelease? ==> NodeOf(s, Revisit(pc.head)))
  }

  /** From `chain[i]` on, the next pointers spell the rest of the chain. */
  ghost predicate Spells(head: Option<Node>, next: seq<Option<Node>>, chain: seq<Node>) {
    && head == First(chain)
    && (forall i :: 0 <= i < |chain| ==> chain[i] < |next| && next[chain[i]] == First(chain[i + 1..]))
    && (forall i, j :: 0 <= i < j < |chain| ==> chain[i] != chain[j])
  }

  ghost predicate ChainInv(s: State) {
    Spells(s.head, s.next, s.chain)
  }

  ghost predicate Inv(s: State) {
    && |s.refs| == |s.next| == |s.phase|
    && |s.threads| + 1 < SHOULD_BE_ON
    && (forall n :: 0 <= n < |s.refs| ==> NodeInv(s, n))
    && (forall t :: 0 <= t < |s.threads| ==> ThreadInv(s, t))
    && ChainInv(s)
  }

  lemma {:induction false} NoReaders(threads: nat, n: Node)
    ensures Readers(seq(threads, _ => Idle), n) == 0
  {
    if threads > 0 {
      NoReaders(threads - 1, n);
      assert seq<Pc>(threads, _ => Idle)[..threads - 1] == seq(threads - 1, _ => Idle);
    }
  }

  lemma InitInv(threads: nat, nodes: nat)
    requires threads + 1 < SHOULD_BE_ON
    ensures Inv(Init(threads, nodes))
  {
    forall n | 0 <= n < nodes ensures NodeInv(Init(threads, nodes), n) {
      NoReaders(threads, n);
    }
  }

  lemma ReadersAfter(s: State, t: nat, pc: Pc, n: Node)
    requires t < |s.threads|
    ensures Readers(s.threads[t := pc], n)
         == Readers(s.threads, n) + (if Reads(pc, n) then 1 else 0) - (if Reads(s.threads[t], n) then 1 else 0)
    ensures (if Reads(s.threads[t], n) then 1 else 0) <= Readers(s.threads, n) <= |s.threads|
  {
    ReadersOfUpdate(s.threads, t, pc, n);
    ReadersBound(s.threads, n);
    if Reads(s.threads[t], n) {
      ReaderCounts(s.threads, t, n);
    }
  }

  /** A move leaves the nodes it does not name alone. */
  lemma OtherNodes(s: State, t: nat, n: Node)
    requires Inv(s) && t < |s.threads| && n < |s.refs|
    requires s.threads[t].Idle? || s.threads[t].GetLoad? || s.threads[t].n != n
    ensures NodeInv(Advance(s, t), n)
  {
    hide Readers, Spells;
    var s' := Advance(s, t);
    assert ThreadInv(s, t) && NodeInv(s, n);
    ReadersAfter(s, t, s'.threads[t], n);
    assert s'.threads == s.threads[t := s'.threads[t]];
    if s'.chain != s.chain && s.threads[t].GetSwing? {
      Popped(s.head, s.next, s.chain, s.threads[t].n);
    }
  }

  lemma AddedNode(s: State, t: nat)
    requires Inv(s) && t < |s.threads| && InAdd(s.threads[t]) && s.threads[t].n < |s.refs|
    ensures NodeInv(Advance(s, t), s.threads[t].n)
  {
    hide Readers, ChainInv;
    var s' := Advance(s, t);
    var n := s.threads[t].n;
    assert ThreadInv(s, t) && NodeInv(s, n);
    ReadersAfter(s, t, s'.threads[t], n);
    assert s'.threads == s.threads[t := s'.threads[t]];
  }

  lemma LookedNode(s: State, t: nat)
    requires Inv(s) && t < |s.threads| && (s.threads[t].GetRefs? || s.threads[t].GetNext?)
    requires s.threads[t].n < |s.refs|
    ensures NodeInv(Advance(s, t), s.threads[t].n)
  {
    var s' := Advance(s, t);
    var n := s.threads[t].n;
    assert ThreadInv(s, t) && NodeInv(s, n);
    ReadersAfter(s, t, s'.threads[t], n);
    assert s'.threads == s.threads[t := s'.threads[t]];
  }

  /** A reference is only ever taken on a node whose count is positive, so never on one being linked
      whose count is still zero. */
  lemma AcquiredNode(s: State, t: nat)
    requires Inv(s) && t < |s.threads| && s.threads[t].GetAcquire?
    requires s.threads[t].n < |s.refs|
    ensures NodeInv(Advance(s, t), s.threads[t].n)
  {
    hide Readers;
    var s' := Advance(s, t);
    var n := s.threads[t].n;
    assert ThreadInv(s, t) && NodeInv(s, n);
    ReadersAfter(s, t, s'.threads[t], n);
    assert s'.threads == s.threads[t := s'.threads[t]];
    if s.phase[n].Adding? {
      var u := s.phase[n].t;
      assert u != t && s'.threads[u] == s.threads[u];
    }
    assert ListRef(s', n) == ListRef(s, n) && Flagged(s', n) == Flagged(s, n);
  }

  lemma TakenNode(s: State, t: nat)
    requires Inv(s) && t < |s.threads| && s.threads[t].GetSwing? && s.threads[t].n < |s.refs|
    ensures NodeInv(Advance(s, t), s.threads[t].n)
  {
    hide Readers, Resume, Revisit;
    var s' := Advance(s, t);
    var n := s.threads[t].n;
    assert ThreadInv(s, t) && NodeInv(s, n);
    ReadersAfter(s, t, s'.threads[t], n);
    assert s'.threads == s.threads[t := s'.threads[t]];
    if s'.chain != s.chain {
      assert s.chain == [n] + s'.chain && n !in s'.chain;
    }
  }

  lemma DroppedNode(s: State, t: nat)
    requires Inv(s) && t < |s.threads| && InTake(s.threads[t]) && s.threads[t].n < |s.refs|
    ensures NodeInv(Advance(s, t), s.threads[t].n)
  {
    hide Readers, Resume, Revisit, ChainInv;
    var s' := Advance(s, t);
    var n := s.threads[t].n;
    assert ThreadInv(s, t) && NodeInv(s, n);
    ReadersAfter(s, t, s'.threads[t], n);
    assert s'.threads == s.threads[t := s'.threads[t]];
  }

  lemma ReleasedNode(s: State, t: nat)
    requires Inv(s) && t < |s.threads| && s.threads[t].GetRelease?
    requires s.threads[t].n < |s.refs|
    ensures NodeInv(Advance(s, t), s.threads[t].n)
  {
    hide Readers;
    var s' := Advance(s, t);
    var n := s.threads[t].n;
    assert ThreadInv(s, t) && NodeInv(s, n);
    ReadersAfter(s, t, s'.threads[t], n);
    assert s'.threads == s.threads[t := s'.threads[t]];
    if s.refs[n] == SHOULD_BE_ON + 1 {
      assert s.phase[n].Pending?;
    }
  }

  lemma MovedThread(s: State, t: nat)
    requires |s.refs| == |s.next| == |s.phase| && t < |s.threads| && ThreadInv(s, t)
    requires s.head.Some? ==> s.head.value < |s.refs|
    ensures ThreadInv(Advance(s, t), t)
  {
  }

  /** Node `m` keeps its next pointer if thread `u` reads it, and stays with `u` if `u` is adding or taking it. */
  ghost predicate LeftAlone(s: State, s': State, u: nat, m: Node)
    requires u < |s.threads| && m < |s.phase| == |s.next| == |s'.phase| == |s'.next|
  {
    && (s.phase[m] == Adding(u) || Reads(s.threads[u], m) ==> s'.next[m] == s.next[m])
    && (s.phase[m] == Adding(u) || s.phase[m] == Taking(u) ==> s'.phase[m] == s.phase[m])
  }

  /** A step of another thread leaves such a node alone. */
  lemma NodeLeftAlone(s: State, t: nat, u: nat, m: Node)
    requires Inv(s) && t < |s.threads| && u < |s.threads| && u != t && m < |s.refs|
    ensures LeftAlone(s, Advance(s, t), u, m)
  {
    assert ThreadInv(s, t);
    if !s.threads[t].Idle? && !s.threads[t].GetLoad? && s.threads[t].n == m {
      assert NodeInv(s, m);
      ReadersBound(s.threads, m);
      if Reads(s.threads[u], m) {
        ReaderCounts(s.threads, u, m);
      }
      if Reads(s.threads[t], m) {
        ReaderCounts(s.threads, t, m);
      }
    }
  }

  lemma SameSizes(s: State, t: nat, u: nat)
    requires Inv(s) && t < |s.threads| && u < |s.threads| && u != t
    ensures var s' := Advance(s, t);
            |s'.refs| == |s.refs| && |s'.next| == |s.next| && |s'.phase| == |s.phase|
            && |s'.threads| == |s.threads| && s'.threads[u] == s.threads[u]
  {
  }

  /** A thread's own facts survive a step of another one. */
  lemma KeepsFacts(s: State, s': State, u: nat)
    requires |s.refs| == |s.next| == |s.phase| && u < |s.threads| && ThreadInv(s, u)
    requires |s'.refs| == |s.refs| && |s'.next| == |s.next| && |s'.phase| == |s.phase|
    requires |s'.threads| == |s.threads| && s'.threads[u] == s.threads[u]
    requires s.threads[u].Idle? || s.threads[u].GetLoad? || LeftAlone(s, s', u, s.threads[u].n)
    ensures ThreadInv(s', u)
  {
  }

  lemma OtherThread(s: State, t: nat, u: nat)
    requires Inv(s) && t < |s.threads| && u < |s.threads| && u != t
    ensures ThreadInv(Advance(s, t), u)
  {
    assert ThreadInv(s, u);
    SameSizes(s, t, u);
    if !s.threads[u].Idle? && !s.threads[u].GetLoad? {
      NodeLeftAlone(s, t, u, s.threads[u].n);
    }
    KeepsFacts(s, Advance(s, t), u);
  }

  /** The next pointer of a node off the chain does not matter. */
  lemma Relinked(head: Option<Node>, next: seq<Option<Node>>, chain: seq<Node>, n: Node, to: Option<Node>)
    requires Spells(head, next, chain) && n < |next| && n !in chain
    ensures Spells(head, next[n := to], chain)
  {
  }

  lemma Pushed(head: Option<Node>, next: seq<Option<Node>>, chain: seq<Node>, n: Node)
    requires Spells(head, next, chain) && n < |next| && next[n] == head && n !in chain
    ensures Spells(Some(n), next, [n] + chain)
  {
    var all := [n] + chain;
    forall i | 0 <= i < |all| ensures all[i] < |next| && next[all[i]] == First(all[i + 1..]) {
      if i > 0 { assert all[i + 1..] == chain[i - 1 + 1..]; } else { assert all[1..] == chain; }
    }
  }

  lemma Popped(head: Option<Node>, next: seq<Option<Node>>, chain: seq<Node>, n: Node)
    requires Spells(head, next, chain) && head == Some(n)
    ensures n < |next| && chain == [n] + chain[1..] != chain[1..] && Spells(next[n], next, chain[1..])
  {
    var rest := chain[1..];
    assert next[chain[0]] == First(chain[0 + 1..]);
    forall i | 0 <= i < |rest| ensures rest[i] < |next| && next[rest[i]] == First(rest[i + 1..]) {
      assert rest[i + 1..] == chain[i + 1 + 1..];
    }
  }

  lemma ChainAfter(s: State, t: nat)
    requires Inv(s) && t < |s.threads|
    ensures ChainInv(Advance(s, t))
  {
    hide Readers, Spells;
    var s' := Advance(s, t);
    assert ThreadInv(s, t);
    if s.threads[t].AddSetNext? {
      var n := s.threads[t].n;
      assert NodeInv(s, n);
      Relinked(s.head, s.next, s.chain, n, s'.next[n]);
    } else if s'.chain != s.chain {
      var n := s.threads[t].n;
      assert NodeInv(s, n);
      if s.threads[t].AddSwing? {
        Pushed(s.head, s.next, s.chain, n);
      } else {
        Popped(s.head, s.next, s.chain, n);
      }
    }
  }

  lemma AdvanceInv(s: State, t: nat)
    requires Inv(s) && t < |s.threads|
    ensures Inv(Advance(s, t))
  {
    var s' := Advance(s, t);
    forall n | 0 <= n < |s'.refs| ensures NodeInv(s', n) {
      if s.threads[t].Idle? || s.threads[t].GetLoad? || s.threads[t].n != n {
        OtherNodes(s, t, n);
      } else if InAdd(s.threads[t]) {
        AddedNode(s, t);
      } else if s.threads[t].GetSwing? {
        TakenNode(s, t);
      } else if InTake(s.threads[t]) {
        DroppedNode(s, t);
      } else if s.threads[t].GetRelease? {
        ReleasedNode(s, t);
      } else if s.threads[t].GetAcquire? {
        AcquiredNode(s, t);
      } else {
        LookedNode(s, t);
      }
    }
    forall u | 0 <= u < |s.threads| ensures ThreadInv(s', u) {
      if u == t { MovedThread(s, t); } else { OtherThread(s, t, u); }
    }
    ChainAfter(s, t);
  }

  lemma StartInv(s: State, e: Event)
    requires Inv(s) && !e.Continue?
    ensures Inv(Step(s, e))
  {
    hide Readers, Spells;
    var s' := Step(s, e);
    if s' != s {
      forall n | 0 <= n < |s'.refs| ensures NodeInv(s', n) {
        assert NodeInv(s, n);
        ReadersAfter(s, e.t, s'.threads[e.t], n);
        assert s'.threads == s.threads[e.t := s'.threads[e.t]];
      }
      forall u | 0 <= u < |s'.threads| ensures ThreadInv(s', u) {
        assert ThreadInv(s, u);
      }
    }
  }

  lemma StepInv(s: State, e: Event)
    requires Inv(s)
    ensures Inv(Step(s, e))
  {
    if !e.Continue? {
      StartInv(s, e);
    } else if e.t < |s.threads| {
      AdvanceInv(s, e.t);
    }
  }

  lemma {:induction false} RunInv(s: State, events: seq<Event>)
    requires Inv(s)
    ensures Inv(Run(s, events))
    decreases |events|
  {
    if events != [] {
      StepInv(s, events[0]);
      RunInv(Step(s, events[0]), events[1..]);
    }
  }

  /* What the invariant means for callers */

  /** Thread `t` is between publishing the count of `n` and learning whether it linked it, or has
      unlinked `n` and not yet dropped the list's reference. */
  predicate NearList(pc: Pc, n: Node) {
    (Published(pc) || InTake(pc)) && pc.n == n
  }

  predicate OnOrNearList(s: State, n: Node) {
    n in s.chain || exists t :: 0 <= t < |s.threads| && NearList(s.threads[t], n)
  }

  lemma Reached(threads: nat, nodes: nat, events: seq<Event>)
    requires threads + 1 < SHOULD_BE_ON
    ensures Inv(Run(Init(threads, nodes), events))
  {
    InitInv(threads, nodes);
    RunInv(Init(threads, nodes), events);
  }

  /** The list hanging off freeListHead is `chain`: no node occurs twice, and following the next
      pointers from the head visits exactly these nodes before it meets null. */
  lemma ListIsAChain(threads: nat, nodes: nat, events: seq<Event>)
    requires threads + 1 < SHOULD_BE_ON
    ensures var s := Run(Init(threads, nodes), events);
            && s.head == First(s.chain)
            && (forall i, j :: 0 <= i < j < |s.chain| ==> s.chain[i] != s.chain[j])
            && (forall i :: 0 <= i < |s.chain| ==> s.chain[i] < |s.next|)
            && (forall i :: 0 <= i < |s.chain| ==>
                  s.next[s.chain[i]] == (if i + 1 < |s.chain| then Some(s.chain[i + 1]) else None))
  {
    Reached(threads, nodes, events);
    var s := Run(Init(threads, nodes), events);
    forall i | 0 <= i < |s.chain|
      ensures s.chain[i] < |s.next| && s.next[s.chain[i]] == (if i + 1 < |s.chain| then Some(s.chain[i + 1]) else None)
    {
      assert s.next[s.chain[i]] == First(s.chain[i + 1..]);
    }
  }

  /** A taken node has one taker and is off the list, and its should-be-on-list bit is clear: the
      assertion in `try_get`. */
  lemma TakenByOne(threads: nat, nodes: nat, events: seq<Event>, t: nat, u: nat)
    requires threads + 1 < SHOULD_BE_ON
    ensures var s := Run(Init(threads, nodes), events);
            t < |s.threads| && u < |s.threads| && InTake(s.threads[t]) ==>
              var n := s.threads[t].n;
              && n < |s.refs| && n !in s.chain && s.refs[n] < SHOULD_BE_ON
              && (InTake(s.threads[u]) && s.threads[u].n == n ==> u == t)
              && (InAdd(s.threads[u]) ==> s.threads[u].n != n)
  {
    Reached(threads, nodes, events);
    var s := Run(Init(threads, nodes), events);
    if t < |s.threads| && u < |s.threads| && InTake(s.threads[t]) {
      assert ThreadInv(s, t) && ThreadInv(s, u);
      assert NodeInv(s, s.threads[t].n);
      ReadersBound(s.threads, s.threads[t].n);
    }
  }

  /** The low 31 bits of a node's word are the list's reference plus the outstanding readers. */
  lemma CountIsExact(threads: nat, nodes: nat, events: seq<Event>, n: Node)
    requires threads + 1 < SHOULD_BE_ON
    ensures var s := Run(Init(threads, nodes), events);
            n < |s.refs| ==>
              s.refs[n] % SHOULD_BE_ON == Readers(s.threads, n) + (if OnOrNearList(s, n) then 1 else 0)
  {
    hide Init, Readers, Run, Inv;
    Reached(threads, nodes, events);
    var s := Run(Init(threads, nodes), events);
    if n < |s.refs| {
      assert NodeInv(s, n);
      ReadersBound(s.threads, n);
      forall t | 0 <= t < |s.threads| && NearList(s.threads[t], n) ensures ListRef(s, n) {
        assert ThreadInv(s, t);
      }
      if ListRef(s, n) && !s.phase[n].Linked? {
        assert NearList(s.threads[s.phase[n].t], n);
      }
    }
  }

  /** While any thread holds a reference to a node, no step of any thread changes its next pointer. */
  lemma NextIsStable(threads: nat, nodes: nat, events: seq<Event>, e: Event, n: Node)
    requires threads + 1 < SHOULD_BE_ON
    ensures var s := Run(Init(threads, nodes), events);
            n < |s.next| && Readers(s.threads, n) > 0 ==>
              n < |Step(s, e).next| && Step(s, e).next[n] == s.next[n]
  {
    Reached(threads, nodes, events);
    var s := Run(Init(threads, nodes), events);
    if n < |s.next| && e.t < |s.threads| {
      assert NodeInv(s, n);
      assert ThreadInv(s, e.t);
    }
  }

  /** `add` may set its bit with an addition: a node in a caller's hands has it clear. */
  lemma HeldIsUnflagged(threads: nat, nodes: nat, events: seq<Event>, n: Node)
    requires threads + 1 < SHOULD_BE_ON
    ensures var s := Run(Init(threads, nodes), events);
            n < |s.refs| && n < |s.phase| && s.phase[n].Held? ==> s.refs[n] < SHOULD_BE_ON && n !in s.chain
  {
    Reached(threads, nodes, events);
    var s := Run(Init(threads, nodes), events);
    if n < |s.refs| {
      assert NodeInv(s, n);
      ReadersBound(s.threads, n);
    }
  }

  lemma {:induction false} IdleReadsNothing(threads: seq<Pc>, n: Node)
    requires forall t :: 0 <= t < |threads| ==> threads[t].Idle?
    ensures Readers(threads, n) == 0
  {
    if threads != [] {
      IdleReadsNothing(threads[..|threads| - 1], n);
    }
  }

  /** When all threads are idle every node is with a caller or on the list: no `add` was forgotten. */
  lemma NothingIsLost(threads: nat, nodes: nat, events: seq<Event>)
    requires threads + 1 < SHOULD_BE_ON
    ensures var s := Run(Init(threads, nodes), events);
            (forall t :: 0 <= t < |s.threads| ==> s.threads[t].Idle?) ==>
              |s.phase| == |s.refs| &&
              forall n :: 0 <= n < |s.refs| ==>
                (s.phase[n].Held? && s.refs[n] == 0) || (n in s.chain && s.refs[n] == 1)
  {
    Reached(threads, nodes, events);
    var s := Run(Init(threads, nodes), events);
    if forall t :: 0 <= t < |s.threads| ==> s.threads[t].Idle? {
      forall n | 0 <= n < |s.refs|
        ensures (s.phase[n].Held? && s.refs[n] == 0) || (n in s.chain && s.refs[n] == 1)
      {
        assert NodeInv(s, n);
        IdleReadsNothing(s.threads, n);
      }
    }
  }

  /* What a thread does that is not disturbed */

  /** `k` operations of thread `t` one after the other. */
  function Steps(t: nat, k: nat): seq<Event> {
    if k == 0 then [] else [Continue(t)] + Steps(t, k - 1)
  }

  lemma RunSteps(s: State, t: nat, k: nat)
    requires k > 0
    ensures Run(s, Steps(t, k)) == Run(Step(s, Continue(t)), Steps(t, k - 1))
  {
    hide Step;
    assert Steps(t, k)[1..] == Steps(t, k - 1);
  }

  lemma RunNoSteps(s: State, t: nat)
    ensures Run(s, Steps(t, 0)) == s
  {
  }

  lemma RunStarted(s: State, e: Event, rest: seq<Event>)
    ensures Run(s, [e] + rest) == Run(Step(s, e), rest)
  {
    hide Step;
    assert ([e] + rest)[1..] == rest;
  }

  lemma HeadIsLinked(s: State)
    requires Inv(s) && s.chain != []
    ensures var n := s.chain[0];
            && n < |s.refs| == |s.next| == |s.phase| && s.head == Some(n) && s.phase[n].Linked?
            && s.next[n] == First(s.chain[1..])
            && 1 <= s.refs[n] < SHOULD_BE_ON
  {
    hide Readers;
    var n := s.chain[0];
    assert s.next[s.chain[0]] == First(s.chain[0 + 1..]);
    assert NodeInv(s, n);
    ReadersBound(s.threads, n);
  }

  /** The thread that continues stands at its next operation, and the state is as it leaves it. */
  lemma OneStep(s: State, t: nat, k: nat, s': State)
    requires t < |s.threads| && Advance(s, t) == s' && k > 0
    ensures Run(s, Steps(t, k)) == Run(s', Steps(t, k - 1))
  {
    RunSteps(s, t, k);
  }

  /** The head is read, its reference count is raised, and its link is read. */
  lemma AloneReads(s: State, t: nat)
    requires Inv(s) && t < |s.threads| && s.threads[t].Idle? && s.chain != []
    ensures var n := s.chain[0];
            n < |s.refs| && Run(s, [StartGet(t)] + Steps(t, 7))
            == Run(s.(refs := s.refs[n := s.refs[n] + 1],
                      threads := s.threads[t := GetSwing(n, First(s.chain[1..]))]), Steps(t, 3))
  {
    hide Run, Inv, Steps, Advance;
    HeadIsLinked(s);
    var n := s.chain[0];
    var s1 := s.(threads := s.threads[t := GetLoad]);
    var s2 := s.(threads := s.threads[t := GetRefs(n)]);
    var s3 := s.(threads := s.threads[t := GetAcquire(n, s.refs[n])]);
    var s4 := s.(refs := s.refs[n := s.refs[n] + 1], threads := s.threads[t := GetNext(n)]);
    var s5 := s4.(threads := s.threads[t := GetSwing(n, First(s.chain[1..]))]);
    RunStarted(s, StartGet(t), Steps(t, 7));
    Loads(s1, t, n);
    OneStep(s1, t, 7, s2);
    Looks(s2, t, n);
    OneStep(s2, t, 6, s3);
    Acquires(s3, t, n);
    OneStep(s3, t, 5, s4);
    ReadsNext(s4, t, n);
    OneStep(s4, t, 4, s5);
  }

  lemma Loads(s: State, t: nat, n: Node)
    requires t < |s.threads| && s.threads[t] == GetLoad && s.head == Some(n)
    ensures Advance(s, t) == s.(threads := s.threads[t := GetRefs(n)])
  {
  }

  lemma Looks(s: State, t: nat, n: Node)
    requires t < |s.threads| && s.threads[t] == GetRefs(n) && NodeOf(s, GetRefs(n)) && 0 < s.refs[n] < SHOULD_BE_ON
    ensures Advance(s, t) == s.(threads := s.threads[t := GetAcquire(n, s.refs[n])])
  {
    assert s.refs[n] % SHOULD_BE_ON == s.refs[n];
  }

  lemma Acquires(s: State, t: nat, n: Node)
    requires t < |s.threads| && NodeOf(s, GetNext(n)) && s.threads[t] == GetAcquire(n, s.refs[n])
    requires s.refs[n] < SHOULD_BE_ON
    ensures Advance(s, t) == s.(refs := s.refs[n := s.refs[n] + 1], threads := s.threads[t := GetNext(n)])
  {
  }

  lemma ReadsNext(s: State, t: nat, n: Node)
    requires t < |s.threads| && s.threads[t] == GetNext(n) && NodeOf(s, GetNext(n))
    ensures Advance(s, t) == s.(threads := s.threads[t := GetSwing(n, s.next[n])])
  {
  }

  /** The head is swung to the next node, and both references are given up. */
  lemma AloneTakes(s: State, t: nat, n: Node)
    requires t < |s.threads| && n < |s.refs| == |s.phase| == |s.next| && s.chain != [] && s.head == Some(n)
    requires s.threads[t] == GetSwing(n, First(s.chain[1..])) && 2 <= s.refs[n] <= SHOULD_BE_ON
    ensures Run(s, Steps(t, 3))
         == s.(head := First(s.chain[1..]), chain := s.chain[1..], refs := s.refs[n := s.refs[n] - 2],
               phase := s.phase[n := Held], threads := s.threads[t := Idle])
  {
    hide Steps, Run, First, Advance;
    var s1 := s.(head := First(s.chain[1..]), chain := s.chain[1..], phase := s.phase[n := Taking(t)],
                 threads := s.threads[t := GetCheck(n)]);
    var s2 := s1.(threads := s.threads[t := GetDrop(n)]);
    var s3 := s2.(refs := s.refs[n := s.refs[n] - 2], phase := s.phase[n := Held], threads := s.threads[t := Idle]);
    Swings(s, t, n, First(s.chain[1..]));
    OneStep(s, t, 3, s1);
    Drops(s1, t, n);
    OneStep(s1, t, 2, s2);
    assert s1.phase[n := Held] == s.phase[n := Held];
    OneStep(s2, t, 1, s3);
    RunNoSteps(s3, t);
  }

  lemma Swings(s: State, t: nat, n: Node, next: Option<Node>)
    requires t < |s.threads| && s.threads[t] == GetSwing(n, next) && NodeOf(s, GetNext(n)) && s.chain != []
    requires s.head == Some(n)
    ensures Advance(s, t) == s.(head := next, chain := s.chain[1..], phase := s.phase[n := Taking(t)],
                                threads := s.threads[t := GetCheck(n)])
  {
  }

  lemma Drops(s: State, t: nat, n: Node)
    requires t < |s.threads| && s.threads[t] == GetCheck(n) && NodeOf(s, GetNext(n)) && 2 <= s.refs[n] <= SHOULD_BE_ON
    ensures var s' := s.(threads := s.threads[t := GetDrop(n)]);
            && Advance(s, t) == s'
            && Advance(s', t) == s'.(refs := s.refs[n := s.refs[n] - 2], phase := s.phase[n := Held],
                                     threads := s.threads[t := Idle])
  {
    assert (s.refs[n] + WORD - 2) % WORD == s.refs[n] - 2;
    assert s.threads[t := GetDrop(n)][t := Idle] == s.threads[t := Idle];
  }

  /** From every state that can be reached, a `try_get` that is not disturbed takes the first node of the list and
      puts it into the hands of its caller. */
  lemma AloneGets(threads: nat, nodes: nat, events: seq<Event>, t: nat)
    requires threads + 1 < SHOULD_BE_ON
    ensures var s := Run(Init(threads, nodes), events);
            t < |s.threads| && s.threads[t].Idle? && s.chain != [] ==>
              var n := s.chain[0];
              && n < |s.refs| == |s.phase| && s.refs[n] > 0
              && Run(s, [StartGet(t)] + Steps(t, 7))
                 == s.(head := First(s.chain[1..]), chain := s.chain[1..], refs := s.refs[n := s.refs[n] - 1],
                       phase := s.phase[n := Held])
  {
    hide Run, Steps, Step, Readers;
    Reached(threads, nodes, events);
    var s := Run(Init(threads, nodes), events);
    if t < |s.threads| && s.threads[t].Idle? && s.chain != [] {
      var n := s.chain[0];
      HeadIsLinked(s);
      AloneReads(s, t);
      var busy := s.(refs := s.refs[n := s.refs[n] + 1], threads := s.threads[t := GetSwing(n, First(s.chain[1..]))]);
      AloneTakes(busy, t, n);
      assert busy.refs[n := s.refs[n] - 1] == s.refs[n := s.refs[n] - 1];
      assert busy.threads[t := Idle] == s.threads;
    }
  }

  /** The link of the node is set to the head, and its count to that of the list. */
  lemma AlonePrepares(s: State, t: nat, n: Node)
    requires t < |s.threads| && s.threads[t].Idle? && n < |s.refs| == |s.phase| == |s.next| && s.phase[n].Held?
    requires s.refs[n] == 0
    ensures Run(s, [StartAdd(t, n)] + Steps(t, 4))
         == Run(s.(refs := s.refs[n := 1], next := s.next[n := s.head], phase := s.phase[n := Adding(t)],
                   threads := s.threads[t := AddSwing(n, s.head, Return)]), Steps(t, 1))
  {
    hide Run, Steps, Advance;
    var s1 := s.(refs := s.refs[n := SHOULD_BE_ON], phase := s.phase[n := Adding(t)],
                 threads := s.threads[t := AddLoad(n, Return)]);
    var s2 := s1.(threads := s.threads[t := AddSetNext(n, s.head, Return)]);
    var s3 := s2.(next := s.next[n := s.head], threads := s.threads[t := AddSetRefs(n, s.head, Return)]);
    var s4 := s3.(refs := s.refs[n := 1], threads := s.threads[t := AddSwing(n, s.head, Return)]);
    RunStarted(s, StartAdd(t, n), Steps(t, 4));
    LoadsHead(s1, t, n);
    OneStep(s1, t, 4, s2);
    SetsNext(s2, t, n);
    OneStep(s2, t, 3, s3);
    SetsRefs(s3, t, n);
    assert s1.refs[n := 1] == s.refs[n := 1];
    OneStep(s3, t, 2, s4);
  }

  /** A node nobody reads is linked in front of the list. */
  lemma AloneLinks(s: State, t: nat, n: Node)
    requires t < |s.threads| && s.threads[t].Idle? && n < |s.refs| == |s.phase| == |s.next| && s.phase[n].Held?
    requires s.refs[n] == 0
    ensures Run(s, [StartAdd(t, n)] + Steps(t, 4))
         == s.(head := Some(n), chain := [n] + s.chain, refs := s.refs[n := 1], next := s.next[n := s.head],
               phase := s.phase[n := Linked])
  {
    hide Run, Steps, Advance;
    AlonePrepares(s, t, n);
    var s1 := s.(refs := s.refs[n := 1], next := s.next[n := s.head], phase := s.phase[n := Adding(t)],
                 threads := s.threads[t := AddSwing(n, s.head, Return)]);
    var s2 := s1.(head := Some(n), chain := [n] + s.chain, phase := s.phase[n := Linked], threads := s.threads);
    SwingsIn(s1, t, n);
    assert s1.phase[n := Linked] == s.phase[n := Linked] && s1.threads[t := Idle] == s.threads;
    OneStep(s1, t, 1, s2);
    RunNoSteps(s2, t);
  }

  lemma LoadsHead(s: State, t: nat, n: Node)
    requires t < |s.threads| && s.threads[t] == AddLoad(n, Return) && NodeOf(s, GetNext(n))
    ensures Advance(s, t) == s.(threads := s.threads[t := AddSetNext(n, s.head, Return)])
  {
  }

  lemma SetsNext(s: State, t: nat, n: Node)
    requires t < |s.threads| && s.threads[t] == AddSetNext(n, s.head, Return) && NodeOf(s, GetNext(n))
    ensures Advance(s, t)
         == s.(next := s.next[n := s.head], threads := s.threads[t := AddSetRefs(n, s.head, Return)])
  {
  }

  lemma SetsRefs(s: State, t: nat, n: Node)
    requires t < |s.threads| && s.threads[t] == AddSetRefs(n, s.head, Return) && NodeOf(s, GetNext(n))
    ensures Advance(s, t) == s.(refs := s.refs[n := 1], threads := s.threads[t := AddSwing(n, s.head, Return)])
  {
  }

  lemma SwingsIn(s: State, t: nat, n: Node)
    requires t < |s.threads| && s.threads[t] == AddSwing(n, s.head, Return) && NodeOf(s, GetNext(n))
    ensures Advance(s, t) == s.(head := Some(n), chain := [n] + s.chain, phase := s.phase[n := Linked],
                                threads := s.threads[t := Idle])
  {
  }

  /** And an `add` that is not disturbed puts a node nobody reads in front of the list. */
  lemma AloneAdds(threads: nat, nodes: nat, events: seq<Event>, t: nat, n: Node)
    requires threads + 1 < SHOULD_BE_ON
    ensures var s := Run(Init(threads, nodes), events);
            t < |s.threads| && s.threads[t].Idle? && n < |s.refs| && n < |s.phase| && s.phase[n].Held?
            && s.refs[n] == 0 ==>
              && n < |s.next|
              && Run(s, [StartAdd(t, n)] + Steps(t, 4))
                 == s.(head := Some(n), chain := [n] + s.chain, refs := s.refs[n := 1], next := s.next[n := s.head],
                       phase := s.phase[n := Linked])
  {
    hide Init, Run, Steps, NodeInv, ThreadInv, ChainInv;
    Reached(threads, nodes, events);
    var s := Run(Init(threads, nodes), events);
    if t < |s.threads| && s.threads[t].Idle? && n < |s.refs| && n < |s.phase| && s.phase[n].Held? && s.refs[n] == 0 {
      AloneLinks(s, t, n);
    }
  }
}
