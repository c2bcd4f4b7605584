/** The thread pool: a circular job queue under one mutex.

    A method of `Pool` is one critical section, so any interleaving of workers, adders, resizers and
    the joining thread is a sequence of method calls. A thread that waits on a condition variable is
    one whose call returns without effect and is made again. */
module JobPool {
  /** A worker is at the top of its loop, runs a job outside the mutex, or has returned. */
  datatype Worker<Job> = Looking | Running(job: Job) | Returned

  datatype Option<+T> = None | Some(value: T)

  /** One critical section: a worker's next one, an attempt to add, a resize, or the shutdown. */
  datatype Event<Job> = Work(t: nat) | Submit(job: Job, blocking: bool) | Grow(numThreads: nat, created: nat) | Close

  function CountRunning<Job>(workers: seq<Worker<Job>>): nat {
    if workers == [] then 0
    else CountRunning(workers[..|workers| - 1]) + (if workers[|workers| - 1].Running? then 1 else 0)
  }

  lemma {:induction false} CountOfUpdate<Job>(workers: seq<Worker<Job>>, t: nat, w: Worker<Job>)
    requires t < |workers|
    ensures CountRunning(workers[t := w])
         == CountRunning(workers) + (if w.Running? then 1 else 0) - (if workers[t].Running? then 1 else 0)
  {
    var last := |workers| - 1;
    if t < last {
      CountOfUpdate(workers[..last], t, w);
      assert workers[t := w][..last] == workers[..last][t := w];
    } else {
      assert workers[t := w][..last] == workers[..last];
    }
  }

  lemma {:induction false} CountOfAppend<Job>(workers: seq<Worker<Job>>, more: nat)
    ensures CountRunning(workers + seq(more, _ => Looking)) == CountRunning(workers)
  {
    if more == 0 {
      assert workers + seq<Worker<Job>>(0, _ => Looking) == workers;
    } else {
      CountOfAppend(workers, more - 1);
      assert (workers + seq<Worker<Job>>(more, _ => Looking))[..|workers| + more - 1]
          == workers + seq<Worker<Job>>(more - 1, _ => Looking);
    }
  }

  lemma {:induction false} SomeoneRuns<Job>(workers: seq<Worker<Job>>) returns (t: nat)
    requires CountRunning(workers) > 0
    ensures t < |workers| && workers[t].Running?
  {
    var last := |workers| - 1;
    if workers[last].Running? {
      t := last;
    } else {
      t := SomeoneRuns(workers[..last]);
    }
  }

  predicate SomeoneLeft<Job>(workers: seq<Worker<Job>>) {
    exists t :: 0 <= t < |workers| && !workers[t].Returned?
  }

  predicate EveryoneLeft<Job>(workers: seq<Worker<Job>>) {
    |workers| > 0 && forall t :: 0 <= t < |workers| ==> !workers[t].Returned?
  }

  lemma StaysLeft<Job>(workers: seq<Worker<Job>>, t: nat, w: Worker<Job>)
    requires t < |workers| && !w.Returned?
    ensures SomeoneLeft(workers[t := w])
    ensures EveryoneLeft(workers) ==> EveryoneLeft(workers[t := w])
  {
    assert !workers[t := w][t].Returned?;
  }

  /** The number of waiting jobs. A queue of one slot has head == tail whether or not it is empty. */
  function Count(size: nat, head: nat, tail: nat, empty: bool): nat
    requires head < size && tail < size
  {
    if empty then 0 else if head < tail then tail - head else tail + size - head
  }

  /** The waiting jobs: those stored from `head` on, wrapping around the end of the array. */
  function Jobs<Job>(queue: seq<Job>, head: nat, tail: nat, empty: bool): (r: seq<Job>)
    requires head < |queue| && tail < |queue|
    ensures |r| == Count(|queue|, head, tail, empty)
  {
    if empty then [] else if head < tail then queue[head..tail] else queue[head..] + queue[..tail]
  }

  function Next(slot: nat, size: nat): nat {
    if slot + 1 == size then 0 else slot + 1
  }

  /** The next slot is found with a remainder. */
  lemma NextIsRemainder(slot: nat, size: nat)
    requires slot < size
    ensures Next(slot, size) == (slot + 1) % size
  {
    if slot + 1 < size {
      SmallMod(slot + 1, size);
    }
  }

  lemma SmallMod(x: nat, size: nat)
    requires x < size
    ensures x % size == x
  {
  }

  /** Moving the head to the next slot drops the first job. */
  lemma JobsPop<Job>(queue: seq<Job>, head: nat, tail: nat)
    requires head < |queue| && tail < |queue|
    ensures var next := Next(head, |queue|);
            Jobs(queue, head, tail, false) == [queue[head]] + Jobs(queue, next, tail, next == tail)
  {
  }

  /** Writing the tail slot of a queue with room appends a job. */
  lemma JobsPush<Job>(queue: seq<Job>, head: nat, tail: nat, empty: bool, job: Job)
    requires head < |queue| && tail < |queue| && (empty <==> head == tail)
    ensures Jobs(queue[tail := job], head, Next(tail, |queue|), false) == Jobs(queue, head, tail, empty) + [job]
  {
  }

  class Pool<Job(0)> {
    const queue: array<Job>       // queueSize is its length
    var queueHead: nat
    var queueTail: nat
    var numThreadsBusy: nat
    var queueEmpty: bool
    var shutdown: bool
    var threadLimit: nat
    var workers: seq<Worker<Job>> // one per started thread; threadCapacity is its length

    ghost var accepted: seq<Job>  // every job put on the queue, in order
    ghost var started: seq<Job>   // every job a worker began to run, in order

    ghost predicate Shaped()
      reads this
    {
      queue.Length > 0 && queueHead < queue.Length && queueTail < queue.Length
    }

    ghost function Waiting(): seq<Job>
      reads this, queue
      requires Shaped()
    {
      Jobs(queue[..], queueHead, queueTail, queueEmpty)
    }

    ghost predicate Valid()
      reads this, queue
    {
      && Shaped()
      && accepted == started + Waiting()
      && numThreadsBusy == CountRunning(workers)
      && (queueEmpty ==> queueHead == queueTail)
      && (queue.Length > 1 ==> (queueEmpty <==> queueHead == queueTail))
      && threadLimit >= 1
      && (!queueEmpty ==> SomeoneLeft(workers))
      && (!shutdown ==> EveryoneLeft(workers))
    }

    constructor (numThreads: nat, queueSize: nat)
      requires numThreads > 0
      ensures Valid() && Waiting() == [] && accepted == [] && started == []
      ensures queue.Length == queueSize + 1 && threadLimit == numThreads && |workers| == numThreads
      ensures !shutdown && fresh(queue) && numThreadsBusy == 0
      ensures forall t :: 0 <= t < |workers| ==> workers[t].Looking?
    {
      queue := new Job[queueSize + 1];
      queueHead, queueTail, numThreadsBusy := 0, 0, 0;
      queueEmpty, shutdown := true, false;
      threadLimit := numThreads;
      workers := seq(numThreads, _ => Looking);
      accepted, started := [], [];
      new;
      CountOfAppend<Job>([], numThreads);
      assert [] + workers == workers;
    }

    /** The first critical section of `POOL_thread`, for worker `t`. */
    method Look(t: nat) returns (job: Option<Job>)
      requires Valid() && t < |workers| && workers[t].Looking?
      modifies this
      ensures Valid()
      ensures accepted == old(accepted) && threadLimit == old(threadLimit) && shutdown == old(shutdown)
      ensures job.None? <==> old(Waiting()) == [] || old(numThreadsBusy) >= old(threadLimit)
      ensures job.None? ==> started == old(started) && Waiting() == old(Waiting())
      ensures job.None? ==> workers == if shutdown then old(workers)[t := Returned] else old(workers)
      ensures job.Some? ==> old(Waiting()) == [job.value] + Waiting() && started == old(started) + [job.value]
      ensures job.Some? ==> workers == old(workers)[t := Running(job.value)]
      ensures numThreadsBusy == old(numThreadsBusy) + (if job.Some? then 1 else 0)
    {
      if queueEmpty || numThreadsBusy >= threadLimit {
        if shutdown {
          CountOfUpdate(workers, t, Returned);
          if !queueEmpty {
            var u := SomeoneRuns(workers);
            assert workers[t := Returned][u].Running?;
          }
          workers := workers[t := Returned];
        }
        return None;
      }
      job := Pop(t);
    }

    /** The part of that section that pops a job off the queue. */
    method Pop(t: nat) returns (job: Option<Job>)
      requires Valid() && t < |workers| && workers[t].Looking? && !queueEmpty && numThreadsBusy < threadLimit
      modifies this
      ensures Valid()
      ensures accepted == old(accepted) && threadLimit == old(threadLimit) && shutdown == old(shutdown)
      ensures job.Some? && old(Waiting()) == [job.value] + Waiting() && started == old(started) + [job.value]
      ensures workers == old(workers)[t := Running(job.value)] && numThreadsBusy == old(numThreadsBusy) + 1
    {
      JobsPop(queue[..], queueHead, queueTail);
      var next := queue[queueHead];
      CountOfUpdate(workers, t, Running(next));
      StaysLeft(workers, t, Running(next));
      queueHead := Next(queueHead, queue.Length);
      numThreadsBusy := numThreadsBusy + 1;
      queueEmpty := queueHead == queueTail;
      workers := workers[t := Running(next)];
      started := started + [next];
      assert old(Waiting()) == [next] + Waiting();
      job := Some(next);
    }

    /** The second critical section of `POOL_thread`. */
    method Finish(t: nat)
      requires Valid() && t < |workers| && workers[t].Running?
      modifies this`numThreadsBusy, this`workers
      ensures Valid() && Waiting() == old(Waiting())
      ensures workers == old(workers)[t := Looking] && numThreadsBusy == old(numThreadsBusy) - 1
    {
      CountOfUpdate(workers, t, Looking);
      StaysLeft(workers, t, Looking);
      numThreadsBusy := numThreadsBusy - 1;
      workers := workers[t := Looking];
    }

    /** A queue built for size zero has one slot, and is meant to accept a job only for a free thread. */
    predicate IsQueueFull()
      reads this
      requires Shaped()
    {
      if queue.Length > 1 then queueHead == Next(queueTail, queue.Length)
      else numThreadsBusy == threadLimit || !queueEmpty
    }

    method AddInternal(job: Job)
      requires Valid() && !IsQueueFull()
      modifies this, queue
      ensures Valid()
      ensures shutdown == old(shutdown) && threadLimit == old(threadLimit) && workers == old(workers)
      ensures started == old(started) && numThreadsBusy == old(numThreadsBusy)
      ensures accepted == if shutdown then old(accepted) else old(accepted) + [job]
      ensures Waiting() == if shutdown then old(Waiting()) else old(Waiting()) + [job]
    {
      if shutdown { return; }
      ghost var before := queue[..];
      JobsPush(before, queueHead, queueTail, queueEmpty, job);
      queueEmpty := false;
      queue[queueTail] := job;
      assert queue[..] == before[queueTail := job];
      queueTail := Next(queueTail, queue.Length);
      accepted := accepted + [job];
      assert Waiting() == old(Waiting()) + [job];
      assert !workers[0].Returned?;
    }

    /** One attempt of `POOL_add`: it waits, and is called again, while the queue is full. */
    method Add(job: Job) returns (done: bool)
      requires Valid()
      modifies this, queue
      ensures Valid()
      ensures shutdown == old(shutdown) && threadLimit == old(threadLimit) && workers == old(workers)
      ensures started == old(started) && numThreadsBusy == old(numThreadsBusy)
      ensures done <==> !old(IsQueueFull()) || shutdown
      ensures accepted == if done && !shutdown then old(accepted) + [job] else old(accepted)
      ensures Waiting() == if done && !shutdown then old(Waiting()) + [job] else old(Waiting())
    {
      if IsQueueFull() {
        return shutdown;
      }
      AddInternal(job);
      return true;
    }

    /** `POOL_tryAdd` reports success for a job that a shut-down pool drops. */
    method TryAdd(job: Job) returns (ok: bool)
      requires Valid()
      modifies this, queue
      ensures Valid()
      ensures shutdown == old(shutdown) && threadLimit == old(threadLimit) && workers == old(workers)
      ensures started == old(started) && numThreadsBusy == old(numThreadsBusy)
      ensures ok <==> !old(IsQueueFull())
      ensures accepted == if ok && !shutdown then old(accepted) + [job] else old(accepted)
      ensures Waiting() == if ok && !shutdown then old(Waiting()) + [job] else old(Waiting())
    {
      if IsQueueFull() {
        return false;
      }
      AddInternal(job);
      return true;
    }

    /** `created` is how many of the new threads `pthread_create` manages to start. */
    method Resize(numThreads: nat, created: nat) returns (error: bool)
      requires Valid()
      modifies this`threadLimit, this`workers
      ensures Valid() && Waiting() == old(Waiting())
      ensures error <==> numThreads == 0 || created < numThreads - |old(workers)|
      ensures threadLimit == if error then old(threadLimit) else numThreads
      ensures old(workers) <= workers && |workers| <= |old(workers)| + created
      ensures forall t :: |old(workers)| <= t < |workers| ==> workers[t].Looking?
      ensures !error ==> |workers| >= numThreads
    {
      if numThreads <= |workers| {
        if numThreads == 0 { return true; }
        threadLimit := numThreads;
        return false;
      }
      var missing := numThreads - |workers|;
      var more := if created < missing then created else missing;
      CountOfAppend(workers, more);
      ghost var before := workers;
      workers := workers + seq(more, _ => Looking);
      assert forall t :: 0 <= t < |before| ==> workers[t] == before[t];
      if more < missing {
        return true;
      }
      threadLimit := numThreads;
      return false;
    }

    /** The critical section of `POOL_join`; the threads are joined afterwards. */
    method Join()
      requires Valid()
      modifies this`shutdown
      ensures Valid() && shutdown && Waiting() == old(Waiting())
    {
      shutdown := true;
    }

    /** Any schedule of workers, adders, resizers and the joining thread. */
    method Run(events: seq<Event<Job>>)
      requires Valid()
      modifies this, queue
      ensures Valid() && old(accepted) <= accepted && old(started) <= started
      ensures old(shutdown) ==> shutdown && accepted == old(accepted)
    {
      var i := 0;
      while i < |events|
        invariant 0 <= i <= |events|
        invariant Valid() && old(accepted) <= accepted && old(started) <= started
        invariant old(shutdown) ==> shutdown && accepted == old(accepted)
      {
        Act(events[i]);
        i := i + 1;
      }
    }

    method Act(e: Event<Job>)
      requires Valid()
      modifies this, queue
      ensures Valid() && old(accepted) <= accepted && old(started) <= started
      ensures old(shutdown) ==> shutdown && accepted == old(accepted)
    {
      match e {
        case Work(t) =>
          if t < |workers| && workers[t].Looking? {
            var job := Look(t);
          } else if t < |workers| && workers[t].Running? {
            Finish(t);
          }
        case Submit(job, blocking) =>
          if blocking {
            var done := Add(job);
          } else {
            var ok := TryAdd(job);
          }
        case Grow(numThreads, created) =>
          var error := Resize(numThreads, created);
        case Close => Join();
      }
    }

    /* What the invariant means for callers */

    /** Jobs start in the order they were accepted, each once, and the rest are exactly those waiting. */
    lemma FifoOnce()
      requires Valid()
      ensures started <= accepted && accepted[|started|..] == Waiting()
      ensures |accepted| == |started| + |Waiting()|
    {
    }

    /** The flag agrees with the ring for one slot and for more. */
    lemma EmptyFlag()
      requires Valid()
      ensures queueEmpty <==> Waiting() == []
    {
    }

    /** A ring of several slots keeps one free. A ring of one slot is full while its job waits or the limit of busy
        threads is just reached. */
    lemma FullMeansNoRoom()
      requires Valid()
      ensures queue.Length > 1 ==> (IsQueueFull() <==> |Waiting()| >= queue.Length - 1)
      ensures queue.Length == 1 ==> (IsQueueFull() <==> Waiting() != [] || numThreadsBusy == threadLimit)
    {
    }

    /** That a ring of one slot which is not full has a free thread holds as long as the limit was not lowered below
        the number of busy threads. */
    lemma RoomMeansFreeThread()
      requires Valid() && queue.Length == 1 && Waiting() == []
      ensures (!IsQueueFull() ==> numThreadsBusy < threadLimit) <==> numThreadsBusy <= threadLimit
    {
    }

    /** A job is added and a thread takes it. */
    method Occupy(t: nat, job: Job)
      requires Valid() && queue.Length == 1 && Waiting() == [] && !shutdown
      requires t < |workers| && workers[t].Looking? && numThreadsBusy < threadLimit
      modifies this, queue
      ensures Valid() && Waiting() == [] && !shutdown && threadLimit == old(threadLimit)
      ensures workers == old(workers)[t := Running(job)] && numThreadsBusy == old(numThreadsBusy) + 1
    {
      hide Jobs, CountRunning, SomeoneLeft, EveryoneLeft, Next;
      FullMeansNoRoom();
      var done := Add(job);
      ghost var waiting := Waiting();
      assert waiting == [job];
      var next := Look(t);
      assert waiting == [next.value] + Waiting();
      assert |Waiting()| == 0 && waiting[0] == next.value;
    }

    /** When the pool is shut down and every thread has returned, every accepted job has been started. */
    lemma JoinedMeansDone()
      requires Valid() && forall t :: 0 <= t < |workers| ==> workers[t].Returned?
      ensures started == accepted && numThreadsBusy == 0
    {
      EmptyFlag();
      NobodyRuns(workers);
    }
  }

  lemma {:induction false} NobodyRuns<Job>(workers: seq<Worker<Job>>)
    requires forall t :: 0 <= t < |workers| ==> !workers[t].Running?
    ensures CountRunning(workers) == 0
  {
    if workers != [] {
      NobodyRuns(workers[..|workers| - 1]);
    }
  }

  /** Two threads are busy when the limit is lowered to one: no thread is free, and the queue is not full. */
  method LowerTheLimit<Job(0)>(job: Job) returns (pool: Pool<Job>)
    ensures fresh(pool) && pool.Valid() && pool.queue.Length == 1 && pool.Waiting() == []
    ensures pool.numThreadsBusy > pool.threadLimit && !pool.IsQueueFull()
    ensures forall t :: 0 <= t < |pool.workers| ==> pool.workers[t].Running?
  {
    hide Jobs, CountRunning, SomeoneLeft, EveryoneLeft;
    pool := new Pool(2, 0);
    pool.Occupy(0, job);
    pool.Occupy(1, job);
    var error := pool.Resize(1, 0);
    pool.FullMeansNoRoom();
  }
}
