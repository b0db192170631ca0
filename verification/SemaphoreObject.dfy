/** The semaphore as the object the service shares: fields updated in place. */
module SemaphoreObject {
  import opened Prelude
  import opened Semaphore
  import opened SemaphoreSafety

  datatype Answer = Granted(releaser: nat) | Full | PreAborted | Queued(arrival: nat)

  class WeightedSemaphore {
    const limit: nat
    const maxQueue: nat
    const queueTimeoutMs: int
    var inFlight: int
    var nextArrival: nat
    var queue: seq<Entry>
    var timers: map<nat, Entry>
    var listeners: map<nat, Entry>
    var releasers: seq<Releaser>
    var totalAdmitted: nat
    var totalRejectedFull: nat
    var totalQueueTimeouts: nat
    var totalAborted: nat
    var calls: nat
    ghost var log: seq<Event>

    ghost function View(): Pool
      reads this
    {
      Pool(limit, maxQueue, queueTimeoutMs, inFlight, nextArrival, queue, timers, listeners, releasers,
           totalAdmitted, totalRejectedFull, totalQueueTimeouts, totalAborted, calls, log)
    }

    ghost predicate Valid()
      reads this
    {
      Inv(View())
    }

    constructor (limit: real, maxQueue: Option<real>, queueTimeoutMs: Option<int>)
      ensures View() == Create(limit, maxQueue, queueTimeoutMs) && Valid()
    {
      var lim := Max(1, limit.Floor);
      this.limit := lim;
      this.maxQueue := Max(0, maxQueue.GetOr((lim * 8) as real).Floor);
      this.queueTimeoutMs := Max(0, queueTimeoutMs.GetOr(10000));
      inFlight, nextArrival, queue, timers, listeners, releasers := 0, 0, [], map[], map[], [];
      totalAdmitted, totalRejectedFull, totalQueueTimeouts, totalAborted := 0, 0, 0, 0;
      calls, log := 0, [];
      new;
      CreateInv(limit, maxQueue, queueTimeoutMs);
    }

    method Acquire(req: Request) returns (answer: Answer)
      requires Valid()
      modifies this
      ensures View() == Semaphore.Acquire(old(View()), req) && Valid()
      ensures answer.PreAborted? <==> req.signal.AlreadyAborted?
      ensures answer.Granted? ==> answer.releaser == |old(releasers)| && |releasers| == |old(releasers)| + 1
      ensures answer.Queued? ==> |queue| == |old(queue)| + 1 && answer.arrival == old(nextArrival)
      ensures answer.Full? ==> queue == old(queue) && |queue| == maxQueue
    {
      assert Ordered(queue) && |queue| <= maxQueue;
      answer := Admission(req);
      AcquireKeeps(old(View()), req);
    }

    /** The body of an acquisition; it relies on the queue order and nothing else. */
    method Admission(req: Request) returns (answer: Answer)
      requires Ordered(queue)
      modifies this
      ensures View() == Semaphore.Acquire(old(View()), req)
      ensures answer.PreAborted? <==> req.signal.AlreadyAborted?
      ensures answer.Granted? ==> answer.releaser == |old(releasers)| && |releasers| == |old(releasers)| + 1
      ensures answer.Queued? ==> |queue| == |old(queue)| + 1 && answer.arrival == old(nextArrival)
      ensures answer.Full? ==> queue == old(queue) && |queue| >= maxQueue
    {
      var weight := Clamp(limit, req.weight);
      if req.signal.AlreadyAborted? {
        answer := PreAborted;
      } else {
        var entry := Entry(calls, weight, req.priority.GetOr(0.0), nextArrival, req.now,
                           req.queueTimeoutMs.GetOr(queueTimeoutMs) > 0, req.signal.Live?);
        calls := calls + 1;
        if inFlight + weight <= limit && |queue| == 0 {
          var releaser := Resolve(entry);
          answer := Granted(releaser);
        } else if |queue| >= maxQueue {
          totalRejectedFull := totalRejectedFull + 1;
          log := log + [RejectedFull(entry.call)];
          answer := Full;
        } else {
          Wait(entry);
          answer := Queued(entry.arrival);
        }
      }
    }

    /** Charge the weight of an admitted call and hand out its release function. */
    method Resolve(entry: Entry) returns (releaser: nat)
      modifies this`inFlight, this`totalAdmitted, this`releasers, this`log
      ensures View() == Grant(old(View()), entry) && releaser == |old(releasers)|
    {
      log := log + [Admitted(entry, queue, inFlight)];
      inFlight := inFlight + entry.weight;
      totalAdmitted := totalAdmitted + 1;
      releaser := MakeReleaser(entry.weight);
    }

    method MakeReleaser(weight: nat) returns (releaser: nat)
      modifies this`releasers
      ensures releasers == old(releasers) + [Releaser(weight, false)] && releaser == |old(releasers)|
    {
      releasers := releasers + [Releaser(weight, false)];
      releaser := |releasers| - 1;
    }

    /** Arm the timer and the abort listener of `entry`, then queue it. */
    method Wait(entry: Entry)
      requires Ordered(queue)
      modifies this`nextArrival, this`timers, this`listeners, this`queue
      ensures View().(calls := calls + 1) == Enqueue(old(View()), entry)
    {
      nextArrival := nextArrival + 1;
      if entry.hasTimer {
        timers := timers[entry.arrival := entry];
      }
      if entry.hasListener {
        listeners := listeners[entry.arrival := entry];
      }
      Insert(entry);
    }

    /** Insertion by priority, then arrival: scan backwards over the lower priorities. */
    method Insert(entry: Entry)
      requires Ordered(queue)
      modifies this`queue
      ensures queue == InsertAt(old(queue), Ahead(old(queue), entry.priority), entry)
    {
      var idx := |queue|;
      AheadSplits(queue, entry.priority);
      while idx > 0 && queue[idx - 1].priority < entry.priority
        invariant Ahead(queue, entry.priority) <= idx <= |queue|
      {
        idx := idx - 1;
      }
      queue := InsertAt(queue, idx, entry);
    }

    /** The release function number `k`. */
    method Release(k: nat)
      requires Valid() && k < |releasers|
      modifies this
      ensures View() == Semaphore.Release(old(View()), k) && Valid()
    {
      RunReleaser(k);
      StepKeeps(old(View()), DoRelease(k));
    }

    method RunReleaser(k: nat)
      requires k < |releasers|
      modifies this
      ensures View() == Semaphore.Release(old(View()), k)
    {
      if releasers[k].released {
        return;
      }
      releasers := releasers[k := releasers[k].(released := true)];
      inFlight := inFlight - releasers[k].weight;
      PumpQueue();
    }

    method PumpQueue()
      modifies this
      ensures View() == Pump(old(View()))
    {
      while |queue| > 0
        invariant Pump(View()) == Pump(old(View()))
        decreases |queue|
      {
        var next := queue[0];
        if inFlight + next.weight > limit {
          var idx := FindIndex(next.priority);
          if idx == |queue| {
            return;
          }
          PumpOnce(View(), idx);
          Admit(idx);
        } else {
          PumpOnce(View(), 0);
          Admit(0);
        }
      }
    }

    /** The first waiter of this priority that fits, or the end of the queue if there is none. */
    method FindIndex(priority: real) returns (idx: nat)
      ensures idx <= |queue|
      ensures FirstFit(queue, priority, limit - inFlight) == if idx == |queue| then None else Some(idx)
    {
      idx := 0;
      while idx < |queue| && !(queue[idx].priority == priority && inFlight + queue[idx].weight <= limit)
        invariant 0 <= idx <= |queue|
        invariant forall j :: 0 <= j < idx ==> !(queue[j].priority == priority && queue[j].weight <= limit - inFlight)
      {
        idx := idx + 1;
      }
    }

    /** Take the entry at `idx` out of the queue, clean it up and resolve it. */
    method Admit(idx: nat)
      requires idx < |queue|
      modifies this
      ensures View() == AdmitAt(old(View()), idx)
    {
      var fitting := queue[idx];
      queue := RemoveAt(queue, idx);
      CleanupEntry(fitting);
      var releaser := Resolve(fitting);
    }

    method CleanupEntry(entry: Entry)
      modifies this`timers, this`listeners
      ensures View() == Disarm(old(View()), entry)
    {
      if entry.hasTimer {
        timers := timers - {entry.arrival};
      }
      if entry.hasListener {
        listeners := listeners - {entry.arrival};
      }
    }

    method Dequeue(entry: Entry)
      modifies this`queue, this`timers, this`listeners
      ensures View() == RemoveQueued(old(View()), entry)
    {
      var idx := 0;
      while idx < |queue| && queue[idx] != entry
        invariant 0 <= idx <= |queue|
        invariant entry !in queue[..idx]
      {
        idx := idx + 1;
      }
      if idx == |queue| {
        return;
      }
      ghost var first := IndexOf(queue, entry).value;
      FirstIndex(queue, entry, idx);
      queue := RemoveAt(queue, idx);
      CleanupEntry(entry);
    }

    /** The callback of an armed timer; it counts without looking whether the entry was queued. */
    method OnTimer(a: nat, now: int)
      requires Valid() && a in timers
      modifies this
      ensures View() == TimerFires(old(View()), a, now) && Valid()
      ensures totalQueueTimeouts == old(totalQueueTimeouts) + 1 && |queue| == |old(queue)| - 1
    {
      TimerKeeps(View(), a, now);
      var entry := timers[a];
      timers := timers - {a};
      Dequeue(entry);
      totalQueueTimeouts := totalQueueTimeouts + 1;
      log := log + [TimedOut(entry.call, now - entry.enqueuedAt)];
    }

    /** The callback of a registered abort listener. */
    method OnAbort(a: nat)
      requires Valid() && a in listeners
      modifies this
      ensures View() == SignalAborts(old(View()), a) && Valid()
      ensures totalAborted == old(totalAborted) + 1 && |queue| == |old(queue)| - 1
    {
      SignalKeeps(View(), a);
      var entry := listeners[a];
      listeners := listeners - {a};
      Dequeue(entry);
      totalAborted := totalAborted + 1;
      log := log + [Aborted(entry.call)];
    }

    method RejectWaiter(entry: Entry)
      modifies this
      ensures View() == Semaphore.RejectWaiter(old(View()), entry)
    {
      CleanupEntry(entry);
      totalAborted := totalAborted + 1;
      log := log + [Aborted(entry.call)];
    }

    method AbortQueued() returns (n: nat)
      requires Valid()
      modifies this
      ensures View() == Semaphore.AbortQueued(old(View())) && Valid()
      ensures n == |old(queue)| && queue == [] && inFlight == old(inFlight)
    {
      AbortAllKeeps(View());
      n := |queue|;
      var waiters := queue;
      queue := [];
      var i := 0;
      while i < |waiters|
        invariant 0 <= i <= |waiters|
        invariant queue == [] && inFlight == old(inFlight)
        invariant AbortAll(View(), waiters[i..]) == Semaphore.AbortQueued(old(View()))
      {
        RejectWaiter(waiters[i]);
        assert waiters[i..][1..] == waiters[i + 1..];
        i := i + 1;
      }
    }
  }

  lemma {:induction false} FirstIndex(q: seq<Entry>, e: Entry, i: nat)
    requires i < |q| && q[i] == e && e !in q[..i]
    ensures IndexOf(q, e) == Some(i)
  {
    if i > 0 {
      assert q[0] in q[..i];
      assert q[1..][..i - 1] == q[..i][1..];
      FirstIndex(q[1..], e, i - 1);
    }
  }
}
