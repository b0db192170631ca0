/** The theorems about whole runs of one semaphore, from its creation. */
module SemaphoreRuns {
  import opened Prelude
  import opened Semaphore
  import opened SemaphoreSafety

  /** The state after a run from a fresh semaphore. */
  function Reached(limit: real, maxQueue: Option<real>, timeoutMs: Option<int>, ops: seq<Op>): Pool {
    Run(Create(limit, maxQueue, timeoutMs), ops)
  }

  lemma ReachedInv(limit: real, maxQueue: Option<real>, timeoutMs: Option<int>, ops: seq<Op>)
    ensures Inv(Reached(limit, maxQueue, timeoutMs, ops))
  {
    CreateInv(limit, maxQueue, timeoutMs);
    RunKeeps(Create(limit, maxQueue, timeoutMs), ops);
  }

  /** Accounting: the weight in flight is the weight not yet given back and stays under the
      limit; each call is settled once or still queued; the four counters add up. */
  lemma Accounting(limit: real, maxQueue: Option<real>, timeoutMs: Option<int>, ops: seq<Op>)
    ensures var p := Reached(limit, maxQueue, timeoutMs, ops);
            && p.inFlight == Held(p.releasers) <= p.limit
            && |p.queue| <= p.maxQueue
            && (forall c: nat :: Settled(p.log, c) + WaitingFor(p.queue, c) == if c < p.calls then 1 else 0)
            && TallyOf(p.log) == Tally(p.totalAdmitted, p.totalRejectedFull, p.totalQueueTimeouts, p.totalAborted)
            && p.totalAdmitted + p.totalRejectedFull + p.totalQueueTimeouts + p.totalAborted + |p.queue| == p.calls
  {
    ReachedInv(limit, maxQueue, timeoutMs, ops);
  }

  /** Priority safety: every admission of every run fitted, passed nobody of higher priority,
      and passed an earlier waiter of its own priority only when that one did not fit. */
  lemma PrioritySafe(limit: real, maxQueue: Option<real>, timeoutMs: Option<int>, ops: seq<Op>, i: nat, w: Entry)
    requires var p := Reached(limit, maxQueue, timeoutMs, ops);
             i < |p.log| && p.log[i].Admitted? && w in p.log[i].waiting
    ensures var p := Reached(limit, maxQueue, timeoutMs, ops);
            var ev := p.log[i];
            && ev.before + ev.entry.weight <= p.limit
            && w.priority <= ev.entry.priority
            && (w.priority == ev.entry.priority && w.arrival < ev.entry.arrival ==> ev.before + w.weight > p.limit)
  {
    ReachedInv(limit, maxQueue, timeoutMs, ops);
    var p := Reached(limit, maxQueue, timeoutMs, ops);
    assert Respects(p.limit, p.log[i]);
  }

  /** No lost wakeup: whenever somebody waits, some release function is still unused. */
  lemma NoLostWakeup(limit: real, maxQueue: Option<real>, timeoutMs: Option<int>, ops: seq<Op>)
    ensures var p := Reached(limit, maxQueue, timeoutMs, ops);
            p.queue != [] ==> exists k :: 0 <= k < |p.releasers| && !p.releasers[k].released
  {
    ReachedInv(limit, maxQueue, timeoutMs, ops);
    HeldVersusOutstanding(Reached(limit, maxQueue, timeoutMs, ops).releasers);
  }

  /** Nobody waits forever: a queued caller with a queue timeout still has its timer pending,
      and one with a live signal still has its listener. */
  lemma NobodyIsForgotten(limit: real, maxQueue: Option<real>, timeoutMs: Option<int>, ops: seq<Op>, e: Entry)
    requires e in Reached(limit, maxQueue, timeoutMs, ops).queue
    ensures var p := Reached(limit, maxQueue, timeoutMs, ops);
            && (e.hasTimer ==> e.arrival in p.timers && p.timers[e.arrival] == e)
            && (e.hasListener ==> e.arrival in p.listeners && p.listeners[e.arrival] == e)
  {
    ReachedInv(limit, maxQueue, timeoutMs, ops);
  }

  // ---------------------------------------------------------------- releasing

  /** A pump only hands out new release functions; the old ones keep their flag. */
  lemma {:induction false} PumpExtends(p: Pool)
    ensures p.releasers <= Pump(p).releasers
    ensures Pump(p).limit == p.limit
    ensures |Pump(p).releasers| + |Pump(p).queue| == |p.releasers| + |p.queue|
    decreases |p.queue|
  {
    match Next(p)
    case None =>
    case Some(i) => PumpExtends(AdmitAt(p, i));
  }

  /** A call is charged the allowed weight that is nearest to the whole part of what it asks, and one
      unit if it asks for nothing. */
  lemma ChargeIsNearest(limit: nat, weight: real, n: nat)
    requires 1 <= n <= limit
    ensures 1 <= Clamp(limit, Some(weight)) <= limit
    ensures var d, e := Clamp(limit, Some(weight)) - weight.Floor, n - weight.Floor;
            (if d < 0 then -d else d) <= (if e < 0 then -e else e)
    ensures Clamp(limit, None) == 1
  {
  }

  /** What becomes of a call that was not aborted beforehand: exactly one of admission at once,
      refusal and waiting. It is admitted when nobody waits and its charge fits, and refused when
      it is not admitted and the queue is full. */
  lemma AcquireDecides(limit: real, maxQueue: Option<real>, timeoutMs: Option<int>, ops: seq<Op>, req: Request)
    requires !req.signal.AlreadyAborted?
    ensures var p := Reached(limit, maxQueue, timeoutMs, ops);
            var q := Acquire(p, req);
            var admitted, refused, waits := |q.releasers| - |p.releasers|, q.totalRejectedFull - p.totalRejectedFull, |q.queue| - |p.queue|;
            && admitted + refused + waits == 1
            && (admitted == 1 <==> p.queue == [] && Held(p.releasers) + Clamp(p.limit, req.weight) <= p.limit)
            && (refused == 1 <==> admitted == 0 && |p.queue| == p.maxQueue)
  {
    ReachedInv(limit, maxQueue, timeoutMs, ops);
  }

  /** Calling a release function twice is calling it once. */
  lemma ReleaseIsIdempotent(p: Pool, k: nat)
    ensures Release(Release(p, k), k) == Release(p, k)
  {
    if k < |p.releasers| && !p.releasers[k].released {
      PumpExtends(GiveBack(p, k));
      assert Release(p, k).releasers[k].released;
    }
  }

  /** Right after an effective release, nobody of the head's priority could still be admitted. */
  lemma ReleaseLeavesNoFit(p: Pool, k: nat)
    requires Inv(p) && k < |p.releasers| && !p.releasers[k].released
    ensures var q := Release(p, k);
            forall e <- q.queue :: e.priority == q.queue[0].priority ==> q.inFlight + e.weight > q.limit
  {
    GiveBackKeeps(p, k);
    PumpKeeps(GiveBack(p, k));
  }

  /** Only releases pump: a call that fits waits behind a head of the same priority that does not
      fit, and goes on waiting alone when the head's time is up. So the previous lemma cannot be
      strengthened from releases to every operation. */
  lemma FittingEntryMayWait()
    ensures var three := Request(Some(3.0), None, NoSignal, None, 0);
            var two := Request(Some(2.0), None, NoSignal, Some(5), 1);
            var one := Request(Some(1.0), None, NoSignal, None, 2);
            var before := Reached(4.0, None, None, [DoAcquire(three), DoAcquire(two), DoAcquire(one)]);
            var p := Reached(4.0, None, None, [DoAcquire(three), DoAcquire(two), DoAcquire(one), DoTimer(0, 6)]);
            && |before.queue| == 2 && before.queue[0].priority == before.queue[1].priority
            && before.inFlight + before.queue[1].weight <= before.limit
            && |p.queue| == 1 && p.inFlight + p.queue[0].weight <= p.limit
  {
    var p0 := Create(4.0, None, None);
    var p1 := Acquire(p0, Request(Some(3.0), None, NoSignal, None, 0));
    assert p1.inFlight == 3 && p1.queue == [];
    var p2 := Acquire(p1, Request(Some(2.0), None, NoSignal, Some(5), 1));
    var e := Entry(1, 2, 0.0, 0, 1, true, false);
    assert p2.queue == [e] && p2.timers == map[0 := e];
    var p3 := Acquire(p2, Request(Some(1.0), None, NoSignal, None, 2));
    var f := Entry(2, 1, 0.0, 1, 2, true, false);
    assert Ahead(p2.queue, 0.0) == 1;
    assert p3.queue == [e, f];
    var p4 := TimerFires(p3, 0, 6);
    assert IndexOf(p3.queue, e) == Some(0);
    assert p4.queue == [f];
    var ops := [DoAcquire(Request(Some(3.0), None, NoSignal, None, 0)),
                DoAcquire(Request(Some(2.0), None, NoSignal, Some(5), 1)),
                DoAcquire(Request(Some(1.0), None, NoSignal, None, 2)), DoTimer(0, 6)];
    assert Run(p0, ops) == Run(p1, ops[1..]);
    assert Run(p1, ops[1..]) == Run(p2, ops[1..][1..]);
    assert Run(p2, ops[1..][1..]) == Run(p3, ops[1..][1..][1..]);
    var first := [ops[0], ops[1], ops[2]];
    assert Run(p0, first) == Run(p1, first[1..]);
    assert Run(p1, first[1..]) == Run(p2, first[1..][1..]);
    assert Run(p2, first[1..][1..]) == Run(p3, []);
    assert Run(p3, ops[1..][1..][1..]) == Run(p4, []);
  }

  lemma {:induction false} RunConcat(p: Pool, a: seq<Op>, b: seq<Op>)
    ensures Run(p, a + b) == Run(Run(p, a), b)
    decreases |a|
  {
    if a == [] {
      assert a + b == b;
    } else {
      assert (a + b)[1..] == a[1..] + b;
      RunConcat(Step(p, a[0]), a[1..], b);
    }
  }

  lemma RunAppend(p: Pool, ops: seq<Op>, op: Op)
    ensures Run(p, ops + [op]) == Step(Run(p, ops), op)
  {
    RunConcat(p, ops, [op]);
    assert [op][1..] == [];
    assert Run(Run(p, ops), [op]) == Run(Step(Run(p, ops), op), []);
  }

  // ---------------------------------------------------------------- draining

  /** Release functions still to be used, and waiters who will get one: each counts twice
      while it waits, because it has to be admitted first. */
  function Remaining(p: Pool): nat {
    2 * |p.queue| + Outstanding(p.releasers)
  }

  lemma {:induction false} PumpRemaining(p: Pool)
    ensures Remaining(Pump(p)) <= Remaining(p)
    decreases |p.queue|
  {
    match Next(p)
    case None =>
    case Some(i) =>
      HeldAppend(p.releasers, Releaser(p.queue[i].weight, false));
      PumpRemaining(AdmitAt(p, i));
  }

  /** A run of releases, every one of them by a release function not used before. */
  ghost predicate Releases(p: Pool, ks: seq<nat>)
    decreases |ks|
  {
    ks == [] ||
    (ks[0] < |p.releasers| && !p.releasers[ks[0]].released && Releases(Release(p, ks[0]), ks[1..]))
  }

  function ReleaseAll(p: Pool, ks: seq<nat>): Pool
    decreases |ks|
  {
    if ks == [] then p else ReleaseAll(Release(p, ks[0]), ks[1..])
  }

  /** One effective release brings the end nearer. */
  lemma ReleaseAdvances(p: Pool, k: nat)
    requires Inv(p) && k < |p.releasers| && !p.releasers[k].released
    ensures var q := Release(p, k);
            && Inv(q)
            && Remaining(q) < Remaining(p)
            && |q.releasers| + |q.queue| == |p.releasers| + |p.queue|
  {
    StepKeeps(p, DoRelease(k));
    HeldGiveBack(p.releasers, k);
    PumpRemaining(GiveBack(p, k));
    PumpExtends(GiveBack(p, k));
  }

  /** No deadlock: whatever order holders release in, they release at most `Remaining` times,
      and when no release function is left unused the queue is empty, nothing is in flight
      and exactly the waiters have been admitted on the way. */
  lemma {:induction false} ReleasesDrain(p: Pool, ks: seq<nat>)
    requires Inv(p) && Releases(p, ks)
    ensures var q := ReleaseAll(p, ks);
            && Inv(q)
            && |ks| + Remaining(q) <= Remaining(p)
            && |q.releasers| + |q.queue| == |p.releasers| + |p.queue|
            && (Outstanding(q.releasers) == 0 ==> q.queue == [] && q.inFlight == 0)
    decreases |ks|
  {
    if ks == [] {
      HeldVersusOutstanding(p.releasers);
    } else {
      ReleaseAdvances(p, ks[0]);
      ReleasesDrain(Release(p, ks[0]), ks[1..]);
    }
  }
}
