/** When a waiter is left in the queue although it fits and nobody of higher priority waits. */
module SemaphoreMissed {
  import opened Prelude
  import opened Semaphore
  import opened SemaphoreSafety
  import opened SemaphoreRuns

  predicate Fits(p: Pool, e: Entry) {
    p.inFlight + e.weight <= p.limit
  }

  /** Some waiter of the head's priority fits: a pump would admit it. */
  predicate Missed(p: Pool) {
    p.queue != [] && exists e <- p.queue :: e.priority == p.queue[0].priority && Fits(p, e)
  }

  /** A pump admits somebody exactly in such a state. */
  lemma MissedMeansNext(p: Pool)
    ensures Missed(p) <==> Next(p).Some?
  {
    if Next(p).Some? { assert p.queue[Next(p).value] in p.queue; }
  }

  // ---------------------------------------------------------------- arrivals

  /** The call has to wait behind others although it fits, and nobody of higher priority waits. */
  predicate ArrivesFitting(p: Pool, req: Request) {
    && !req.signal.AlreadyAborted? && p.queue != [] && |p.queue| < p.maxQueue
    && req.priority.GetOr(0.0) >= p.queue[0].priority
    && p.inFlight + Clamp(p.limit, req.weight) <= p.limit
  }

  lemma EnqueueMissesIff(p: Pool, e: Entry)
    requires Ordered(p.queue) && p.queue != [] && !Missed(p)
    ensures Missed(Enqueue(p, e)) <==> e.priority >= p.queue[0].priority && Fits(p, e)
  {
    var n := Ahead(p.queue, e.priority);
    var q := Enqueue(p, e);
    AheadSplits(p.queue, e.priority);
    InsertMembers(p.queue, n, e);
    if e.priority > p.queue[0].priority {
      assert forall j :: 0 < j < |p.queue| ==> Before(p.queue[0], p.queue[j]);
      assert q.queue[0] == e;
    } else {
      assert q.queue[0] == p.queue[0];
    }
  }

  /** An arrival leaves a fitting waiter exactly when it is one itself. */
  lemma ArrivalMissesIff(p: Pool, req: Request)
    requires Inv(p) && !Missed(p)
    ensures Missed(Acquire(p, req)) <==> ArrivesFitting(p, req)
  {
    var e := NewEntry(p, req);
    if !req.signal.AlreadyAborted? && |p.queue| < p.maxQueue {
      if p.queue != [] {
        EnqueueMissesIff(p, e);
      } else if !Fits(p, e) {
        assert Enqueue(p, e).queue == [e];
      }
    }
  }

  // ---------------------------------------------------------------- departures

  /** `e` is the last of the top tier, and somebody of the next tier fits. */
  predicate LeavesFitting(p: Pool, e: Entry) {
    && |p.queue| > 1 && e == p.queue[0] && p.queue[1].priority != e.priority
    && exists x <- p.queue :: x.priority == p.queue[1].priority && Fits(p, x)
  }

  lemma RemovalMissesIff(p: Pool, i: nat)
    requires Ordered(p.queue) && i < |p.queue| && !Missed(p)
    ensures Missed(p.(queue := RemoveAt(p.queue, i))) <==> LeavesFitting(p, p.queue[i])
  {
    var rest := RemoveAt(p.queue, i);
    RemoveKeepsOrder(p.queue, i);
    RemoveSeparates(p.queue, i);
    if i > 0 {
      assert rest[0] == p.queue[0] && p.queue[i] != p.queue[0];
    } else if |p.queue| > 1 {
      assert rest[0] == p.queue[1];
    }
  }

  /** Whose timer or listener it is. */
  function Leaver(p: Pool, op: Op): Option<Entry> {
    match op
    case DoTimer(a, _) => if a in p.timers then Some(p.timers[a]) else None
    case DoSignal(a) => if a in p.listeners then Some(p.listeners[a]) else None
    case _ => None
  }

  /** What a timer or a signal leaves in the queue. */
  lemma LeaverLeaves(p: Pool, op: Op) returns (i: nat)
    requires Inv(p) && Leaver(p, op).Some?
    ensures i < |p.queue| && p.queue[i] == Leaver(p, op).value
    ensures var q := Step(p, op);
            q.queue == RemoveAt(p.queue, i) && q.inFlight == p.inFlight && q.limit == p.limit
  {
    i := IndexOf(p.queue, Leaver(p, op).value).value;
  }

  /** A timeout or an abort leaves a fitting waiter exactly when it takes away the last one of the
      top tier and somebody of the next tier fits. */
  lemma DepartureMissesIff(p: Pool, op: Op)
    requires Inv(p) && !Missed(p) && Leaver(p, op).Some?
    ensures Missed(Step(p, op)) <==> LeavesFitting(p, Leaver(p, op).value)
  {
    var i := LeaverLeaves(p, op);
    RemovalMissesIff(p, i);
    var q := Step(p, op);
    assert Missed(q) <==> Missed(p.(queue := RemoveAt(p.queue, i)));
  }

  // ---------------------------------------------------------------- runs

  predicate Misses(p: Pool, op: Op) {
    match op
    case DoAcquire(req) => ArrivesFitting(p, req)
    case DoRelease(_) => false
    case DoAbortQueued => false
    case _ => Leaver(p, op).Some? && LeavesFitting(p, Leaver(p, op).value)
  }

  lemma ReleaseMissesNobody(p: Pool, k: nat)
    requires Inv(p) && !Missed(p)
    ensures !Missed(Release(p, k))
  {
    if k < |p.releasers| && !p.releasers[k].released { ReleaseLeavesNoFit(p, k); }
  }

  lemma StepMissesIff(p: Pool, op: Op)
    requires Inv(p) && !Missed(p)
    ensures Missed(Step(p, op)) <==> Misses(p, op)
  {
    match op
    case DoAcquire(req) => ArrivalMissesIff(p, req);
    case DoRelease(k) => ReleaseMissesNobody(p, k);
    case DoAbortQueued => AbortAllKeeps(p);
    case _ => if Leaver(p, op).Some? { DepartureMissesIff(p, op); }
  }

  /** No step of the run leaves a fitting waiter. */
  predicate NeverMisses(p: Pool, ops: seq<Op>)
    decreases |ops|
  {
    ops == [] || (!Misses(p, ops[0]) && NeverMisses(Step(p, ops[0]), ops[1..]))
  }

  /** At no moment of the run a waiter is missed. */
  predicate NobodyMissed(p: Pool, ops: seq<Op>)
    decreases |ops|
  {
    !Missed(p) && (ops == [] || NobodyMissed(Step(p, ops[0]), ops[1..]))
  }

  lemma {:induction false} RunMissesIff(p: Pool, ops: seq<Op>)
    requires Inv(p) && !Missed(p)
    ensures NobodyMissed(p, ops) <==> NeverMisses(p, ops)
    decreases |ops|
  {
    if ops != [] {
      StepMissesIff(p, ops[0]);
      StepKeeps(p, ops[0]);
      if !Misses(p, ops[0]) { RunMissesIff(Step(p, ops[0]), ops[1..]); }
    }
  }

  /** When the pool is used as far as its order allows: at every moment of a run nobody of the top
      priority that waits would fit, exactly when no call of at least the top priority arrives
      fitting at a queue, and no timeout or abort takes the last one of the top tier from before
      one that fits. */
  lemma NobodyMissedIff(limit: real, maxQueue: Option<real>, timeoutMs: Option<int>, ops: seq<Op>)
    ensures NobodyMissed(Create(limit, maxQueue, timeoutMs), ops) <==> NeverMisses(Create(limit, maxQueue, timeoutMs), ops)
  {
    CreateInv(limit, maxQueue, timeoutMs);
    RunMissesIff(Create(limit, maxQueue, timeoutMs), ops);
  }

  // ---------------------------------------------------------------- a departure that does

  function Ask(weight: real, priority: real): Op {
    DoAcquire(Request(Some(weight), Some(priority), NoSignal, Some(5), 0))
  }

  /** Two calls fill a pool of four, a big one of higher priority waits, a small one waits behind
      it, and the first call releases. */
  const FIRST: seq<Op> := [Ask(2.0, 0.0), Ask(2.0, 0.0), Ask(4.0, 1.0), Ask(2.0, 0.0), DoRelease(0)]

  const BIG := Entry(2, 4, 1.0, 0, 0, true, false)
  const SMALL := Entry(3, 2, 0.0, 1, 0, true, false)

  ghost predicate Holders(p: Pool, n: nat) {
    && p.limit == 4 && p.maxQueue == 32 && p.inFlight == 2 * n && p.queue == [] && p.timers == map[]
    && p.nextArrival == 0 && p.calls == n && |p.releasers| == n && forall r <- p.releasers :: r == Releaser(2, false)
  }

  lemma HolderEnters(p: Pool, n: nat)
    requires Holders(p, n) && n < 2
    ensures Holders(Step(p, Ask(2.0, 0.0)), n + 1)
  {
  }

  lemma BigWaits(p: Pool)
    requires Holders(p, 2)
    ensures var q := Step(p, Ask(4.0, 1.0)); q == p.(queue := [BIG], nextArrival := 1, calls := 3, timers := map[0 := BIG])
  {
    assert NewEntry(p, Ask(4.0, 1.0).req) == BIG;
  }

  lemma SmallWaits(p: Pool)
    requires p.limit == 4 && p.maxQueue == 32 && p.inFlight == 4 && p.queue == [BIG] && p.timers == map[0 := BIG]
    requires p.nextArrival == 1 && p.calls == 3
    ensures var q := Step(p, Ask(2.0, 0.0)); q == p.(queue := [BIG, SMALL], nextArrival := 2, calls := 4, timers := map[0 := BIG, 1 := SMALL])
  {
    assert NewEntry(p, Ask(2.0, 0.0).req) == SMALL;
    assert Ahead([BIG], 0.0) == 1 by { assert [BIG][1..] == []; }
  }

  lemma OneReleases(p: Pool)
    requires p.limit == 4 && p.inFlight == 4 && p.queue == [BIG, SMALL] && |p.releasers| == 2 && p.releasers[0] == Releaser(2, false)
    ensures Step(p, DoRelease(0)) == GiveBack(p, 0)
  {
    var g := GiveBack(p, 0);
    assert g.queue[1..] == [SMALL] && [SMALL][1..] == [];
    assert FirstFit([SMALL], 1.0, 2) == None;
    assert Next(g) == None;
  }

  lemma FirstWaits(p: Pool)
    requires Holders(p, 0)
    ensures var q := Run(p, FIRST);
            && q.limit == 4 && q.inFlight == 2 && q.queue == [BIG, SMALL] && q.timers == map[0 := BIG, 1 := SMALL]
  {
    var p1 := Step(p, FIRST[0]);
    HolderEnters(p, 0);
    var p2 := Step(p1, FIRST[1]);
    HolderEnters(p1, 1);
    BigWaits(p2);
    var p3 := Step(p2, FIRST[2]);
    SmallWaits(p3);
    var p4 := Step(p3, FIRST[3]);
    OneReleases(p4);
    var p5 := Step(p4, FIRST[4]);
    RunFive(p, FIRST);
  }

  lemma RunFive(p: Pool, ops: seq<Op>)
    requires |ops| == 5
    ensures Run(p, ops) == Step(Step(Step(Step(Step(p, ops[0]), ops[1]), ops[2]), ops[3]), ops[4])
  {
    assert ops == ([] + [ops[0]] + [ops[1]] + [ops[2]] + [ops[3]]) + [ops[4]];
    RunAppend(p, [], ops[0]);
    RunAppend(p, [] + [ops[0]], ops[1]);
    RunAppend(p, [] + [ops[0]] + [ops[1]], ops[2]);
    RunAppend(p, [] + [ops[0]] + [ops[1]] + [ops[2]], ops[3]);
    RunAppend(p, [] + [ops[0]] + [ops[1]] + [ops[2]] + [ops[3]], ops[4]);
  }

  /** A run in which the small waiter does not fit when it arrives, fits after the release but is
      behind the big one, and is left alone in the queue when the big one's time is up. */
  lemma DepartureMisses()
    ensures var p := Run(Create(4.0, None, None), FIRST);
            && p.queue == [BIG, SMALL] && !Missed(p) && Fits(p, SMALL)
            && Run(Create(4.0, None, None), FIRST + [DoTimer(0, 6)]).queue == [SMALL]
            && Missed(Run(Create(4.0, None, None), FIRST + [DoTimer(0, 6)]))
  {
    assert (32 as real).Floor == 32;
    FirstWaits(Create(4.0, None, None));
    var p := Run(Create(4.0, None, None), FIRST);
    RunAppend(Create(4.0, None, None), FIRST, DoTimer(0, 6));
    TimerTakesBig(p);
  }

  lemma TimerTakesBig(p: Pool)
    requires p.limit == 4 && p.inFlight == 2 && p.queue == [BIG, SMALL] && p.timers == map[0 := BIG, 1 := SMALL]
    ensures !Missed(p) && Step(p, DoTimer(0, 6)).queue == [SMALL] && Missed(Step(p, DoTimer(0, 6)))
  {
    assert IndexOf(p.queue, BIG) == Some(0);
    var q := Step(p, DoTimer(0, 6));
    assert q.queue == [SMALL] && SMALL in q.queue && q.inFlight == 2;
  }
}
