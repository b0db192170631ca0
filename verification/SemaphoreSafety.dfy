/**
 What every run of the semaphore keeps: exact accounting, one settlement per call,
 queue order, priority-safe admission, and no lost wakeup.
 */
module SemaphoreSafety {
  import opened Prelude
  import opened Semaphore

  // ---------------------------------------------------------------- counting

  /** The weight of the admissions not yet released. */
  function Held(rs: seq<Releaser>): nat {
    if rs == [] then 0
    else Held(rs[..|rs| - 1]) + if rs[|rs| - 1].released then 0 else rs[|rs| - 1].weight
  }

  /** The number of admissions not yet released. */
  function Outstanding(rs: seq<Releaser>): nat {
    if rs == [] then 0
    else Outstanding(rs[..|rs| - 1]) + if rs[|rs| - 1].released then 0 else 1
  }

  /** How often the promise of call `c` has been settled. */
  function Settled(log: seq<Event>, c: nat): nat {
    if log == [] then 0
    else Settled(log[..|log| - 1], c) + if log[|log| - 1].Call() == c then 1 else 0
  }

  /** How many queued entries belong to call `c`. */
  function WaitingFor(queue: seq<Entry>, c: nat): nat {
    if queue == [] then 0
    else (if queue[0].call == c then 1 else 0) + WaitingFor(queue[1..], c)
  }

  datatype Tally = Tally(admitted: nat, full: nat, timeouts: nat, aborted: nat)

  /** The four kinds of settlement in a log, counted. */
  function TallyOf(log: seq<Event>): Tally {
    if log == [] then Tally(0, 0, 0, 0)
    else
      var t := TallyOf(log[..|log| - 1]);
      match log[|log| - 1]
      case Admitted(_, _, _) => t.(admitted := t.admitted + 1)
      case RejectedFull(_) => t.(full := t.full + 1)
      case TimedOut(_, _) => t.(timeouts := t.timeouts + 1)
      case Aborted(_) => t.(aborted := t.aborted + 1)
  }

  // ---------------------------------------------------------------- invariants

  ghost predicate Bounded(p: Pool) {
    && 1 <= p.limit
    && p.inFlight == Held(p.releasers) <= p.limit
    && |p.queue| <= p.maxQueue
    && (forall r <- p.releasers :: 1 <= r.weight <= p.limit)
    && (forall e <- p.queue :: 1 <= e.weight <= p.limit && e.arrival < p.nextArrival)
  }

  /** `a` goes before `b`: higher priority, or the same priority and earlier arrival. */
  predicate Before(a: Entry, b: Entry) {
    a.priority > b.priority || (a.priority == b.priority && a.arrival < b.arrival)
  }

  ghost predicate Ordered(queue: seq<Entry>) {
    && (forall i, j :: 0 <= i < j < |queue| ==> Before(queue[i], queue[j]))
    && (forall i, j :: 0 <= i < j < |queue| ==> queue[i].arrival != queue[j].arrival)
  }

  /** Timers and listeners are armed for queued entries only, and a queued entry never loses
      the ones it was given. */
  ghost predicate Armed(p: Pool) {
    && (forall a <- p.timers :: p.timers[a].arrival == a && p.timers[a].hasTimer && p.timers[a] in p.queue)
    && (forall a <- p.listeners :: p.listeners[a].arrival == a && p.listeners[a].hasListener && p.listeners[a] in p.queue)
    && (forall e <- p.queue :: e.hasTimer ==> e.arrival in p.timers)
    && (forall e <- p.queue :: e.hasListener ==> e.arrival in p.listeners)
  }

  /** Every call made so far is either waiting or settled, once; no other call is. */
  ghost predicate Conserved(p: Pool) {
    forall c: nat :: Settled(p.log, c) + WaitingFor(p.queue, c) == if c < p.calls then 1 else 0
  }

  ghost predicate Counted(p: Pool) {
    && TallyOf(p.log) == Tally(p.totalAdmitted, p.totalRejectedFull, p.totalQueueTimeouts, p.totalAborted)
    && p.totalAdmitted == |p.releasers|
    && p.totalAdmitted + p.totalRejectedFull + p.totalQueueTimeouts + p.totalAborted + |p.queue| == p.calls
  }

  /** An admission that respects the queue: it fits, nobody of higher priority waits, and
      an earlier waiter of the same priority did not fit. */
  ghost predicate Respects(limit: nat, ev: Event) {
    ev.Admitted? ==>
      && ev.before + ev.entry.weight <= limit
      && forall w <- ev.waiting ::
           && w.priority <= ev.entry.priority
           && (w.priority == ev.entry.priority && w.arrival < ev.entry.arrival ==>
                 ev.before + w.weight > limit)
  }

  ghost predicate Fair(p: Pool) {
    forall ev <- p.log :: Respects(p.limit, ev)
  }

  /** A waiting queue means somebody still owes a release. */
  ghost predicate Awake(p: Pool) {
    p.queue != [] ==> p.inFlight > 0
  }

  /** What also holds in the middle of a pump. */
  ghost predicate Steady(p: Pool) {
    Bounded(p) && Ordered(p.queue) && Armed(p) && Conserved(p) && Counted(p) && Fair(p)
  }

  ghost predicate Inv(p: Pool) {
    Steady(p) && Awake(p)
  }

  // ---------------------------------------------------------------- list facts

  lemma HeldAppend(rs: seq<Releaser>, r: Releaser)
    ensures Held(rs + [r]) == Held(rs) + if r.released then 0 else r.weight
    ensures Outstanding(rs + [r]) == Outstanding(rs) + if r.released then 0 else 1
  {
    assert (rs + [r])[..|rs|] == rs;
  }

  lemma {:induction false} HeldGiveBack(rs: seq<Releaser>, k: nat)
    requires k < |rs| && !rs[k].released
    ensures Held(rs[k := rs[k].(released := true)]) == Held(rs) - rs[k].weight
    ensures Outstanding(rs[k := rs[k].(released := true)]) == Outstanding(rs) - 1
  {
    var n := |rs| - 1;
    var rs' := rs[k := rs[k].(released := true)];
    if k == n {
      assert rs'[..n] == rs[..n];
    } else {
      HeldGiveBack(rs[..n], k);
      assert rs'[..n] == rs[..n][k := rs[k].(released := true)];
    }
  }

  lemma {:induction false} HeldVersusOutstanding(rs: seq<Releaser>)
    requires forall r <- rs :: 1 <= r.weight
    ensures Held(rs) == 0 <==> Outstanding(rs) == 0
    ensures Outstanding(rs) > 0 <==> exists k :: 0 <= k < |rs| && !rs[k].released
  {
    if rs != [] {
      var n := |rs| - 1;
      HeldVersusOutstanding(rs[..n]);
      if rs[n].released {
        assert forall k :: 0 <= k < n ==> rs[..n][k] == rs[k];
      }
    }
  }

  lemma LogAppend(log: seq<Event>, ev: Event)
    ensures forall c: nat :: Settled(log + [ev], c) == Settled(log, c) + if ev.Call() == c then 1 else 0
    ensures TallyOf(log + [ev]).admitted == TallyOf(log).admitted + if ev.Admitted? then 1 else 0
    ensures TallyOf(log + [ev]).full == TallyOf(log).full + if ev.RejectedFull? then 1 else 0
    ensures TallyOf(log + [ev]).timeouts == TallyOf(log).timeouts + if ev.TimedOut? then 1 else 0
    ensures TallyOf(log + [ev]).aborted == TallyOf(log).aborted + if ev.Aborted? then 1 else 0
  {
    assert (log + [ev])[..|log|] == log;
  }

  lemma {:induction false} WaitingRemove(q: seq<Entry>, i: nat, c: nat)
    requires i < |q|
    ensures WaitingFor(q, c) == WaitingFor(RemoveAt(q, i), c) + if q[i].call == c then 1 else 0
  {
    if i == 0 {
      assert RemoveAt(q, 0) == q[1..];
    } else {
      WaitingRemove(q[1..], i - 1, c);
      assert RemoveAt(q, i)[1..] == RemoveAt(q[1..], i - 1);
    }
  }

  lemma WaitingInsert(q: seq<Entry>, i: nat, e: Entry, c: nat)
    requires i <= |q|
    ensures WaitingFor(InsertAt(q, i, e), c) == WaitingFor(q, c) + if e.call == c then 1 else 0
  {
    WaitingRemove(InsertAt(q, i, e), i, c);
    assert RemoveAt(InsertAt(q, i, e), i) == q;
  }

  lemma {:induction false} AheadSplits(q: seq<Entry>, priority: real)
    requires Ordered(q)
    ensures forall j :: 0 <= j < Ahead(q, priority) ==> q[j].priority >= priority
    ensures forall j :: Ahead(q, priority) <= j < |q| ==> q[j].priority < priority
  {
    if q != [] {
      AheadSplits(q[1..], priority);
      assert forall j :: 1 <= j < |q| ==> q[j] == q[1..][j - 1];
      if q[0].priority < priority {
        assert forall j :: 1 <= j < |q| ==> Before(q[0], q[j]);
      }
    }
  }

  lemma RemoveKeepsOrder(q: seq<Entry>, i: nat)
    requires i < |q| && Ordered(q)
    ensures Ordered(RemoveAt(q, i))
    ensures forall e <- q :: e == q[i] || e in RemoveAt(q, i)
    ensures q[i] !in RemoveAt(q, i)
  {
    var r := RemoveAt(q, i);
    assert forall j :: 0 <= j < |r| ==> r[j] == q[if j < i then j else j + 1];
    forall e | e in q && e != q[i] ensures e in r {
      var j :| 0 <= j < |q| && q[j] == e;
      assert r[if j < i then j else j - 1] == e;
    }
  }

  /** Nobody who stays has the arrival number of the one who leaves. */
  lemma RemoveSeparates(q: seq<Entry>, i: nat)
    requires i < |q| && Ordered(q)
    ensures forall e <- RemoveAt(q, i) :: e in q && e.arrival != q[i].arrival
  {
    forall e | e in RemoveAt(q, i) ensures e in q && e.arrival != q[i].arrival {
      var r := RemoveAt(q, i);
      var j :| 0 <= j < |r| && r[j] == e;
      assert e == q[if j < i then j else j + 1];
    }
  }

  lemma InsertKeepsOrder(q: seq<Entry>, e: Entry)
    requires Ordered(q)
    requires forall x <- q :: x.arrival < e.arrival
    ensures Ordered(InsertAt(q, Ahead(q, e.priority), e))
  {
    AheadSplits(q, e.priority);
    var n := Ahead(q, e.priority);
    var r := InsertAt(q, n, e);
    forall i, j | 0 <= i < j < |r| ensures Before(r[i], r[j]) && r[i].arrival != r[j].arrival {
      var x, y := if i < n then i else i - 1, if j < n then j else j - 1;
      if i == n {
        assert r[j] == q[y] && q[y] in q;
      } else if j == n {
        assert r[i] == q[x] && q[x] in q;
      } else {
        assert r[i] == q[x] && r[j] == q[y];
      }
    }
  }

  // ---------------------------------------------------------------- steps

  /** An entry leaves the queue and its call is settled by `ev`, nothing else changes. */
  lemma DequeueSettles(p: Pool, i: nat, ev: Event, q: Pool)
    requires Conserved(p) && i < |p.queue| && ev.Call() == p.queue[i].call
    requires q.queue == RemoveAt(p.queue, i) && q.log == p.log + [ev] && q.calls == p.calls
    ensures Conserved(q)
  {
    LogAppend(p.log, ev);
    forall c: nat ensures Settled(q.log, c) + WaitingFor(q.queue, c) == if c < q.calls then 1 else 0 {
      WaitingRemove(p.queue, i, c);
    }
  }

  /** Disarming what left the queue keeps the remaining timers and listeners honest. */
  lemma DisarmKeepsArmed(p: Pool, i: nat)
    requires Armed(p) && Ordered(p.queue) && i < |p.queue|
    ensures Armed(Disarm(p.(queue := RemoveAt(p.queue, i)), p.queue[i]))
  {
    RemoveKeepsOrder(p.queue, i);
    RemoveSeparates(p.queue, i);
  }

  /** An admission by the pump respects the queue. */
  lemma AdmissionRespects(p: Pool, i: nat)
    requires Ordered(p.queue) && Next(p) == Some(i)
    ensures Respects(p.limit, Admitted(p.queue[i], RemoveAt(p.queue, i), p.inFlight))
  {
    var e, waiting := p.queue[i], RemoveAt(p.queue, i);
    forall w | w in waiting
      ensures w.priority <= e.priority
      ensures w.priority == e.priority && w.arrival < e.arrival ==> p.inFlight + w.weight > p.limit
    {
      var j :| 0 <= j < |p.queue| && p.queue[j] == w;
      if j > 0 { assert Before(p.queue[0], w); }
      if i < j { assert Before(e, w); }
    }
  }

  /** An admission by the pump keeps every invariant. */
  lemma AdmitKeeps(p: Pool, i: nat)
    requires Steady(p) && Next(p) == Some(i)
    ensures Steady(AdmitAt(p, i))
  {
    var e := p.queue[i];
    var q := AdmitAt(p, i);
    var ev := Admitted(e, RemoveAt(p.queue, i), p.inFlight);
    assert q.log == p.log + [ev];
    HeldAppend(p.releasers, Releaser(e.weight, false));
    RemoveKeepsOrder(p.queue, i);
    DisarmKeepsArmed(p, i);
    LogAppend(p.log, ev);
    DequeueSettles(p, i, ev, q);
    AdmissionRespects(p, i);
  }

  lemma PumpOnce(p: Pool, i: nat)
    requires Next(p) == Some(i)
    ensures Pump(p) == Pump(AdmitAt(p, i))
  {
  }

  /** After a pump nobody of the head's priority fits, so a queue left behind has a holder. */
  lemma {:induction false} PumpKeeps(p: Pool)
    requires Steady(p)
    ensures Inv(Pump(p))
    ensures var q := Pump(p);
            forall e <- q.queue :: e.priority == q.queue[0].priority ==> q.inFlight + e.weight > q.limit
    decreases |p.queue|
  {
    match Next(p)
    case None =>
    case Some(i) =>
      AdmitKeeps(p, i);
      PumpKeeps(AdmitAt(p, i));
  }

  /** A new call is settled at once. */
  lemma NewCallSettles(p: Pool, q: Pool, ev: Event)
    requires Conserved(p) && ev.Call() == p.calls
    requires q.queue == p.queue && q.log == p.log + [ev] && q.calls == p.calls + 1
    ensures Conserved(q)
  {
    LogAppend(p.log, ev);
    forall c: nat ensures Settled(q.log, c) + WaitingFor(q.queue, c) == if c < q.calls then 1 else 0 {
      assert Settled(p.log, c) + WaitingFor(p.queue, c) == if c < p.calls then 1 else 0;
    }
  }

  lemma FastAdmissionKeeps(p: Pool, e: Entry)
    requires Inv(p) && p.queue == [] && e.call == p.calls
    requires 1 <= e.weight && p.inFlight + e.weight <= p.limit
    ensures Inv(Grant(p.(calls := p.calls + 1), e))
  {
    var ev, q := Admitted(e, p.queue, p.inFlight), Grant(p.(calls := p.calls + 1), e);
    assert q.log == p.log + [ev] && q.releasers == p.releasers + [Releaser(e.weight, false)];
    HeldAppend(p.releasers, Releaser(e.weight, false));
    LogAppend(p.log, ev);
    NewCallSettles(p, q, ev);
    assert Fair(q) by { assert Fair(p) && Respects(p.limit, ev); }
  }

  lemma RejectionKeeps(p: Pool)
    requires Inv(p)
    ensures Inv(p.(totalRejectedFull := p.totalRejectedFull + 1, calls := p.calls + 1,
                   log := p.log + [RejectedFull(p.calls)]))
  {
    var ev := RejectedFull(p.calls);
    var q := p.(totalRejectedFull := p.totalRejectedFull + 1, calls := p.calls + 1, log := p.log + [ev]);
    assert q.log == p.log + [ev] && q.queue == p.queue;
    LogAppend(p.log, ev);
    NewCallSettles(p, q, ev);
    assert Fair(q) by { assert Fair(p) && Respects(p.limit, ev); }
  }

  lemma AcquireKeeps(p: Pool, req: Request)
    requires Inv(p)
    ensures Inv(Acquire(p, req))
  {
    var e := NewEntry(p, req);
    if req.signal.AlreadyAborted? {
    } else if p.inFlight + e.weight <= p.limit && |p.queue| == 0 {
      FastAdmissionKeeps(p, e);
    } else if |p.queue| >= p.maxQueue {
      RejectionKeeps(p);
    } else {
      EnqueueKeeps(p, e);
    }
  }

  /** A new call waits. */
  lemma NewCallWaits(p: Pool, e: Entry)
    requires Conserved(p) && e.call == p.calls
    ensures Conserved(Enqueue(p, e))
  {
    var q := Enqueue(p, e);
    forall c: nat ensures Settled(q.log, c) + WaitingFor(q.queue, c) == if c < q.calls then 1 else 0 {
      WaitingInsert(p.queue, Ahead(p.queue, e.priority), e, c);
      assert Settled(p.log, c) + WaitingFor(p.queue, c) == if c < p.calls then 1 else 0;
    }
  }

  lemma InsertMembers(q: seq<Entry>, n: nat, e: Entry)
    requires n <= |q|
    ensures e in InsertAt(q, n, e)
    ensures forall x <- q :: x in InsertAt(q, n, e)
    ensures forall x <- InsertAt(q, n, e) :: x == e || x in q
  {
    var r := InsertAt(q, n, e);
    assert r[n] == e;
    forall x | x in q ensures x in r {
      var j :| 0 <= j < |q| && q[j] == x;
      assert r[if j < n then j else j + 1] == x;
    }
  }

  lemma EnqueueKeeps(p: Pool, e: Entry)
    requires Inv(p) && |p.queue| < p.maxQueue
    requires e.call == p.calls && e.arrival == p.nextArrival && 1 <= e.weight <= p.limit
    requires p.queue != [] || p.inFlight + e.weight > p.limit
    ensures Inv(Enqueue(p, e))
  {
    InsertKeepsOrder(p.queue, e);
    InsertMembers(p.queue, Ahead(p.queue, e.priority), e);
    NewCallWaits(p, e);
  }

  lemma GiveBackKeeps(p: Pool, k: nat)
    requires Steady(p) && k < |p.releasers| && !p.releasers[k].released
    ensures Steady(GiveBack(p, k))
  {
    HeldGiveBack(p.releasers, k);
  }

  /** Once an entry is out of the queue, its timer or listener settles it exactly once. */
  lemma LeaveKeeps(p: Pool, e: Entry, ev: Event, q: Pool)
    requires Inv(p) && e in p.queue && ev.Call() == e.call && (ev.TimedOut? || ev.Aborted?)
    requires var r := RemoveQueued(p, e);
             q == if ev.TimedOut?
                  then r.(totalQueueTimeouts := r.totalQueueTimeouts + 1, log := r.log + [ev])
                  else r.(totalAborted := r.totalAborted + 1, log := r.log + [ev])
    ensures Inv(q)
  {
    var i := IndexOf(p.queue, e).value;
    RemoveKeepsOrder(p.queue, i);
    DisarmKeepsArmed(p, i);
    DequeueSettles(p, i, ev, q);
    LogAppend(p.log, ev);
  }

  lemma TimerKeeps(p: Pool, a: nat, now: int)
    requires Inv(p)
    ensures Inv(TimerFires(p, a, now))
  {
    if a in p.timers {
      var e := p.timers[a];
      var ev := TimedOut(e.call, now - e.enqueuedAt);
      assert p.timers - {a} - {a} == p.timers - {a};
      LeaveKeeps(p, e, ev, TimerFires(p, a, now));
    }
  }

  lemma SignalKeeps(p: Pool, a: nat)
    requires Inv(p)
    ensures Inv(SignalAborts(p, a))
  {
    if a in p.listeners {
      var e := p.listeners[a];
      assert p.listeners - {a} - {a} == p.listeners - {a};
      LeaveKeeps(p, e, Aborted(e.call), SignalAborts(p, a));
    }
  }

  /** Emptying the queue first and rejecting the waiters afterwards is rejecting them in turn. */
  lemma {:induction false} AbortAllKeeps(p: Pool)
    requires Inv(p)
    ensures Inv(AbortQueued(p)) && AbortQueued(p).queue == []
    decreases |p.queue|
  {
    if p.queue != [] {
      var e := p.queue[0];
      assert IndexOf(p.queue, e) == Some(0);
      assert RemoveAt(p.queue, 0) == p.queue[1..];
      var r := RemoveQueued(p, e);
      var q := r.(totalAborted := r.totalAborted + 1, log := r.log + [Aborted(e.call)]);
      LeaveKeeps(p, e, Aborted(e.call), q);
      AbortAllKeeps(q);
      assert AbortQueued(p) == AbortQueued(q);
    }
  }

  lemma StepKeeps(p: Pool, op: Op)
    requires Inv(p)
    ensures Inv(Step(p, op))
  {
    match op
    case DoAcquire(req) => AcquireKeeps(p, req);
    case DoRelease(k) =>
      if k < |p.releasers| && !p.releasers[k].released {
        GiveBackKeeps(p, k);
        PumpKeeps(GiveBack(p, k));
      }
    case DoTimer(a, now) => TimerKeeps(p, a, now);
    case DoSignal(a) => SignalKeeps(p, a);
    case DoAbortQueued => AbortAllKeeps(p);
  }

  // ---------------------------------------------------------------- runs

  /** Every state that any run can reach satisfies the invariant. */
  lemma {:induction false} RunKeeps(p: Pool, ops: seq<Op>)
    requires Inv(p)
    ensures Inv(Run(p, ops))
    decreases |ops|
  {
    if ops != [] {
      StepKeeps(p, ops[0]);
      RunKeeps(Step(p, ops[0]), ops[1..]);
    }
  }

  lemma CreateInv(limit: real, maxQueue: Option<real>, timeoutMs: Option<int>)
    ensures Inv(Create(limit, maxQueue, timeoutMs))
  {
  }
}
