/** What a semaphore makes of its settings and of what a call asks for. */
module SemaphoreSettings {
  import opened Prelude
  import opened Semaphore
  import opened SemaphoreSafety
  import opened SemaphoreRuns

  // ---------------------------------------------------------------- settings

  ghost predicate SameSettings(p: Pool, q: Pool) {
    p.limit == q.limit && p.maxQueue == q.maxQueue && p.queueTimeoutMs == q.queueTimeoutMs
  }

  lemma {:induction false} PumpSettings(p: Pool)
    ensures SameSettings(p, Pump(p))
    decreases |p.queue|
  {
    match Next(p)
    case None =>
    case Some(i) => PumpSettings(AdmitAt(p, i));
  }

  lemma {:induction false} AbortSettings(p: Pool, waiters: seq<Entry>)
    ensures SameSettings(p, AbortAll(p, waiters))
    decreases |waiters|
  {
    if waiters != [] { AbortSettings(RejectWaiter(p, waiters[0]), waiters[1..]); }
  }

  lemma {:induction false} StepSettings(p: Pool, op: Op)
    ensures SameSettings(p, Step(p, op))
  {
    match op
    case DoRelease(k) => if k < |p.releasers| && !p.releasers[k].released { PumpSettings(GiveBack(p, k)); }
    case DoAbortQueued => AbortSettings(p.(queue := []), p.queue);
    case _ =>
  }

  lemma {:induction false} RunSettings(p: Pool, ops: seq<Op>)
    ensures SameSettings(p, Run(p, ops))
    decreases |ops|
  {
    if ops != [] {
      StepSettings(p, ops[0]);
      RunSettings(Step(p, ops[0]), ops[1..]);
    }
  }

  /** The settings of a semaphore, in every reachable state: the limit is the whole part of what was
      given, and at least one; the queue holds the whole part of what was given, eight times the
      limit if nothing was; a waiter waits as long as was given, ten seconds if nothing was. */
  lemma {:induction false} SettingsAreGiven(limit: real, maxQueue: Option<real>, timeoutMs: Option<int>, ops: seq<Op>)
    ensures var p := Reached(limit, maxQueue, timeoutMs, ops);
            && p.limit >= 1 && (limit >= 1.0 ==> p.limit as real <= limit < p.limit as real + 1.0) && (limit < 1.0 ==> p.limit == 1)
            && (maxQueue.None? ==> p.maxQueue == 8 * p.limit)
            && (maxQueue.Some? && maxQueue.value >= 0.0 ==> p.maxQueue as real <= maxQueue.value < p.maxQueue as real + 1.0)
            && (maxQueue.Some? && maxQueue.value < 0.0 ==> p.maxQueue == 0)
            && p.queueTimeoutMs == match timeoutMs case None => 10000 case Some(t) => if t < 0 then 0 else t
  {
    RunSettings(Create(limit, maxQueue, timeoutMs), ops);
    var lim := Create(limit, maxQueue, timeoutMs).limit;
    assert ((lim * 8) as real).Floor == lim * 8;
  }

  /** So calls are refused because of the queue exactly at the length that was given. */
  lemma {:induction false} RefusedAtGivenLength(limit: real, length: nat, timeoutMs: Option<int>, ops: seq<Op>, req: Request)
    requires !req.signal.AlreadyAborted?
    ensures var p := Reached(limit, Some(length as real), timeoutMs, ops);
            var q := Acquire(p, req);
            && |p.queue| <= length
            && (q.totalRejectedFull == p.totalRejectedFull + 1 <==>
                  |p.queue| == length && !(p.queue == [] && p.inFlight + Clamp(p.limit, req.weight) <= p.limit))
  {
    SettingsAreGiven(limit, Some(length as real), timeoutMs, ops);
    AcquireDecides(limit, Some(length as real), timeoutMs, ops, req);
    Accounting(limit, Some(length as real), timeoutMs, ops);
  }

  // ---------------------------------------------------------------- what a waiter carries

  /** A call that has to wait does so with what it asked for: its charge, its priority (zero if none),
      the time it came, a timer exactly if its timeout, or the semaphore's if it gave none, is
      positive, and a listener exactly if it gave a signal. */
  lemma {:induction false} WaitsAsAsked(limit: real, maxQueue: Option<real>, timeoutMs: Option<int>, ops: seq<Op>, req: Request) returns (e: Entry)
    requires var p := Reached(limit, maxQueue, timeoutMs, ops);
             !req.signal.AlreadyAborted? && |Acquire(p, req).queue| > |p.queue|
    ensures var p := Reached(limit, maxQueue, timeoutMs, ops);
            var q := Acquire(p, req);
            && multiset(q.queue) == multiset(p.queue) + multiset{e}
            && e.call == p.calls && e.enqueuedAt == req.now && e.weight == Clamp(p.limit, req.weight)
            && e.priority == (match req.priority case None => 0.0 case Some(x) => x)
            && (e.hasTimer <==> (match req.queueTimeoutMs case None => p.queueTimeoutMs case Some(t) => t) > 0)
            && (e.hasListener <==> req.signal.Live?)
            && (e.hasTimer <==> e.arrival in q.timers && q.timers[e.arrival] == e)
            && (e.hasListener <==> e.arrival in q.listeners && q.listeners[e.arrival] == e)
  {
    var p := Reached(limit, maxQueue, timeoutMs, ops);
    ReachedInv(limit, maxQueue, timeoutMs, ops);
    e := NewEntry(p, req);
    var n := Ahead(p.queue, e.priority);
    assert p.queue == p.queue[..n] + p.queue[n..];
    assert Acquire(p, req).queue == p.queue[..n] + [e] + p.queue[n..];
    AcquireKeeps(p, req);
    assert e in Acquire(p, req).queue;
  }

  /** A timeout says how long its waiter has waited. */
  lemma {:induction false} TimeoutTellsTheWait(p: Pool, arrival: nat, now: int)
    requires Inv(p) && arrival in p.timers
    ensures var e, q := p.timers[arrival], TimerFires(p, arrival, now);
            q.log == p.log + [TimedOut(e.call, now - e.enqueuedAt)] && e in p.queue && e !in q.queue
  {
    var i := IndexOf(p.queue, p.timers[arrival]).value;
    RemoveKeepsOrder(p.queue, i);
  }

  // ---------------------------------------------------------------- who holds how much

  /** The charges of the admissions of a log, in order. */
  function Charges(log: seq<Event>): seq<nat> {
    if log == [] then []
    else
      var before := Charges(log[..|log| - 1]);
      match log[|log| - 1]
      case Admitted(e, _, _) => before + [e.weight]
      case _ => before
  }

  function Weights(rs: seq<Releaser>): seq<nat> {
    seq(|rs|, i requires 0 <= i < |rs| => rs[i].weight)
  }

  lemma ChargesAppend(log: seq<Event>, ev: Event)
    ensures Charges(log + [ev]) == Charges(log) + if ev.Admitted? then [ev.entry.weight] else []
  {
    assert (log + [ev])[..|log|] == log;
  }

  lemma GrantCharges(p: Pool, e: Entry)
    requires Charges(p.log) == Weights(p.releasers)
    ensures Charges(Grant(p, e).log) == Weights(Grant(p, e).releasers)
  {
    ChargesAppend(p.log, Admitted(e, p.queue, p.inFlight));
    assert Weights(p.releasers + [Releaser(e.weight, false)]) == Weights(p.releasers) + [e.weight];
  }

  lemma {:induction false} PumpCharges(p: Pool)
    requires Charges(p.log) == Weights(p.releasers)
    ensures Charges(Pump(p).log) == Weights(Pump(p).releasers)
    decreases |p.queue|
  {
    match Next(p)
    case None =>
    case Some(i) =>
      var q := Disarm(p.(queue := RemoveAt(p.queue, i)), p.queue[i]);
      GrantCharges(q, p.queue[i]);
      PumpCharges(AdmitAt(p, i));
  }

  lemma {:induction false} AbortCharges(p: Pool, waiters: seq<Entry>)
    requires Charges(p.log) == Weights(p.releasers)
    ensures Charges(AbortAll(p, waiters).log) == Weights(AbortAll(p, waiters).releasers)
    decreases |waiters|
  {
    if waiters != [] {
      ChargesAppend(p.log, Aborted(waiters[0].call));
      AbortCharges(RejectWaiter(p, waiters[0]), waiters[1..]);
    }
  }

  lemma {:induction false} StepCharges(p: Pool, op: Op)
    requires Charges(p.log) == Weights(p.releasers)
    ensures Charges(Step(p, op).log) == Weights(Step(p, op).releasers)
  {
    match op
    case DoAcquire(req) =>
      GrantCharges(p.(calls := p.calls + 1), NewEntry(p, req));
      ChargesAppend(p.log, RejectedFull(p.calls));
    case DoRelease(k) =>
      if k < |p.releasers| && !p.releasers[k].released {
        assert Weights(GiveBack(p, k).releasers) == Weights(p.releasers);
        PumpCharges(GiveBack(p, k));
      }
    case DoTimer(a, now) => if a in p.timers { ChargesAppend(p.log, TimedOut(p.timers[a].call, now - p.timers[a].enqueuedAt)); }
    case DoSignal(a) => if a in p.listeners { ChargesAppend(p.log, Aborted(p.listeners[a].call)); }
    case DoAbortQueued => AbortCharges(p.(queue := []), p.queue);
  }

  lemma {:induction false} RunCharges(p: Pool, ops: seq<Op>)
    requires Charges(p.log) == Weights(p.releasers)
    ensures Charges(Run(p, ops).log) == Weights(Run(p, ops).releasers)
    decreases |ops|
  {
    if ops != [] {
      StepCharges(p, ops[0]);
      RunCharges(Step(p, ops[0]), ops[1..]);
    }
  }

  /** In every run the admissions and the release functions handed out correspond in order, each
      with the charge of its call. */
  lemma {:induction false} ReleasersAreCharges(limit: real, maxQueue: Option<real>, timeoutMs: Option<int>, ops: seq<Op>)
    ensures var p := Reached(limit, maxQueue, timeoutMs, ops); Charges(p.log) == Weights(p.releasers)
  {
    assert Weights([]) == [];
    RunCharges(Create(limit, maxQueue, timeoutMs), ops);
  }
}
