/**
 The weighted, priority-aware admission semaphore.

 `Pool` is the state of one semaphore together with what its callers and timers hold
 on to: the release functions handed out, the pending timers and the abort listeners.
 Every function on `Pool` below is one stretch of code that runs without interruption.
 `log` and `calls` observe a run; no operation reads them.
 */
module Semaphore {
  import opened Prelude

  /** A waiting acquisition. `call` names the promise it will settle; `hasTimer` and
      `hasListener` say whether a queue timeout and an abort listener were set up for it. */
  datatype Entry = Entry(
    call: nat,
    weight: nat,
    priority: real,
    arrival: nat,
    enqueuedAt: int,
    hasTimer: bool,
    hasListener: bool)

  /** A release function: the weight it gives back and its `released` flag. */
  datatype Releaser = Releaser(weight: nat, released: bool)

  /** What settles the promise of one call. `waiting` and `before` are the other queued
      entries and the weight in flight at the moment of the admission. */
  datatype Event =
    | Admitted(entry: Entry, waiting: seq<Entry>, before: int)
    | RejectedFull(rejected: nat)
    | TimedOut(expired: nat, waitedMs: int)
    | Aborted(aborted: nat)
  {
    function Call(): nat {
      match this
      case Admitted(e, _, _) => e.call
      case RejectedFull(c) => c
      case TimedOut(c, _) => c
      case Aborted(c) => c
    }
  }

  datatype Pool = Pool(
    limit: nat,
    maxQueue: nat,
    queueTimeoutMs: int,
    inFlight: int,
    nextArrival: nat,
    queue: seq<Entry>,
    timers: map<nat, Entry>,
    listeners: map<nat, Entry>,
    releasers: seq<Releaser>,
    totalAdmitted: nat,
    totalRejectedFull: nat,
    totalQueueTimeouts: nat,
    totalAborted: nat,
    calls: nat,
    log: seq<Event>)

  datatype Signal = NoSignal | Live | AlreadyAborted

  datatype Request = Request(
    weight: Option<real>,
    priority: Option<real>,
    signal: Signal,
    queueTimeoutMs: Option<int>,
    now: int)

  // ---------------------------------------------------------------- construction

  function Create(limit: real, maxQueue: Option<real>, queueTimeoutMs: Option<int>): Pool {
    var lim: nat := Max(1, limit.Floor);
    Pool(lim, Max(0, maxQueue.GetOr((lim * 8) as real).Floor), Max(0, queueTimeoutMs.GetOr(10000)),
         0, 0, [], map[], map[], [], 0, 0, 0, 0, 0, [])
  }

  /** The weight a request is charged: at least one unit, at most the whole pool. */
  function Clamp(limit: nat, weight: Option<real>): nat {
    Min(limit, Max(1, weight.GetOr(1.0).Floor))
  }

  // ---------------------------------------------------------------- admission

  /** The position of the first entry of priority `priority` that needs at most `room`. */
  function FirstFit(queue: seq<Entry>, priority: real, room: int): (r: Option<nat>)
    ensures r.Some? ==>
      && r.value < |queue| && queue[r.value].priority == priority && queue[r.value].weight <= room
      && forall j :: 0 <= j < r.value ==> !(queue[j].priority == priority && queue[j].weight <= room)
    ensures r.None? ==>
      forall j :: 0 <= j < |queue| ==> !(queue[j].priority == priority && queue[j].weight <= room)
  {
    if queue == [] then None
    else if queue[0].priority == priority && queue[0].weight <= room then Some(0)
    else
      match FirstFit(queue[1..], priority, room)
      case None => None
      case Some(i) => assert queue[1..][i] == queue[i + 1]; Some(i + 1)
  }

  /** Who a pump admits next: the earliest fitting entry of the head's priority. */
  function Next(p: Pool): Option<nat> {
    if p.queue == [] then None else FirstFit(p.queue, p.queue[0].priority, p.limit - p.inFlight)
  }

  /** Clear the timer and remove the listener of an entry that has them. */
  function Disarm(p: Pool, e: Entry): Pool {
    p.(timers := if e.hasTimer then p.timers - {e.arrival} else p.timers,
       listeners := if e.hasListener then p.listeners - {e.arrival} else p.listeners)
  }

  /** Settle the promise of `e` with a fresh release function. */
  function Grant(p: Pool, e: Entry): Pool {
    p.(inFlight := p.inFlight + e.weight,
       totalAdmitted := p.totalAdmitted + 1,
       releasers := p.releasers + [Releaser(e.weight, false)],
       log := p.log + [Admitted(e, p.queue, p.inFlight)])
  }

  function AdmitAt(p: Pool, i: nat): Pool
    requires i < |p.queue|
  {
    Grant(Disarm(p.(queue := RemoveAt(p.queue, i)), p.queue[i]), p.queue[i])
  }

  function Pump(p: Pool): Pool
    decreases |p.queue|
  {
    match Next(p)
    case None => p
    case Some(i) => Pump(AdmitAt(p, i))
  }

  // ---------------------------------------------------------------- operations

  /** How many waiting entries stay ahead of a newcomer of this priority. */
  function Ahead(queue: seq<Entry>, priority: real): (n: nat)
    ensures n <= |queue|
  {
    if queue == [] then 0
    else (if queue[0].priority >= priority then 1 else 0) + Ahead(queue[1..], priority)
  }

  function NewEntry(p: Pool, req: Request): Entry {
    Entry(p.calls, Clamp(p.limit, req.weight), req.priority.GetOr(0.0), p.nextArrival, req.now,
          req.queueTimeoutMs.GetOr(p.queueTimeoutMs) > 0, req.signal.Live?)
  }

  function Enqueue(p: Pool, e: Entry): Pool {
    p.(nextArrival := p.nextArrival + 1,
       queue := InsertAt(p.queue, Ahead(p.queue, e.priority), e),
       timers := if e.hasTimer then p.timers[e.arrival := e] else p.timers,
       listeners := if e.hasListener then p.listeners[e.arrival := e] else p.listeners,
       calls := p.calls + 1)
  }

  function Acquire(p: Pool, req: Request): Pool {
    var e := NewEntry(p, req);
    if req.signal.AlreadyAborted? then p
    else if p.inFlight + e.weight <= p.limit && |p.queue| == 0 then
      Grant(p.(calls := p.calls + 1), e)
    else if |p.queue| >= p.maxQueue then
      p.(totalRejectedFull := p.totalRejectedFull + 1,
         calls := p.calls + 1,
         log := p.log + [RejectedFull(p.calls)])
    else
      Enqueue(p, e)
  }

  function Release(p: Pool, k: nat): Pool {
    if k < |p.releasers| && !p.releasers[k].released then
      Pump(GiveBack(p, k))
    else p
  }

  function GiveBack(p: Pool, k: nat): Pool
    requires k < |p.releasers|
  {
    p.(releasers := p.releasers[k := p.releasers[k].(released := true)],
       inFlight := p.inFlight - p.releasers[k].weight)
  }

  function IndexOf(queue: seq<Entry>, e: Entry): (r: Option<nat>)
    ensures r.Some? ==> r.value < |queue| && queue[r.value] == e
    ensures r.None? ==> e !in queue
  {
    if queue == [] then None
    else if queue[0] == e then Some(0)
    else
      match IndexOf(queue[1..], e)
      case None => None
      case Some(i) => assert queue[1..][i] == queue[i + 1]; Some(i + 1)
  }

  function RemoveQueued(p: Pool, e: Entry): Pool {
    match IndexOf(p.queue, e)
    case None => p
    case Some(i) => Disarm(p.(queue := RemoveAt(p.queue, i)), e)
  }

  /** The timer armed for arrival `a` fires. A timer that is not armed cannot fire. */
  function TimerFires(p: Pool, a: nat, now: int): Pool {
    if a !in p.timers then p
    else
      var e := p.timers[a];
      var q := RemoveQueued(p.(timers := p.timers - {a}), e);
      q.(totalQueueTimeouts := q.totalQueueTimeouts + 1,
         log := q.log + [TimedOut(e.call, now - e.enqueuedAt)])
  }

  /** The abort listener registered for arrival `a` runs. */
  function SignalAborts(p: Pool, a: nat): Pool {
    if a !in p.listeners then p
    else
      var e := p.listeners[a];
      var q := RemoveQueued(p.(listeners := p.listeners - {a}), e);
      q.(totalAborted := q.totalAborted + 1, log := q.log + [Aborted(e.call)])
  }

  /** Reject one waiter that has already left the queue. */
  function RejectWaiter(p: Pool, e: Entry): Pool {
    var q := Disarm(p, e);
    q.(totalAborted := q.totalAborted + 1, log := q.log + [Aborted(e.call)])
  }

  /** Reject the given waiters, which have already left the queue. */
  function AbortAll(p: Pool, waiters: seq<Entry>): Pool
    decreases |waiters|
  {
    if waiters == [] then p
    else AbortAll(RejectWaiter(p, waiters[0]), waiters[1..])
  }

  function AbortQueued(p: Pool): Pool {
    AbortAll(p.(queue := []), p.queue)
  }

  // ---------------------------------------------------------------- runs

  datatype Op =
    | DoAcquire(req: Request)
    | DoRelease(k: nat)
    | DoTimer(arrival: nat, now: int)
    | DoSignal(listener: nat)
    | DoAbortQueued

  function Step(p: Pool, op: Op): Pool {
    match op
    case DoAcquire(req) => Acquire(p, req)
    case DoRelease(k) => Release(p, k)
    case DoTimer(a, now) => TimerFires(p, a, now)
    case DoSignal(a) => SignalAborts(p, a)
    case DoAbortQueued => AbortQueued(p)
  }

  function Run(p: Pool, ops: seq<Op>): Pool
    decreases |ops|
  {
    if ops == [] then p else Run(Step(p, ops[0]), ops[1..])
  }
}
