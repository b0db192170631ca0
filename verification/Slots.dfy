/**
 The two levels of slots of the reliability registry: a call takes a slot of its provider, then
 one of its host. Both are counting semaphores with a FIFO queue and hand-off on release.

 A caller is named by its position in `callers`. A caller runs up to the point where it waits
 for a promise; `Resume` is what it does when that promise has been settled.
 */
module Slots {
  import opened Prelude

  datatype Key = Provider(id: string) | Host(name: string)

  datatype Sem = Sem(count: int, queue: seq<nat>)

  /** Where a caller is. It counts towards its provider from `HasProvider` on, and towards its
      host while it is `Holding`. `HostRefused` has been aborted while waiting for its host and
      still has to give its provider slot back. */
  datatype Phase =
    | WaitingProvider
    | HasProvider
    | WaitingHost
    | HostRefused
    | Holding
    | Released
    | Aborted

  datatype Caller = Caller(provider: string, host: Option<string>, hasSignal: bool, signalled: bool, phase: Phase)

  datatype Table = Table(limit: nat, sems: map<Key, Sem>, callers: seq<Caller>)

  function Empty(limit: nat): Table {
    Table(limit, map[], [])
  }

  /** A host admits twice as many calls as a provider. */
  function Limit(limit: nat, k: Key): nat {
    if k.Host? then limit * 2 else limit
  }

  function SemOf(t: Table, k: Key): Sem {
    if k in t.sems then t.sems[k] else Sem(0, [])
  }

  function Become(t: Table, c: nat, phase: Phase): Table
    requires c < |t.callers|
  {
    t.(callers := t.callers[c := t.callers[c].(phase := phase)])
  }

  // ---------------------------------------------------------------- one semaphore

  /** Caller `c` asks for a slot: it gets one and becomes `got`, or queues and becomes `waits`. */
  function AcquireSemaphore(t: Table, k: Key, c: nat, got: Phase, waits: Phase): Table
    requires c < |t.callers|
  {
    var sem := SemOf(t, k);
    if sem.count < Limit(t.limit, k) then
      Become(t, c, got).(sems := t.sems[k := Sem(sem.count + 1, sem.queue)])
    else
      Become(t, c, waits).(sems := t.sems[k := Sem(sem.count, sem.queue + [c])])
  }

  /** What a waiter becomes when it is handed a slot. */
  function Woken(k: Key): Phase {
    if k.Provider? then HasProvider else Holding
  }

  /** Give a slot back and hand it to the first waiter, if there is one. */
  function ReleaseSemaphore(t: Table, k: Key): Table {
    if k !in t.sems then t
    else
      var sem := t.sems[k];
      var left := Max(0, sem.count - 1);
      if sem.queue != [] && sem.queue[0] < |t.callers| then
        Become(t, sem.queue[0], Woken(k)).(sems := t.sems[k := Sem(left + 1, sem.queue[1..])])
      else
        t.(sems := t.sems[k := Sem(left, sem.queue)])
  }

  function Without(queue: seq<nat>, c: nat): seq<nat> {
    if queue == [] then []
    else if queue[0] == c then queue[1..]
    else [queue[0]] + Without(queue[1..], c)
  }

  /** Take caller `c` out of the queue it waits in. */
  function LeaveQueue(t: Table, k: Key, c: nat, phase: Phase): Table
    requires c < |t.callers|
  {
    var sem := SemOf(t, k);
    Become(t, c, phase).(sems := t.sems[k := Sem(sem.count, Without(sem.queue, c))])
  }

  // ---------------------------------------------------------------- operations

  /** A host name that is empty counts as no host. */
  function HostKey(c: Caller): Option<Key> {
    if c.host.Some? && c.host.value != "" then Some(Host(c.host.value)) else None
  }

  function Acquire(t: Table, provider: string, host: Option<string>, hasSignal: bool, preAborted: bool): Table {
    var c := |t.callers|;
    var arrived := t.(callers := t.callers + [Caller(provider, host, hasSignal, preAborted, Aborted)]);
    if preAborted then arrived
    else AcquireSemaphore(arrived, Provider(provider), c, HasProvider, WaitingProvider)
  }

  /** The continuation of caller `c` after its promise was settled. */
  function Resume(t: Table, c: nat): Table {
    if c >= |t.callers| then t
    else
      var caller := t.callers[c];
      match caller.phase
      case HasProvider =>
        (match HostKey(caller)
         case None => Become(t, c, Holding)
         case Some(k) =>
           var asked := AcquireSemaphore(t, k, c, Holding, WaitingHost);
           if asked.callers[c].phase.WaitingHost? && caller.signalled then LeaveQueue(asked, k, c, HostRefused)
           else asked)
      case HostRefused => ReleaseSemaphore(Become(t, c, Aborted), Provider(caller.provider))
      case _ => t
  }

  /** The signal of caller `c` fires. A caller that is not waiting only remembers it. */
  function Abort(t: Table, c: nat): Table {
    if c >= |t.callers| || !t.callers[c].hasSignal then t
    else
      var caller := t.callers[c].(signalled := true);
      var u := t.(callers := t.callers[c := caller]);
      match caller.phase
      case WaitingProvider => LeaveQueue(u, Provider(caller.provider), c, Aborted)
      case WaitingHost =>
        (match HostKey(caller)
         case Some(k) => LeaveQueue(u, k, c, HostRefused)
         case None => u)
      case _ => u
  }

  /** The release function of caller `c`: provider first, then host, once. */
  function Release(t: Table, c: nat): Table {
    if c >= |t.callers| || !t.callers[c].phase.Holding? then t
    else
      var caller := t.callers[c];
      var u := ReleaseSemaphore(Become(t, c, Released), Provider(caller.provider));
      match HostKey(caller)
      case None => u
      case Some(k) => ReleaseSemaphore(u, k)
  }

  // ---------------------------------------------------------------- runs

  datatype Op =
    | DoAcquire(provider: string, host: Option<string>, hasSignal: bool, preAborted: bool)
    | DoResume(c: nat)
    | DoAbort(c: nat)
    | DoRelease(c: nat)

  function Step(t: Table, op: Op): Table {
    match op
    case DoAcquire(p, h, s, pre) => Acquire(t, p, h, s, pre)
    case DoResume(c) => Resume(t, c)
    case DoAbort(c) => Abort(t, c)
    case DoRelease(c) => Release(t, c)
  }

  function Run(t: Table, ops: seq<Op>): Table
    decreases |ops|
  {
    if ops == [] then t else Run(Step(t, ops[0]), ops[1..])
  }
}
