/**
 The pools of outgoing requests, one semaphore per host, made on demand and dropped when idle.

 Semaphores are named by their position in `arena`, which plays the part of object identity: it
 also keeps those that were dropped from the table, because callers may still hold slots of
 them. `epoch` counts the configurations.
 */
module Coordinator {
  import opened Prelude
  import opened StableSort
  import S = Semaphore

  datatype Slot = Slot(host: string, epoch: nat, pool: S.Pool)

  datatype Access = Access(host: string, at: int)

  /** `access` is the map of last uses in iteration order. */
  datatype HostPools = HostPools(perHostLimit: real, queueMax: int, queueTimeoutMs: int, epoch: nat,
                                     pools: map<string, nat>, access: seq<Access>, arena: seq<Slot>)

  const MAX_TRACKED_HOSTS := 256

  function Create(perHostLimit: real, queueMax: int, queueTimeoutMs: int): HostPools {
    HostPools(AtLeastOne(perHostLimit), queueMax, queueTimeoutMs, 0, map[], [], [])
  }

  function AtLeastOne(x: real): real {
    if x < 1.0 then 1.0 else x
  }

  /** New settings; the host pools are forgotten and will be made anew. */
  function Configure(c: HostPools, perHostLimit: real, queueMax: real, queueTimeoutMs: int): HostPools {
    HostPools(AtLeastOne(perHostLimit), Max(0, queueMax.Floor), Max(0, queueTimeoutMs), c.epoch + 1, map[], [], c.arena)
  }

  function NewPool(c: HostPools): S.Pool {
    S.Create(c.perHostLimit, Some(c.queueMax as real), Some(c.queueTimeoutMs))
  }

  // ---------------------------------------------------------------- pruning

  function ByTime(): (Access, Access) -> bool {
    (a: Access, b: Access) => a.at <= b.at
  }

  predicate Idle(p: S.Pool) {
    p.inFlight == 0 && |p.queue| == 0
  }

  function OtherHosts(host: string): Access -> bool {
    (a: Access) => a.host != host
  }

  function Drop(c: HostPools, host: string): HostPools {
    c.(pools := c.pools - {host}, access := Filter(OtherHosts(host), c.access))
  }

  predicate IsIdle(c: HostPools, host: string) {
    host in c.pools && c.pools[host] < |c.arena| && Idle(c.arena[c.pools[host]].pool)
  }

  /** Drop those of the given hosts that are idle. */
  function DropIdle(c: HostPools, hosts: seq<Access>): HostPools
    decreases |hosts|
  {
    if hosts == [] then c
    else DropIdle(if IsIdle(c, hosts[0].host) then Drop(c, hosts[0].host) else c, hosts[1..])
  }

  /** The half of the tracked hosts that was used least recently. */
  function Oldest(c: HostPools): seq<Access> {
    var byTime := Sort(ByTime(), c.access);
    byTime[..Min(MAX_TRACKED_HOSTS / 2, |byTime|)]
  }

  function Prune(c: HostPools): HostPools {
    DropIdle(c, Oldest(c))
  }

  // ---------------------------------------------------------------- pools on demand

  function Touch(access: seq<Access>, host: string, now: int): seq<Access> {
    if access == [] then [Access(host, now)]
    else if access[0].host == host then [Access(host, now)] + access[1..]
    else [access[0]] + Touch(access[1..], host, now)
  }

  /** The pool of a host, made if there is none. */
  function HostPool(c: HostPools, host: string, now: int): (HostPools, nat) {
    if host in c.pools then (c.(access := Touch(c.access, host, now)), c.pools[host])
    else
      var room := if |c.access| >= MAX_TRACKED_HOSTS then Prune(c) else c;
      var n := |room.arena|;
      (room.(pools := room.pools[host := n], access := Touch(room.access, host, now),
             arena := room.arena + [Slot(host, room.epoch, NewPool(room))]), n)
  }

  /** A pool goes on to a new state. */
  function SetPool(c: HostPools, i: nat, p: S.Pool): HostPools
    requires i < |c.arena|
  {
    c.(arena := c.arena[i := c.arena[i].(pool := p)])
  }

  /** Ask for a slot of the host's pool. */
  function WithHostSlot(c: HostPools, host: string, req: S.Request): HostPools {
    var (d, n) := HostPool(c, host, req.now);
    if n < |d.arena| then SetPool(d, n, S.Acquire(d.arena[n].pool, req)) else d
  }

  /** A release, a timer or an abort of a caller of one of the pools, dropped or not. */
  function Continue(c: HostPools, i: nat, op: S.Op): HostPools {
    if i >= |c.arena| || op.DoAcquire? then c else SetPool(c, i, S.Step(c.arena[i].pool, op))
  }

  predicate InTable(c: HostPools, i: nat)
    requires i < |c.arena|
  {
    c.arena[i].host in c.pools && c.pools[c.arena[i].host] == i
  }

  function AbortedSlot(c: HostPools, i: nat): Slot
    requires i < |c.arena|
  {
    if InTable(c, i) then c.arena[i].(pool := S.AbortQueued(c.arena[i].pool)) else c.arena[i]
  }

  /** Abort every waiter of the pools in the table. */
  function AbortAllQueued(c: HostPools): HostPools {
    c.(arena := seq(|c.arena|, i requires 0 <= i < |c.arena| => AbortedSlot(c, i)))
  }

  // ---------------------------------------------------------------- runs

  datatype Op =
    | DoConfigure(perHostLimit: real, queueMax: real, queueTimeoutMs: int)
    | DoWithHostSlot(host: string, req: S.Request)
    | DoContinue(i: nat, op: S.Op)
    | DoAbortAllQueued

  function Step(c: HostPools, op: Op): HostPools {
    match op
    case DoConfigure(limit, queueMax, timeout) => Configure(c, limit, queueMax, timeout)
    case DoWithHostSlot(host, req) => WithHostSlot(c, host, req)
    case DoContinue(i, o) => Continue(c, i, o)
    case DoAbortAllQueued => AbortAllQueued(c)
  }

  function Run(c: HostPools, ops: seq<Op>): HostPools
    decreases |ops|
  {
    if ops == [] then c else Run(Step(c, ops[0]), ops[1..])
  }
}
