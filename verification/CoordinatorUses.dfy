/** What the coordinator remembers of the requests, and what it makes of its settings. */
module CoordinatorUses {
  import opened Prelude
  import opened StableSort
  import opened Coordinator
  import opened CoordinatorRuns
  import S = Semaphore
  import Safety = SemaphoreSafety
  import Settings = SemaphoreSettings

  // ---------------------------------------------------------------- times of last use

  /** When the host was asked for last, if it was since the last configuration. */
  function LastUse(ops: seq<Op>, host: string): Option<int> {
    if ops == [] then None
    else
      match ops[|ops| - 1]
      case DoWithHostSlot(h, req) => if h == host then Some(req.now) else LastUse(ops[..|ops| - 1], host)
      case DoConfigure(_, _, _) => None
      case _ => LastUse(ops[..|ops| - 1], host)
  }

  /** A use keeps the places of the hosts in the table and adds a new one at the end. */
  lemma {:induction false} TouchKeepsPlaces(access: seq<Access>, host: string, now: int)
    ensures var t := Touch(access, host, now);
            && (forall i :: 0 <= i < |access| ==> i < |t| && t[i].host == access[i].host)
            && |t| == |access| + (if exists a <- access :: a.host == host then 0 else 1)
            && (|t| > |access| ==> t[|access|] == Access(host, now))
  {
    if access != [] && access[0].host != host {
      TouchKeepsPlaces(access[1..], host, now);
      assert access == [access[0]] + access[1..];
      assert Touch(access, host, now)[1..] == Touch(access[1..], host, now);
    }
  }

  lemma {:induction false} InHostSet(access: seq<Access>, a: Access)
    requires a in access
    ensures a.host in HostSet(access)
  {
    if access[0] != a { InHostSet(access[1..], a); }
  }

  lemma {:induction false} TouchTimes(access: seq<Access>, host: string, now: int)
    requires DistinctHosts(access)
    ensures forall a <- Touch(access, host, now) :: if a.host == host then a.at == now else a in access
  {
    if access != [] {
      if access[0].host == host {
        forall a | a in access[1..] ensures a.host != host { InHostSet(access[1..], a); }
      } else {
        TouchTimes(access[1..], host, now);
        assert Touch(access, host, now)[1..] == Touch(access[1..], host, now);
      }
    }
  }

  lemma {:induction false} DropsOnly(c: HostPools, hosts: seq<Access>)
    ensures forall a <- DropIdle(c, hosts).access :: a in c.access
    decreases |hosts|
  {
    if hosts != [] {
      var h := hosts[0].host;
      var next := if IsIdle(c, h) then Drop(c, h) else c;
      FilterOnly(c.access, h);
      DropsOnly(next, hosts[1..]);
    }
  }

  lemma {:induction false} FilterOnly(access: seq<Access>, host: string)
    ensures forall a <- Filter(OtherHosts(host), access) :: a in access
  {
    if access != [] { FilterOnly(access[1..], host); }
  }

  ghost predicate Timed(c: HostPools, ops: seq<Op>) {
    forall a <- c.access :: LastUse(ops, a.host) == Some(a.at)
  }

  lemma {:induction false} RequestTimed(c: HostPools, ops: seq<Op>, host: string, req: S.Request)
    requires Inv(c) && Timed(c, ops)
    ensures Timed(WithHostSlot(c, host, req), ops + [DoWithHostSlot(host, req)])
  {
    var more := ops + [DoWithHostSlot(host, req)];
    assert more[..|ops|] == ops;
    DropIdleKeeps(c, Oldest(c));
    DropsOnly(c, Oldest(c));
    var room := if host !in c.pools && |c.access| >= MAX_TRACKED_HOSTS then Prune(c) else c;
    TouchTimes(room.access, host, req.now);
    var d := WithHostSlot(c, host, req);
    assert d.access == Touch(room.access, host, req.now);
    forall a | a in d.access ensures LastUse(more, a.host) == Some(a.at) {
      if a.host != host { assert a in c.access; }
    }
  }

  lemma {:induction false} ReachedTimed(limit: real, queueMax: int, timeout: int, ops: seq<Op>)
    ensures Timed(Reached(limit, queueMax, timeout, ops), ops)
  {
    if ops != [] {
      var before, op := ops[..|ops| - 1], ops[|ops| - 1];
      assert ops == before + [op];
      ReachedTimed(limit, queueMax, timeout, before);
      ReachedInv(limit, queueMax, timeout, before);
      RunAppend(Create(limit, queueMax, timeout), before, op);
      if op.DoWithHostSlot? { RequestTimed(Reached(limit, queueMax, timeout, before), before, op.host, op.req); }
    }
  }

  /** In every reachable state the access table holds, for each of its hosts, the time of the last
      request for it. */
  lemma {:induction false} AccessIsLastUse(limit: real, queueMax: int, timeout: int, ops: seq<Op>, a: Access)
    requires a in Reached(limit, queueMax, timeout, ops).access
    ensures LastUse(ops, a.host) == Some(a.at)
  {
    ReachedTimed(limit, queueMax, timeout, ops);
  }

  // ---------------------------------------------------------------- settings

  /** The settings that were given last: the limit per host, the length of the queues, the timeout. */
  function Present(limit: real, queueMax: int, timeout: int, ops: seq<Op>): (real, real, int) {
    if ops == [] then (limit, queueMax as real, timeout)
    else
      match ops[|ops| - 1]
      case DoConfigure(l, q, t) => (l, q, t)
      case _ => Present(limit, queueMax, timeout, ops[..|ops| - 1])
  }

  /** The settings as a semaphore uses them. */
  ghost predicate MadeFor(p: S.Pool, settings: (real, real, int)) {
    && p.limit == Max(1, settings.0.Floor) && p.maxQueue == Max(0, settings.1.Floor) && p.queueTimeoutMs == Max(0, settings.2)
  }

  ghost predicate Configured(c: HostPools, settings: (real, real, int)) {
    && LimitOf(c.perHostLimit) == Max(1, settings.0.Floor)
    && Max(0, c.queueMax) == Max(0, settings.1.Floor) && Max(0, c.queueTimeoutMs) == Max(0, settings.2)
    && forall s <- c.arena :: s.epoch == c.epoch ==> MadeFor(s.pool, settings)
  }

  lemma {:induction false} SetPoolConfigured(c: HostPools, i: nat, p: S.Pool, settings: (real, real, int))
    requires Configured(c, settings) && i < |c.arena| && Settings.SameSettings(c.arena[i].pool, p)
    ensures Configured(SetPool(c, i, p), settings)
  {
    assert c.arena[i] in c.arena;
  }

  lemma {:induction false} NewPoolConfigured(c: HostPools, settings: (real, real, int))
    requires Configured(c, settings)
    ensures MadeFor(NewPool(c), settings)
  {
    assert (c.queueMax as real).Floor == c.queueMax;
  }

  lemma {:induction false} RequestConfigured(c: HostPools, host: string, req: S.Request, settings: (real, real, int))
    requires Inv(c) && Configured(c, settings)
    ensures Configured(WithHostSlot(c, host, req), settings)
  {
    HostPoolKeeps(c, host, req.now);
    var (d, n) := HostPool(c, host, req.now);
    if host !in c.pools {
      DropIdleKeeps(c, Oldest(c));
      DropIdleGiven(c, Oldest(c));
      NewPoolConfigured(c, settings);
      var room := if |c.access| >= MAX_TRACKED_HOSTS then Prune(c) else c;
      assert NewPool(room) == NewPool(c);
    }
    assert Configured(d, settings);
    Settings.StepSettings(d.arena[n].pool, S.DoAcquire(req));
    SetPoolConfigured(d, n, S.Acquire(d.arena[n].pool, req), settings);
  }

  lemma {:induction false} DropIdleGiven(c: HostPools, hosts: seq<Access>)
    ensures DropIdle(c, hosts).queueMax == c.queueMax && DropIdle(c, hosts).queueTimeoutMs == c.queueTimeoutMs
    decreases |hosts|
  {
    if hosts != [] { DropIdleGiven(if IsIdle(c, hosts[0].host) then Drop(c, hosts[0].host) else c, hosts[1..]); }
  }

  lemma {:induction false} AbortConfigured(c: HostPools, settings: (real, real, int))
    requires Configured(c, settings)
    ensures Configured(AbortAllQueued(c), settings)
  {
    var d := AbortAllQueued(c);
    forall s | s in d.arena && s.epoch == d.epoch ensures MadeFor(s.pool, settings) {
      var i :| 0 <= i < |d.arena| && d.arena[i] == s;
      assert c.arena[i] in c.arena;
      Settings.StepSettings(c.arena[i].pool, S.DoAbortQueued);
    }
  }

  lemma {:induction false} ConfigureConfigured(c: HostPools, limit: real, queueMax: real, timeout: int)
    requires Inv(c)
    ensures Configured(Configure(c, limit, queueMax, timeout), (limit, queueMax, timeout))
  {
    var d := Configure(c, limit, queueMax, timeout);
    forall s | s in d.arena ensures s.epoch < d.epoch {
      var i :| 0 <= i < |c.arena| && c.arena[i] == s;
      assert SoundSlot(c, i);
    }
  }

  lemma {:induction false} ReachedConfigured(limit: real, queueMax: int, timeout: int, ops: seq<Op>)
    ensures Configured(Reached(limit, queueMax, timeout, ops), Present(limit, queueMax, timeout, ops))
  {
    if ops == [] {
      assert (queueMax as real).Floor == queueMax;
    } else {
      var before, op := ops[..|ops| - 1], ops[|ops| - 1];
      assert ops == before + [op];
      ReachedConfigured(limit, queueMax, timeout, before);
      ReachedInv(limit, queueMax, timeout, before);
      RunAppend(Create(limit, queueMax, timeout), before, op);
      var c, settings := Reached(limit, queueMax, timeout, before), Present(limit, queueMax, timeout, before);
      match op
      case DoConfigure(l, q, t) => ConfigureConfigured(c, l, q, t);
      case DoWithHostSlot(host, req) => RequestConfigured(c, host, req, settings);
      case DoContinue(i, o) =>
        if i < |c.arena| && !o.DoAcquire? {
          Settings.StepSettings(c.arena[i].pool, o);
          SetPoolConfigured(c, i, S.Step(c.arena[i].pool, o), settings);
        }
      case DoAbortAllQueued => AbortConfigured(c, settings);
    }
  }

  /** In every reachable state the semaphores of the present configuration have the settings given
      last, and a host has at most the whole part of the limit given last in flight under it, or one
      if that is less. */
  lemma {:induction false} SettingsGivenLast(limit: real, queueMax: int, timeout: int, ops: seq<Op>, host: string, i: nat)
    ensures var c := Reached(limit, queueMax, timeout, ops);
            var (l, q, t) := Present(limit, queueMax, timeout, ops);
            && 0 <= InFlight(c.arena, host, c.epoch) <= (if l < 1.0 then 1 else l.Floor)
            && (i < |c.arena| && c.arena[i].epoch == c.epoch ==>
                  && c.arena[i].pool.limit == (if l < 1.0 then 1 else l.Floor)
                  && c.arena[i].pool.maxQueue == (if q < 0.0 then 0 else q.Floor)
                  && c.arena[i].pool.queueTimeoutMs == (if t < 0 then 0 else t))
  {
    ReachedConfigured(limit, queueMax, timeout, ops);
    HostLimitHolds(limit, queueMax, timeout, ops, host);
    var c := Reached(limit, queueMax, timeout, ops);
    if i < |c.arena| { assert c.arena[i] in c.arena; }
  }

  /** Shutdown empties the queues of exactly the semaphores in the table; what is in flight stays,
      and so do the semaphores that are no longer in the table. */
  lemma {:induction false} ShutdownEmptiesTabled(c: HostPools, i: nat)
    requires Inv(c) && i < |c.arena|
    ensures var d := AbortAllQueued(c);
            && |d.arena| == |c.arena| && d.pools == c.pools && d.access == c.access
            && (if c.arena[i].host in c.pools && c.pools[c.arena[i].host] == i
                then d.arena[i].pool.queue == [] && d.arena[i].pool.inFlight == c.arena[i].pool.inFlight
                     && d.arena[i].pool.totalAborted == c.arena[i].pool.totalAborted + |c.arena[i].pool.queue|
                else d.arena[i] == c.arena[i])
  {
    assert SoundSlot(c, i);
    AbortAllKeepsLimit(c.arena[i].pool.(queue := []), c.arena[i].pool.queue);
    AbortCounts(c.arena[i].pool.(queue := []), c.arena[i].pool.queue);
  }

  lemma {:induction false} AbortCounts(p: S.Pool, waiters: seq<S.Entry>)
    ensures S.AbortAll(p, waiters).totalAborted == p.totalAborted + |waiters|
    decreases |waiters|
  {
    if waiters != [] { AbortCounts(S.RejectWaiter(p, waiters[0]), waiters[1..]); }
  }
}
