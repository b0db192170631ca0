/** Dropping idle pools is invisible: a host never gets more than its limit at once. */
module CoordinatorRuns {
  import opened Prelude
  import opened StableSort
  import opened Coordinator
  import S = Semaphore
  import Safety = SemaphoreSafety
  import Runs = SemaphoreRuns

  // ---------------------------------------------------------------- one pool

  lemma {:induction false} AbortAllKeepsLimit(p: S.Pool, waiters: seq<S.Entry>)
    ensures S.AbortAll(p, waiters).limit == p.limit
    ensures S.AbortAll(p, waiters).inFlight == p.inFlight && S.AbortAll(p, waiters).queue == p.queue
    decreases |waiters|
  {
    if waiters != [] {
      AbortAllKeepsLimit(S.RejectWaiter(p, waiters[0]), waiters[1..]);
    }
  }

  lemma LimitStays(p: S.Pool, op: S.Op)
    ensures S.Step(p, op).limit == p.limit
  {
    match op
    case DoRelease(k) =>
      if k < |p.releasers| && !p.releasers[k].released { Runs.PumpExtends(S.GiveBack(p, k)); }
    case DoAbortQueued => AbortAllKeepsLimit(p.(queue := []), p.queue);
    case _ =>
  }

  /** Nobody holds or waits for a slot of an idle pool, so nothing but an acquire changes that. */
  lemma IdleStays(p: S.Pool, op: S.Op)
    requires Safety.Inv(p) && Idle(p) && !op.DoAcquire?
    ensures Idle(S.Step(p, op))
  {
    match op
    case DoRelease(k) =>
      Safety.HeldVersusOutstanding(p.releasers);
    case DoTimer(a, now) =>
    case DoSignal(a) =>
    case DoAbortQueued => AbortAllKeepsLimit(p.(queue := []), p.queue);
  }

  // ---------------------------------------------------------------- the invariant

  function LimitOf(perHostLimit: real): nat {
    Max(1, perHostLimit.Floor)
  }

  function HostSet(access: seq<Access>): set<string> {
    if access == [] then {} else {access[0].host} + HostSet(access[1..])
  }

  predicate DistinctHosts(access: seq<Access>) {
    access == [] || (access[0].host !in HostSet(access[1..]) && DistinctHosts(access[1..]))
  }

  /** The table and the access list have the same hosts, each once. */
  ghost predicate SameHosts(c: HostPools) {
    DistinctHosts(c.access) && HostSet(c.access) == c.pools.Keys
  }

  /** The table leads to pools of the present configuration. */
  ghost predicate Tabled(c: HostPools) {
    forall h <- c.pools :: c.pools[h] < |c.arena| && c.arena[c.pools[h]].host == h && c.arena[c.pools[h]].epoch == c.epoch
  }

  /** Every pool is sound; those of the present configuration have its limit, and one of them
      that is not in the table is idle. */
  ghost predicate SoundSlot(c: HostPools, i: nat)
    requires i < |c.arena|
  {
    var s := c.arena[i];
    && Safety.Inv(s.pool) && s.epoch <= c.epoch
    && (s.epoch == c.epoch ==> s.pool.limit == LimitOf(c.perHostLimit))
    && (s.epoch == c.epoch && !Idle(s.pool) ==> s.host in c.pools && c.pools[s.host] == i)
  }

  /** Of two pools made for one host under one configuration, one is idle. */
  ghost predicate Rivals(c: HostPools, i: nat, j: nat)
    requires i < j < |c.arena|
  {
    var a, b := c.arena[i], c.arena[j];
    && (a.epoch == b.epoch ==> a.pool.limit == b.pool.limit)
    && (a.host == b.host && a.epoch == b.epoch ==> Idle(a.pool) || Idle(b.pool))
  }

  ghost predicate Inv(c: HostPools) {
    && SameHosts(c) && Tabled(c)
    && (forall i :: 0 <= i < |c.arena| ==> SoundSlot(c, i))
    && (forall i, j :: 0 <= i < j < |c.arena| ==> Rivals(c, i, j))
  }

  // ---------------------------------------------------------------- steps

  /** A pool changes: one that was idle stays so, or it is the one in the table. */
  lemma SetPoolKeeps(c: HostPools, i: nat, p: S.Pool)
    requires Inv(c) && i < |c.arena|
    requires Safety.Inv(p) && p.limit == c.arena[i].pool.limit
    requires (Idle(c.arena[i].pool) ==> Idle(p)) || (c.arena[i].host in c.pools && c.pools[c.arena[i].host] == i)
    ensures Inv(SetPool(c, i, p))
  {
    var d := SetPool(c, i, p);
    forall k | 0 <= k < |d.arena| ensures SoundSlot(d, k) {
      assert SoundSlot(c, k);
      assert SoundSlot(c, i);
    }
    forall k, l | 0 <= k < l < |d.arena| ensures Rivals(d, k, l) {
      assert Rivals(c, k, l);
      assert SoundSlot(c, k) && SoundSlot(c, l);
    }
    assert Tabled(d);
  }

  lemma ContinueKeeps(c: HostPools, i: nat, op: S.Op)
    requires Inv(c)
    ensures Inv(Continue(c, i, op))
  {
    if i < |c.arena| && !op.DoAcquire? {
      assert SoundSlot(c, i);
      var p := c.arena[i].pool;
      Safety.StepKeeps(p, op);
      LimitStays(p, op);
      if Idle(p) { IdleStays(p, op); }
      SetPoolKeeps(c, i, S.Step(p, op));
    }
  }

  lemma DropKeeps(c: HostPools, host: string)
    requires Inv(c) && IsIdle(c, host)
    ensures Inv(Drop(c, host))
  {
    var d := Drop(c, host);
    FilterHosts(c.access, host);
    forall k | 0 <= k < |d.arena| ensures SoundSlot(d, k) { assert SoundSlot(c, k); }
    forall k, l | 0 <= k < l < |d.arena| ensures Rivals(d, k, l) { assert Rivals(c, k, l); }
  }

  lemma {:induction false} FilterHosts(access: seq<Access>, host: string)
    requires DistinctHosts(access)
    ensures DistinctHosts(Filter(OtherHosts(host), access))
    ensures HostSet(Filter(OtherHosts(host), access)) == HostSet(access) - {host}
  {
    if access != [] {
      FilterHosts(access[1..], host);
      var rest := Filter(OtherHosts(host), access[1..]);
      if access[0].host != host {
        assert Filter(OtherHosts(host), access)[1..] == rest;
      } else {
        assert Filter(OtherHosts(host), access) == rest;
      }
    }
  }

  lemma {:induction false} DropIdleKeeps(c: HostPools, hosts: seq<Access>)
    requires Inv(c)
    ensures Inv(DropIdle(c, hosts))
    ensures var d := DropIdle(c, hosts);
            && d.arena == c.arena && d.epoch == c.epoch && d.perHostLimit == c.perHostLimit
            && d.pools.Keys <= c.pools.Keys && (forall h <- d.pools :: d.pools[h] == c.pools[h])
    decreases |hosts|
  {
    if hosts != [] {
      var h := hosts[0].host;
      if IsIdle(c, h) {
        DropKeeps(c, h);
        DropIdleKeeps(Drop(c, h), hosts[1..]);
      } else {
        DropIdleKeeps(c, hosts[1..]);
      }
    }
  }

  lemma {:induction false} TouchHosts(access: seq<Access>, host: string, now: int)
    requires DistinctHosts(access)
    ensures DistinctHosts(Touch(access, host, now))
    ensures HostSet(Touch(access, host, now)) == HostSet(access) + {host}
  {
    var t := Touch(access, host, now);
    if access == [] {
      assert t[1..] == [];
    } else if access[0].host == host {
      assert t[1..] == access[1..];
    } else {
      TouchHosts(access[1..], host, now);
      assert t[1..] == Touch(access[1..], host, now);
    }
  }

  /** A new pool joins; the other pools of its host are idle, for the table has none. */
  lemma AddKeeps(c: HostPools, host: string, now: int)
    requires Inv(c) && host !in c.pools
    ensures Inv(c.(pools := c.pools[host := |c.arena|], access := Touch(c.access, host, now),
                   arena := c.arena + [Slot(host, c.epoch, NewPool(c))]))
  {
    var n := |c.arena|;
    var d := c.(pools := c.pools[host := n], access := Touch(c.access, host, now),
                arena := c.arena + [Slot(host, c.epoch, NewPool(c))]);
    TouchHosts(c.access, host, now);
    forall k | 0 <= k < |d.arena| ensures SoundSlot(d, k) {
      if k < n { assert SoundSlot(c, k); }
    }
    AddedRivals(c, d, host);
  }

  lemma AddedRivals(c: HostPools, d: HostPools, host: string)
    requires Inv(c) && host !in c.pools
    requires d.arena == c.arena + [Slot(host, c.epoch, NewPool(c))]
    ensures forall k, l :: 0 <= k < l < |d.arena| ==> Rivals(d, k, l)
  {
    forall k, l | 0 <= k < l < |d.arena| ensures Rivals(d, k, l) {
      assert SoundSlot(c, k);
      if l < |c.arena| { assert Rivals(c, k, l); }
    }
  }

  lemma HostPoolKeeps(c: HostPools, host: string, now: int)
    requires Inv(c)
    ensures var (d, n) := HostPool(c, host, now);
            Inv(d) && host in d.pools && d.pools[host] == n && n < |d.arena| && d.arena[n].host == host
            && d.epoch == c.epoch && d.perHostLimit == c.perHostLimit
  {
    if host in c.pools {
      var d := c.(access := Touch(c.access, host, now));
      TouchHosts(c.access, host, now);
      assert HostSet(d.access) == c.pools.Keys;
      forall k | 0 <= k < |d.arena| ensures SoundSlot(d, k) { assert SoundSlot(c, k); }
      forall k, l | 0 <= k < l < |d.arena| ensures Rivals(d, k, l) { assert Rivals(c, k, l); }
    } else {
      DropIdleKeeps(c, Oldest(c));
      var room := if |c.access| >= MAX_TRACKED_HOSTS then Prune(c) else c;
      AddKeeps(room, host, now);
    }
  }

  lemma WithHostSlotKeeps(c: HostPools, host: string, req: S.Request)
    requires Inv(c)
    ensures Inv(WithHostSlot(c, host, req))
  {
    HostPoolKeeps(c, host, req.now);
    var (d, n) := HostPool(c, host, req.now);
    assert SoundSlot(d, n);
    Safety.AcquireKeeps(d.arena[n].pool, req);
    SetPoolKeeps(d, n, S.Acquire(d.arena[n].pool, req));
  }

  lemma ConfigureKeeps(c: HostPools, limit: real, queueMax: real, timeout: int)
    requires Inv(c)
    ensures Inv(Configure(c, limit, queueMax, timeout))
  {
    var d := Configure(c, limit, queueMax, timeout);
    forall k | 0 <= k < |d.arena| ensures SoundSlot(d, k) { assert SoundSlot(c, k); }
    forall k, l | 0 <= k < l < |d.arena| ensures Rivals(d, k, l) { assert Rivals(c, k, l); }
  }

  /** A slot kept its name and limit, and did not wake up. */
  ghost predicate Calmer(a: Slot, b: Slot) {
    a.host == b.host && a.epoch == b.epoch && a.pool.limit == b.pool.limit && (Idle(a.pool) ==> Idle(b.pool))
  }

  lemma CalmerRivals(c: HostPools, d: HostPools)
    requires Inv(c) && |d.arena| == |c.arena|
    requires forall k :: 0 <= k < |c.arena| ==> Calmer(c.arena[k], d.arena[k])
    ensures forall k, l :: 0 <= k < l < |d.arena| ==> Rivals(d, k, l)
  {
    forall k, l | 0 <= k < l < |d.arena| ensures Rivals(d, k, l) {
      assert Rivals(c, k, l);
      assert Calmer(c.arena[k], d.arena[k]) && Calmer(c.arena[l], d.arena[l]);
    }
  }

  lemma AbortAllKeeps(c: HostPools)
    requires Inv(c)
    ensures Inv(AbortAllQueued(c))
  {
    var d := AbortAllQueued(c);
    forall k | 0 <= k < |d.arena| ensures SoundSlot(d, k) && Calmer(c.arena[k], d.arena[k]) {
      AbortOneKeeps(c, k);
    }
    CalmerRivals(c, d);
    assert Tabled(d);
  }

  lemma AbortOneKeeps(c: HostPools, k: nat)
    requires Inv(c) && k < |c.arena|
    ensures var d := AbortAllQueued(c);
            SoundSlot(d, k) && Calmer(c.arena[k], d.arena[k])
  {
    assert SoundSlot(c, k);
    var p := c.arena[k].pool;
    Safety.StepKeeps(p, S.DoAbortQueued);
    LimitStays(p, S.DoAbortQueued);
    if Idle(p) { IdleStays(p, S.DoAbortQueued); }
  }

  lemma StepKeeps(c: HostPools, op: Op)
    requires Inv(c)
    ensures Inv(Step(c, op))
  {
    match op
    case DoConfigure(limit, queueMax, timeout) => ConfigureKeeps(c, limit, queueMax, timeout);
    case DoWithHostSlot(host, req) => WithHostSlotKeeps(c, host, req);
    case DoContinue(i, o) => ContinueKeeps(c, i, o);
    case DoAbortAllQueued => AbortAllKeeps(c);
  }

  lemma {:induction false} RunKeeps(c: HostPools, ops: seq<Op>)
    requires Inv(c)
    ensures Inv(Run(c, ops))
    decreases |ops|
  {
    if ops != [] {
      StepKeeps(c, ops[0]);
      RunKeeps(Step(c, ops[0]), ops[1..]);
    }
  }

  lemma {:induction false} RunConcat(c: HostPools, a: seq<Op>, b: seq<Op>)
    ensures Run(c, a + b) == Run(Run(c, a), b)
    decreases |a|
  {
    if a == [] {
      assert a + b == b;
    } else {
      assert (a + b)[1..] == a[1..] + b;
      RunConcat(Step(c, a[0]), a[1..], b);
    }
  }

  lemma RunAppend(c: HostPools, ops: seq<Op>, op: Op)
    ensures Run(c, ops + [op]) == Step(Run(c, ops), op)
  {
    RunConcat(c, ops, [op]);
    assert [op][1..] == [];
    assert Run(Run(c, ops), [op]) == Run(Step(Run(c, ops), op), []);
  }

  lemma CreateInv(limit: real, queueMax: int, timeout: int)
    ensures Inv(Create(limit, queueMax, timeout))
  {
  }

  // ---------------------------------------------------------------- main results

  /** The weight in flight for a host over all pools ever made for it under one configuration. */
  function InFlight(arena: seq<Slot>, host: string, epoch: nat): int {
    if arena == [] then 0
    else InFlight(arena[..|arena| - 1], host, epoch)
         + (var s := arena[|arena| - 1]; if s.host == host && s.epoch == epoch then s.pool.inFlight else 0)
  }

  /** Slots of one host and one configuration, of which at most one is not idle. */
  ghost predicate OneBusy(arena: seq<Slot>, host: string, epoch: nat, limit: nat) {
    && (forall s <- arena :: s.host == host && s.epoch == epoch ==> 0 <= s.pool.inFlight <= limit)
    && (forall i, j :: 0 <= i < j < |arena| && arena[i].host == host == arena[j].host && arena[i].epoch == epoch == arena[j].epoch
          ==> Idle(arena[i].pool) || Idle(arena[j].pool))
  }

  lemma {:induction false} OneBusyTotal(arena: seq<Slot>, host: string, epoch: nat, limit: nat)
    requires OneBusy(arena, host, epoch, limit)
    ensures 0 <= InFlight(arena, host, epoch) <= limit
    ensures (forall s <- arena :: s.host == host && s.epoch == epoch ==> Idle(s.pool)) ==> InFlight(arena, host, epoch) == 0
  {
    if arena != [] {
      var front, s := arena[..|arena| - 1], arena[|arena| - 1];
      assert forall x <- front :: x in arena;
      OneBusyTotal(front, host, epoch, limit);
      if s.host == host && s.epoch == epoch && !Idle(s.pool) {
        forall x | x in front && x.host == host && x.epoch == epoch ensures Idle(x.pool) {
          var i :| 0 <= i < |front| && front[i] == x;
          assert arena[i] == x;
        }
      }
    }
  }

  function Reached(limit: real, queueMax: int, timeout: int, ops: seq<Op>): HostPools {
    Run(Create(limit, queueMax, timeout), ops)
  }

  lemma ReachedInv(limit: real, queueMax: int, timeout: int, ops: seq<Op>)
    ensures Inv(Reached(limit, queueMax, timeout, ops))
  {
    CreateInv(limit, queueMax, timeout);
    RunKeeps(Create(limit, queueMax, timeout), ops);
  }

  /** Between configurations the weight in flight for a host, over every pool ever made for it,
      never exceeds the limit per host: dropping and remaking pools cannot be noticed. */
  lemma HostLimitHolds(limit: real, queueMax: int, timeout: int, ops: seq<Op>, host: string)
    ensures var c := Reached(limit, queueMax, timeout, ops);
            0 <= InFlight(c.arena, host, c.epoch) <= LimitOf(c.perHostLimit)
  {
    ReachedInv(limit, queueMax, timeout, ops);
    var c := Reached(limit, queueMax, timeout, ops);
    BusyOnce(c, host);
    OneBusyTotal(c.arena, host, c.epoch, LimitOf(c.perHostLimit));
  }

  lemma BusyOnce(c: HostPools, host: string)
    requires Inv(c)
    ensures OneBusy(c.arena, host, c.epoch, LimitOf(c.perHostLimit))
  {
    forall s | s in c.arena && s.host == host && s.epoch == c.epoch ensures 0 <= s.pool.inFlight <= LimitOf(c.perHostLimit) {
      var i :| 0 <= i < |c.arena| && c.arena[i] == s;
      assert SoundSlot(c, i);
    }
    forall i, j | 0 <= i < j < |c.arena| && c.arena[i].host == host && c.arena[i].epoch == c.epoch
                  && c.arena[j].host == host && c.arena[j].epoch == c.epoch
      ensures Idle(c.arena[i].pool) || Idle(c.arena[j].pool)
    {
      assert Rivals(c, i, j);
    }
  }

  /** The callers of an earlier configuration, too, stay within the limit of that one. */
  lemma OldHostLimitHolds(limit: real, queueMax: int, timeout: int, ops: seq<Op>, i: nat)
    requires i < |Reached(limit, queueMax, timeout, ops).arena|
    ensures var c := Reached(limit, queueMax, timeout, ops);
            0 <= InFlight(c.arena, c.arena[i].host, c.arena[i].epoch) <= c.arena[i].pool.limit
  {
    ReachedInv(limit, queueMax, timeout, ops);
    var c := Reached(limit, queueMax, timeout, ops);
    var host, epoch := c.arena[i].host, c.arena[i].epoch;
    forall s | s in c.arena && s.host == host && s.epoch == epoch ensures 0 <= s.pool.inFlight <= c.arena[i].pool.limit {
      var j :| 0 <= j < |c.arena| && c.arena[j] == s;
      assert SoundSlot(c, j);
      if i < j { assert Rivals(c, i, j); } else if j < i { assert Rivals(c, j, i); }
    }
    forall j, k | 0 <= j < k < |c.arena| && c.arena[j].host == host && c.arena[j].epoch == epoch
                  && c.arena[k].host == host && c.arena[k].epoch == epoch
      ensures Idle(c.arena[j].pool) || Idle(c.arena[k].pool)
    {
      assert Rivals(c, j, k);
    }
    OneBusyTotal(c.arena, host, epoch, c.arena[i].pool.limit);
  }

  /** A pool of the present configuration that pruning dropped has neither a holder nor a waiter. */
  lemma DroppedPoolsAreIdle(limit: real, queueMax: int, timeout: int, ops: seq<Op>, i: nat)
    requires var c := Reached(limit, queueMax, timeout, ops);
             && i < |c.arena| && c.arena[i].epoch == c.epoch
             && !(c.arena[i].host in c.pools && c.pools[c.arena[i].host] == i)
    ensures var p := Reached(limit, queueMax, timeout, ops).arena[i].pool;
            Idle(p) && forall r <- p.releasers :: r.released
  {
    ReachedInv(limit, queueMax, timeout, ops);
    var c := Reached(limit, queueMax, timeout, ops);
    assert SoundSlot(c, i);
    var p := c.arena[i].pool;
    Safety.HeldVersusOutstanding(p.releasers);
    forall r | r in p.releasers ensures r.released {
      var k :| 0 <= k < |p.releasers| && p.releasers[k] == r;
    }
  }

  /** The hosts in the access table are exactly those with a pool, each once. */
  lemma AccessTableIsExact(limit: real, queueMax: int, timeout: int, ops: seq<Op>)
    ensures var c := Reached(limit, queueMax, timeout, ops);
            HostSet(c.access) == c.pools.Keys && DistinctHosts(c.access)
  {
    ReachedInv(limit, queueMax, timeout, ops);
  }

  // ---------------------------------------------------------------- what pruning drops

  lemma {:induction false} DropIdleExactly(c: HostPools, hosts: seq<Access>, host: string)
    requires host in c.pools
    ensures host in DropIdle(c, hosts).pools <==> !(IsIdle(c, host) && exists a :: a in hosts && a.host == host)
    decreases |hosts|
  {
    if hosts != [] {
      var h := hosts[0].host;
      var next := if IsIdle(c, h) then Drop(c, h) else c;
      assert hosts == [hosts[0]] + hosts[1..];
      if h == host && IsIdle(c, h) {
        StaysOut(next, hosts[1..], host);
      } else {
        DropIdleExactly(next, hosts[1..], host);
        assert IsIdle(next, host) <==> IsIdle(c, host);
      }
    }
  }

  lemma {:induction false} StaysOut(c: HostPools, hosts: seq<Access>, host: string)
    requires host !in c.pools
    ensures host !in DropIdle(c, hosts).pools
    decreases |hosts|
  {
    if hosts != [] {
      StaysOut(if IsIdle(c, hosts[0].host) then Drop(c, hosts[0].host) else c, hosts[1..], host);
    }
  }

  /** Pruning drops a pool exactly when it is idle and its host is among the 128 used least
      recently: no host outside of them was used earlier than one of them. */
  lemma PruneDropsIff(c: HostPools, host: string)
    requires host in c.pools
    ensures host in Prune(c).pools <==> !(IsIdle(c, host) && exists a :: a in Oldest(c) && a.host == host)
    ensures |Oldest(c)| == Min(128, |c.access|)
    ensures forall a <- Oldest(c) :: a in c.access
    ensures forall a <- Oldest(c), b <- c.access :: b !in Oldest(c) ==> a.at <= b.at
  {
    DropIdleExactly(c, Oldest(c), host);
    OldestIsOldest(c);
  }

  lemma OldestIsOldest(c: HostPools)
    ensures |Oldest(c)| == Min(128, |c.access|)
    ensures forall a <- Oldest(c) :: a in c.access
    ensures forall a <- Oldest(c), b <- c.access :: b !in Oldest(c) ==> a.at <= b.at
  {
    var byTime := Sort(ByTime(), c.access);
    SortContents(ByTime(), c.access);
    assert TotalPreorder(ByTime());
    SortSorts(ByTime(), c.access);
    var oldest := Oldest(c);
    assert forall k :: 0 <= k < |oldest| ==> byTime[k] == oldest[k] && oldest[k] in oldest;
    forall a | a in oldest ensures a in c.access {
      assert a in byTime;
      SortMembers(ByTime(), c.access, a);
    }
    forall a, b | a in oldest && b in c.access && b !in oldest ensures a.at <= b.at {
      SortMembers(ByTime(), c.access, b);
      var i :| 0 <= i < |oldest| && oldest[i] == a;
      var j :| 0 <= j < |byTime| && byTime[j] == b;
      assert j >= |oldest|;
      assert ByTime()(byTime[i], byTime[j]);
    }
  }

  // ---------------------------------------------------------------- where the limit ends

  lemma {:induction false} InFlightSet(arena: seq<Slot>, i: nat, p: S.Pool, host: string, epoch: nat)
    requires i < |arena| && arena[i].host == host && arena[i].epoch == epoch
    ensures InFlight(arena[i := arena[i].(pool := p)], host, epoch)
            == InFlight(arena, host, epoch) - arena[i].pool.inFlight + p.inFlight
  {
    var after := arena[i := arena[i].(pool := p)];
    if i == |arena| - 1 {
      assert after[..i] == arena[..i];
    } else {
      assert after[..|arena| - 1] == arena[..|arena| - 1][i := arena[i].(pool := p)];
      InFlightSet(arena[..|arena| - 1], i, p, host, epoch);
    }
  }

  /** The limit rests on every caller asking for the pool anew. A caller that kept a dropped pool
      and acquires from it gets a slot although the host is at its limit. */
  lemma KeptPoolBreaksLimit(c: HostPools, i: nat, j: nat, req: S.Request)
    requires Inv(c) && i < |c.arena| && j < |c.arena| && i != j
    requires c.arena[i].host == c.arena[j].host && c.arena[i].epoch == c.arena[j].epoch == c.epoch
    requires Idle(c.arena[i].pool) && c.arena[j].pool.inFlight == c.arena[j].pool.limit
    requires !req.signal.AlreadyAborted?
    ensures var d := SetPool(c, i, S.Acquire(c.arena[i].pool, req));
            InFlight(d.arena, c.arena[i].host, c.epoch) > LimitOf(c.perHostLimit)
  {
    var host := c.arena[i].host;
    assert SoundSlot(c, i) && SoundSlot(c, j);
    FullHost(c, j);
    IdleGrants(c.arena[i].pool, req);
    InFlightSet(c.arena, i, S.Acquire(c.arena[i].pool, req), host, c.epoch);
  }

  lemma FullHost(c: HostPools, j: nat)
    requires Inv(c) && j < |c.arena| && c.arena[j].epoch == c.epoch && c.arena[j].pool.inFlight == c.arena[j].pool.limit
    ensures InFlight(c.arena, c.arena[j].host, c.epoch) >= LimitOf(c.perHostLimit)
  {
    assert SoundSlot(c, j);
    BusyOnce(c, c.arena[j].host);
    AtLeast(c.arena, j, c.arena[j].host, c.epoch, LimitOf(c.perHostLimit));
  }

  /** An idle pool lets a caller in at once. */
  lemma IdleGrants(p: S.Pool, req: S.Request)
    requires Safety.Inv(p) && Idle(p) && !req.signal.AlreadyAborted?
    ensures S.Acquire(p, req).inFlight == S.Clamp(p.limit, req.weight) >= 1
  {
  }

  lemma {:induction false} AtLeast(arena: seq<Slot>, j: nat, host: string, epoch: nat, limit: nat)
    requires j < |arena| && arena[j].host == host && arena[j].epoch == epoch
    requires OneBusy(arena, host, epoch, limit)
    ensures InFlight(arena, host, epoch) >= arena[j].pool.inFlight
  {
    var front := arena[..|arena| - 1];
    assert forall x <- front :: x in arena;
    OneBusyTotal(front, host, epoch, limit);
    if j < |arena| - 1 {
      AtLeast(front, j, host, epoch, limit);
    }
  }
}
