/** What becomes of dropped pools, and a run in which a kept one breaks the limit. */
module CoordinatorPruning {
  import opened Prelude
  import opened StableSort
  import opened Coordinator
  import opened CoordinatorRuns
  import S = Semaphore
  import Safety = SemaphoreSafety

  // ---------------------------------------------------------------- dropped for ever

  /** A pool that is out of the table and idle. */
  ghost predicate Retired(c: HostPools, i: nat) {
    i < |c.arena| && Idle(c.arena[i].pool) && !InTable(c, i)
  }

  lemma StepKeepsRetired(c: HostPools, op: Op, i: nat)
    requires Inv(c) && Retired(c, i)
    ensures Retired(Step(c, op), i)
  {
    assert SoundSlot(c, i);
    match op
    case DoConfigure(_, _, _) =>
    case DoWithHostSlot(host, req) => RequestKeepsRetired(c, host, req, i);
    case DoContinue(j, o) =>
      if j == i && !o.DoAcquire? { IdleStays(c.arena[i].pool, o); }
    case DoAbortAllQueued =>
  }

  lemma RequestKeepsRetired(c: HostPools, host: string, req: S.Request, i: nat)
    requires Inv(c) && Retired(c, i)
    ensures Retired(WithHostSlot(c, host, req), i)
  {
    HostPoolKeeps(c, host, req.now);
    if host !in c.pools {
      DropIdleKeeps(c, Oldest(c));
    }
    var (d, n) := HostPool(c, host, req.now);
    assert n != i && d.arena[i] == c.arena[i];
  }

  lemma {:induction false} RunKeepsRetired(c: HostPools, ops: seq<Op>, i: nat)
    requires Inv(c) && Retired(c, i)
    ensures Retired(Run(c, ops), i)
    decreases |ops|
  {
    if ops != [] {
      StepKeeps(c, ops[0]);
      StepKeepsRetired(c, ops[0], i);
      RunKeepsRetired(Step(c, ops[0]), ops[1..], i);
    }
  }

  /** A pool that pruning dropped has neither a holder nor a waiter at any later moment, whatever
      happens and however often the coordinator is configured again. */
  lemma DroppedPoolsStayIdle(limit: real, queueMax: int, timeout: int, ops: seq<Op>, later: seq<Op>, i: nat)
    requires var c := Reached(limit, queueMax, timeout, ops);
             i < |c.arena| && c.arena[i].epoch == c.epoch && !InTable(c, i)
    ensures var d := Run(Reached(limit, queueMax, timeout, ops), later);
            i < |d.arena| && Idle(d.arena[i].pool) && !InTable(d, i)
  {
    ReachedInv(limit, queueMax, timeout, ops);
    var c := Reached(limit, queueMax, timeout, ops);
    assert SoundSlot(c, i);
    RunKeepsRetired(c, later, i);
  }

  // ---------------------------------------------------------------- a kept pool

  /** Acquiring directly from an idle pool of the present configuration keeps the bookkeeping
      exactly when the pool is the one in the table. */
  lemma DirectAcquireKeepsIff(c: HostPools, i: nat, req: S.Request)
    requires Inv(c) && i < |c.arena| && c.arena[i].epoch == c.epoch && Idle(c.arena[i].pool)
    requires !req.signal.AlreadyAborted?
    ensures Inv(SetPool(c, i, S.Acquire(c.arena[i].pool, req))) <==> InTable(c, i)
  {
    assert SoundSlot(c, i);
    var p := c.arena[i].pool;
    Safety.AcquireKeeps(p, req);
    var d := SetPool(c, i, S.Acquire(p, req));
    if InTable(c, i) {
      SetPoolKeeps(c, i, S.Acquire(p, req));
    } else {
      assert !SoundSlot(d, i);
    }
  }

  /** Acquiring directly from an idle pool gets past the limit of its host exactly when the host
      has no room for the charge in all its pools together. The semaphore asked cannot see that:
      it is idle and always lets the caller in. */
  lemma DirectAcquireExceedsIff(c: HostPools, i: nat, req: S.Request)
    requires Inv(c) && i < |c.arena| && c.arena[i].epoch == c.epoch && Idle(c.arena[i].pool)
    requires !req.signal.AlreadyAborted?
    ensures var host, limit := c.arena[i].host, LimitOf(c.perHostLimit);
            var d := SetPool(c, i, S.Acquire(c.arena[i].pool, req));
            InFlight(d.arena, host, c.epoch) > limit <==> InFlight(c.arena, host, c.epoch) + S.Clamp(limit, req.weight) > limit
  {
    assert SoundSlot(c, i);
    InFlightSet(c.arena, i, S.Acquire(c.arena[i].pool, req), c.arena[i].host, c.epoch);
  }

  // ---------------------------------------------------------------- a run that reaches it

  /** Host names of different lengths. */
  function Name(i: nat): string {
    seq(i + 1, _ => 'h')
  }

  /** A request at time `i` whose signal has fired already: its pool is made, nothing else. */
  function Lookup(i: nat): S.Request {
    S.Request(None, None, S.AlreadyAborted, None, i)
  }

  function Lookups(n: nat): seq<Op> {
    seq(n, i requires 0 <= i < n => DoWithHostSlot(Name(i), Lookup(i)))
  }

  function Start(): HostPools {
    Create(1.0, 0, 0)
  }

  /** `n` hosts with idle pools, used one after another. */
  ghost predicate Tracked(c: HostPools, n: nat) {
    && c.perHostLimit == 1.0 && c.queueMax == 0 && c.queueTimeoutMs == 0 && c.epoch == 0
    && |c.arena| == n && |c.access| == n
    && (forall i :: 0 <= i < n ==> c.arena[i] == Slot(Name(i), 0, NewPool(Start())))
    && (forall i :: 0 <= i < n ==> c.access[i] == Access(Name(i), i))
    && (forall h <- c.pools :: c.pools[h] < n && h == Name(c.pools[h]))
    && (forall i :: 0 <= i < n ==> Name(i) in c.pools && c.pools[Name(i)] == i)
  }

  lemma {:induction false} TouchAppends(access: seq<Access>, host: string, now: int)
    requires forall a <- access :: a.host != host
    ensures Touch(access, host, now) == access + [Access(host, now)]
  {
    if access != [] {
      assert access[0] in access;
      TouchAppends(access[1..], host, now);
    }
  }

  lemma LookupTracks(c: HostPools, n: nat)
    requires Tracked(c, n) && n < 256
    ensures Tracked(WithHostSlot(c, Name(n), Lookup(n)), n + 1)
  {
    forall i | 0 <= i < n ensures Name(i) != Name(n) {
      assert |Name(i)| != |Name(n)|;
    }
    assert Name(n) !in c.pools;
    TouchAppends(c.access, Name(n), n);
    var d := WithHostSlot(c, Name(n), Lookup(n));
    assert d.arena == c.arena + [Slot(Name(n), 0, NewPool(Start()))];
    assert d.access == c.access + [Access(Name(n), n)];
  }

  lemma {:induction false} LookupsTrack(n: nat)
    requires n <= 256
    ensures Tracked(Run(Start(), Lookups(n)), n)
  {
    if n > 0 {
      LookupsTrack(n - 1);
      assert Lookups(n) == Lookups(n - 1) + [DoWithHostSlot(Name(n - 1), Lookup(n - 1))];
      RunAppend(Start(), Lookups(n - 1), DoWithHostSlot(Name(n - 1), Lookup(n - 1)));
      LookupTracks(Run(Start(), Lookups(n - 1)), n - 1);
    }
  }

  lemma {:induction false} AccessSorted(access: seq<Access>)
    requires forall i, j :: 0 <= i < j < |access| ==> access[i].at <= access[j].at
    ensures Sort(ByTime(), access) == access
  {
    if access != [] {
      AccessSorted(access[1..]);
    }
  }

  /** With 256 hosts tracked, a request for one more drops the pool of the first. */
  lemma FirstIsDropped(c: HostPools)
    requires Tracked(c, 256)
    ensures var d := WithHostSlot(c, Name(256), Lookup(256));
            && Name(0) !in d.pools && |d.arena| == 257 && d.arena[0] == c.arena[0]
            && d.epoch == 0 && d.perHostLimit == 1.0 && d.queueMax == 0 && d.queueTimeoutMs == 0
  {
    assert forall h <- c.pools :: |h| == c.pools[h] + 1;
    assert |Name(256)| == 257;
    AccessSorted(c.access);
    assert c.access[0] in Oldest(c) by { assert Oldest(c)[0] == c.access[0]; }
    assert IsIdle(c, Name(0));
    DropIdleExactly(c, Oldest(c), Name(0));
    DropIdleSettings(c, Oldest(c));
    assert |Name(0)| != |Name(256)|;
  }

  lemma {:induction false} DropIdleSettings(c: HostPools, hosts: seq<Access>)
    ensures var d := DropIdle(c, hosts);
            && d.arena == c.arena && d.epoch == c.epoch && d.perHostLimit == c.perHostLimit
            && d.queueMax == c.queueMax && d.queueTimeoutMs == c.queueTimeoutMs
    decreases |hosts|
  {
    if hosts != [] {
      DropIdleSettings(if IsIdle(c, hosts[0].host) then Drop(c, hosts[0].host) else c, hosts[1..]);
    }
  }

  /** A request that takes the one slot of a host without a pool. */
  lemma TakesTheSlot(d: HostPools)
    requires Name(0) !in d.pools && |d.arena| == 257
    requires d.epoch == 0 && d.perHostLimit == 1.0 && d.queueMax == 0 && d.queueTimeoutMs == 0
    ensures var e := WithHostSlot(d, Name(0), S.Request(None, None, S.NoSignal, None, 257));
            && |e.arena| == 258 && e.arena[0] == d.arena[0] && e.epoch == 0 && e.perHostLimit == 1.0
            && e.arena[257].host == Name(0) && e.arena[257].epoch == 0
            && e.arena[257].pool.inFlight == e.arena[257].pool.limit == 1
  {
    DropIdleSettings(d, Oldest(d));
  }

  /** The run: 256 hosts are looked up, then one more, which drops the pool of the first, then the
      first again, which gets a new pool and fills it. A caller that kept the first pool gets a
      slot from it, and two requests are in flight under a limit of one. */
  lemma KeptPoolRun() returns (ops: seq<Op>)
    ensures var c := Run(Create(1.0, 0, 0), ops);
            var req := S.Request(None, None, S.NoSignal, None, 258);
            && Inv(c) && |c.arena| == 258 && c.arena[0].host == c.arena[257].host == Name(0)
            && !InTable(c, 0) && Idle(c.arena[0].pool)
            && InFlight(SetPool(c, 0, S.Acquire(c.arena[0].pool, req)).arena, Name(0), c.epoch) > LimitOf(c.perHostLimit) == 1
  {
    var more := DoWithHostSlot(Name(256), Lookup(256));
    var again := DoWithHostSlot(Name(0), S.Request(None, None, S.NoSignal, None, 257));
    LookupsTrack(256);
    var c := Run(Start(), Lookups(256));
    FirstIsDropped(c);
    var d := Step(c, more);
    TakesTheSlot(d);
    RunAppend(Start(), Lookups(256), more);
    RunAppend(Start(), Lookups(256) + [more], again);
    ops := Lookups(256) + [more] + [again];
    ReachedInv(1.0, 0, 0, ops);
    var e := Run(Start(), ops);
    assert SoundSlot(e, 257);
    KeptPoolBreaksLimit(e, 0, 257, S.Request(None, None, S.NoSignal, None, 258));
  }
}
