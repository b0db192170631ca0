/** The coordinator as an object: its tables and limits change in place. */
module CoordinatorObject {
  import opened Prelude
  import opened StableSort
  import opened Coordinator
  import opened CoordinatorRuns
  import S = Semaphore

  class ConcurrencyCoordinator {
    var perHostLimit: real
    var queueMax: int
    var queueTimeoutMs: int
    var epoch: nat
    var pools: map<string, nat>
    var hostAccess: seq<Access>
    var arena: seq<Slot>

    function View(): HostPools
      reads this
    {
      HostPools(perHostLimit, queueMax, queueTimeoutMs, epoch, pools, hostAccess, arena)
    }

    ghost predicate Valid()
      reads this
    {
      Inv(View())
    }

    constructor (perHostLimit: real, queueMax: int, queueTimeoutMs: int)
      ensures Valid() && View() == Create(perHostLimit, queueMax, queueTimeoutMs)
    {
      this.perHostLimit := if perHostLimit < 1.0 then 1.0 else perHostLimit;
      this.queueMax := queueMax;
      this.queueTimeoutMs := queueTimeoutMs;
      epoch, pools, hostAccess, arena := 0, map[], [], [];
    }

    /** New settings; every host pool is deleted so that it is made anew with the new limit. */
    method Configure(outboundHost: real, queueMax: real, queueTimeoutMs: int)
      requires Valid()
      modifies this
      ensures Valid() && View() == Coordinator.Configure(old(View()), outboundHost, queueMax, queueTimeoutMs)
    {
      ConfigureKeeps(View(), outboundHost, queueMax, queueTimeoutMs);
      this.queueMax := Max(0, queueMax.Floor);
      this.queueTimeoutMs := Max(0, queueTimeoutMs);
      perHostLimit := if outboundHost < 1.0 then 1.0 else outboundHost;
      epoch := epoch + 1;
      pools, hostAccess := map[], [];
    }

    method Forget(host: string)
      modifies this`pools, this`hostAccess
      ensures View() == Drop(old(View()), host)
    {
      pools := pools - {host};
      hostAccess := Filter(OtherHosts(host), hostAccess);
    }

    method PruneIdleHostPools()
      modifies this`pools, this`hostAccess
      ensures View() == Prune(old(View()))
    {
      var entries := Sort(ByTime(), hostAccess);
      var oldest := entries[..Min(MAX_TRACKED_HOSTS / 2, |entries|)];
      var i := 0;
      while i < |oldest|
        invariant 0 <= i <= |oldest|
        invariant DropIdle(View(), oldest[i..]) == DropIdle(old(View()), oldest)
      {
        assert oldest[i..][1..] == oldest[i + 1..];
        var host := oldest[i].host;
        if host in pools && pools[host] < |arena| {
          var pool := arena[pools[host]].pool;
          if pool.inFlight == 0 && |pool.queue| == 0 {
            Forget(host);
          }
        }
        i := i + 1;
      }
    }

    /** The pool of a host, made if there is none. */
    method HostPool(host: string, now: int) returns (pool: nat)
      requires Valid()
      modifies this
      ensures Valid() && (View(), pool) == Coordinator.HostPool(old(View()), host, now)
      ensures pool < |arena| && arena[pool].host == host && arena[pool].epoch == epoch
    {
      ghost var before := View();
      if host in pools {
        hostAccess := Touch(hostAccess, host, now);
        pool := pools[host];
      } else {
        if |hostAccess| >= MAX_TRACKED_HOSTS {
          PruneIdleHostPools();
        }
        pool := |arena|;
        arena := arena + [Slot(host, epoch, NewPool(View()))];
        pools := pools[host := pool];
        hostAccess := Touch(hostAccess, host, now);
      }
      HostPoolKeeps(before, host, now);
    }

    /** Ask for a slot of a host's pool; the pool is looked up anew for every request. */
    method WithHostSlot(host: string, req: S.Request) returns (pool: nat)
      requires Valid()
      modifies this
      ensures Valid() && View() == Coordinator.WithHostSlot(old(View()), host, req)
      ensures pool < |arena| && arena[pool].host == host
    {
      WithHostSlotKeeps(View(), host, req);
      pool := HostPool(host, req.now);
      arena := arena[pool := arena[pool].(pool := S.Acquire(arena[pool].pool, req))];
    }

    /** A caller of some pool goes on: it releases, its timer fires or its signal aborts. */
    method Continue(pool: nat, op: S.Op)
      requires Valid() && pool < |arena| && !op.DoAcquire?
      modifies this`arena
      ensures Valid() && View() == Coordinator.Continue(old(View()), pool, op)
    {
      ContinueKeeps(View(), pool, op);
      arena := arena[pool := arena[pool].(pool := S.Step(arena[pool].pool, op))];
    }

    /** Abort the waiters of pool `i` if it is in the table. */
    method AbortOne(i: nat) returns (aborted: nat)
      requires i < |arena|
      modifies this`arena
      ensures arena == old(arena)[i := AbortedSlot(old(View()), i)]
      ensures aborted == if InTable(old(View()), i) then |old(arena)[i].pool.queue| else 0
    {
      aborted := 0;
      if arena[i].host in pools && pools[arena[i].host] == i {
        aborted := |arena[i].pool.queue|;
        arena := arena[i := arena[i].(pool := S.AbortQueued(arena[i].pool))];
      }
    }

    method AbortEach() returns (aborted: nat)
      modifies this`arena
      ensures View() == Coordinator.AbortAllQueued(old(View()))
      ensures aborted == Waiting(old(View()), |old(arena)|)
    {
      ghost var before := View();
      aborted := 0;
      var i := 0;
      while i < |arena|
        invariant 0 <= i <= |arena| == |before.arena|
        invariant forall k :: 0 <= k < i ==> arena[k] == AbortedSlot(before, k)
        invariant forall k :: i <= k < |arena| ==> arena[k] == before.arena[k]
        invariant aborted == Waiting(before, i)
      {
        var n := AbortOne(i);
        aborted := aborted + n;
        i := i + 1;
      }
      assert arena == Coordinator.AbortAllQueued(before).arena;
    }

    /** Shutdown: abort every waiter of the pools in the table. */
    method AbortAllQueued() returns (aborted: nat)
      requires Valid()
      modifies this`arena
      ensures Valid() && View() == Coordinator.AbortAllQueued(old(View()))
      ensures aborted == Waiting(old(View()), |old(arena)|)
    {
      AbortAllKeeps(View());
      aborted := AbortEach();
    }
  }

  /** How many callers wait in the pools of the table among the first `n` pools. */
  function Waiting(c: HostPools, n: nat): nat
    requires n <= |c.arena|
  {
    if n == 0 then 0
    else Waiting(c, n - 1)
         + (if InTable(c, n - 1) then |c.arena[n - 1].pool.queue| else 0)
  }
}
