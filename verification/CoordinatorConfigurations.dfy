/** What a host can have in flight when the limits are changed while requests run. */
module CoordinatorConfigurations {
  import opened Prelude
  import opened Coordinator
  import opened CoordinatorRuns
  import S = Semaphore

  /** The limit of every configuration of a run, the first one included. */
  function Limits(perHostLimit: real, ops: seq<Op>): seq<nat> {
    if ops == [] then [LimitOf(AtLeastOne(perHostLimit))]
    else
      var before := Limits(perHostLimit, ops[..|ops| - 1]);
      match ops[|ops| - 1]
      case DoConfigure(limit, _, _) => before + [LimitOf(AtLeastOne(limit))]
      case _ => before
  }

  function Sum(limits: seq<nat>): nat {
    if limits == [] then 0 else Sum(limits[..|limits| - 1]) + limits[|limits| - 1]
  }

  /** The weight in flight for a host, over all pools ever made for it. */
  function Total(arena: seq<Slot>, host: string): int {
    if arena == [] then 0
    else
      var s := arena[|arena| - 1];
      Total(arena[..|arena| - 1], host) + if s.host == host then s.pool.inFlight else 0
  }

  // ---------------------------------------------------------------- every pool keeps its limit

  /** The pool has the limit of the configuration it was made under. */
  ghost predicate Dated(s: Slot, limits: seq<nat>) {
    s.epoch < |limits| && s.pool.limit == limits[s.epoch]
  }

  ghost predicate Recorded(c: HostPools, limits: seq<nat>) {
    && |limits| == c.epoch + 1 && limits[c.epoch] == LimitOf(c.perHostLimit)
    && forall s <- c.arena :: Dated(s, limits)
  }

  lemma SetPoolRecorded(c: HostPools, i: nat, p: S.Pool, limits: seq<nat>)
    requires Recorded(c, limits) && i < |c.arena| && p.limit == c.arena[i].pool.limit
    ensures Recorded(SetPool(c, i, p), limits)
  {
    assert Dated(c.arena[i], limits);
  }

  lemma HostPoolRecorded(c: HostPools, host: string, now: int, limits: seq<nat>)
    requires Inv(c) && Recorded(c, limits)
    ensures Recorded(HostPool(c, host, now).0, limits)
  {
    if host !in c.pools {
      DropIdleKeeps(c, Oldest(c));
      assert Dated(Slot(host, c.epoch, NewPool(c)), limits);
    }
  }

  lemma AbortAllRecorded(c: HostPools, limits: seq<nat>)
    requires Inv(c) && Recorded(c, limits)
    ensures Recorded(AbortAllQueued(c), limits)
  {
    var d := AbortAllQueued(c);
    forall s | s in d.arena ensures Dated(s, limits) {
      var k :| 0 <= k < |d.arena| && d.arena[k] == s;
      AbortOneKeeps(c, k);
      assert Dated(c.arena[k], limits);
    }
  }

  lemma ConfigureRecorded(c: HostPools, limit: real, queueMax: real, timeout: int, limits: seq<nat>)
    requires Recorded(c, limits)
    ensures Recorded(Configure(c, limit, queueMax, timeout), limits + [LimitOf(AtLeastOne(limit))])
  {
    forall s | s in c.arena ensures Dated(s, limits + [LimitOf(AtLeastOne(limit))]) {
      assert Dated(s, limits);
    }
  }

  lemma OtherStepRecorded(c: HostPools, op: Op, limits: seq<nat>)
    requires Inv(c) && Recorded(c, limits) && !op.DoConfigure?
    ensures Recorded(Step(c, op), limits)
  {
    match op
    case DoWithHostSlot(host, req) =>
      HostPoolKeeps(c, host, req.now);
      HostPoolRecorded(c, host, req.now, limits);
      var (d, n) := HostPool(c, host, req.now);
      SetPoolRecorded(d, n, S.Acquire(d.arena[n].pool, req), limits);
    case DoContinue(i, o) =>
      if i < |c.arena| && !o.DoAcquire? {
        LimitStays(c.arena[i].pool, o);
        SetPoolRecorded(c, i, S.Step(c.arena[i].pool, o), limits);
      }
    case DoAbortAllQueued => AbortAllRecorded(c, limits);
  }

  lemma {:induction false} ReachedRecorded(limit: real, queueMax: int, timeout: int, ops: seq<Op>)
    ensures Recorded(Reached(limit, queueMax, timeout, ops), Limits(limit, ops))
  {
    if ops != [] {
      var before, op := ops[..|ops| - 1], ops[|ops| - 1];
      assert ops == before + [op];
      ReachedRecorded(limit, queueMax, timeout, before);
      ReachedInv(limit, queueMax, timeout, before);
      RunAppend(Create(limit, queueMax, timeout), before, op);
      var c := Reached(limit, queueMax, timeout, before);
      match op
      case DoConfigure(l, q, t) => ConfigureRecorded(c, l, q, t, Limits(limit, before));
      case _ => OtherStepRecorded(c, op, Limits(limit, before));
    }
  }

  // ---------------------------------------------------------------- the sum

  /** The weight in flight for a host under the first `n` configurations. */
  function UpTo(arena: seq<Slot>, host: string, n: nat): int {
    if n == 0 then 0 else UpTo(arena, host, n - 1) + InFlight(arena, host, n - 1)
  }

  lemma {:induction false} UpToLast(arena: seq<Slot>, host: string, n: nat)
    requires arena != []
    ensures var s := arena[|arena| - 1];
            UpTo(arena, host, n) == UpTo(arena[..|arena| - 1], host, n) + if s.host == host && s.epoch < n then s.pool.inFlight else 0
  {
    if n > 0 { UpToLast(arena, host, n - 1); }
  }

  lemma {:induction false} UpToNothing(host: string, n: nat)
    ensures UpTo([], host, n) == 0
  {
    if n > 0 { UpToNothing(host, n - 1); }
  }

  /** Counting by configurations counts every pool once. */
  lemma {:induction false} TotalByConfiguration(arena: seq<Slot>, host: string, n: nat)
    requires forall s <- arena :: s.epoch < n
    ensures Total(arena, host) == UpTo(arena, host, n)
  {
    if arena == [] {
      UpToNothing(host, n);
    } else {
      assert forall s <- arena[..|arena| - 1] :: s in arena;
      TotalByConfiguration(arena[..|arena| - 1], host, n);
      UpToLast(arena, host, n);
    }
  }

  lemma BusyOnceUnder(c: HostPools, host: string, epoch: nat, limits: seq<nat>)
    requires Inv(c) && Recorded(c, limits) && epoch < |limits|
    ensures 0 <= InFlight(c.arena, host, epoch) <= limits[epoch]
  {
    forall s | s in c.arena && s.host == host && s.epoch == epoch ensures 0 <= s.pool.inFlight <= limits[epoch] {
      var i :| 0 <= i < |c.arena| && c.arena[i] == s;
      assert SoundSlot(c, i) && Dated(s, limits);
    }
    forall i, j | 0 <= i < j < |c.arena| && c.arena[i].host == host && c.arena[i].epoch == epoch
                  && c.arena[j].host == host && c.arena[j].epoch == epoch
      ensures Idle(c.arena[i].pool) || Idle(c.arena[j].pool)
    {
      assert Rivals(c, i, j);
    }
    OneBusyTotal(c.arena, host, epoch, limits[epoch]);
  }

  lemma {:induction false} UpToBound(c: HostPools, host: string, n: nat, limits: seq<nat>)
    requires Inv(c) && Recorded(c, limits) && n <= |limits|
    ensures 0 <= UpTo(c.arena, host, n) <= Sum(limits[..n])
  {
    if n > 0 {
      UpToBound(c, host, n - 1, limits);
      BusyOnceUnder(c, host, n - 1, limits);
      assert limits[..n][..n - 1] == limits[..n - 1];
    }
  }

  /** Whatever the configurations of a run were, a host never has more in flight than their limits
      together allow. */
  lemma AllConfigurationsBound(limit: real, queueMax: int, timeout: int, ops: seq<Op>, host: string)
    ensures 0 <= Total(Reached(limit, queueMax, timeout, ops).arena, host) <= Sum(Limits(limit, ops))
  {
    var c, limits := Reached(limit, queueMax, timeout, ops), Limits(limit, ops);
    ReachedInv(limit, queueMax, timeout, ops);
    ReachedRecorded(limit, queueMax, timeout, ops);
    forall s | s in c.arena ensures s.epoch < |limits| { assert Dated(s, limits); }
    TotalByConfiguration(c.arena, host, |limits|);
    UpToBound(c, host, |limits|, limits);
    assert limits[..|limits|] == limits;
  }

  // ---------------------------------------------------------------- a run that reaches it

  /** A request for all the weight that a limit allows. */
  function Everything(limit: nat): Op {
    DoWithHostSlot("h", S.Request(Some(limit as real), None, S.NoSignal, None, 0))
  }

  /** Fill the pool of the host, configure the next limit, fill the new pool, and so on. */
  function Filling(limits: seq<nat>): seq<Op>
    requires limits != []
  {
    var last := limits[|limits| - 1];
    if |limits| == 1 then [Everything(last)]
    else Filling(limits[..|limits| - 1]) + [DoConfigure(last as real, 0.0, 0)] + [Everything(last)]
  }

  lemma FillsNew(c: HostPools, limit: nat)
    requires limit >= 1 && c.perHostLimit == limit as real && c.pools == map[] && c.access == []
    ensures Total(Step(c, Everything(limit)).arena, "h") == Total(c.arena, "h") + limit
    ensures Step(c, Everything(limit)).epoch == c.epoch
  {
    var p := NewPool(c);
    assert p.limit == limit && p.inFlight == 0 && p.queue == [];
    var q := S.Acquire(p, S.Request(Some(limit as real), None, S.NoSignal, None, 0));
    assert q.inFlight == limit;
    var d := Step(c, Everything(limit));
    assert d.arena == c.arena + [Slot("h", c.epoch, q)];
    assert d.arena[..|c.arena|] == c.arena;
  }

  lemma LimitsAppend(limit: real, ops: seq<Op>, op: Op)
    ensures Limits(limit, ops + [op])
            == Limits(limit, ops) + if op.DoConfigure? then [LimitOf(AtLeastOne(op.perHostLimit))] else []
  {
    assert (ops + [op])[..|ops|] == ops;
  }

  /** A configuration and a request for all of it add its limit. */
  lemma FillsNext(limit: real, ops: seq<Op>, last: nat)
    requires last >= 1
    ensures var after := ops + [DoConfigure(last as real, 0.0, 0)] + [Everything(last)];
            && Limits(limit, after) == Limits(limit, ops) + [last]
            && Total(Reached(limit, 0, 0, after).arena, "h") == Total(Reached(limit, 0, 0, ops).arena, "h") + last
  {
    var configure := DoConfigure(last as real, 0.0, 0);
    LimitsAppend(limit, ops, configure);
    LimitsAppend(limit, ops + [configure], Everything(last));
    RunAppend(Create(limit, 0, 0), ops, configure);
    RunAppend(Create(limit, 0, 0), ops + [configure], Everything(last));
    FillsNew(Reached(limit, 0, 0, ops + [configure]), last);
  }

  lemma FillsFirst(first: nat)
    requires first >= 1
    ensures Limits(first as real, [Everything(first)]) == [first]
    ensures Total(Reached(first as real, 0, 0, [Everything(first)]).arena, "h") == first
  {
    var start := Create(first as real, 0, 0);
    FillsNew(start, first);
    LimitsAppend(first as real, [], Everything(first));
    RunAppend(start, [], Everything(first));
    assert [] + [Everything(first)] == [Everything(first)];
  }

  /** The bound is reached, for any limits: requests of every configuration can all be in flight
      at the same time. */
  lemma {:induction false} ConfigurationsAddUp(limits: seq<nat>)
    requires limits != [] && forall i :: 0 <= i < |limits| ==> limits[i] >= 1
    ensures Limits(limits[0] as real, Filling(limits)) == limits
    ensures Total(Reached(limits[0] as real, 0, 0, Filling(limits)).arena, "h") == Sum(limits)
  {
    var before, last := limits[..|limits| - 1], limits[|limits| - 1];
    assert limits == before + [last];
    if before == [] {
      FillsFirst(last);
    } else {
      ConfigurationsAddUp(before);
      FillsNext(limits[0] as real, Filling(before), last);
    }
  }
}
