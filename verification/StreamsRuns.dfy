/** The theorems about the stream caps, and where the expiry of counters breaks them. */
module StreamsRuns {
  import opened Prelude
  import opened Counting
  import opened Streams
  import opened StreamsSafety

  // ---------------------------------------------------------------- runs within the life of a counter

  /** All steps of the run happen between `from` and `to`. */
  ghost predicate Between(ops: seq<Op>, from: int, to: int) {
    forall op <- ops :: from <= op.at <= to
  }

  lemma {:induction false} DecrementKeepsExpiry(m: Memory, ks: seq<Key>, to: int)
    requires forall k <- m :: m[k].expiresAt >= to
    ensures forall k <- DecrementAll(m, ks) :: DecrementAll(m, ks)[k].expiresAt >= to
  {
    if ks != [] {
      DecrementKeepsExpiry(Decrement(m, ks[0]), ks[1..], to);
    }
  }

  lemma StepKeepsExpiry(t: Tracker, op: Op, from: int)
    requires op.at >= from && Unexpired(t.memory, from + t.cfg.ttl)
    ensures Unexpired(Step(t, op).memory, from + t.cfg.ttl) && Step(t, op).cfg == t.cfg
  {
    if op.DoRelease? && op.c < |t.callers| {
      DecrementKeepsExpiry(t.memory, ReleaseKeys(t.callers[op.c].who), from + t.cfg.ttl);
    }
    if op.DoAdvance? && op.c < |t.callers| {
      DecrementKeepsExpiry(t.memory, t.callers[op.c].acquired, from + t.cfg.ttl);
    }
  }

  /** A run no longer than the life of a counter never meets an expired one. */
  lemma {:induction false} ShortRunsAreTimely(t: Tracker, ops: seq<Op>, from: int)
    requires Unexpired(t.memory, from + t.cfg.ttl) && Between(ops, from, from + t.cfg.ttl)
    ensures Timely(t, ops)
    decreases |ops|
  {
    if ops != [] {
      assert ops[0] in ops;
      StepKeepsExpiry(t, ops[0], from);
      ShortRunsAreTimely(Step(t, ops[0]), ops[1..], from);
    }
  }

  // ---------------------------------------------------------------- the theorems

  /** Caps: in every timely run, the admitted streams of one address, of one user and of the
      whole deployment never exceed their caps, and every counter equals its holders. */
  lemma CapsHold(cfg: Config, ops: seq<Op>, k: Key)
    requires Timely(Fresh(cfg), ops)
    ensures var t := Run(Fresh(cfg), ops);
            && (Cap(cfg, k) > 0 ==> Count(t.callers, StreamingAt(k)) <= Cap(cfg, k))
            && (k in t.memory <==> Count(t.callers, Holding(k)) > 0)
            && (k in t.memory ==> t.memory[k].count == Count(t.callers, Holding(k)))
  {
    FreshInv(cfg);
    RunKeeps(Fresh(cfg), ops);
    RunConfig(Fresh(cfg), ops);
    var t := Run(Fresh(cfg), ops);
    forall c | c in t.callers && StreamingAt(k)(c) ensures Passing(k)(c) {
      assert c.acquired[..|c.acquired|] == c.acquired;
    }
    CountWithin(t.callers, StreamingAt(k), Passing(k));
  }

  lemma {:induction false} RunConfig(t: Tracker, ops: seq<Op>)
    ensures Run(t, ops).cfg == t.cfg
    decreases |ops|
  {
    if ops != [] { RunConfig(Step(t, ops[0]), ops[1..]); }
  }

  /** Gauges: the per-instance gauges count the admitted streams exactly, so the clamp at zero
      in the release never takes effect. */
  lemma GaugesAreExact(cfg: Config, ops: seq<Op>)
    requires Timely(Fresh(cfg), ops)
    ensures var t := Run(Fresh(cfg), ops);
            && t.activeGlobal == t.activeIp == Count(t.callers, Streaming())
            && t.activeUser == Count(t.callers, StreamingUser())
  {
    FreshInv(cfg);
    RunKeeps(Fresh(cfg), ops);
  }

  /** No leak: when every caller has been rejected or has released, no counter is left. */
  lemma NothingLeaks(cfg: Config, ops: seq<Op>)
    requires Timely(Fresh(cfg), ops)
    requires forall c <- Run(Fresh(cfg), ops).callers :: c.phase.Rejected? || c.phase.Released?
    ensures Run(Fresh(cfg), ops).memory == map[]
    ensures Run(Fresh(cfg), ops).activeGlobal == Run(Fresh(cfg), ops).activeIp == Run(Fresh(cfg), ops).activeUser == 0
  {
    FreshInv(cfg);
    RunKeeps(Fresh(cfg), ops);
    var t := Run(Fresh(cfg), ops);
    forall k ensures k !in t.memory {
      CountPositive(t.callers, Holding(k));
    }
    CountPositive(t.callers, Streaming());
    CountPositive(t.callers, StreamingUser());
  }

  /** A second call of the release function does nothing. */
  lemma ReleaseIsIdempotent(t: Tracker, c: nat)
    ensures Release(Release(t, c), c) == Release(t, c)
  {
  }

  // ---------------------------------------------------------------- a caller on its own

  /** Nobody is in the middle of an acquisition. */
  ghost predicate Quiet(cs: seq<Caller>) {
    forall c <- cs :: c.phase.Admitted? || c.phase.Rejected? || c.phase.Released?
  }

  /** Caller `c` runs to the end of its acquisition without anybody in between. */
  function Finish(t: Tracker, c: nat, now: int, fuel: nat): Tracker
    decreases fuel
  {
    if fuel == 0 then t else Finish(Advance(t, c, now), c, now, fuel - 1)
  }

  /** The steps a caller needs at most: two per planned counter, one to end. */
  const STEPS := 7

  lemma FinishStays(t: Tracker, c: nat, now: int, fuel: nat)
    requires c < |t.callers| && (t.callers[c].phase.Admitted? || t.callers[c].phase.Rejected?)
    ensures Finish(t, c, now, fuel) == t
  {
  }

  /** The counter of `k` is at its cap with admitted streams alone. */
  ghost predicate Saturated(cfg: Config, others: seq<Caller>, k: Key) {
    Count(others, StreamingAt(k)) >= Cap(cfg, k)
  }

  lemma {:induction false} QuietHoldersStream(others: seq<Caller>, k: Key)
    requires Quiet(others)
    ensures Count(others, Holding(k)) == Count(others, StreamingAt(k))
  {
    if others != [] {
      QuietHoldersStream(others[1..], k);
    }
  }

  lemma LastCallerCounts(others: seq<Caller>, c: Caller, k: Key)
    requires Quiet(others)
    ensures Count(others + [c], Holding(k)) == Count(others, StreamingAt(k)) + if Holds(c, k) then 1 else 0
  {
    CountAppend(others, c, Holding(k));
    QuietHoldersStream(others, k);
  }

  /** The state in which the last caller is on its own, about to handle plan entry `i`. */
  ghost predicate Alone(t: Tracker, others: seq<Caller>, who: Identity, i: nat, now: int) {
    && Inv(t) && Quiet(others) && Unexpired(t.memory, now) && t.cfg.ttl >= 0
    && i <= |Plan(t.cfg, who)|
    && t.callers == others + [Caller(who, Reserving(i), Plan(t.cfg, who)[..i])]
  }

  /** Reserving and checking one counter without interruption. */
  lemma ReserveAndCheck(t: Tracker, others: seq<Caller>, who: Identity, i: nat, now: int)
    requires Alone(t, others, who, i, now) && i < |Plan(t.cfg, who)|
    ensures var plan := Plan(t.cfg, who);
            var t' := Advance(Advance(t, |others|, now), |others|, now);
            && t'.cfg == t.cfg
            && (!Saturated(t.cfg, others, plan[i]) ==> Alone(t', others, who, i + 1, now))
            && (Saturated(t.cfg, others, plan[i]) ==>
                  t'.callers == others + [Caller(who, RollingBack(i), plan[..i + 1])])
  {
    var plan := Plan(t.cfg, who);
    var n := |others|;
    var k := plan[i];
    assert t.callers[n] == Caller(who, Reserving(i), plan[..i]);
    ReserveKeeps(t, n, now);
    var t1 := Advance(t, n, now);
    var c1 := Caller(who, Checking(i), plan[..i + 1]);
    assert plan[..i] + [k] == plan[..i + 1];
    assert t1.callers == others + [c1];
    CheckAlone(t1, others, c1, now);
  }

  lemma CheckAlone(t: Tracker, others: seq<Caller>, c: Caller, now: int)
    requires Inv(t) && Quiet(others) && Unexpired(t.memory, now) && t.callers == others + [c] && c.phase.Checking?
    ensures var plan := Plan(t.cfg, c.who);
            var t' := Advance(t, |others|, now);
            && c.phase.i < |plan| && Inv(t') && t'.memory == t.memory
            && t'.callers == others + [c.(phase := if Saturated(t.cfg, others, plan[c.phase.i]) then RollingBack(c.phase.i)
                                                   else Reserving(c.phase.i + 1))]
  {
    assert t.callers[|others|] == c;
    assert OnPlan(t.cfg, c);
    var k := Plan(t.cfg, c.who)[c.phase.i];
    assert c.acquired[c.phase.i] == k;
    LastCallerCounts(others, c, k);
    HoldersMatter(t, |others|, k);
    CheckKeeps(t, |others|, now);
  }

  /** How the last caller ends when `refused` is what it is refused for, if it is. */
  ghost predicate Ends(t: Tracker, n: nat, now: int, fuel: nat, refused: Option<Key>) {
    var cs := Finish(t, n, now, fuel).callers;
    |cs| == n + 1 && cs[n].phase == if refused.Some? then Rejected(refused.value) else Admitted
  }

  lemma LastStep(t: Tracker, others: seq<Caller>, c: Caller, now: int, fuel: nat)
    requires fuel >= 1 && t.callers == others + [c]
    requires c.phase.Reserving? ==> c.phase.i == |Plan(t.cfg, c.who)|
    requires c.phase.RollingBack? ==> c.phase.i < |Plan(t.cfg, c.who)|
    requires c.phase.Reserving? || c.phase.RollingBack?
    ensures Ends(t, |others|, now, fuel, if c.phase.Reserving? then None else Some(Plan(t.cfg, c.who)[c.phase.i]))
  {
    FinishStays(Advance(t, |others|, now), |others|, now, fuel - 1);
  }

  /** The first of the planned counters from entry `i` on that is saturated. */
  ghost function FirstFull(cfg: Config, others: seq<Caller>, plan: seq<Key>, i: nat): Option<Key>
    decreases |plan| - i
  {
    if i >= |plan| then None
    else if Saturated(cfg, others, plan[i]) then Some(plan[i])
    else FirstFull(cfg, others, plan, i + 1)
  }

  lemma {:induction false} FirstFullMeans(cfg: Config, others: seq<Caller>, plan: seq<Key>, i: nat)
    ensures FirstFull(cfg, others, plan, i).None? <==> forall k <- if i < |plan| then plan[i..] else [] :: !Saturated(cfg, others, k)
    decreases |plan| - i
  {
    if i < |plan| {
      FirstFullMeans(cfg, others, plan, i + 1);
      assert plan[i..] == [plan[i]] + plan[i + 1..];
    }
  }

  lemma FinishTwo(t: Tracker, n: nat, now: int, fuel: nat, refused: Option<Key>)
    requires fuel >= 2 && Ends(Advance(Advance(t, n, now), n, now), n, now, fuel - 2, refused)
    ensures Ends(t, n, now, fuel, refused)
  {
  }

  /** The two steps for one counter, and how the rest of the acquisition follows from them. */
  lemma AloneMoves(t: Tracker, others: seq<Caller>, who: Identity, i: nat, now: int, fuel: nat, refused: Option<Key>)
    returns (next: Tracker)
    requires Alone(t, others, who, i, now) && i < |Plan(t.cfg, who)| && fuel >= 2
    ensures next.cfg == t.cfg
    ensures !Saturated(t.cfg, others, Plan(t.cfg, who)[i]) ==> Alone(next, others, who, i + 1, now)
    ensures Saturated(t.cfg, others, Plan(t.cfg, who)[i]) ==>
              next.callers == others + [Caller(who, RollingBack(i), Plan(t.cfg, who)[..i + 1])]
    ensures Ends(next, |others|, now, fuel - 2, refused) ==> Ends(t, |others|, now, fuel, refused)
  {
    ReserveAndCheck(t, others, who, i, now);
    next := Advance(Advance(t, |others|, now), |others|, now);
    if Ends(next, |others|, now, fuel - 2, refused) { FinishTwo(t, |others|, now, fuel, refused); }
  }

  /** No counter is left, or the next one is saturated: the caller ends in the steps it has. */
  lemma FinishHere(t: Tracker, others: seq<Caller>, who: Identity, plan: seq<Key>, i: nat, now: int, fuel: nat)
    requires Alone(t, others, who, i, now) && plan == Plan(t.cfg, who) && fuel >= 2 * (|plan| - i) + 1
    requires i == |plan| || Saturated(t.cfg, others, plan[i])
    ensures Ends(t, |others|, now, fuel, if i == |plan| then None else Some(plan[i]))
  {
    if i == |plan| {
      LastStep(t, others, Caller(who, Reserving(i), plan[..i]), now, fuel);
    } else {
      var next := AloneMoves(t, others, who, i, now, fuel, Some(plan[i]));
      LastStep(next, others, Caller(who, RollingBack(i), plan[..i + 1]), now, fuel - 2);
    }
  }

  /** From plan entry `i` on, a caller that nobody interrupts is refused because of the first
      saturated counter, or admitted if there is none. */
  lemma {:induction false} FinishDecides(t: Tracker, others: seq<Caller>, who: Identity, plan: seq<Key>, i: nat, now: int, fuel: nat)
    requires Alone(t, others, who, i, now) && plan == Plan(t.cfg, who) && fuel >= 2 * (|plan| - i) + 1
    ensures Ends(t, |others|, now, fuel, FirstFull(t.cfg, others, plan, i))
    decreases |plan| - i
  {
    if i == |plan| || Saturated(t.cfg, others, plan[i]) {
      FinishHere(t, others, who, plan, i, now, fuel);
    } else {
      var next := AloneMoves(t, others, who, i, now, fuel, FirstFull(t.cfg, others, plan, i + 1));
      FinishDecides(next, others, who, plan, i + 1, now, fuel - 2);
    }
  }

  /** What the documentation promises of an acquisition, for one that nobody interrupts: it is
      rejected exactly when one of its caps is already reached by admitted streams. */
  lemma UncontendedAcquireIff(t: Tracker, who: Identity, now: int)
    requires Inv(t) && Quiet(t.callers) && Unexpired(t.memory, now) && t.cfg.ttl >= 0
    ensures var n := |t.callers|;
            var c := Finish(Arrive(t, who), n, now, STEPS).callers;
            && |c| == n + 1
            && (c[n].phase.Rejected? <==> exists k :: k in Plan(t.cfg, who) && Saturated(t.cfg, t.callers, k))
            && (c[n].phase.Admitted? <==> !c[n].phase.Rejected?)
            && (c[n].phase.Rejected? ==> FirstFull(t.cfg, t.callers, Plan(t.cfg, who), 0) == Some(c[n].phase.at))
  {
    ArriveKeeps(t, who);
    var plan := Plan(t.cfg, who);
    assert plan[..0] == [];
    FinishDecides(Arrive(t, who), t.callers, who, plan, 0, now, STEPS);
    FirstFullMeans(t.cfg, t.callers, plan, 0);
    assert plan[0..] == plan;
  }

  lemma Unroll(t: Tracker, op: Op, rest: seq<Op>, t': Tracker)
    requires Step(t, op) == t'
    ensures Run(t, [op] + rest) == Run(t', rest)
  {
    assert ([op] + rest)[1..] == rest;
  }

  /** Two callers arrive together and both reserve the one free slot. */
  lemma RacersReserve(cfg: Config, a: Identity)
    requires cfg == Config(0, 0, 1, 1000) && a == Identity("a", None)
    ensures var m2 := map[Global := Counter(2, 1000)];
            var reserved := Caller(a, Checking(0), [Global]);
            Run(Fresh(cfg), [DoArrive(a, 0), DoArrive(a, 0), DoAdvance(0, 0), DoAdvance(1, 0)])
            == Tracker(cfg, m2, 0, 0, 0, [reserved, reserved])
  {
    assert Plan(cfg, a) == [Global];
    var ready, reserved := Caller(a, Reserving(0), []), Caller(a, Checking(0), [Global]);
    var m1, m2 := map[Global := Counter(1, 1000)], map[Global := Counter(2, 1000)];
    var t1 := Tracker(cfg, map[], 0, 0, 0, [ready]);
    var t2 := Tracker(cfg, map[], 0, 0, 0, [ready, ready]);
    var t3 := Tracker(cfg, m1, 0, 0, 0, [reserved, ready]);
    var t4 := Tracker(cfg, m2, 0, 0, 0, [reserved, reserved]);
    assert [] + [Global] == [Global];
    assert Reserve(map[], Global, 0, 1000) == m1 && Reserve(m1, Global, 0, 1000) == m2;
    var o3 := [DoAdvance(1, 0)] + [];
    var o2 := [DoAdvance(0, 0)] + o3;
    var o1 := [DoArrive(a, 0)] + o2;
    Unroll(t3, DoAdvance(1, 0), [], t4);
    Unroll(t2, DoAdvance(0, 0), o3, t3);
    Unroll(t1, DoArrive(a, 0), o2, t2);
    Unroll(Fresh(cfg), DoArrive(a, 0), o1, t1);
    assert [DoArrive(a, 0)] + o1 == [DoArrive(a, 0), DoArrive(a, 0), DoAdvance(0, 0), DoAdvance(1, 0)];
  }

  /** Both look at the counter, and both see it over its limit. */
  lemma RacersLose(cfg: Config, a: Identity)
    requires cfg == Config(0, 0, 1, 1000) && a == Identity("a", None)
    ensures var reserved, out := Caller(a, Checking(0), [Global]), Caller(a, Rejected(Global), [Global]);
            Run(Tracker(cfg, map[Global := Counter(2, 1000)], 0, 0, 0, [reserved, reserved]),
                [DoAdvance(0, 0), DoAdvance(1, 0), DoAdvance(0, 0), DoAdvance(1, 0)])
            == Tracker(cfg, map[], 0, 0, 0, [out, out])
  {
    assert Plan(cfg, a) == [Global];
    var reserved := Caller(a, Checking(0), [Global]);
    var over, out := Caller(a, RollingBack(0), [Global]), Caller(a, Rejected(Global), [Global]);
    var m1, m2 := map[Global := Counter(1, 1000)], map[Global := Counter(2, 1000)];
    var t4 := Tracker(cfg, m2, 0, 0, 0, [reserved, reserved]);
    var t5 := Tracker(cfg, m2, 0, 0, 0, [over, reserved]);
    var t6 := Tracker(cfg, m2, 0, 0, 0, [over, over]);
    var t7 := Tracker(cfg, m1, 0, 0, 0, [out, over]);
    var t8 := Tracker(cfg, map[], 0, 0, 0, [out, out]);
    assert ([Global])[1..] == [];
    assert DecrementAll(m2, [Global]) == m1 && DecrementAll(m1, [Global]) == map[];
    var o3 := [DoAdvance(1, 0)] + [];
    var o2 := [DoAdvance(0, 0)] + o3;
    var o1 := [DoAdvance(1, 0)] + o2;
    Unroll(t7, DoAdvance(1, 0), [], t8);
    Unroll(t6, DoAdvance(0, 0), o3, t7);
    Unroll(t5, DoAdvance(1, 0), o2, t6);
    Unroll(t4, DoAdvance(0, 0), o1, t5);
    assert [DoAdvance(0, 0)] + o1 == [DoAdvance(0, 0), DoAdvance(1, 0), DoAdvance(0, 0), DoAdvance(1, 0)];
  }

  /** The promise does not extend to interleaved callers: two that race for a free slot can both
      be rejected although no stream has been admitted. */
  lemma RacersCanBothLose() returns (ops: seq<Op>)
    ensures var t := Run(Fresh(Config(0, 0, 1, 1000)), ops);
            && (forall op <- ops :: !op.DoRelease?)
            && |t.callers| == 2 && t.memory == map[]
            && forall c <- t.callers :: c.phase == Rejected(Global)
  {
    var cfg, a := Config(0, 0, 1, 1000), Identity("a", None);
    var first := [DoArrive(a, 0), DoArrive(a, 0), DoAdvance(0, 0), DoAdvance(1, 0)];
    var second := [DoAdvance(0, 0), DoAdvance(1, 0), DoAdvance(0, 0), DoAdvance(1, 0)];
    RacersReserve(cfg, a);
    RacersLose(cfg, a);
    RunConcat(Fresh(cfg), first, second);
    ops := first + second;
  }

  // ---------------------------------------------------------------- expired counters

  /** A reservation keeps its counter equal to the holders exactly when the counter it finds is
      absent or has not expired: an expired counter is restarted at one. */
  lemma ReserveExactIff(t: Tracker, c: nat, now: int)
    requires Inv(t) && c < |t.callers|
    requires t.callers[c].phase.Reserving? && t.callers[c].phase.i < |Plan(t.cfg, t.callers[c].who)|
    ensures var k := Plan(t.cfg, t.callers[c].who)[t.callers[c].phase.i];
            var t' := Advance(t, c, now);
            t'.memory[k].count == Count(t'.callers, Holding(k)) <==>
              !(k in t.memory && t.memory[k].expiresAt < now)
  {
    var caller := t.callers[c];
    var plan := Plan(t.cfg, caller.who);
    var i := caller.phase.i;
    PlanFacts(t.cfg, caller.who);
    assert OnPlan(t.cfg, caller);
    CallerChanges(t, c, Caller(caller.who, Checking(i), caller.acquired + [plan[i]]));
  }

  /** A purge keeps the counters equal to their holders exactly when none of them has expired: it
      also drops an expired counter that is still held. */
  lemma PurgeExactIff(t: Tracker, now: int)
    requires Inv(t)
    ensures Exact(Step(t, DoPurge(now))) <==> Unexpired(t.memory, now)
  {
    if Unexpired(t.memory, now) {
      assert Purge(t.memory, now) == t.memory;
    } else {
      var k :| k in t.memory && t.memory[k].expiresAt < now;
      assert Count(t.callers, Holding(k)) > 0;
    }
  }

  const SHORT := Config(0, 0, 1, 10)

  /** One stream admitted at time 0 under a cap of one. */
  lemma OneStream(a: Identity) returns (ops: seq<Op>)
    requires !a.HasUser()
    ensures forall op <- ops :: !op.DoPurge?
    ensures Run(Fresh(SHORT), ops)
            == Tracker(SHORT, map[Global := Counter(1, 10)], 1, 0, 1, [Caller(a, Admitted, [Global])])
  {
    assert Plan(SHORT, a) == [Global] && [] + [Global] == [Global];
    var m := map[Global := Counter(1, 10)];
    assert Reserve(map[], Global, 0, 10) == m;
    var t1 := Tracker(SHORT, map[], 0, 0, 0, [Caller(a, Reserving(0), [])]);
    var t2 := Tracker(SHORT, m, 0, 0, 0, [Caller(a, Checking(0), [Global])]);
    var t3 := Tracker(SHORT, m, 0, 0, 0, [Caller(a, Reserving(1), [Global])]);
    var t4 := Tracker(SHORT, m, 1, 0, 1, [Caller(a, Admitted, [Global])]);
    var o3 := [DoAdvance(0, 0)] + [];
    var o2 := [DoAdvance(0, 0)] + o3;
    var o1 := [DoAdvance(0, 0)] + o2;
    ops := [DoArrive(a, 0)] + o1;
    Unroll(t3, DoAdvance(0, 0), [], t4);
    Unroll(t2, DoAdvance(0, 0), o3, t3);
    Unroll(t1, DoAdvance(0, 0), o2, t2);
    Unroll(Fresh(SHORT), DoArrive(a, 0), o1, t1);
  }

  /** A second one that arrives after the counter has expired. */
  lemma LateStream(a: Identity) returns (ops: seq<Op>)
    requires !a.HasUser()
    ensures var live := Caller(a, Admitted, [Global]);
            Run(Tracker(SHORT, map[Global := Counter(1, 10)], 1, 0, 1, [live]), ops)
            == Tracker(SHORT, map[Global := Counter(1, 21)], 2, 0, 2, [live, live])
  {
    assert Plan(SHORT, a) == [Global] && [] + [Global] == [Global];
    var live := Caller(a, Admitted, [Global]);
    var m, m' := map[Global := Counter(1, 10)], map[Global := Counter(1, 21)];
    assert Reserve(m, Global, 11, 10) == m';
    var t4 := Tracker(SHORT, m, 1, 0, 1, [live]);
    var t5 := Tracker(SHORT, m, 1, 0, 1, [live, Caller(a, Reserving(0), [])]);
    var t6 := Tracker(SHORT, m', 1, 0, 1, [live, Caller(a, Checking(0), [Global])]);
    var t7 := Tracker(SHORT, m', 1, 0, 1, [live, Caller(a, Reserving(1), [Global])]);
    var t8 := Tracker(SHORT, m', 2, 0, 2, [live, live]);
    var o3 := [DoAdvance(1, 11)] + [];
    var o2 := [DoAdvance(1, 11)] + o3;
    var o1 := [DoAdvance(1, 11)] + o2;
    ops := [DoArrive(a, 11)] + o1;
    Unroll(t7, DoAdvance(1, 11), [], t8);
    Unroll(t6, DoAdvance(1, 11), o3, t7);
    Unroll(t5, DoAdvance(1, 11), o2, t6);
    Unroll(t4, DoArrive(a, 11), o1, t5);
  }

  lemma {:induction false} RunConcat(t: Tracker, a: seq<Op>, b: seq<Op>)
    ensures Run(t, a + b) == Run(Run(t, a), b)
    decreases |a|
  {
    if a == [] {
      assert a + b == b;
    } else {
      assert (a + b)[1..] == a[1..] + b;
      RunConcat(Step(t, a[0]), a[1..], b);
    }
  }

  /** An admitted stream that outlives its counter is forgotten: the next caller is admitted
      over the cap. */
  lemma ExpiryBreaksCap() returns (ops: seq<Op>)
    ensures var t := Run(Fresh(SHORT), ops);
            && Count(t.callers, StreamingAt(Global)) > Cap(SHORT, Global)
            && Global in t.memory && t.memory[Global].count < Count(t.callers, Holding(Global))
  {
    var a := Identity("a", None);
    var first := OneStream(a);
    var late := LateStream(a);
    ops := first + late;
    RunConcat(Fresh(SHORT), first, late);
    var live := Caller(a, Admitted, [Global]);
    assert ([live, live])[1..] == [live] && ([live])[1..] == [];
  }
}
