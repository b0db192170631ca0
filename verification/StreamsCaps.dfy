/** Exactly when the caps on streams are kept, and exactly when the counters stay true. */
module StreamsCaps {
  import opened Prelude
  import opened Counting
  import opened Streams
  import opened StreamsSafety
  import opened StreamsRuns

  // ---------------------------------------------------------------- plans in any run

  ghost predicate AllOnPlan(t: Tracker) {
    forall c <- t.callers :: OnPlan(t.cfg, c)
  }

  /** Caller `c` looks at the counter of `k`. */
  predicate LooksAt(t: Tracker, c: nat, k: Key) {
    && c < |t.callers| && t.callers[c].phase.Checking?
    && t.callers[c].phase.i < |Plan(t.cfg, t.callers[c].who)|
    && Plan(t.cfg, t.callers[c].who)[t.callers[c].phase.i] == k
  }

  /** Caller `c` is about to reserve the counter of `k`. */
  predicate WillReserve(t: Tracker, c: nat, k: Key) {
    && c < |t.callers| && t.callers[c].phase.Reserving?
    && t.callers[c].phase.i < |Plan(t.cfg, t.callers[c].who)|
    && Plan(t.cfg, t.callers[c].who)[t.callers[c].phase.i] == k
  }

  /** The steps of a caller that are no passed check: what it has passed does not grow. */
  lemma OthersPassNothing(cfg: Config, c: Caller, phase: Phase)
    requires OnPlan(cfg, c)
    requires match phase
             case Admitted => c.phase.Reserving? && c.phase.i >= |Plan(cfg, c.who)|
             case RollingBack(i) => c.phase == Checking(i)
             case _ => phase.Rejected? || phase.Released?
    ensures OnPlan(cfg, c.(phase := phase))
    ensures forall k :: HasPassed(c.(phase := phase), k) ==> HasPassed(c, k)
  {
    if phase.Admitted? { assert c.acquired[..|c.acquired|] == c.acquired; }
  }

  /** If what caller `c` has passed does not grow, no count of passed callers grows. */
  lemma NoGrowthKeeps(t: Tracker, u: Tracker, c: nat, caller: Caller)
    requires AllOnPlan(t) && WithinCaps(t) && c < |t.callers| && OnPlan(t.cfg, caller)
    requires u.cfg == t.cfg && u.callers == t.callers[c := caller]
    requires forall k :: HasPassed(caller, k) ==> HasPassed(t.callers[c], k)
    ensures AllOnPlan(u) && WithinCaps(u)
  {
    PlanStays(t, c, caller);
    CallerChanges(t, c, caller);
  }

  // ---------------------------------------------------------------- caps

  /** A caller passes its check of a counter although as many callers as the cap admits have
      passed it already: the counter it sees is too low, missing or expired. */
  ghost predicate PassesFull(t: Tracker, op: Op) {
    && op.DoAdvance?
    && exists k ::
         && LooksAt(t, op.c, k)
         && !OverLimit(t.memory, k, Cap(t.cfg, k), op.at)
         && Count(t.callers, Passing(k)) >= Cap(t.cfg, k)
  }

  lemma CheckCapsIff(t: Tracker, c: nat, k: Key, now: int)
    requires AllOnPlan(t) && WithinCaps(t) && LooksAt(t, c, k)
    ensures AllOnPlan(Advance(t, c, now))
    ensures WithinCaps(Advance(t, c, now))
            <==> OverLimit(t.memory, k, Cap(t.cfg, k), now) || Count(t.callers, Passing(k)) < Cap(t.cfg, k)
  {
    var caller, u := t.callers[c], Advance(t, c, now);
    assert OnPlan(t.cfg, caller);
    if OverLimit(t.memory, k, Cap(t.cfg, k), now) {
      OthersPassNothing(t.cfg, caller, RollingBack(caller.phase.i));
      NoGrowthKeeps(t, u, c, caller.(phase := RollingBack(caller.phase.i)));
    } else {
      PassedCheckCounts(t, u, c, k);
    }
  }

  lemma PassedCheckCounts(t: Tracker, u: Tracker, c: nat, k: Key)
    requires AllOnPlan(t) && WithinCaps(t) && LooksAt(t, c, k)
    requires u.cfg == t.cfg && u.callers == t.callers[c := Past(t.callers[c])]
    ensures AllOnPlan(u) && (WithinCaps(u) <==> Count(t.callers, Passing(k)) < Cap(t.cfg, k))
  {
    var caller := t.callers[c];
    assert OnPlan(t.cfg, caller);
    PlanFacts(t.cfg, caller.who);
    PastPasses(t.cfg, caller);
    PlanStays(t, c, Past(caller));
    CallerChanges(t, c, Past(caller));
    assert Count(u.callers, Passing(k)) == Count(t.callers, Passing(k)) + 1;
  }

  lemma AdvanceCaps(t: Tracker, c: nat, now: int)
    requires AllOnPlan(t) && WithinCaps(t) && c < |t.callers| && !t.callers[c].phase.Checking?
    ensures AllOnPlan(Advance(t, c, now)) && WithinCaps(Advance(t, c, now))
  {
    var caller, u := t.callers[c], Advance(t, c, now);
    var plan := Plan(t.cfg, caller.who);
    assert OnPlan(t.cfg, caller);
    match caller.phase
    case Reserving(i) =>
      if i < |plan| {
        ReservedHolds(t.cfg, caller);
        NoGrowthKeeps(t, u, c, Reserved(t.cfg, caller));
      } else {
        OthersPassNothing(t.cfg, caller, Admitted);
        NoGrowthKeeps(t, u, c, caller.(phase := Admitted));
      }
    case RollingBack(i) =>
      OthersPassNothing(t.cfg, caller, Rejected(plan[i]));
      NoGrowthKeeps(t, u, c, caller.(phase := Rejected(plan[i])));
    case _ =>
  }

  lemma ArriveCaps(t: Tracker, who: Identity)
    requires AllOnPlan(t) && WithinCaps(t)
    ensures AllOnPlan(Arrive(t, who)) && WithinCaps(Arrive(t, who))
  {
    var c := Caller(who, Reserving(0), []);
    forall k ensures Count(t.callers + [c], Passing(k)) == Count(t.callers, Passing(k)) {
      CountAppend(t.callers, c, Passing(k));
    }
  }

  lemma ReleaseCaps(t: Tracker, c: nat)
    requires AllOnPlan(t) && WithinCaps(t)
    ensures AllOnPlan(Release(t, c)) && WithinCaps(Release(t, c))
  {
    if c < |t.callers| && t.callers[c].phase.Admitted? {
      var caller := t.callers[c];
      assert OnPlan(t.cfg, caller);
      OthersPassNothing(t.cfg, caller, Released);
      NoGrowthKeeps(t, Release(t, c), c, caller.(phase := Released));
    }
  }

  /** A step in any state, whatever its counters say, keeps the caps exactly when it is no check
      that lets a caller by at a full cap. */
  lemma StepCapsIff(t: Tracker, op: Op)
    requires AllOnPlan(t) && WithinCaps(t)
    ensures AllOnPlan(Step(t, op))
    ensures WithinCaps(Step(t, op)) <==> !PassesFull(t, op)
  {
    match op
    case DoArrive(who, _) => ArriveCaps(t, who);
    case DoAdvance(c, now) =>
      if c < |t.callers| {
        assert OnPlan(t.cfg, t.callers[c]);
        if t.callers[c].phase.Checking? {
          var k := Plan(t.cfg, t.callers[c].who)[t.callers[c].phase.i];
          assert LooksAt(t, c, k);
          CheckCapsIff(t, c, k, now);
        } else {
          AdvanceCaps(t, c, now);
        }
      }
    case DoRelease(c, _) => ReleaseCaps(t, c);
    case DoPurge(now) =>
  }

  /** The caps hold from first to last. */
  ghost predicate CapsThroughout(t: Tracker, ops: seq<Op>)
    decreases |ops|
  {
    WithinCaps(t) && (ops == [] || CapsThroughout(Step(t, ops[0]), ops[1..]))
  }

  /** No check of the run lets a caller by at a full cap. */
  ghost predicate NeverPassesFull(t: Tracker, ops: seq<Op>)
    decreases |ops|
  {
    ops == [] || (!PassesFull(t, ops[0]) && NeverPassesFull(Step(t, ops[0]), ops[1..]))
  }

  lemma {:induction false} RunCapsIff(t: Tracker, ops: seq<Op>)
    requires AllOnPlan(t) && WithinCaps(t)
    ensures CapsThroughout(t, ops) <==> NeverPassesFull(t, ops)
    decreases |ops|
  {
    if ops != [] {
      StepCapsIff(t, ops[0]);
      if !PassesFull(t, ops[0]) { RunCapsIff(Step(t, ops[0]), ops[1..]); }
    }
  }

  /** When the caps hold: in any run, with any clock, the callers past a check stay within its
      cap from first to last exactly when no check lets a caller by at a full cap. */
  lemma CapsHoldIff(cfg: Config, ops: seq<Op>)
    ensures CapsThroughout(Fresh(cfg), ops) <==> NeverPassesFull(Fresh(cfg), ops)
  {
    FreshInv(cfg);
    RunCapsIff(Fresh(cfg), ops);
  }

  /** Streams count among the callers past their checks. */
  lemma StreamsArePast(t: Tracker, k: Key)
    requires AllOnPlan(t)
    ensures Count(t.callers, StreamingAt(k)) <= Count(t.callers, Passing(k))
  {
    forall c | c in t.callers && StreamingAt(k)(c) ensures Passing(k)(c) {
      assert c.acquired[..|c.acquired|] == c.acquired;
    }
    CountWithin(t.callers, StreamingAt(k), Passing(k));
  }

  // ---------------------------------------------------------------- counters

  /** The counter of `k` has expired and is still in memory. */
  predicate Stale(m: Memory, k: Key, now: int) {
    k in m && m[k].expiresAt < now
  }

  /** With true counters, a check breaks the cap exactly when it looks at an expired counter while
      as many callers as the cap admits are past it. */
  lemma CheckKeepsCapsIff(t: Tracker, c: nat, k: Key, now: int)
    requires Inv(t) && LooksAt(t, c, k)
    ensures WithinCaps(Advance(t, c, now)) <==> !(Stale(t.memory, k, now) && Count(t.callers, Passing(k)) == Cap(t.cfg, k))
  {
    assert OnPlan(t.cfg, t.callers[c]);
    PlanFacts(t.cfg, t.callers[c].who);
    CheckersHaveNotPassed(t, c);
    CheckCapsIff(t, c, k, now);
  }

  /** What makes counters, caps or gauges untrue: reserving an expired counter, looking at one at
      a full cap, and purging one. */
  ghost predicate Forgets(t: Tracker, op: Op) {
    match op
    case DoAdvance(c, now) =>
      exists k ::
        && Stale(t.memory, k, now)
        && (WillReserve(t, c, k) || (LooksAt(t, c, k) && Count(t.callers, Passing(k)) == Cap(t.cfg, k)))
    case DoPurge(now) => exists k :: Stale(t.memory, k, now)
    case _ => false
  }

  lemma CheckKeepsIff(t: Tracker, c: nat, k: Key, now: int)
    requires Inv(t) && LooksAt(t, c, k)
    ensures Inv(Advance(t, c, now)) <==> !(Stale(t.memory, k, now) && Count(t.callers, Passing(k)) == Cap(t.cfg, k))
  {
    CheckKeepsCapsIff(t, c, k, now);
    CheckersHaveNotPassed(t, c);
    if OverLimit(t.memory, k, Cap(t.cfg, k), now) {
      FailedCheckKeeps(t, c, t.callers[c].phase.i);
    } else if Count(t.callers, Passing(k)) < Cap(t.cfg, k) {
      PassedCheckKeeps(t, c, t.callers[c].phase.i, k);
    }
  }

  lemma AdvanceKeepsIff(t: Tracker, c: nat, now: int)
    requires Inv(t) && c < |t.callers|
    ensures Inv(Advance(t, c, now)) <==> !Forgets(t, DoAdvance(c, now))
  {
    var plan := Plan(t.cfg, t.callers[c].who);
    assert OnPlan(t.cfg, t.callers[c]);
    match t.callers[c].phase
    case Reserving(i) =>
      if i < |plan| {
        assert WillReserve(t, c, plan[i]);
        ReserveExactIff(t, c, now);
        if !Stale(t.memory, plan[i], now) { ReserveKeeps(t, c, now); }
      } else {
        AdmitKeeps(t, c, now);
      }
    case Checking(i) =>
      assert LooksAt(t, c, plan[i]);
      CheckKeepsIff(t, c, plan[i], now);
    case RollingBack(_) => RollBackKeeps(t, c, now);
    case _ =>
  }

  /** With true counters, a step keeps counters, caps and gauges true exactly when it is none of
      the three. */
  lemma StepKeepsIff(t: Tracker, op: Op)
    requires Inv(t)
    ensures Inv(Step(t, op)) <==> !Forgets(t, op)
  {
    match op
    case DoArrive(who, _) => ArriveKeeps(t, who);
    case DoAdvance(c, now) => if c < |t.callers| { AdvanceKeepsIff(t, c, now); }
    case DoRelease(c, _) => ReleaseKeeps(t, c);
    case DoPurge(now) =>
      PurgeExactIff(t, now);
      if Unexpired(t.memory, now) {
        assert Purge(t.memory, now) == t.memory;
      } else {
        var k :| k in t.memory && t.memory[k].expiresAt < now;
        assert Stale(t.memory, k, now);
      }
  }

  ghost predicate TrueThroughout(t: Tracker, ops: seq<Op>)
    decreases |ops|
  {
    Inv(t) && (ops == [] || TrueThroughout(Step(t, ops[0]), ops[1..]))
  }

  ghost predicate NeverForgets(t: Tracker, ops: seq<Op>)
    decreases |ops|
  {
    ops == [] || (!Forgets(t, ops[0]) && NeverForgets(Step(t, ops[0]), ops[1..]))
  }

  lemma {:induction false} RunKeepsIff(t: Tracker, ops: seq<Op>)
    requires Inv(t)
    ensures TrueThroughout(t, ops) <==> NeverForgets(t, ops)
    decreases |ops|
  {
    if ops != [] {
      StepKeepsIff(t, ops[0]);
      if !Forgets(t, ops[0]) { RunKeepsIff(Step(t, ops[0]), ops[1..]); }
    }
  }

  /** How long everything is true: in any run, counters equal their holders, the callers past a
      check stay within its cap and the gauges count the streams, from first to last, exactly when
      no step reserves an expired counter, looks at one at a full cap or purges one. */
  lemma CountersHoldIff(cfg: Config, ops: seq<Op>)
    ensures TrueThroughout(Fresh(cfg), ops) <==> NeverForgets(Fresh(cfg), ops)
  {
    FreshInv(cfg);
    RunKeepsIff(Fresh(cfg), ops);
  }

  // ---------------------------------------------------------------- runs that break

  /** A second caller that reserves in time and looks too late. */
  lemma LateLook(a: Identity) returns (ops: seq<Op>)
    requires !a.HasUser()
    ensures var live := Caller(a, Admitted, [Global]);
            Run(Tracker(SHORT, map[Global := Counter(1, 10)], 1, 0, 1, [live]), ops)
            == Tracker(SHORT, map[Global := Counter(2, 10)], 2, 0, 2, [live, live])
    ensures forall op <- ops :: !op.DoPurge?
  {
    assert Plan(SHORT, a) == [Global] && [] + [Global] == [Global];
    var live := Caller(a, Admitted, [Global]);
    var m, m' := map[Global := Counter(1, 10)], map[Global := Counter(2, 10)];
    assert Reserve(m, Global, 10, 10) == m';
    var t4 := Tracker(SHORT, m, 1, 0, 1, [live]);
    var t5 := Tracker(SHORT, m, 1, 0, 1, [live, Caller(a, Reserving(0), [])]);
    var t6 := Tracker(SHORT, m', 1, 0, 1, [live, Caller(a, Checking(0), [Global])]);
    var t7 := Tracker(SHORT, m', 1, 0, 1, [live, Caller(a, Reserving(1), [Global])]);
    var t8 := Tracker(SHORT, m', 2, 0, 2, [live, live]);
    var o3 := [DoAdvance(1, 11)] + [];
    var o2 := [DoAdvance(1, 11)] + o3;
    var o1 := [DoAdvance(1, 10)] + o2;
    ops := [DoArrive(a, 10)] + o1;
    Unroll(t7, DoAdvance(1, 11), [], t8);
    Unroll(t6, DoAdvance(1, 11), o3, t7);
    Unroll(t5, DoAdvance(1, 10), o2, t6);
    Unroll(t4, DoArrive(a, 10), o1, t5);
  }

  lemma TwoStreams(a: Identity)
    ensures var live := Caller(a, Admitted, [Global]);
            Count([live, live], StreamingAt(Global)) == Count([live, live], Holding(Global)) == 2
  {
    var live := Caller(a, Admitted, [Global]);
    assert ([live, live])[1..] == [live] && ([live])[1..] == [];
    assert Count([live], StreamingAt(Global)) == 1 && Count([live], Holding(Global)) == 1;
  }

  /** A run over the cap although every counter is exact: the second caller reserves at the last
      moment of the counter and looks at it a moment later, when it does not count any more. */
  lemma LateCheckBreaksCap() returns (ops: seq<Op>)
    ensures var t := Run(Fresh(SHORT), ops);
            && Count(t.callers, StreamingAt(Global)) > Cap(SHORT, Global)
            && t.memory.Keys == {Global} && t.memory[Global].count == Count(t.callers, Holding(Global))
    ensures forall op <- ops :: !op.DoPurge?
  {
    var a := Identity("a", None);
    var first := OneStream(a);
    var late := LateLook(a);
    ops := first + late;
    RunConcat(Fresh(SHORT), first, late);
    TwoStreams(a);
  }

  /** A run in which a purge forgets a stream that is still running. */
  lemma PurgeForgetsAStream() returns (ops: seq<Op>)
    ensures var t := Run(Fresh(SHORT), ops);
            t.memory == map[] && Count(t.callers, StreamingAt(Global)) == 1
  {
    var a := Identity("a", None);
    var first := OneStream(a);
    ops := first + [DoPurge(11)];
    RunConcat(Fresh(SHORT), first, [DoPurge(11)]);
    var t := Run(Fresh(SHORT), first);
    Unroll(t, DoPurge(11), [], t.(memory := map[]));
    assert [DoPurge(11)] + [] == [DoPurge(11)];
    assert ([Caller(a, Admitted, [Global])])[1..] == [];
  }
}
