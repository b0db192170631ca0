/** Under any interleaving the counters are exact, caps hold and nothing leaks. */
module StreamsSafety {
  import opened Prelude
  import opened Counting
  import opened Streams

  // ---------------------------------------------------------------- who holds what

  /** The caller has reserved `k` and not given it back. */
  predicate Holds(c: Caller, k: Key) {
    !c.phase.Rejected? && !c.phase.Released? && k in c.acquired
  }

  /** How many entries of its plan a caller has seen within their caps. */
  function Passed(c: Caller): nat {
    match c.phase
    case Reserving(i) => i
    case Checking(i) => i
    case RollingBack(i) => i
    case Admitted => |c.acquired|
    case _ => 0
  }

  predicate HasPassed(c: Caller, k: Key) {
    Passed(c) <= |c.acquired| && k in c.acquired[..Passed(c)]
  }

  function Holding(k: Key): Caller -> bool { (c: Caller) => Holds(c, k) }

  function Passing(k: Key): Caller -> bool { (c: Caller) => HasPassed(c, k) }

  function Streaming(): Caller -> bool { (c: Caller) => c.phase.Admitted? }

  function StreamingUser(): Caller -> bool { (c: Caller) => c.phase.Admitted? && c.who.HasUser() }

  /** The caller is an admitted stream that counts towards `k`. */
  function StreamingAt(k: Key): Caller -> bool { (c: Caller) => c.phase.Admitted? && k in c.acquired }

  // ---------------------------------------------------------------- invariants

  /** A caller has reserved exactly the part of its plan that its phase says. */
  predicate OnPlan(cfg: Config, c: Caller) {
    var plan := Plan(cfg, c.who);
    match c.phase
    case Reserving(i) => i <= |plan| && c.acquired == plan[..i]
    case Checking(i) => i < |plan| && c.acquired == plan[..i + 1]
    case RollingBack(i) => i < |plan| && c.acquired == plan[..i + 1]
    case Admitted => c.acquired == plan
    case _ => true
  }

  /** A counter exists exactly while somebody holds it, and counts the holders. */
  ghost predicate Exact(t: Tracker) {
    forall k ::
      && (k in t.memory <==> Count(t.callers, Holding(k)) > 0)
      && (k in t.memory ==> t.memory[k].count == Count(t.callers, Holding(k)))
  }

  ghost predicate WithinCaps(t: Tracker) {
    forall k :: Cap(t.cfg, k) > 0 ==> Count(t.callers, Passing(k)) <= Cap(t.cfg, k)
  }

  ghost predicate GaugesExact(t: Tracker) {
    && t.activeGlobal == t.activeIp == Count(t.callers, Streaming())
    && t.activeUser == Count(t.callers, StreamingUser())
  }

  ghost predicate Inv(t: Tracker) {
    && (forall c <- t.callers :: OnPlan(t.cfg, c))
    && Exact(t) && WithinCaps(t) && GaugesExact(t)
  }

  /** No counter in memory has expired. */
  ghost predicate Unexpired(m: Memory, now: int) {
    forall k <- m :: m[k].expiresAt >= now
  }

  // ---------------------------------------------------------------- plans and counters

  lemma PlanFacts(cfg: Config, who: Identity)
    ensures forall i, j :: 0 <= i < j < |Plan(cfg, who)| ==> Plan(cfg, who)[i] != Plan(cfg, who)[j]
    ensures forall k <- Plan(cfg, who) :: Cap(cfg, k) > 0
    ensures forall k :: k in Plan(cfg, who) <==> k in ReleaseKeys(who) && Cap(cfg, k) > 0
  {
  }

  ghost predicate NoRepeats(ks: seq<Key>) {
    forall i, j :: 0 <= i < j < |ks| ==> ks[i] != ks[j]
  }

  /** Giving back distinct keys lowers each of their counters by one and removes the ones
      that reach zero. */
  lemma {:induction false} DecrementAllIs(m: Memory, ks: seq<Key>)
    requires NoRepeats(ks) && forall k <- m :: m[k].count >= 1
    ensures var m' := DecrementAll(m, ks);
            && (forall k :: k in m' <==> k in m && !(k in ks && m[k].count == 1))
            && (forall k <- m' :: m'[k] == if k in ks then Counter(m[k].count - 1, m[k].expiresAt) else m[k])
  {
    if ks != [] {
      var m1 := Decrement(m, ks[0]);
      DecrementAllIs(m1, ks[1..]);
      assert forall k :: k in ks <==> k == ks[0] || k in ks[1..];
      assert ks[0] !in ks[1..];
    }
  }

  lemma HoldersMatter(t: Tracker, c: nat, k: Key)
    requires Inv(t) && c < |t.callers| && Holds(t.callers[c], k)
    ensures k in t.memory && t.memory[k].count >= 1
  {
    CountPositive(t.callers, Holding(k));
    assert Holding(k)(t.callers[c]);
  }

  // ---------------------------------------------------------------- one caller changes

  /** What replacing caller `c` does to every count. */
  lemma CallerChanges(t: Tracker, c: nat, caller: Caller)
    requires c < |t.callers|
    ensures var cs := t.callers[c := caller];
            && (forall k :: Count(cs, Holding(k)) + (if Holds(t.callers[c], k) then 1 else 0)
                            == Count(t.callers, Holding(k)) + if Holds(caller, k) then 1 else 0)
            && (forall k :: Count(cs, Passing(k)) + (if HasPassed(t.callers[c], k) then 1 else 0)
                            == Count(t.callers, Passing(k)) + if HasPassed(caller, k) then 1 else 0)
  {
    var cs := t.callers[c := caller];
    forall k
      ensures Count(cs, Holding(k)) + (if Holds(t.callers[c], k) then 1 else 0)
              == Count(t.callers, Holding(k)) + if Holds(caller, k) then 1 else 0
    {
      CountUpdate(t.callers, c, caller, Holding(k));
    }
    forall k
      ensures Count(cs, Passing(k)) + (if HasPassed(t.callers[c], k) then 1 else 0)
              == Count(t.callers, Passing(k)) + if HasPassed(caller, k) then 1 else 0
    {
      CountUpdate(t.callers, c, caller, Passing(k));
    }
  }

  lemma GaugesChange(t: Tracker, c: nat, caller: Caller)
    requires c < |t.callers|
    ensures var cs := t.callers[c := caller];
            && Count(cs, Streaming()) + (if t.callers[c].phase.Admitted? then 1 else 0)
               == Count(t.callers, Streaming()) + (if caller.phase.Admitted? then 1 else 0)
            && Count(cs, StreamingUser()) + (if t.callers[c].phase.Admitted? && t.callers[c].who.HasUser() then 1 else 0)
               == Count(t.callers, StreamingUser()) + (if caller.phase.Admitted? && caller.who.HasUser() then 1 else 0)
  {
    CountUpdate(t.callers, c, caller, Streaming());
    CountUpdate(t.callers, c, caller, StreamingUser());
  }

  // ---------------------------------------------------------------- steps

  lemma ArriveKeeps(t: Tracker, who: Identity)
    requires Inv(t)
    ensures Inv(Arrive(t, who))
  {
    var c := Caller(who, Reserving(0), []);
    forall k ensures Count(t.callers + [c], Holding(k)) == Count(t.callers, Holding(k)) {
      CountAppend(t.callers, c, Holding(k));
    }
    forall k ensures Count(t.callers + [c], Passing(k)) == Count(t.callers, Passing(k)) {
      CountAppend(t.callers, c, Passing(k));
    }
    CountAppend(t.callers, c, Streaming());
    CountAppend(t.callers, c, StreamingUser());
  }

  lemma PlanStays(t: Tracker, c: nat, caller: Caller)
    requires c < |t.callers| && OnPlan(t.cfg, caller) && forall x <- t.callers :: OnPlan(t.cfg, x)
    ensures forall x <- t.callers[c := caller] :: OnPlan(t.cfg, x)
  {
    forall x | x in t.callers[c := caller] ensures OnPlan(t.cfg, x) {
      if x != caller { assert x in t.callers; }
    }
  }

  /** The caller after it has reserved its next counter. */
  function Reserved(cfg: Config, caller: Caller): Caller
    requires caller.phase.Reserving? && caller.phase.i < |Plan(cfg, caller.who)|
  {
    Caller(caller.who, Checking(caller.phase.i), caller.acquired + [Plan(cfg, caller.who)[caller.phase.i]])
  }

  /** A reservation adds a new key to what the caller holds, and nothing to what it has passed. */
  lemma ReservedHolds(cfg: Config, caller: Caller)
    requires OnPlan(cfg, caller) && caller.phase.Reserving? && caller.phase.i < |Plan(cfg, caller.who)|
    ensures var k0, caller' := Plan(cfg, caller.who)[caller.phase.i], Reserved(cfg, caller);
            && OnPlan(cfg, caller') && !Holds(caller, k0)
            && (forall k :: Holds(caller', k) <==> Holds(caller, k) || k == k0)
            && (forall k :: HasPassed(caller', k) <==> HasPassed(caller, k))
  {
    var plan, i := Plan(cfg, caller.who), caller.phase.i;
    PlanFacts(cfg, caller.who);
    assert plan[..i + 1] == plan[..i] + [plan[i]];
    assert Reserved(cfg, caller).acquired[..i] == caller.acquired[..i];
  }

  /** A reservation keeps everything as long as the counter it finds has not expired. */
  lemma ReserveKeeps(t: Tracker, c: nat, now: int)
    requires Inv(t) && c < |t.callers|
    requires t.callers[c].phase.Reserving? && t.callers[c].phase.i < |Plan(t.cfg, t.callers[c].who)|
    requires var k := Plan(t.cfg, t.callers[c].who)[t.callers[c].phase.i]; k in t.memory ==> t.memory[k].expiresAt >= now
    ensures Inv(Advance(t, c, now))
  {
    var caller := t.callers[c];
    var caller' := Reserved(t.cfg, caller);
    assert OnPlan(t.cfg, caller);
    ReservedHolds(t.cfg, caller);
    PlanStays(t, c, caller');
    GaugesChange(t, c, caller');
    CallerChanges(t, c, caller');
  }

  /** Who has passed a counter still holds it, so at most the holders have passed. */
  lemma PassedAreHolders(cs: seq<Caller>, cfg: Config, k: Key)
    requires forall c <- cs :: OnPlan(cfg, c)
    ensures Count(cs, Passing(k)) <= Count(cs, Holding(k))
  {
    forall x | x in cs && HasPassed(x, k) ensures Holds(x, k) {
      assert OnPlan(cfg, x);
    }
    CountWithin(cs, Passing(k), Holding(k));
  }

  /** A check that fails changes only what its caller does next. */
  lemma FailedCheckKeeps(t: Tracker, c: nat, i: nat)
    requires Inv(t) && c < |t.callers| && t.callers[c].phase == Checking(i)
    ensures Inv(Move(t, c, RollingBack(i)))
  {
    var caller := t.callers[c];
    var caller' := caller.(phase := RollingBack(i));
    assert OnPlan(t.cfg, caller);
    PlanStays(t, c, caller');
    assert forall k :: Holds(caller', k) <==> Holds(caller, k);
    assert forall k :: HasPassed(caller', k) <==> HasPassed(caller, k);
    CallerChanges(t, c, caller');
    GaugesChange(t, c, caller');
  }

  /** The caller after a passed check. */
  function Past(c: Caller): Caller
    requires c.phase.Checking?
  {
    c.(phase := Reserving(c.phase.i + 1))
  }

  /** A passed check adds its key to what the caller has passed. */
  lemma PastPasses(cfg: Config, c: Caller)
    requires OnPlan(cfg, c) && c.phase.Checking?
    ensures var k0 := Plan(cfg, c.who)[c.phase.i];
            && OnPlan(cfg, Past(c)) && Holds(c, k0) && !HasPassed(c, k0)
            && (forall k :: Holds(Past(c), k) <==> Holds(c, k))
            && (forall k :: HasPassed(Past(c), k) <==> HasPassed(c, k) || k == k0)
  {
    var plan, i := Plan(cfg, c.who), c.phase.i;
    PlanFacts(cfg, c.who);
    assert c.acquired[i] == plan[i] && c.acquired[..i + 1] == c.acquired[..i] + [plan[i]];
    assert c.acquired[..i] == plan[..i];
  }

  /** Whatever the counters say, passing a check keeps everything as long as the cap has room. */
  lemma PassedCheckKeeps(t: Tracker, c: nat, i: nat, k0: Key)
    requires Inv(t) && c < |t.callers| && t.callers[c].phase == Checking(i)
    requires i < |Plan(t.cfg, t.callers[c].who)| && k0 == Plan(t.cfg, t.callers[c].who)[i]
    requires Count(t.callers, Passing(k0)) < Cap(t.cfg, k0)
    ensures Inv(Move(t, c, Reserving(i + 1)))
  {
    var caller := t.callers[c];
    assert OnPlan(t.cfg, caller);
    PastPasses(t.cfg, caller);
    PlanStays(t, c, Past(caller));
    GaugesChange(t, c, Past(caller));
    CallerChanges(t, c, Past(caller));
  }

  /** A caller at its check holds the counter and has not passed it: fewer have passed. */
  lemma CheckersHaveNotPassed(t: Tracker, c: nat)
    requires Inv(t) && c < |t.callers| && t.callers[c].phase.Checking?
    ensures t.callers[c].phase.i < |Plan(t.cfg, t.callers[c].who)|
    ensures var k0 := Plan(t.cfg, t.callers[c].who)[t.callers[c].phase.i];
            k0 in t.memory && Count(t.callers, Passing(k0)) < t.memory[k0].count
  {
    var caller := t.callers[c];
    assert OnPlan(t.cfg, caller);
    PastPasses(t.cfg, caller);
    PlanStays(t, c, Past(caller));
    CallerChanges(t, c, Past(caller));
    var k0 := Plan(t.cfg, caller.who)[caller.phase.i];
    HoldersMatter(t, c, k0);
    PassedAreHolders(t.callers[c := Past(caller)], t.cfg, k0);
  }

  lemma CheckKeeps(t: Tracker, c: nat, now: int)
    requires Inv(t) && Unexpired(t.memory, now) && c < |t.callers| && t.callers[c].phase.Checking?
    ensures Inv(Advance(t, c, now))
  {
    var i := t.callers[c].phase.i;
    assert OnPlan(t.cfg, t.callers[c]);
    var k0 := Plan(t.cfg, t.callers[c].who)[i];
    if OverLimit(t.memory, k0, Cap(t.cfg, k0), now) {
      FailedCheckKeeps(t, c, i);
    } else {
      CheckersHaveNotPassed(t, c);
      PassedCheckKeeps(t, c, i, k0);
    }
  }

  lemma AdmitKeeps(t: Tracker, c: nat, now: int)
    requires Inv(t) && c < |t.callers|
    requires t.callers[c].phase.Reserving? && t.callers[c].phase.i >= |Plan(t.cfg, t.callers[c].who)|
    ensures Inv(Advance(t, c, now))
  {
    var caller := t.callers[c];
    var caller' := caller.(phase := Admitted);
    var t' := Advance(t, c, now);
    assert OnPlan(t.cfg, caller);
    assert caller.acquired[..|caller.acquired|] == caller.acquired;
    assert forall k :: Holds(caller', k) <==> Holds(caller, k);
    assert forall k :: HasPassed(caller', k) <==> HasPassed(caller, k);
    CallerChanges(t, c, caller');
    GaugesChange(t, c, caller');
    PlanStays(t, c, caller');
  }

  /** Giving back what a caller holds, and perhaps keys that nobody holds, keeps counters exact. */
  lemma GiveBackKeeps(t: Tracker, c: nat, phase: Phase, ks: seq<Key>, t': Tracker)
    requires Inv(t) && c < |t.callers| && (phase.Rejected? || phase.Released?)
    requires NoRepeats(ks) && forall k :: Holds(t.callers[c], k) ==> k in ks
    requires forall k <- ks :: Holds(t.callers[c], k) || k !in t.memory
    requires t'.cfg == t.cfg && t'.callers == t.callers[c := t.callers[c].(phase := phase)]
    requires t'.memory == DecrementAll(t.memory, ks)
    ensures (forall x <- t'.callers :: OnPlan(t.cfg, x)) && Exact(t') && WithinCaps(t')
  {
    var caller' := t.callers[c].(phase := phase);
    CallerChanges(t, c, caller');
    DecrementAllIs(t.memory, ks);
    PlanStays(t, c, caller');
    forall k | Holds(t.callers[c], k) ensures k in t.memory {
      HoldersMatter(t, c, k);
    }
  }

  lemma RollBackKeeps(t: Tracker, c: nat, now: int)
    requires Inv(t) && c < |t.callers| && t.callers[c].phase.RollingBack?
    ensures Inv(Advance(t, c, now))
  {
    var caller := t.callers[c];
    var plan := Plan(t.cfg, caller.who);
    assert OnPlan(t.cfg, caller);
    PlanFacts(t.cfg, caller.who);
    var phase := Rejected(plan[caller.phase.i]);
    GiveBackKeeps(t, c, phase, caller.acquired, Advance(t, c, now));
    GaugesChange(t, c, caller.(phase := phase));
  }

  /** A release touches three counters; the ones whose scope is off are not in memory. */
  lemma ReleaseKeeps(t: Tracker, c: nat)
    requires Inv(t)
    ensures Inv(Release(t, c))
  {
    if c < |t.callers| && t.callers[c].phase.Admitted? {
      var caller := t.callers[c];
      assert OnPlan(t.cfg, caller);
      PlanFacts(t.cfg, caller.who);
      forall k | k in ReleaseKeys(caller.who) ensures Holds(caller, k) || k !in t.memory {
        if Cap(t.cfg, k) == 0 { OffIsAbsent(t, k); }
      }
      GiveBackKeeps(t, c, Released, ReleaseKeys(caller.who), Release(t, c));
      GaugesChange(t, c, caller.(phase := Released));
      CountPositive(t.callers, Streaming());
      CountPositive(t.callers, StreamingUser());
      assert Streaming()(t.callers[c]);
      assert caller.who.HasUser() ==> StreamingUser()(t.callers[c]);
    }
  }

  lemma OffIsAbsent(t: Tracker, k: Key)
    requires Inv(t) && Cap(t.cfg, k) == 0
    ensures k !in t.memory
  {
    CountPositive(t.callers, Holding(k));
    if i :| 0 <= i < |t.callers| && Holding(k)(t.callers[i]) {
      assert OnPlan(t.cfg, t.callers[i]);
      PlanFacts(t.cfg, t.callers[i].who);
    }
  }

  ghost predicate OnTime(t: Tracker, op: Op) {
    Unexpired(t.memory, op.at)
  }

  lemma StepKeeps(t: Tracker, op: Op)
    requires Inv(t) && OnTime(t, op)
    ensures Inv(Step(t, op))
  {
    match op
    case DoArrive(who, _) => ArriveKeeps(t, who);
    case DoAdvance(c, now) =>
      if c < |t.callers| {
        var plan := Plan(t.cfg, t.callers[c].who);
        match t.callers[c].phase
        case Reserving(i) => if i < |plan| { ReserveKeeps(t, c, now); } else { AdmitKeeps(t, c, now); }
        case Checking(_) => CheckKeeps(t, c, now);
        case RollingBack(_) =>
          assert OnPlan(t.cfg, t.callers[c]);
          RollBackKeeps(t, c, now);
        case _ =>
      }
    case DoRelease(c, _) => ReleaseKeeps(t, c);
    case DoPurge(now) => assert Purge(t.memory, now) == t.memory;
  }

  // ---------------------------------------------------------------- runs

  /** No step of the run happens while a counter in memory has expired. */
  ghost predicate Timely(t: Tracker, ops: seq<Op>)
    decreases |ops|
  {
    ops == [] || (OnTime(t, ops[0]) && Timely(Step(t, ops[0]), ops[1..]))
  }

  lemma {:induction false} RunKeeps(t: Tracker, ops: seq<Op>)
    requires Inv(t) && Timely(t, ops)
    ensures Inv(Run(t, ops))
    decreases |ops|
  {
    if ops != [] {
      StepKeeps(t, ops[0]);
      RunKeeps(Step(t, ops[0]), ops[1..]);
    }
  }

  lemma FreshInv(cfg: Config)
    ensures Inv(Fresh(cfg))
  {
  }
}
