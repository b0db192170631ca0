/** Which callers are refused when many of them reserve, check and roll back at the same time. */
module StreamsRefusals {
  import opened Prelude
  import opened Counting
  import opened Streams
  import opened StreamsSafety
  import opened StreamsRuns

  /** The caller was refused because of `k`, whether or not it has rolled back yet. */
  predicate RefusedBy(cfg: Config, c: Caller, k: Key) {
    match c.phase
    case RollingBack(i) => i < |Plan(cfg, c.who)| && Plan(cfg, c.who)[i] == k
    case Rejected(at) => at == k
    case _ => false
  }

  /** Caller `c` looks at the counter of `k`, and more callers hold `k` than its cap admits,
      admitted or not. */
  ghost predicate FailsCheck(t: Tracker, op: Op, c: nat, k: Key) {
    && op.DoAdvance? && op.c == c && c < |t.callers| && t.callers[c].phase.Checking?
    && t.callers[c].phase.i < |Plan(t.cfg, t.callers[c].who)|
    && Plan(t.cfg, t.callers[c].who)[t.callers[c].phase.i] == k
    && Count(t.callers, Holding(k)) > Cap(t.cfg, k)
  }

  /** A check fails exactly when more callers hold the counter than its cap admits. */
  lemma CheckFailsIff(t: Tracker, c: nat, now: int)
    requires Inv(t) && Unexpired(t.memory, now) && c < |t.callers| && t.callers[c].phase.Checking?
    ensures t.callers[c].phase.i < |Plan(t.cfg, t.callers[c].who)|
    ensures var k := Plan(t.cfg, t.callers[c].who)[t.callers[c].phase.i];
            Advance(t, c, now).callers[c].phase.RollingBack? <==> Count(t.callers, Holding(k)) > Cap(t.cfg, k)
  {
    assert OnPlan(t.cfg, t.callers[c]);
    var k := Plan(t.cfg, t.callers[c].who)[t.callers[c].phase.i];
    assert k in t.memory <==> Count(t.callers, Holding(k)) > 0;
  }

  ghost predicate Refused(t: Tracker, c: nat, k: Key) {
    c < |t.callers| && RefusedBy(t.cfg, t.callers[c], k)
  }

  lemma AdvanceRefusesIff(t: Tracker, i: nat, now: int, c: nat, k: Key)
    requires Inv(t) && Unexpired(t.memory, now) && i < |t.callers|
    ensures Refused(Advance(t, i, now), c, k) <==> Refused(t, c, k) || FailsCheck(t, DoAdvance(i, now), c, k)
  {
    if t.callers[i].phase.Checking? {
      CheckFailsIff(t, i, now);
      CheckMoves(t, i, now);
    } else {
      assert OnPlan(t.cfg, t.callers[i]);
      OthersRefuseNobody(t, i, now, c, k);
    }
  }

  /** A check changes the phase of its caller and nothing else. */
  lemma CheckMoves(t: Tracker, i: nat, now: int)
    requires i < |t.callers| && t.callers[i].phase.Checking? && t.callers[i].phase.i < |Plan(t.cfg, t.callers[i].who)|
    ensures var j, u := t.callers[i].phase.i, Advance(t, i, now);
            && u.cfg == t.cfg
            && (u.callers == t.callers[i := t.callers[i].(phase := RollingBack(j))]
                || u.callers == t.callers[i := t.callers[i].(phase := Reserving(j + 1))])
  {
  }

  lemma OthersRefuseNobody(t: Tracker, i: nat, now: int, c: nat, k: Key)
    requires i < |t.callers| && !t.callers[i].phase.Checking? && OnPlan(t.cfg, t.callers[i])
    ensures Refused(Advance(t, i, now), c, k) <==> Refused(t, c, k)
  {
  }

  /** A step refuses a caller exactly when it is a failed check of that caller. */
  lemma StepRefusesIff(t: Tracker, op: Op, c: nat, k: Key)
    requires Inv(t) && OnTime(t, op)
    ensures Refused(Step(t, op), c, k) <==> Refused(t, c, k) || FailsCheck(t, op, c, k)
  {
    if op.DoAdvance? && op.c < |t.callers| {
      AdvanceRefusesIff(t, op.c, op.at, c, k);
    }
  }

  /** Some step of the run is a failed check. */
  ghost predicate EverFails(t: Tracker, ops: seq<Op>, c: nat, k: Key) {
    exists j :: 0 <= j < |ops| && FailsCheck(Run(t, ops[..j]), ops[j], c, k)
  }

  lemma EverFailsSplits(t: Tracker, ops: seq<Op>, c: nat, k: Key)
    requires ops != []
    ensures EverFails(t, ops, c, k) <==> FailsCheck(t, ops[0], c, k) || EverFails(Step(t, ops[0]), ops[1..], c, k)
  {
    var next, rest := Step(t, ops[0]), ops[1..];
    assert ops[..0] == [];
    forall j | 0 <= j < |rest| ensures Run(t, ops[..j + 1]) == Run(next, rest[..j]) {
      assert ops[..j + 1][1..] == rest[..j];
    }
    if j :| 0 <= j < |ops| && FailsCheck(Run(t, ops[..j]), ops[j], c, k) {
      if j > 0 { assert FailsCheck(Run(next, rest[..j - 1]), rest[j - 1], c, k); }
    }
    if j :| 0 <= j < |rest| && FailsCheck(Run(next, rest[..j]), rest[j], c, k) {
      assert FailsCheck(Run(t, ops[..j + 1]), ops[j + 1], c, k);
    }
    if FailsCheck(t, ops[0], c, k) {
      assert FailsCheck(Run(t, ops[..0]), ops[0], c, k);
    }
  }

  lemma {:induction false} RunRefusesIff(t: Tracker, ops: seq<Op>, c: nat, k: Key)
    requires Inv(t) && Timely(t, ops)
    ensures Refused(Run(t, ops), c, k) <==> Refused(t, c, k) || EverFails(t, ops, c, k)
    decreases |ops|
  {
    if ops != [] {
      StepKeeps(t, ops[0]);
      StepRefusesIff(t, ops[0], c, k);
      RunRefusesIff(Step(t, ops[0]), ops[1..], c, k);
      EverFailsSplits(t, ops, c, k);
    }
  }

  /** Who is refused, under any interleaving: in every timely run a caller is refused because of a
      counter exactly when, at the moment it looked at this counter, more callers held it than
      its cap admits. Streams that are admitted count, and so do callers that are only trying. */
  lemma RefusedIff(cfg: Config, ops: seq<Op>, c: nat, k: Key)
    requires Timely(Fresh(cfg), ops)
    ensures var t := Run(Fresh(cfg), ops);
            (c < |t.callers| && RefusedBy(cfg, t.callers[c], k)) <==> EverFails(Fresh(cfg), ops, c, k)
  {
    FreshInv(cfg);
    RunRefusesIff(Fresh(cfg), ops, c, k);
    RunConfig(Fresh(cfg), ops);
  }

  /** A caller that is through was admitted exactly when none of its checks failed. */
  lemma AdmittedIff(cfg: Config, ops: seq<Op>, c: nat)
    requires Timely(Fresh(cfg), ops)
    requires var t := Run(Fresh(cfg), ops);
             c < |t.callers| && (t.callers[c].phase.Admitted? || t.callers[c].phase.Released? || t.callers[c].phase.Rejected?)
    ensures var t := Run(Fresh(cfg), ops);
            !t.callers[c].phase.Rejected? <==> forall k :: !EverFails(Fresh(cfg), ops, c, k)
  {
    var t := Run(Fresh(cfg), ops);
    forall k ensures RefusedBy(cfg, t.callers[c], k) <==> EverFails(Fresh(cfg), ops, c, k) {
      RefusedIff(cfg, ops, c, k);
    }
    if t.callers[c].phase.Rejected? {
      assert RefusedBy(cfg, t.callers[c], t.callers[c].phase.at);
    }
  }

  /** A refusal needs as many streams and attempts as the cap admits besides the caller itself:
      with no more callers than the cap, nobody is refused. */
  lemma FewCallersAreNeverRefused(cfg: Config, ops: seq<Op>, c: nat, k: Key)
    requires Timely(Fresh(cfg), ops)
    requires |Run(Fresh(cfg), ops).callers| <= Cap(cfg, k)
    ensures !EverFails(Fresh(cfg), ops, c, k)
  {
    forall j | 0 <= j < |ops| ensures !FailsCheck(Run(Fresh(cfg), ops[..j]), ops[j], c, k) {
      var s := Run(Fresh(cfg), ops[..j]);
      RunConfig(Fresh(cfg), ops[..j]);
      CountAtMost(s.callers, Holding(k));
      CallersGrow(Fresh(cfg), ops, j);
    }
  }

  lemma {:induction false} CountAtMost(cs: seq<Caller>, p: Caller -> bool)
    ensures Count(cs, p) <= |cs|
  {
    if cs != [] { CountAtMost(cs[1..], p); }
  }

  lemma {:induction false} CallersGrow(t: Tracker, ops: seq<Op>, j: nat)
    requires j <= |ops|
    ensures |t.callers| <= |Run(t, ops[..j]).callers| <= |Run(t, ops).callers|
    decreases |ops|
  {
    if j > 0 {
      assert ops[..j][1..] == ops[1..][..j - 1];
      CallersGrow(Step(t, ops[0]), ops[1..], j - 1);
    } else if ops != [] {
      CallersGrow(Step(t, ops[0]), ops[1..], 0);
      assert ops[1..][..0] == [] && ops[..0] == [];
    }
  }
}
