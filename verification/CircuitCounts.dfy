/** What the numbers of the registry count, and quarantines that are set by hand. */
module CircuitCounts {
  import opened Prelude
  import opened Counting
  import opened Circuit
  import opened CircuitRuns
  import opened CircuitHistory

  // ---------------------------------------------------------------- openings

  /** The opening is less than `window` before `now`. */
  function Within(now: int, window: int): int -> bool { (x: int) => now - x < window }

  lemma {:induction false} RecentCounts(opens: seq<int>, now: int, window: int)
    ensures |Recent(opens, now, window)| == Count(opens, Within(now, window))
    ensures forall x :: x in Recent(opens, now, window) <==> x in opens && now - x < window
  {
    if opens != [] {
      RecentCounts(opens[1..], now, window);
      assert forall x :: x in opens <==> x == opens[0] || x in opens[1..];
    }
  }

  /** An opening puts its provider in quarantine exactly when, itself included, the provider has
      opened `openThreshold` times or more within the window, and is not in a quarantine that lasts. */
  lemma {:induction false} QuarantinedByCount(p: Policy, events: seq<Event>, id: string, noResult: bool, now: int, last: int)
    requires Clocked(last, events) && End(last, events) <= now && p.quarantineEnabled
    requires var c := CircuitOf(Run(p, Empty(), events), id);
             c.state.HalfOpen? || (c.state.Closed? && !noResult && c.failures + 1 >= p.failureThreshold)
    ensures var r := Run(p, Empty(), events);
            var s := Step(p, r, At(now, DoFailure(id, noResult)));
            var lasts := id in r.quarantines && (r.quarantines[id].until.None? || now <= r.quarantines[id].until.value);
            (s.quarantines != r.quarantines
             <==> 1 + Count(Past(p, events, id), Within(now, p.window)) >= p.openThreshold && !lasts)
  {
    var past := Past(p, events, id);
    AutoQuarantineIff(p, events, id, noResult, now, last);
    assert (past + [now])[..|past|] == past;
    RecentCounts(past, now, p.window);
  }

  // ---------------------------------------------------------------- successes

  /** The successes of a row of events since the last failure or closing, from `n` on. */
  function Streak(p: Policy, r: Registry, events: seq<Event>, id: string, n: nat): nat
    decreases |events|
  {
    if events == [] then n
    else
      Streak(p, Step(p, r, events[0]), events[1..], id,
             match events[0].op
             case DoSuccess(x) =>
               if x != id then n else if CircuitOf(r, id).state.HalfOpen? && n + 1 >= p.successThreshold then 0 else n + 1
             case DoFailure(x, _) => if x == id then 0 else n
             case _ => n)
  }

  /** The successes that count towards closing are those since the last failure, or since the
      circuit was closed last, whatever its state was when they were reported. */
  lemma {:induction false} SuccessesAreStreak(p: Policy, r: Registry, events: seq<Event>, id: string)
    ensures CircuitOf(Run(p, r, events), id).successes == Streak(p, r, events, id, CircuitOf(r, id).successes)
    decreases |events|
  {
    if events != [] {
      SuccessesAreStreak(p, Step(p, r, events[0]), events[1..], id);
      StepStreak(p, r, events[0], id);
    }
  }

  /** The same from an empty registry, where nobody has failed or succeeded yet. */
  lemma {:induction false} StreakFromNothing(p: Policy, events: seq<Event>, id: string)
    ensures CircuitOf(Run(p, Empty(), events), id).successes == Streak(p, Empty(), events, id, 0)
    ensures events == [] ==> CircuitOf(Run(p, Empty(), events), id).state.Closed? && CircuitOf(Run(p, Empty(), events), id).failures == 0
  {
    SuccessesAreStreak(p, Empty(), events, id);
  }

  lemma {:induction false} StepStreak(p: Policy, r: Registry, e: Event, id: string)
    ensures var n := CircuitOf(r, id).successes;
            CircuitOf(Step(p, r, e), id).successes
            == match e.op
               case DoSuccess(x) =>
                 if x != id then n else if CircuitOf(r, id).state.HalfOpen? && n + 1 >= p.successThreshold then 0 else n + 1
               case DoFailure(x, _) => if x == id then 0 else n
               case _ => n
  {
  }

  // ---------------------------------------------------------------- failures

  /** What one event makes of `n` failures of a circuit. */
  function After(p: Policy, c: Record, op: Op, id: string, n: nat): nat {
    match op
    case DoSuccess(x) =>
      if x != id || c.state.Open? then n
      else if c.state.Closed? then (if n == 0 then 0 else n - 1)
      else if c.successes + 1 >= p.successThreshold then 0
      else n
    case DoFailure(x, _) => if x == id then n + 1 else n
    case _ => n
  }

  /** The balance of a row of events, from `n` on: a failure adds one whatever its kind and whatever
      the state, a success takes one off while the circuit is closed, down to nothing at the least,
      and the success that closes the circuit settles it. */
  function Balance(p: Policy, r: Registry, events: seq<Event>, id: string, n: nat): nat
    decreases |events|
  {
    if events == [] then n
    else Balance(p, Step(p, r, events[0]), events[1..], id, After(p, CircuitOf(r, id), events[0].op, id, n))
  }

  lemma NotingKeepsCircuits(p: Policy, r: Registry, id: string, now: int)
    ensures NoteOpened(p, r, id, now).circuits == r.circuits
  {
  }

  lemma FailureAddsOne(p: Policy, r: Registry, x: string, noResult: bool, now: int, id: string)
    ensures CircuitOf(RecordFailure(p, r, x, noResult, now), id).failures == CircuitOf(r, id).failures + if x == id then 1 else 0
  {
    NotingKeepsCircuits(p, Tripped(r, x, now), x, now);
  }

  lemma {:induction false} StepBalance(p: Policy, r: Registry, e: Event, id: string)
    ensures CircuitOf(Step(p, r, e), id).failures == After(p, CircuitOf(r, id), e.op, id, CircuitOf(r, id).failures)
  {
    if e.op.DoFailure? { FailureAddsOne(p, r, e.op.id, e.op.noResult, e.now, id); }
  }

  /** The failures of a circuit are that balance. */
  lemma {:induction false} FailuresAreBalance(p: Policy, r: Registry, events: seq<Event>, id: string)
    ensures CircuitOf(Run(p, r, events), id).failures == Balance(p, r, events, id, CircuitOf(r, id).failures)
    decreases |events|
  {
    if events != [] {
      StepBalance(p, r, events[0], id);
      var s, n := Step(p, r, events[0]), After(p, CircuitOf(r, id), events[0].op, id, CircuitOf(r, id).failures);
      FailuresAreBalance(p, s, events[1..], id);
      assert Run(p, r, events) == Run(p, s, events[1..]);
      assert Balance(p, r, events, id, CircuitOf(r, id).failures) == Balance(p, s, events[1..], id, n);
    }
  }

  // ---------------------------------------------------------------- by hand

  /** A quarantine set by hand lasts for the lifetime given, or for that of the policy if none is
      given, and for ever if that is not positive; it counts the openings that are remembered.
      Whatever else happens until its time, short of a release or another quarantine by hand, it is
      active exactly until then. */
  lemma {:induction false} HandMadeLasts(p: Policy, r: Registry, id: string, ttl: Option<int>, now: int, events: seq<Event>, x: int)
    requires var life := if ttl.Some? then ttl.value else p.quarantineTtl;
             forall e <- events :: (life > 0 ==> e.now <= now + life) && !Meddles(e, id)
    ensures var life := if ttl.Some? then ttl.value else p.quarantineTtl;
            var s := Step(p, r, At(now, DoQuarantine(id, ttl)));
            && id in s.quarantines
            && s.quarantines[id] == Quarantine(now, |OpensOf(r, id)|, if life > 0 then Some(now + life) else None)
            && s.circuits == r.circuits && s.opens == r.opens
            && (IsQuarantined(Run(p, s, events), id, x) <==> life <= 0 || x <= now + life)
  {
    var s := Step(p, r, At(now, DoQuarantine(id, ttl)));
    QuarantineLastsExactly(p, s, events, id, x);
  }

  /** A release ends any quarantine at once and forgets the openings; other providers keep theirs. */
  lemma {:induction false} ReleaseEndsIt(p: Policy, r: Registry, id: string, now: int, x: int, other: string)
    ensures var s := Step(p, r, At(now, DoRelease(id)));
            && !IsQuarantined(s, id, x) && OpensOf(s, id) == []
            && (other != id ==> OpensOf(s, other) == OpensOf(r, other) && (IsQuarantined(s, other, x) <==> IsQuarantined(r, other, x)))
  {
  }
}
