/** What the circuit breaker guarantees over whole runs. */
module CircuitRuns {
  import opened Prelude
  import opened Circuit

  function StateOf(r: Registry, id: string): State {
    CircuitOf(r, id).state
  }

  // ---------------------------------------------------------------- trials

  /** A trial is in flight only for a half-open circuit. */
  ghost predicate TrialsHalfOpen(r: Registry) {
    forall id <- r.trials :: StateOf(r, id).HalfOpen?
  }

  lemma StepKeepsTrials(p: Policy, r: Registry, e: Event)
    requires TrialsHalfOpen(r)
    ensures TrialsHalfOpen(Step(p, r, e))
  {
    match e.op
    case DoFailure(id, noResult) => FailureKeepsTrials(p, r, id, noResult, e.now);
    case _ =>
  }

  lemma FailureKeepsTrials(p: Policy, r: Registry, id: string, noResult: bool, now: int)
    requires TrialsHalfOpen(r)
    ensures TrialsHalfOpen(RecordFailure(p, r, id, noResult, now))
  {
  }

  lemma {:induction false} RunKeepsTrials(p: Policy, r: Registry, events: seq<Event>)
    requires TrialsHalfOpen(r)
    ensures TrialsHalfOpen(Run(p, r, events))
    decreases |events|
  {
    if events != [] {
      StepKeepsTrials(p, r, events[0]);
      RunKeepsTrials(p, Step(p, r, events[0]), events[1..]);
    }
  }

  /** In every reachable state a provider with a trial in flight is stored half-open. */
  lemma TrialsAreHalfOpen(p: Policy, events: seq<Event>, id: string)
    requires id in Run(p, Empty(), events).trials
    ensures CircuitOf(Run(p, Empty(), events), id).state == HalfOpen
  {
    RunKeepsTrials(p, Empty(), events);
  }

  /** An event that gives out the trial of a half-open circuit. */
  predicate Grants(p: Policy, r: Registry, e: Event, id: string) {
    e.op == DoProbe(id) && GetState(p, r, id, e.now).HalfOpen? && Allowed(p, r, id, e.now)
  }

  /** After a grant at `granted`, the next one is still some way off. */
  predicate Spaced(p: Policy, r: Registry, id: string, granted: int, last: int) {
    && granted <= last
    && match StateOf(r, id)
       case Closed => true
       case Open => CircuitOf(r, id).openedAt >= granted
       case HalfOpen => id in r.trials || last > granted + p.openTtl
  }

  lemma StepKeepsSpaced(p: Policy, r: Registry, e: Event, id: string, granted: int, last: int)
    requires Spaced(p, r, id, granted, last) && last <= e.now
    ensures Grants(p, r, e, id) ==> e.now > granted + p.openTtl
    ensures Spaced(p, Step(p, r, e), id, granted, e.now)
  {
  }

  lemma {:induction false} NoGrantUntil(p: Policy, r: Registry, events: seq<Event>, id: string, granted: int, last: int, j: nat)
    requires Spaced(p, r, id, granted, last) && Clocked(last, events)
    requires j < |events| && Grants(p, Run(p, r, events[..j]), events[j], id)
    ensures events[j].now > granted + p.openTtl
    decreases |events|
  {
    if j == 0 {
      StepKeepsSpaced(p, r, events[0], id, granted, last);
    } else {
      StepKeepsSpaced(p, r, events[0], id, granted, last);
      assert events[..j][1..] == events[1..][..j - 1];
      NoGrantUntil(p, Step(p, r, events[0]), events[1..], id, granted, events[0].now, j - 1);
    }
  }

  lemma {:induction false} RunConcat(p: Policy, r: Registry, a: seq<Event>, b: seq<Event>)
    ensures Run(p, r, a + b) == Run(p, Run(p, r, a), b)
    decreases |a|
  {
    if a == [] {
      assert a + b == b;
    } else {
      assert (a + b)[1..] == a[1..] + b;
      RunConcat(p, Step(p, r, a[0]), a[1..], b);
    }
  }

  lemma {:induction false} ClockedFrom(events: seq<Event>, last: int, i: nat)
    requires Clocked(last, events) && i < |events|
    ensures Clocked(events[i].now, events[i + 1..])
    decreases |events|
  {
    if i > 0 {
      ClockedFrom(events[1..], events[0].now, i - 1);
      assert events[1..][i..] == events[i + 1..];
    }
  }

  /** Half-open exclusivity: in any run from any state, two trials of one provider are more than
      the open time apart, whatever outcomes are recorded in between. */
  lemma TrialsAreFarApart(p: Policy, r: Registry, events: seq<Event>, id: string, last: int, i: nat, j: nat)
    requires Clocked(last, events) && i < j < |events|
    requires Grants(p, Run(p, r, events[..i]), events[i], id)
    requires Grants(p, Run(p, r, events[..j]), events[j], id)
    ensures events[j].now > events[i].now + p.openTtl
  {
    var s := Run(p, r, events[..i]);
    var rest := events[i + 1..];
    ClockedFrom(events, last, i);
    assert events[..j] == events[..i] + ([events[i]] + rest[..j - i - 1]);
    RunConcat(p, r, events[..i], [events[i]] + rest[..j - i - 1]);
    assert ([events[i]] + rest[..j - i - 1])[1..] == rest[..j - i - 1];
    assert rest[j - i - 1] == events[j];
    NoGrantUntil(p, Step(p, s, events[i]), rest, id, events[i].now, events[i].now, j - i - 1);
  }

  /** Stored half-open after every event of the run, and at its start. */
  ghost predicate HalfOpenThroughout(p: Policy, r: Registry, events: seq<Event>, id: string) {
    forall k :: 0 <= k <= |events| ==> StateOf(Run(p, r, events[..k]), id).HalfOpen?
  }

  /** A trial stays in flight as long as its half-open period lasts. */
  lemma {:induction false} TrialLastsThePeriod(p: Policy, r: Registry, events: seq<Event>, id: string)
    requires id in r.trials && HalfOpenThroughout(p, r, events, id)
    ensures id in Run(p, r, events).trials && StateOf(Run(p, r, events), id).HalfOpen?
    decreases |events|
  {
    assert events[..|events|] == events;
    if events != [] {
      var next := Step(p, r, events[0]);
      var rest := events[1..];
      forall k | 0 <= k <= |rest| ensures StateOf(Run(p, next, rest[..k]), id).HalfOpen? {
        assert events[..k + 1][1..] == rest[..k];
      }
      assert rest[..0] == [] && events[..0] == [];
      TrialLastsOneStep(p, r, events[0], id);
      TrialLastsThePeriod(p, next, rest, id);
    }
  }

  lemma TrialLastsOneStep(p: Policy, r: Registry, e: Event, id: string)
    requires id in r.trials && StateOf(r, id).HalfOpen? && StateOf(Step(p, r, e), id).HalfOpen?
    ensures id in Step(p, r, e).trials
  {
  }

  /** One trial per half-open period: in any run from any state, between two trials of one
      provider there is a moment at which its circuit is not half-open. The clock plays no part. */
  lemma OneTrialPerPeriod(p: Policy, r: Registry, events: seq<Event>, id: string, i: nat, j: nat)
    requires i < j < |events|
    requires Grants(p, Run(p, r, events[..i]), events[i], id)
    requires Grants(p, Run(p, r, events[..j]), events[j], id)
    ensures exists k :: i < k <= j && !StateOf(Run(p, r, events[..k]), id).HalfOpen?
  {
    var s := Run(p, r, events[..i + 1]);
    assert events[..i + 1] == events[..i] + [events[i]] && [events[i]][1..] == [];
    RunConcat(p, r, events[..i], [events[i]]);
    assert s == Run(p, Step(p, Run(p, r, events[..i]), events[i]), []);
    var between := events[i + 1..j];
    forall k | 0 <= k <= |between| ensures Run(p, s, between[..k]) == Run(p, r, events[..i + 1 + k]) {
      assert events[..i + 1 + k] == events[..i + 1] + between[..k];
      RunConcat(p, r, events[..i + 1], between[..k]);
    }
    assert between[..|between|] == between;
    if HalfOpenThroughout(p, s, between, id) {
      TrialLastsThePeriod(p, s, between, id);
    } else {
      var k :| 0 <= k <= |between| && !StateOf(Run(p, s, between[..k]), id).HalfOpen?;
      assert i < i + 1 + k <= j;
    }
  }

  // ---------------------------------------------------------------- open circuits

  /** Nothing that happens within the open time of a circuit moves its opening, closes it or
      lets a request through. */
  lemma {:induction false} OpenStaysOpen(p: Policy, r: Registry, events: seq<Event>, id: string, last: int)
    requires StateOf(r, id).Open? && Clocked(last, events)
    requires forall e <- events :: e.now - CircuitOf(r, id).openedAt <= p.openTtl
    ensures StateOf(Run(p, r, events), id).Open?
    ensures CircuitOf(Run(p, r, events), id).openedAt == CircuitOf(r, id).openedAt
    ensures forall now :: now - CircuitOf(r, id).openedAt <= p.openTtl ==> !Allowed(p, Run(p, r, events), id, now)
    decreases |events|
  {
    if events != [] {
      var s := Step(p, r, events[0]);
      assert forall e <- events[1..] :: e in events;
      OpenStaysOpen(p, s, events[1..], id, events[0].now);
    }
  }

  /** An open circuit lets its trial through exactly when its time is up. */
  lemma OpenAllowsIff(p: Policy, events: seq<Event>, id: string, now: int)
    requires StateOf(Run(p, Empty(), events), id).Open?
    ensures Allowed(p, Run(p, Empty(), events), id, now)
            <==> now - CircuitOf(Run(p, Empty(), events), id).openedAt > p.openTtl
  {
    RunKeepsTrials(p, Empty(), events);
  }

  /** Any failure of a trial reopens the circuit from now on and frees the trial. */
  lemma TrialFailureReopens(p: Policy, r: Registry, id: string, noResult: bool, now: int)
    requires StateOf(r, id).HalfOpen?
    ensures var s := RecordFailure(p, r, id, noResult, now);
            && StateOf(s, id).Open? && CircuitOf(s, id).openedAt == now && id !in s.trials
            && (p.openTtl >= 0 ==> !Allowed(p, s, id, now))
  {
  }

  /** A success closes a half-open circuit, with no failures left, exactly when it is the last
      one the policy asks for. */
  lemma TrialSuccessClosesIff(p: Policy, r: Registry, id: string)
    requires StateOf(r, id).HalfOpen?
    ensures var s := RecordSuccess(p, r, id);
            && (StateOf(s, id).Closed? <==> CircuitOf(r, id).successes + 1 >= p.successThreshold)
            && (StateOf(s, id).Closed? ==> CircuitOf(s, id).failures == 0 && id !in s.trials)
            && (!StateOf(s, id).Closed? ==> StateOf(s, id).HalfOpen? && s.trials == r.trials)
  {
  }

  // ---------------------------------------------------------------- a trial that is not enough

  /** The event reports an outcome of this provider. */
  predicate Reports(e: Event, id: string) {
    match e.op
    case DoSuccess(x) => x == id
    case DoFailure(x, _) => x == id
    case _ => false
  }

  /** A half-open circuit whose trial is in flight lets nothing more through, however long one
      waits, until somebody reports an outcome. */
  lemma {:induction false} TrialBlocks(p: Policy, r: Registry, events: seq<Event>, id: string, now: int)
    requires StateOf(r, id).HalfOpen? && id in r.trials
    requires forall e <- events :: !Reports(e, id)
    ensures !Allowed(p, Run(p, r, events), id, now)
    decreases |events|
  {
    if events != [] {
      assert events[0] in events;
      assert StateOf(Step(p, r, events[0]), id).HalfOpen? && id in Step(p, r, events[0]).trials;
      assert forall e <- events[1..] :: e in events;
      TrialBlocks(p, Step(p, r, events[0]), events[1..], id, now);
    }
  }

  /** After a granted trial has succeeded with nothing reported in between, the provider is reachable
      again exactly when that success was the last one the policy asks for. With a higher threshold the trial's slot is
      never given back and the provider stays shut off until another outcome is reported. */
  lemma SuccessfulTrialReopensTrafficIff(p: Policy, r: Registry, e: Event, id: string, events: seq<Event>, now: int)
    requires Grants(p, r, e, id)
    requires forall e <- events :: !Reports(e, id)
    ensures var s := RecordSuccess(p, Step(p, r, e), id);
            Allowed(p, Run(p, s, events), id, now) <==> CircuitOf(r, id).successes + 1 >= p.successThreshold
  {
    var granted := Step(p, r, e);
    var s := RecordSuccess(p, granted, id);
    TrialSuccessClosesIff(p, granted, id);
    if StateOf(s, id).Closed? {
      ClosedStaysClosed(p, s, events, id);
    } else {
      TrialBlocks(p, s, events, id, now);
    }
  }

  lemma {:induction false} ClosedStaysClosed(p: Policy, r: Registry, events: seq<Event>, id: string)
    requires StateOf(r, id).Closed?
    requires forall e <- events :: !Reports(e, id)
    ensures StateOf(Run(p, r, events), id).Closed?
    decreases |events|
  {
    if events != [] {
      assert events[0] in events;
      assert StateOf(Step(p, r, events[0]), id).Closed?;
      assert forall e <- events[1..] :: e in events;
      ClosedStaysClosed(p, Step(p, r, events[0]), events[1..], id);
    }
  }

  /** A run in which a provider that has recovered is shut off for good: two successes are asked
      for, the first trial succeeds, and from then on nothing is let through. */
  lemma RecoveredButShutOff(id: string, now: int)
    ensures var p := Policy(1, 30, 2, false, 0, 0, 0);
            var events := [At(0, DoFailure(id, false)), At(31, DoProbe(id)), At(32, DoSuccess(id))];
            && Clocked(0, events)
            && Grants(p, Run(p, Empty(), events[..1]), events[1], id)
            && !Allowed(p, Run(p, Empty(), events), id, now)
  {
    var p := Policy(1, 30, 2, false, 0, 0, 0);
    var fail, probe, success := At(0, DoFailure(id, false)), At(31, DoProbe(id)), At(32, DoSuccess(id));
    var events := [fail, probe, success];
    assert events[1..] == [probe, success] && [probe, success][1..] == [success] && [success][1..] == [];
    assert events[..1] == [fail] && [fail][1..] == [];
    assert Clocked(31, [success]) && Clocked(0, [probe, success]);
    var t1 := Step(p, Empty(), fail);
    assert Run(p, Empty(), [fail]) == Run(p, t1, []);
    assert t1.circuits == map[id := Record(Open, 1, 0, 0)] && t1.trials == {};
    var t2 := Step(p, t1, probe);
    assert t2.circuits == map[id := Record(HalfOpen, 1, 0, 0)] && t2.trials == {id};
    var t3 := Step(p, t2, success);
    assert Run(p, t2, [success]) == Run(p, t3, []);
    assert Run(p, t1, [probe, success]) == Run(p, t2, [success]);
  }

  // ---------------------------------------------------------------- a success reported at any time

  /** A request for this provider at a moment at which an opening of `openedAt` is over. */
  predicate TakesTrial(p: Policy, e: Event, id: string, openedAt: int) {
    e.op == DoProbe(id) && e.now - openedAt > p.openTtl
  }

  /** With no report, a half-open circuit lets the next request through exactly when no trial is
      in flight and none of the requests since has taken it. */
  lemma {:induction false} HalfOpenAllowsIff(p: Policy, r: Registry, events: seq<Event>, id: string, now: int)
    requires StateOf(r, id).HalfOpen? && forall e <- events :: !Reports(e, id)
    ensures Allowed(p, Run(p, r, events), id, now) <==> id !in r.trials && forall e <- events :: e.op != DoProbe(id)
    decreases |events|
  {
    if events != [] {
      var e, s := events[0], Step(p, r, events[0]);
      assert events == [e] + events[1..];
      assert e in events;
      QuietStep(p, r, e, id);
      HalfOpenAllowsIff(p, s, events[1..], id, now);
    }
  }

  /** What an event that reports nothing about a provider does to it. */
  lemma QuietStep(p: Policy, r: Registry, e: Event, id: string)
    requires !Reports(e, id)
    ensures var c, s := CircuitOf(r, id), Step(p, r, e);
            && (CircuitOf(s, id) == c || (Due(p, c, e.now) && CircuitOf(s, id) == c.(state := HalfOpen)))
            && (Due(p, c, e.now) && e.op == DoProbe(id) ==> StateOf(s, id).HalfOpen?)
            && (id in s.trials <==> id in r.trials || (e.op == DoProbe(id) && StateOf(s, id).HalfOpen?))
  {
  }

  /** With no report, an open circuit lets a request through exactly when its time is up and none
      of the requests since has taken the trial. */
  lemma {:induction false} OpenAllowsLaterIff(p: Policy, r: Registry, events: seq<Event>, id: string, last: int, now: int)
    requires StateOf(r, id).Open? && id !in r.trials && forall e <- events :: !Reports(e, id)
    requires Clocked(last, events) && forall e <- events :: e.now <= now
    ensures var openedAt := CircuitOf(r, id).openedAt;
            Allowed(p, Run(p, r, events), id, now)
            <==> now - openedAt > p.openTtl && forall e <- events :: !TakesTrial(p, e, id, openedAt)
    decreases |events|
  {
    if events != [] {
      var e, rest, s := events[0], events[1..], Step(p, r, events[0]);
      var openedAt := CircuitOf(r, id).openedAt;
      assert events == [e] + rest;
      assert e in events;
      QuietStep(p, r, e, id);
      if StateOf(s, id).HalfOpen? {
        HalfOpenAllowsIff(p, s, rest, id, now);
        ClockedBounds(e.now, rest);
        assert forall x <- rest :: TakesTrial(p, x, id, openedAt) <==> x.op == DoProbe(id);
      } else {
        assert !TakesTrial(p, e, id, openedAt);
        OpenAllowsLaterIff(p, s, rest, id, e.now, now);
      }
    }
  }

  lemma {:induction false} ClockedBounds(last: int, events: seq<Event>)
    requires Clocked(last, events)
    ensures forall e <- events :: e.now >= last
    decreases |events|
  {
    if events != [] { ClockedBounds(events[0].now, events[1..]); }
  }

  /** What a reported success is good for, whatever happened before it and whoever reports it: as
      long as nothing else is reported, the provider is reachable afterwards exactly when its
      circuit was closed, or was half-open and either this was the last success needed or the
      trial is still free, or was open and its time is up and the trial is still free. */
  lemma ReachableAfterSuccessIff(p: Policy, before: seq<Event>, id: string, events: seq<Event>, last: int, now: int)
    requires forall e <- events :: !Reports(e, id)
    requires Clocked(last, events) && forall e <- events :: e.now <= now
    ensures var r := Run(p, Empty(), before);
            var c := CircuitOf(r, id);
            Allowed(p, Run(p, RecordSuccess(p, r, id), events), id, now)
            <==> match c.state
                 case Closed => true
                 case HalfOpen =>
                   c.successes + 1 >= p.successThreshold || (id !in r.trials && forall e <- events :: e.op != DoProbe(id))
                 case Open =>
                   now - c.openedAt > p.openTtl && forall e <- events :: !TakesTrial(p, e, id, c.openedAt)
  {
    var r := Run(p, Empty(), before);
    var s := RecordSuccess(p, r, id);
    RunKeepsTrials(p, Empty(), before);
    match StateOf(r, id)
    case Closed => ClosedStaysClosed(p, s, events, id);
    case HalfOpen =>
      TrialSuccessClosesIff(p, r, id);
      if StateOf(s, id).Closed? { ClosedStaysClosed(p, s, events, id); } else { HalfOpenAllowsIff(p, s, events, id, now); }
    case Open => OpenAllowsLaterIff(p, s, events, id, last, now);
  }

  /** A run in which a trial succeeds and one success is all the policy asks for, but the provider
      stays shut off: a request from before the opening reports its failure while the trial is
      in flight. */
  lemma LateReportShutsOff(id: string)
    ensures var p := Policy(1, 30, 1, false, 0, 0, 0);
            var events := [At(0, DoFailure(id, false)), At(31, DoProbe(id)), At(32, DoFailure(id, false)), At(33, DoSuccess(id))];
            && Clocked(0, events)
            && Grants(p, Run(p, Empty(), events[..1]), events[1], id)
            && CircuitOf(Run(p, Empty(), events[..1]), id).successes + 1 >= p.successThreshold
            && !Allowed(p, Run(p, Empty(), events), id, 34)
  {
    var p := Policy(1, 30, 1, false, 0, 0, 0);
    var fail, probe, late, success := At(0, DoFailure(id, false)), At(31, DoProbe(id)), At(32, DoFailure(id, false)), At(33, DoSuccess(id));
    var events := [fail, probe, late, success];
    assert events[1..] == [probe, late, success] && [probe, late, success][1..] == [late, success];
    assert [late, success][1..] == [success] && [success][1..] == [] && events[..1] == [fail] && [fail][1..] == [];
    assert Clocked(32, [success]) && Clocked(31, [late, success]) && Clocked(0, [probe, late, success]);
    var t1 := Step(p, Empty(), fail);
    assert t1.circuits == map[id := Record(Open, 1, 0, 0)] && t1.trials == {};
    assert Run(p, Empty(), [fail]) == Run(p, t1, []);
    var t2 := Step(p, t1, probe);
    assert t2.circuits == map[id := Record(HalfOpen, 1, 0, 0)] && t2.trials == {id};
    var t3 := Step(p, t2, late);
    assert t3.circuits == map[id := Record(Open, 2, 0, 32)];
    var t4 := Step(p, t3, success);
    assert CircuitOf(t4, id) == Record(Open, 2, 1, 32);
    assert Run(p, t3, [success]) == Run(p, t4, []);
    assert Run(p, t2, [late, success]) == Run(p, t3, [success]);
    assert Run(p, t1, [probe, late, success]) == Run(p, t2, [late, success]);
  }

  // ---------------------------------------------------------------- reports about a closed circuit

  /** The failure count of a closed circuit after one more report: empty results count too. */
  function Next(failures: nat, e: Event): nat {
    if e.op.DoSuccess? then Max(0, failures - 1) else failures + 1
  }

  /** The failure count after a row of reports. */
  function Level(failures: nat, row: seq<Event>): nat
    decreases |row|
  {
    if row == [] then failures else Level(Next(failures, row[0]), row[1..])
  }

  /** The report is a failure that is more than an empty result. */
  predicate Real(e: Event) {
    e.op.DoFailure? && !e.op.noResult
  }

  /** The report at `j` is a real failure and the count reaches the threshold with it. */
  predicate TripsAt(p: Policy, failures: nat, row: seq<Event>, j: nat) {
    j < |row| && Real(row[j]) && Level(failures, row[..j]) + 1 >= p.failureThreshold
  }

  lemma TripsLater(p: Policy, failures: nat, row: seq<Event>, j: nat)
    requires row != []
    ensures TripsAt(p, failures, row, j + 1) <==> TripsAt(p, Next(failures, row[0]), row[1..], j)
  {
    if j + 1 < |row| {
      assert row[..j + 1][1..] == row[1..][..j];
    }
  }

  lemma LaterTrips(p: Policy, failures: nat, row: seq<Event>)
    requires row != [] && !TripsAt(p, failures, row, 0)
    ensures (exists j: nat :: TripsAt(p, failures, row, j)) <==> exists j: nat :: TripsAt(p, Next(failures, row[0]), row[1..], j)
  {
    if j: nat :| TripsAt(p, Next(failures, row[0]), row[1..], j) { TripsLater(p, failures, row, j); }
    if j: nat :| TripsAt(p, failures, row, j) { TripsLater(p, failures, row, j - 1); }
  }

  /** A closed circuit is open after a row of reports about it, at any times, exactly when one of
      them is a real failure that brings the count up to the threshold. Empty results raise the
      count but never open the circuit; successes lower it. */
  lemma {:induction false} OpensIff(p: Policy, r: Registry, row: seq<Event>, id: string)
    requires StateOf(r, id).Closed? && forall e <- row :: Reports(e, id)
    ensures StateOf(Run(p, r, row), id).Open? <==> exists j: nat :: TripsAt(p, CircuitOf(r, id).failures, row, j)
    ensures !StateOf(Run(p, r, row), id).Open? ==>
              StateOf(Run(p, r, row), id).Closed? && CircuitOf(Run(p, r, row), id).failures == Level(CircuitOf(r, id).failures, row)
    decreases |row|
  {
    if row != [] {
      var failures, s := CircuitOf(r, id).failures, Step(p, r, row[0]);
      assert row[0] in row;
      assert row[..0] == [];
      assert TripsAt(p, failures, row, 0) <==> StateOf(s, id).Open?;
      if StateOf(s, id).Open? {
        OpenTakesReports(p, s, row[1..], id);
      } else {
        assert CircuitOf(s, id).failures == Next(failures, row[0]);
        OpensIff(p, s, row[1..], id);
        LaterTrips(p, failures, row);
      }
    }
  }

  lemma {:induction false} OpenTakesReports(p: Policy, r: Registry, row: seq<Event>, id: string)
    requires StateOf(r, id).Open? && forall e <- row :: Reports(e, id)
    ensures StateOf(Run(p, r, row), id).Open?
    decreases |row|
  {
    if row != [] {
      assert row[0] in row;
      assert StateOf(Step(p, r, row[0]), id).Open?;
      OpenTakesReports(p, Step(p, r, row[0]), row[1..], id);
    }
  }
}
