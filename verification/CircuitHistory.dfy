/** The pruned list of circuit openings against the full history, and what quarantine does. */
module CircuitHistory {
  import opened Prelude
  import opened Circuit

  /** What is left of a full history of openings when it is pruned at its last one. */
  function Kept(past: seq<int>, window: int): seq<int> {
    if past == [] then [] else Recent(past[..|past| - 1], past[|past| - 1], window) + [past[|past| - 1]]
  }

  function PastOf(past: map<string, seq<int>>, id: string): seq<int> {
    if id in past then past[id] else []
  }

  /** The openings of every provider since its last release or noticed expiry, never pruned. */
  function Remember(p: Policy, r: Registry, past: map<string, seq<int>>, e: Event): map<string, seq<int>> {
    match e.op
    case DoFailure(id, noResult) =>
      if !p.quarantineEnabled || !FailureOpens(p, CircuitOf(r, id), noResult) then past
      else
        var all := PastOf(past, id) + [e.now];
        if |Kept(all, p.window)| >= p.openThreshold && Lapsed(r, id, e.now) then past - {id} else past[id := all]
    case DoRelease(id) => past - {id}
    case DoCheck(id) => if Lapsed(r, id, e.now) then past - {id} else past
    case DoList => past - set id | id in r.quarantines && Lapsed(r, id, e.now)
    case _ => past
  }

  function History(p: Policy, r: Registry, past: map<string, seq<int>>, events: seq<Event>): map<string, seq<int>>
    decreases |events|
  {
    if events == [] then past
    else History(p, Step(p, r, events[0]), Remember(p, r, past, events[0]), events[1..])
  }

  lemma {:induction false} RecentAppend(a: seq<int>, b: seq<int>, now: int, window: int)
    ensures Recent(a + b, now, window) == Recent(a, now, window) + Recent(b, now, window)
  {
    if a == [] {
      assert a + b == b;
    } else {
      assert (a + b)[1..] == a[1..] + b;
      RecentAppend(a[1..], b, now, window);
    }
  }

  /** Pruning now and pruning again later is pruning later. */
  lemma {:induction false} RecentTwice(opens: seq<int>, then_: int, now: int, window: int)
    requires then_ <= now
    ensures Recent(Recent(opens, then_, window), now, window) == Recent(opens, now, window)
  {
    if opens != [] {
      RecentTwice(opens[1..], then_, now, window);
      var rest := Recent(opens[1..], then_, window);
      if then_ - opens[0] < window {
        assert Recent(opens, then_, window) == [opens[0]] + rest;
        assert ([opens[0]] + rest)[1..] == rest;
      } else {
        assert Recent(opens, then_, window) == [] + rest == rest;
        assert Recent(opens, now, window) == [] + Recent(opens[1..], now, window);
      }
    }
  }

  /** Appending to the pruned list and pruning it keeps step with the full history. */
  lemma KeptNext(past: seq<int>, now: int, window: int)
    requires past != [] ==> past[|past| - 1] <= now
    ensures Kept(past + [now], window) == Recent(Kept(past, window), now, window) + [now]
  {
    assert (past + [now])[..|past|] == past;
    if past != [] {
      var earlier, last := past[..|past| - 1], past[|past| - 1];
      assert past == earlier + [last];
      RecentAppend(earlier, [last], now, window);
      RecentAppend(Recent(earlier, last, window), [last], now, window);
      RecentTwice(earlier, last, now, window);
    }
  }

  /** The kept list of a provider is its full history, pruned at its last entry. */
  ghost predicate Mirrors(p: Policy, r: Registry, past: map<string, seq<int>>, id: string, last: int) {
    && (id in r.opens <==> id in past)
    && (id in past ==> past[id] != [] && past[id][|past[id]| - 1] <= last && r.opens[id] == Kept(past[id], p.window))
  }

  /** What noting an opening does to the remembered openings. */
  lemma NotedOpens(p: Policy, r: Registry, id: string, now: int)
    requires p.quarantineEnabled
    ensures var all := Recent(OpensOf(r, id), now, p.window) + [now];
            NoteOpened(p, r, id, now).opens
            == if |all| >= p.openThreshold && Lapsed(r, id, now) then r.opens - {id} else r.opens[id := all]
  {
    var all := Recent(OpensOf(r, id), now, p.window) + [now];
    assert r.opens[id := all] - {id} == r.opens - {id};
  }

  /** A failure of the provider itself, which opens its circuit. */
  lemma OpeningMirrors(p: Policy, r: Registry, past: map<string, seq<int>>, id: string, noResult: bool, last: int, now: int)
    requires Mirrors(p, r, past, id, last) && last <= now
    requires p.quarantineEnabled && FailureOpens(p, CircuitOf(r, id), noResult)
    ensures Mirrors(p, RecordFailure(p, r, id, noResult, now), Remember(p, r, past, At(now, DoFailure(id, noResult))), id, now)
  {
    NotedOpens(p, Tripped(r, id, now), id, now);
    KeptNext(PastOf(past, id), now, p.window);
  }

  /** A failure of another provider. */
  lemma OthersOpening(p: Policy, r: Registry, id: string, noResult: bool, now: int, other: string)
    requires other != id
    ensures var s := RecordFailure(p, r, id, noResult, now);
            (other in s.opens <==> other in r.opens) && (other in r.opens ==> s.opens[other] == r.opens[other])
  {
    if p.quarantineEnabled && FailureOpens(p, CircuitOf(r, id), noResult) {
      NotedOpens(p, Tripped(r, id, now), id, now);
    }
  }

  lemma StepMirrors(p: Policy, r: Registry, past: map<string, seq<int>>, e: Event, id: string, last: int)
    requires Mirrors(p, r, past, id, last) && last <= e.now
    ensures Mirrors(p, Step(p, r, e), Remember(p, r, past, e), id, e.now)
  {
    match e.op
    case DoFailure(x, noResult) =>
      if x != id {
        OthersOpening(p, r, x, noResult, e.now, id);
      } else if p.quarantineEnabled && FailureOpens(p, CircuitOf(r, id), noResult) {
        OpeningMirrors(p, r, past, id, noResult, last, e.now);
      }
    case _ =>
  }

  /** The time of the last event. */
  function End(last: int, events: seq<Event>): int {
    if events == [] then last else events[|events| - 1].now
  }

  lemma {:induction false} RunMirrors(p: Policy, r: Registry, past: map<string, seq<int>>, events: seq<Event>, id: string, last: int)
    returns (end: int)
    requires Mirrors(p, r, past, id, last) && Clocked(last, events)
    ensures Mirrors(p, Run(p, r, events), History(p, r, past, events), id, end)
    ensures end == End(last, events)
    decreases |events|
  {
    if events == [] {
      end := last;
    } else {
      StepMirrors(p, r, past, events[0], id, last);
      end := RunMirrors(p, Step(p, r, events[0]), Remember(p, r, past, events[0]), events[1..], id, events[0].now);
    }
  }

  /** The full history of a run that starts with an empty registry. */
  function Past(p: Policy, events: seq<Event>, id: string): seq<int> {
    PastOf(History(p, Empty(), map[], events), id)
  }

  /** The registry's list of openings is exactly the full history filtered to the window that
      ends at the last opening. */
  lemma PrunedListIsWindowOfHistory(p: Policy, events: seq<Event>, id: string, last: int)
    requires Clocked(last, events)
    ensures OpensOf(Run(p, Empty(), events), id) == Kept(Past(p, events, id), p.window)
  {
    var end := RunMirrors(p, Empty(), map[], events, id, last);
  }

  /** A failure that opens the circuit puts the provider in quarantine exactly when, by the full
      history, it opened at least as often within the window as the policy allows and no
      quarantine is active; otherwise it changes no quarantine. A lapsed quarantine that is
      noticed here takes the remembered openings, this one included, with it. */
  lemma AutoQuarantineIff(p: Policy, events: seq<Event>, id: string, noResult: bool, now: int, last: int)
    requires Clocked(last, events) && End(last, events) <= now
    requires p.quarantineEnabled && FailureOpens(p, CircuitOf(Run(p, Empty(), events), id), noResult)
    ensures var r := Run(p, Empty(), events);
            var s := Step(p, r, At(now, DoFailure(id, noResult)));
            var count := |Kept(Past(p, events, id) + [now], p.window)|;
            && (s.quarantines != r.quarantines <==> count >= p.openThreshold && !IsQuarantined(r, id, now))
            && (s.quarantines != r.quarantines ==>
                  s.quarantines == r.quarantines[id := Quarantine(now, if Lapsed(r, id, now) then 0 else count,
                                                                  if p.quarantineTtl > 0 then Some(now + p.quarantineTtl) else None)])
  {
    var end := RunMirrors(p, Empty(), map[], events, id, last);
    KeptNext(Past(p, events, id), now, p.window);
    OpeningQuarantines(p, Run(p, Empty(), events), id, noResult, now);
  }

  /** The same for one state, with the list the registry keeps. */
  lemma OpeningQuarantines(p: Policy, r: Registry, id: string, noResult: bool, now: int)
    requires p.quarantineEnabled && FailureOpens(p, CircuitOf(r, id), noResult)
    ensures var s := RecordFailure(p, r, id, noResult, now);
            var count := |Recent(OpensOf(r, id), now, p.window) + [now]|;
            && (s.quarantines != r.quarantines <==> count >= p.openThreshold && !IsQuarantined(r, id, now))
            && (s.quarantines != r.quarantines ==>
                  s.quarantines == r.quarantines[id := Quarantine(now, if Lapsed(r, id, now) then 0 else count,
                                                                  if p.quarantineTtl > 0 then Some(now + p.quarantineTtl) else None)])
  {
    var s := RecordFailure(p, r, id, noResult, now);
    var count := |Recent(OpensOf(r, id), now, p.window) + [now]|;
    if count >= p.openThreshold && !IsQuarantined(r, id, now) {
      assert id in s.quarantines && s.quarantines[id].since == now;
      if id in r.quarantines {
        assert Lapsed(r, id, now);
        assert s.quarantines[id].until != r.quarantines[id].until;
        assert (r.quarantines - {id})[id := s.quarantines[id]] == r.quarantines[id := s.quarantines[id]];
      }
    }
  }

  /** A run in which the quarantine record counts no opening: the lapse of the earlier quarantine
      is noticed while the new opening is being noted, and takes that opening with it. */
  lemma LapseForgetsTheOpening(id: string)
    ensures var p := Policy(1, 5, 1, true, 1, 1000, 10);
            var events := [At(0, DoFailure(id, false)), At(6, DoProbe(id)), At(20, DoFailure(id, false))];
            var r := Run(p, Empty(), events);
            && Clocked(0, events)
            && CircuitOf(r, id).state.Open? && CircuitOf(r, id).openedAt == 20
            && id in r.quarantines && r.quarantines[id] == Quarantine(20, 0, Some(30))
            && OpensOf(r, id) == []
  {
    var p := Policy(1, 5, 1, true, 1, 1000, 10);
    var first, probe, second := At(0, DoFailure(id, false)), At(6, DoProbe(id)), At(20, DoFailure(id, false));
    assert [first, probe, second][1..] == [probe, second] && [probe, second][1..] == [second] && [second][1..] == [];
    assert Clocked(6, [second]) && Clocked(0, [probe, second]);
    assert [] + [0] == [0] && [0][1..] == [];
    var t1 := Registry(map[id := Record(Open, 1, 0, 0)], {}, map[id := Quarantine(0, 1, Some(10))], map[id := [0]]);
    assert Step(p, Empty(), first) == t1;
    var t2 := Registry(map[id := Record(HalfOpen, 1, 0, 0)], {id}, t1.quarantines, t1.opens);
    assert Step(p, t1, probe) == t2;
    assert Recent([0], 20, 1000) == [0];
    var t3 := Step(p, t2, second);
    assert Run(p, t2, [second]) == Run(p, t3, []);
    assert Run(p, t1, [probe, second]) == Run(p, t2, [second]);
  }

  // ---------------------------------------------------------------- how long a quarantine lasts

  predicate Meddles(e: Event, id: string) {
    match e.op
    case DoRelease(x) => x == id
    case DoQuarantine(x, _) => x == id
    case _ => false
  }

  predicate Until(q: Quarantine, now: int) {
    q.until.None? || now <= q.until.value
  }

  /** A quarantine lasts exactly until its time, whatever else happens: further failures neither
      prolong nor shorten it. */
  lemma {:induction false} QuarantineLastsExactly(p: Policy, r: Registry, events: seq<Event>, id: string, now: int)
    requires id in r.quarantines
    requires forall e <- events :: Until(r.quarantines[id], e.now) && !Meddles(e, id)
    ensures IsQuarantined(Run(p, r, events), id, now) <==> Until(r.quarantines[id], now)
    decreases |events|
  {
    if events != [] {
      assert events[0] in events;
      assert forall e <- events[1..] :: e in events;
      QuarantineLastsExactly(p, Step(p, r, events[0]), events[1..], id, now);
    }
  }
}
