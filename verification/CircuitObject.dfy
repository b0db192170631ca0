/** The registry as an object whose maps are updated in place. */
module CircuitObject {
  import opened Prelude
  import opened Circuit

  /** The stored circuit opens again and its trial is over. */
  function BackToOpen(r: Registry, id: string, now: int): Registry
    requires id in r.circuits
  {
    r.(circuits := r.circuits[id := r.circuits[id].(state := Open, openedAt := now)], trials := r.trials - {id})
  }

  /** Counting the failure first and reopening afterwards is one trip. */
  lemma SameTrip(r: Registry, id: string, now: int)
    requires CircuitOf(r, id).state.HalfOpen?
    ensures var c := CircuitOf(r, id);
            BackToOpen(r.(circuits := r.circuits[id := c.(failures := c.failures + 1, successes := 0)]), id, now)
            == Tripped(r, id, now)
  {
  }

  class ReliabilityRegistry {
    const policy: Policy
    var circuits: map<string, Record>
    var halfOpenInFlight: set<string>
    var quarantines: map<string, Quarantine>
    var circuitOpens: map<string, seq<int>>

    function View(): Registry
      reads this
    {
      Registry(circuits, halfOpenInFlight, quarantines, circuitOpens)
    }

    constructor (policy: Policy)
      ensures View() == Empty() && this.policy == policy
    {
      this.policy := policy;
      circuits, halfOpenInFlight, quarantines, circuitOpens := map[], {}, map[], map[];
    }

    method GetState(id: string, now: int) returns (state: State)
      modifies this
      ensures View() == Look(policy, old(View()), id, now)
      ensures state == Circuit.GetState(policy, old(View()), id, now)
      ensures state.HalfOpen? <==>
                id in old(circuits) && (old(circuits)[id].state.HalfOpen?
                                        || (old(circuits)[id].state.Open? && now - old(circuits)[id].openedAt > policy.openTtl))
      ensures state.Open? ==> now - circuits[id].openedAt <= policy.openTtl
      ensures old(View()) == View() <==> !(id in old(circuits) && old(circuits)[id].state.Open? && state.HalfOpen?)
      ensures Look(policy, View(), id, now) == View()
    {
      if id !in circuits { return Closed; }
      if circuits[id].state == Open {
        var elapsed := now - circuits[id].openedAt;
        if elapsed > policy.openTtl {
          circuits := circuits[id := circuits[id].(state := HalfOpen)];
          return HalfOpen;
        }
      }
      return circuits[id].state;
    }

    method IsProbeAllowed(id: string, now: int) returns (allowed: bool)
      modifies this
      ensures View() == Probe(policy, old(View()), id, now)
      ensures allowed == Allowed(policy, old(View()), id, now)
    {
      var state := GetState(id, now);
      if state == Closed { return true; }
      if state == Open { return false; }
      if id in halfOpenInFlight {
        assert halfOpenInFlight + {id} == halfOpenInFlight;
        return false;
      }
      halfOpenInFlight := halfOpenInFlight + {id};
      return true;
    }

    method ReleaseHalfOpen(id: string)
      modifies this`halfOpenInFlight
      ensures halfOpenInFlight == old(halfOpenInFlight) - {id}
    {
      halfOpenInFlight := halfOpenInFlight - {id};
    }

    method RecordSuccess(id: string)
      modifies this
      ensures View() == Circuit.RecordSuccess(policy, old(View()), id)
    {
      var c := CircuitOf(View(), id);
      c := c.(successes := c.successes + 1);
      if c.state == HalfOpen && c.successes >= policy.successThreshold {
        c := Record(Closed, 0, 0, c.openedAt);
        ReleaseHalfOpen(id);
      } else if c.state == Closed {
        c := c.(failures := Max(0, c.failures - 1));
      }
      circuits := circuits[id := c];
    }

    method RecordFailure(id: string, noResult: bool, now: int)
      modifies this
      ensures View() == Circuit.RecordFailure(policy, old(View()), id, noResult, now)
    {
      ghost var before := View();
      var c := CircuitOf(View(), id);
      c := c.(failures := c.failures + 1, successes := 0);
      circuits := circuits[id := c];
      var wasHalfOpen := c.state == HalfOpen;
      if noResult {
        if wasHalfOpen {
          SameTrip(before, id, now);
          Reopen(id, now);
        }
        return;
      }
      if c.failures >= policy.failureThreshold && c.state == Closed {
        circuits := circuits[id := c.(state := Open, openedAt := now)];
        assert View() == Tripped(before, id, now);
        NoteCircuitOpened(id, now);
      } else if wasHalfOpen {
        SameTrip(before, id, now);
        Reopen(id, now);
      }
    }

    /** A failed trial: back to open. */
    method Reopen(id: string, now: int)
      requires id in circuits
      modifies this
      ensures View() == NoteOpened(policy, BackToOpen(old(View()), id, now), id, now)
    {
      circuits := circuits[id := circuits[id].(state := Open, openedAt := now)];
      ReleaseHalfOpen(id);
      NoteCircuitOpened(id, now);
    }

    /** The filter over the remembered openings. */
    method StillRecent(opens: seq<int>, now: int) returns (recent: seq<int>)
      ensures recent == Recent(opens, now, policy.window)
    {
      recent := [];
      var i := 0;
      while i < |opens|
        invariant 0 <= i <= |opens|
        invariant recent + Recent(opens[i..], now, policy.window) == Recent(opens, now, policy.window)
      {
        assert opens[i..][1..] == opens[i + 1..];
        if now - opens[i] < policy.window {
          recent := recent + [opens[i]];
        }
        i := i + 1;
      }
    }

    method NoteCircuitOpened(id: string, now: int)
      modifies this
      ensures View() == NoteOpened(policy, old(View()), id, now)
    {
      if !policy.quarantineEnabled { return; }
      var opens := StillRecent(OpensOf(View(), id), now);
      opens := opens + [now];
      circuitOpens := circuitOpens[id := opens];
      if |opens| >= policy.openThreshold {
        var already := IsQuarantined(id, now);
        if !already { PutInQuarantine(id, None, now); }
      }
    }

    method PutInQuarantine(id: string, ttlMs: Option<int>, now: int)
      modifies this
      ensures View() == PutAway(policy, old(View()), id, ttlMs, now)
    {
      var ttl := if ttlMs.Some? then ttlMs.value else policy.quarantineTtl;
      quarantines := quarantines[id := Quarantine(now, |OpensOf(View(), id)|, if ttl > 0 then Some(now + ttl) else None)];
    }

    method ReleaseQuarantine(id: string) returns (was: bool)
      modifies this
      ensures View() == Circuit.ReleaseQuarantine(old(View()), id)
      ensures was == (id in old(quarantines))
    {
      circuitOpens := circuitOpens - {id};
      was := id in quarantines;
      quarantines := quarantines - {id};
    }

    method IsQuarantined(id: string, now: int) returns (yes: bool)
      modifies this
      ensures View() == Expire(old(View()), id, now)
      ensures yes == Circuit.IsQuarantined(old(View()), id, now)
      ensures yes <==> id in old(quarantines) && (old(quarantines)[id].until.None? || now <= old(quarantines)[id].until.value)
      ensures yes <==> id in quarantines
      ensures !yes && id in old(quarantines) ==> id !in circuitOpens
      ensures quarantines - {id} == old(quarantines) - {id} && circuitOpens - {id} == old(circuitOpens) - {id}
    {
      if id !in quarantines { return false; }
      var rec := quarantines[id];
      if rec.until.Some? && now > rec.until.value {
        quarantines := quarantines - {id};
        circuitOpens := circuitOpens - {id};
        return false;
      }
      return true;
    }

    /** Looks at every quarantine in turn, so that the lapsed ones go. */
    method ListQuarantined(now: int) returns (listed: map<string, Quarantine>)
      modifies this
      ensures View() == ExpireAll(old(View()), now)
      ensures listed == quarantines
      ensures forall id :: id in listed <==> Circuit.IsQuarantined(old(View()), id, now)
    {
      ghost var before := View();
      ghost var gone: set<string> := {};
      var ids := quarantines.Keys;
      while ids != {}
        invariant ids <= before.quarantines.Keys
        invariant forall id <- gone :: id in before.quarantines && Lapsed(before, id, now) && id !in ids
        invariant forall id <- before.quarantines :: Lapsed(before, id, now) && id !in ids ==> id in gone
        invariant quarantines == before.quarantines - gone
        invariant circuitOpens == before.opens - gone
        invariant circuits == before.circuits && halfOpenInFlight == before.trials
        decreases |ids|
      {
        var id :| id in ids;
        ids := ids - {id};
        var yes := IsQuarantined(id, now);
        if Lapsed(before, id, now) {
          TakeOut(before.quarantines, gone, id);
          TakeOut(before.opens, gone, id);
          gone := gone + {id};
        }
      }
      assert gone == set id | id in before.quarantines && Lapsed(before, id, now);
      listed := quarantines;
    }
  }

  lemma TakeOut<K, V>(m: map<K, V>, gone: set<K>, k: K)
    ensures (m - gone) - {k} == m - (gone + {k})
  {
  }
}
