/**
 The circuit breaker and the provider quarantine of the reliability registry, one operation at a
 time with the clock passed in. A circuit opens after repeated failures, becomes half-open when
 somebody looks after its time is up, and then lets one trial through. A provider whose circuit
 opens often is quarantined.
 */
module Circuit {
  import opened Prelude

  datatype State = Closed | Open | HalfOpen

  datatype Record = Record(state: State, failures: nat, successes: nat, openedAt: int)

  datatype Quarantine = Quarantine(since: int, opensInWindow: nat, until: Option<int>)

  datatype Policy = Policy(failureThreshold: int, openTtl: int, successThreshold: int,
                           quarantineEnabled: bool, openThreshold: int, window: int, quarantineTtl: int)

  /** `trials` are the providers with a half-open trial in flight; `opens` are the remembered
      times at which a circuit opened. */
  datatype Registry = Registry(circuits: map<string, Record>, trials: set<string>,
                               quarantines: map<string, Quarantine>, opens: map<string, seq<int>>)

  function Empty(): Registry {
    Registry(map[], {}, map[], map[])
  }

  function CircuitOf(r: Registry, id: string): Record {
    if id in r.circuits then r.circuits[id] else Record(Closed, 0, 0, 0)
  }

  function OpensOf(r: Registry, id: string): seq<int> {
    if id in r.opens then r.opens[id] else []
  }

  // ---------------------------------------------------------------- circuit

  /** Whether an open circuit's time is up. */
  predicate Due(p: Policy, c: Record, now: int) {
    c.state.Open? && now - c.openedAt > p.openTtl
  }

  /** Looking at a circuit whose time is up makes it half-open. */
  function Look(p: Policy, r: Registry, id: string, now: int): Registry {
    if id in r.circuits && Due(p, r.circuits[id], now) then
      r.(circuits := r.circuits[id := r.circuits[id].(state := HalfOpen)])
    else r
  }

  function GetState(p: Policy, r: Registry, id: string, now: int): State {
    CircuitOf(Look(p, r, id, now), id).state
  }

  /** Whether a request may go through. */
  predicate Allowed(p: Policy, r: Registry, id: string, now: int) {
    match GetState(p, r, id, now)
    case Closed => true
    case Open => false
    case HalfOpen => id !in r.trials
  }

  /** Ask whether a request may go through; a half-open circuit gives out its trial. */
  function Probe(p: Policy, r: Registry, id: string, now: int): Registry {
    var looked := Look(p, r, id, now);
    if CircuitOf(looked, id).state.HalfOpen? then looked.(trials := looked.trials + {id}) else looked
  }

  function RecordSuccess(p: Policy, r: Registry, id: string): Registry {
    var c := CircuitOf(r, id);
    match c.state
    case HalfOpen =>
      if c.successes + 1 >= p.successThreshold then
        r.(circuits := r.circuits[id := Record(Closed, 0, 0, c.openedAt)], trials := r.trials - {id})
      else
        r.(circuits := r.circuits[id := c.(successes := c.successes + 1)])
    case Closed =>
      r.(circuits := r.circuits[id := c.(failures := Max(0, c.failures - 1), successes := c.successes + 1)])
    case Open =>
      r.(circuits := r.circuits[id := c.(successes := c.successes + 1)])
  }

  /** Whether a failure opens the circuit. A result that is merely empty reopens a half-open
      circuit and never opens a closed one. */
  predicate FailureOpens(p: Policy, c: Record, noResult: bool) {
    c.state.HalfOpen? || (c.state.Closed? && !noResult && c.failures + 1 >= p.failureThreshold)
  }

  /** The circuit opens now; a trial is over. */
  function Tripped(r: Registry, id: string, now: int): Registry {
    var c := CircuitOf(r, id);
    r.(circuits := r.circuits[id := Record(Open, c.failures + 1, 0, now)],
       trials := if c.state.HalfOpen? then r.trials - {id} else r.trials)
  }

  function RecordFailure(p: Policy, r: Registry, id: string, noResult: bool, now: int): Registry {
    var c := CircuitOf(r, id);
    if FailureOpens(p, c, noResult) then NoteOpened(p, Tripped(r, id, now), id, now)
    else r.(circuits := r.circuits[id := c.(failures := c.failures + 1, successes := 0)])
  }

  // ---------------------------------------------------------------- quarantine

  /** The times of `opens` that are less than `window` before `now`. */
  function Recent(opens: seq<int>, now: int, window: int): seq<int> {
    if opens == [] then []
    else (if now - opens[0] < window then [opens[0]] else []) + Recent(opens[1..], now, window)
  }

  /** Remember that the circuit opened, and quarantine a provider that opens too often. */
  function NoteOpened(p: Policy, r: Registry, id: string, now: int): Registry {
    if !p.quarantineEnabled then r
    else
      var opens := Recent(OpensOf(r, id), now, p.window) + [now];
      var noted := r.(opens := r.opens[id := opens]);
      if |opens| >= p.openThreshold then
        var checked := Expire(noted, id, now);
        if id in checked.quarantines then checked else PutAway(p, checked, id, None, now)
      else noted
  }

  /** Put a provider in quarantine; a lifetime that is not positive never ends. */
  function PutAway(p: Policy, r: Registry, id: string, ttl: Option<int>, now: int): Registry {
    var life := ttl.GetOr(p.quarantineTtl);
    r.(quarantines := r.quarantines[id := Quarantine(now, |OpensOf(r, id)|, if life > 0 then Some(now + life) else None)])
  }

  predicate Lapsed(r: Registry, id: string, now: int) {
    id in r.quarantines && r.quarantines[id].until.Some? && now > r.quarantines[id].until.value
  }

  function ReleaseQuarantine(r: Registry, id: string): Registry {
    r.(opens := r.opens - {id}, quarantines := r.quarantines - {id})
  }

  /** Looking at a quarantine whose time is up removes it, with the remembered openings. */
  function Expire(r: Registry, id: string, now: int): Registry {
    if Lapsed(r, id, now) then ReleaseQuarantine(r, id) else r
  }

  predicate IsQuarantined(r: Registry, id: string, now: int) {
    id in Expire(r, id, now).quarantines
  }

  /** What listing leaves: everything that has lapsed is gone. */
  function ExpireAll(r: Registry, now: int): Registry {
    var lapsed := set id | id in r.quarantines && Lapsed(r, id, now);
    r.(opens := r.opens - lapsed, quarantines := r.quarantines - lapsed)
  }

  // ---------------------------------------------------------------- runs

  datatype Op =
    | DoLook(id: string)
    | DoProbe(id: string)
    | DoSuccess(id: string)
    | DoFailure(id: string, noResult: bool)
    | DoQuarantine(id: string, ttl: Option<int>)
    | DoRelease(id: string)
    | DoCheck(id: string)
    | DoList

  datatype Event = At(now: int, op: Op)

  function Step(p: Policy, r: Registry, e: Event): Registry {
    match e.op
    case DoLook(id) => Look(p, r, id, e.now)
    case DoProbe(id) => Probe(p, r, id, e.now)
    case DoSuccess(id) => RecordSuccess(p, r, id)
    case DoFailure(id, noResult) => RecordFailure(p, r, id, noResult, e.now)
    case DoQuarantine(id, ttl) => PutAway(p, r, id, ttl, e.now)
    case DoRelease(id) => ReleaseQuarantine(r, id)
    case DoCheck(id) => Expire(r, id, e.now)
    case DoList => ExpireAll(r, e.now)
  }

  function Run(p: Policy, r: Registry, events: seq<Event>): Registry
    decreases |events|
  {
    if events == [] then r else Run(p, Step(p, r, events[0]), events[1..])
  }

  /** The clock does not go backwards, and starts no earlier than `last`. */
  predicate Clocked(last: int, events: seq<Event>)
    decreases |events|
  {
    events == [] || (last <= events[0].now && Clocked(events[0].now, events[1..]))
  }
}
