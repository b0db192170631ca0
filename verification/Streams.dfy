/**
 The caps on concurrent streams: reserve a counter, check it, and roll back when it is over.

 A caller gives way between reserving a counter, looking at it, and acting on what it saw, so
 the steps of many callers interleave freely. Counters live in memory and carry an expiry time.
 */
module Streams {
  import opened Prelude

  datatype Key = Global | User(id: string) | Ip(ip: string)

  datatype Identity = Identity(ip: string, userId: Option<string>) {
    /** An empty user id counts as no user. */
    predicate HasUser() {
      userId.Some? && userId.value != ""
    }
  }

  /** A cap of zero switches its scope off. `ttl` is the life of a counter in milliseconds. */
  datatype Config = Config(maxPerIp: nat, maxPerUser: nat, maxGlobal: nat, ttl: int)

  datatype Counter = Counter(count: int, expiresAt: int)

  type Memory = map<Key, Counter>

  function Cap(cfg: Config, k: Key): nat {
    match k
    case Global => cfg.maxGlobal
    case User(_) => cfg.maxPerUser
    case Ip(_) => cfg.maxPerIp
  }

  /** The counters a caller reserves, in order. */
  function Plan(cfg: Config, who: Identity): seq<Key> {
    (if cfg.maxGlobal > 0 then [Global] else [])
    + (if who.HasUser() && cfg.maxPerUser > 0 then [User(who.userId.value)] else [])
    + (if cfg.maxPerIp > 0 then [Ip(who.ip)] else [])
  }

  /** The counters a release gives back, whether or not their scope is on. */
  function ReleaseKeys(who: Identity): seq<Key> {
    [Ip(who.ip), Global] + if who.HasUser() then [User(who.userId.value)] else []
  }

  // ---------------------------------------------------------------- counters

  function Reserve(m: Memory, k: Key, now: int, ttl: int): Memory {
    if k !in m || m[k].expiresAt < now then m[k := Counter(1, now + ttl)]
    else m[k := Counter(m[k].count + 1, m[k].expiresAt)]
  }

  predicate OverLimit(m: Memory, k: Key, limit: nat, now: int) {
    k in m && m[k].expiresAt >= now && m[k].count > limit
  }

  function Decrement(m: Memory, k: Key): Memory {
    if k !in m then m
    else if m[k].count - 1 <= 0 then m - {k}
    else m[k := Counter(m[k].count - 1, m[k].expiresAt)]
  }

  function DecrementAll(m: Memory, ks: seq<Key>): Memory {
    if ks == [] then m else DecrementAll(Decrement(m, ks[0]), ks[1..])
  }

  function Purge(m: Memory, now: int): Memory {
    map k | k in m && m[k].expiresAt >= now :: m[k]
  }

  // ---------------------------------------------------------------- callers

  /** Where a caller is: about to reserve plan entry `i` (or to be admitted after the last one),
      about to look at the counter it just reserved, about to roll back, or done. */
  datatype Phase =
    | Reserving(i: nat)
    | Checking(i: nat)
    | RollingBack(i: nat)
    | Admitted
    | Rejected(at: Key)
    | Released

  datatype Caller = Caller(who: Identity, phase: Phase, acquired: seq<Key>)

  datatype Tracker = Tracker(
    cfg: Config,
    memory: Memory,
    activeIp: int,
    activeUser: int,
    activeGlobal: int,
    callers: seq<Caller>)

  function Fresh(cfg: Config): Tracker {
    Tracker(cfg, map[], 0, 0, 0, [])
  }

  function Arrive(t: Tracker, who: Identity): Tracker {
    t.(callers := t.callers + [Caller(who, Reserving(0), [])])
  }

  function Move(t: Tracker, c: nat, phase: Phase): Tracker
    requires c < |t.callers|
  {
    t.(callers := t.callers[c := t.callers[c].(phase := phase)])
  }

  /** The next uninterrupted stretch of caller `c`. */
  function Advance(t: Tracker, c: nat, now: int): Tracker {
    if c >= |t.callers| then t
    else
      var caller := t.callers[c];
      var plan := Plan(t.cfg, caller.who);
      match caller.phase
      case Reserving(i) =>
        if i < |plan| then
          t.(memory := Reserve(t.memory, plan[i], now, t.cfg.ttl),
             callers := t.callers[c := Caller(caller.who, Checking(i), caller.acquired + [plan[i]])])
        else
          Move(t, c, Admitted).(
            activeGlobal := t.activeGlobal + 1,
            activeIp := t.activeIp + 1,
            activeUser := t.activeUser + if caller.who.HasUser() then 1 else 0)
      case Checking(i) =>
        if i < |plan| && OverLimit(t.memory, plan[i], Cap(t.cfg, plan[i]), now) then Move(t, c, RollingBack(i))
        else Move(t, c, Reserving(i + 1))
      case RollingBack(i) =>
        if i < |plan| then
          Move(t, c, Rejected(plan[i])).(memory := DecrementAll(t.memory, caller.acquired))
        else t
      case _ => t
  }

  /** The release function of caller `c`; only the first call of an admitted one does anything. */
  function Release(t: Tracker, c: nat): Tracker {
    if c < |t.callers| && t.callers[c].phase.Admitted? then
      var who := t.callers[c].who;
      Move(t, c, Released).(
        activeGlobal := Max(0, t.activeGlobal - 1),
        activeIp := Max(0, t.activeIp - 1),
        activeUser := if who.HasUser() then Max(0, t.activeUser - 1) else t.activeUser,
        memory := DecrementAll(t.memory, ReleaseKeys(who)))
    else t
  }

  // ---------------------------------------------------------------- runs

  datatype Op =
    | DoArrive(who: Identity, at: int)
    | DoAdvance(c: nat, at: int)
    | DoRelease(c: nat, at: int)
    | DoPurge(at: int)

  function Step(t: Tracker, op: Op): Tracker {
    match op
    case DoArrive(who, _) => Arrive(t, who)
    case DoAdvance(c, now) => Advance(t, c, now)
    case DoRelease(c, _) => Release(t, c)
    case DoPurge(now) => t.(memory := Purge(t.memory, now))
  }

  function Run(t: Tracker, ops: seq<Op>): Tracker
    decreases |ops|
  {
    if ops == [] then t else Run(Step(t, ops[0]), ops[1..])
  }
}
