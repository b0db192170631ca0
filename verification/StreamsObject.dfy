/** The tracker as the object the service shares, in its in-memory mode. */
module StreamsObject {
  import opened Prelude
  import opened Streams
  import opened StreamsSafety

  function ReserveAll(m: Memory, ks: seq<Key>, now: int, ttl: int): Memory {
    if ks == [] then m else Reserve(ReserveAll(m, ks[..|ks| - 1], now, ttl), ks[|ks| - 1], now, ttl)
  }

  ghost predicate Counters(m: Memory, now: int) {
    forall k <- m :: m[k].count >= 1 && m[k].expiresAt >= now
  }

  /** The counter of `k` after one reservation. */
  function Bumped(m: Memory, k: Key, now: int, ttl: int): Counter {
    if k in m then Counter(m[k].count + 1, m[k].expiresAt) else Counter(1, now + ttl)
  }

  /** Reserving distinct counters adds one to each and leaves the others alone. */
  lemma {:induction false} ReserveAllIs(m: Memory, ks: seq<Key>, now: int, ttl: int)
    requires Counters(m, now) && NoRepeats(ks) && ttl >= 0
    ensures var m' := ReserveAll(m, ks, now, ttl);
            && (forall k :: k in m' <==> k in m || k in ks)
            && (forall k <- m' :: m'[k] == if k in ks then Bumped(m, k, now, ttl) else m[k])
  {
    if ks != [] {
      var front, last := ks[..|ks| - 1], ks[|ks| - 1];
      assert forall k :: k in ks <==> k in front || k == last;
      assert last !in front;
      ReserveAllIs(m, front, now, ttl);
    }
  }

  /** Rolling back what was reserved restores the counters exactly. */
  lemma RollbackRestores(m: Memory, ks: seq<Key>, now: int, ttl: int)
    requires Counters(m, now) && NoRepeats(ks) && ttl >= 0
    ensures DecrementAll(ReserveAll(m, ks, now, ttl), ks) == m
  {
    ReserveAllIs(m, ks, now, ttl);
    DecrementAllIs(ReserveAll(m, ks, now, ttl), ks);
  }

  /** The scopes of `plan` have been handled: all reserved and below their caps, or one refused. */
  ghost predicate Scanned(cfg: Config, before: Memory, plan: seq<Key>, acquired: seq<Key>, refused: Option<Key>) {
    match refused
    case None =>
      acquired == plan && forall k <- plan :: k in before ==> before[k].count < Cap(cfg, k)
    case Some(k) =>
      k in plan && k in before && before[k].count >= Cap(cfg, k)
  }

  class StreamConcurrencyTracker {
    const cfg: Config
    var memory: Memory
    var activeIp: int
    var activeUser: int
    var activeGlobal: int

    constructor (cfg: Config)
      ensures this.cfg == cfg && memory == map[] && activeIp == activeUser == activeGlobal == 0
    {
      this.cfg := cfg;
      memory := map[];
      activeIp, activeUser, activeGlobal := 0, 0, 0;
    }

    /** A live counter goes up by one and keeps its end, an expired or missing one starts at one.
        Giving the key back undoes the reservation, unless it had found an expired counter. */
    method ReserveKey(key: Key, now: int, acquiredKeys: seq<Key>) returns (acquired: seq<Key>)
      modifies this`memory
      ensures memory == Reserve(old(memory), key, now, cfg.ttl) && acquired == acquiredKeys + [key]
      ensures key in memory && memory - {key} == old(memory) - {key}
      ensures var live := key in old(memory) && old(memory)[key].expiresAt >= now;
              && memory[key].count == (if live then old(memory)[key].count else 0) + 1
              && (memory[key].expiresAt == if live then old(memory)[key].expiresAt else now + cfg.ttl)
      ensures (forall k <- old(memory) :: old(memory)[k].count >= 1) ==>
                (Decrement(memory, key) == old(memory) <==> !(key in old(memory) && old(memory)[key].expiresAt < now))
    {
      if key !in memory || memory[key].expiresAt < now {
        memory := memory[key := Counter(1, now + cfg.ttl)];
      } else {
        memory := memory[key := memory[key].(count := memory[key].count + 1)];
      }
      acquired := acquiredKeys + [key];
    }

    method IsOverLimit(key: Key, limit: nat, now: int) returns (over: bool)
      ensures over <==> OverLimit(memory, key, limit, now)
    {
      if key !in memory {
        return false;
      }
      if memory[key].expiresAt < now {
        return false;
      }
      over := memory[key].count > limit;
    }

    method DecrementKeys(keys: seq<Key>)
      modifies this`memory
      ensures memory == DecrementAll(old(memory), keys)
    {
      var i := 0;
      while i < |keys|
        invariant 0 <= i <= |keys|
        invariant DecrementAll(memory, keys[i..]) == DecrementAll(old(memory), keys)
      {
        assert keys[i..][1..] == keys[i + 1..];
        if keys[i] in memory {
          var rec := memory[keys[i]];
          if rec.count - 1 <= 0 {
            memory := memory - {keys[i]};
          } else {
            memory := memory[keys[i] := rec.(count := rec.count - 1)];
          }
        }
        i := i + 1;
      }
    }

    /** Reserve and check the planned counters, strictest scope first, up to the first one that
        refuses. The three blocks of the program are the turns of this loop. */
    method TryScopes(plan: seq<Key>, now: int) returns (acquired: seq<Key>, refused: Option<Key>)
      requires Counters(memory, now) && cfg.ttl >= 0 && NoRepeats(plan)
      requires forall k <- plan :: Cap(cfg, k) > 0
      modifies this`memory
      ensures memory == ReserveAll(old(memory), acquired, now, cfg.ttl) && NoRepeats(acquired)
      ensures Scanned(cfg, old(memory), plan, acquired, refused)
    {
      acquired, refused := [], None;
      var i := 0;
      while i < |plan| && refused.None?
        invariant 0 <= i <= |plan|
        invariant memory == ReserveAll(old(memory), acquired, now, cfg.ttl)
        invariant acquired == plan[..i]
        invariant Scanned(cfg, old(memory), plan[..i], acquired, refused)
      {
        ReserveAllIs(old(memory), acquired, now, cfg.ttl);
        acquired := ReserveKey(plan[i], now, acquired);
        assert acquired[..i] == plan[..i] && plan[..i + 1] == plan[..i] + [plan[i]];
        var over := IsOverLimit(plan[i], Cap(cfg, plan[i]), now);
        if over {
          refused := Some(plan[i]);
        }
        i := i + 1;
      }
      assert plan[..|plan|] == plan;
    }

    /** An acquisition that nobody interrupts, from unexpired counters: a refused one leaves the
        counters as they were, an admitted one has added one to exactly the planned counters. */
    method Acquire(who: Identity, now: int) returns (refused: Option<Key>)
      requires Counters(memory, now) && cfg.ttl >= 0
      modifies this
      ensures refused.Some? ==>
                && memory == old(memory) && activeGlobal == old(activeGlobal)
                && refused.value in Plan(cfg, who)
                && refused.value in old(memory) && old(memory)[refused.value].count >= Cap(cfg, refused.value)
      ensures refused.None? ==>
                && memory == ReserveAll(old(memory), Plan(cfg, who), now, cfg.ttl)
                && (forall k <- Plan(cfg, who) :: k in old(memory) ==> old(memory)[k].count < Cap(cfg, k))
                && activeGlobal == old(activeGlobal) + 1 && activeIp == old(activeIp) + 1
                && activeUser == old(activeUser) + if who.HasUser() then 1 else 0
    {
      PlanFacts(cfg, who);
      var acquired: seq<Key>;
      acquired, refused := TryScopes(Plan(cfg, who), now);
      if refused.Some? {
        RollbackRestores(old(memory), acquired, now, cfg.ttl);
        DecrementKeys(acquired);
      } else {
        activeGlobal := activeGlobal + 1;
        activeIp := activeIp + 1;
        if who.HasUser() {
          activeUser := activeUser + 1;
        }
      }
    }

    /** The body of a release function, run for the first time. */
    method ReleaseStream(who: Identity)
      modifies this
      ensures memory == DecrementAll(old(memory), ReleaseKeys(who))
      ensures activeGlobal == Max(0, old(activeGlobal) - 1) && activeIp == Max(0, old(activeIp) - 1)
      ensures activeUser == if who.HasUser() then Max(0, old(activeUser) - 1) else old(activeUser)
    {
      activeGlobal := Max(0, activeGlobal - 1);
      activeIp := Max(0, activeIp - 1);
      if who.HasUser() {
        activeUser := Max(0, activeUser - 1);
      }
      var keys := [Ip(who.ip), Global];
      if who.HasUser() {
        keys := keys + [User(who.userId.value)];
      }
      assert keys == ReleaseKeys(who);
      DecrementKeys(keys);
    }
  }
}
