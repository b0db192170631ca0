/**
 Lease locks kept in memory: a lease has a token and an end, a lock is free once its lease has
 ended, and only the holder of the token can release or extend it. A handle is named by its
 position in `handles`.
 */
module Locks {
  import opened Prelude

  datatype Lease = Lease(token: string, expiresAt: int)

  /** `released` records that a release of this handle has succeeded. */
  datatype Handle = Handle(resource: string, token: string, expiresAt: int, released: bool)

  datatype Table = Table(leases: map<string, Lease>, handles: seq<Handle>)

  function Empty(): Table {
    Table(map[], [])
  }

  predicate Taken(t: Table, resource: string, now: int) {
    resource in t.leases && t.leases[resource].expiresAt > now
  }

  function Acquire(t: Table, resource: string, ttl: int, token: string, now: int): Table {
    if Taken(t, resource, now) then t
    else Table(t.leases[resource := Lease(token, now + ttl)], t.handles + [Handle(resource, token, now + ttl, false)])
  }

  /** The lease of the handle's resource carries the handle's token. */
  predicate Holds(t: Table, h: nat) {
    && h < |t.handles| && t.handles[h].resource in t.leases
    && t.leases[t.handles[h].resource].token == t.handles[h].token
  }

  function Release(t: Table, h: nat): Table {
    if !Holds(t, h) then t
    else Table(t.leases - {t.handles[h].resource}, t.handles[h := t.handles[h].(released := true)])
  }

  function Extend(t: Table, h: nat, ttl: int, now: int): Table {
    if !Holds(t, h) then t
    else
      var handle := t.handles[h];
      Table(t.leases[handle.resource := Lease(handle.token, now + ttl)], t.handles[h := handle.(expiresAt := now + ttl)])
  }

  // ---------------------------------------------------------------- runs

  datatype Op =
    | DoAcquire(resource: string, ttl: int, token: string)
    | DoRelease(h: nat)
    | DoExtend(h: nat, ttl: int)

  datatype Event = At(now: int, op: Op)

  function Step(t: Table, e: Event): Table {
    match e.op
    case DoAcquire(resource, ttl, token) => Acquire(t, resource, ttl, token, e.now)
    case DoRelease(h) => Release(t, h)
    case DoExtend(h, ttl) => Extend(t, h, ttl, e.now)
  }

  function Run(t: Table, events: seq<Event>): Table
    decreases |events|
  {
    if events == [] then t else Run(Step(t, events[0]), events[1..])
  }

  /** The clock does not go backwards, and every acquire brings a token that no handle has. */
  predicate Proper(t: Table, last: int, events: seq<Event>)
    decreases |events|
  {
    events == []
    || (last <= events[0].now
        && (events[0].op.DoAcquire? ==> forall h <- t.handles :: h.token != events[0].op.token)
        && Proper(Step(t, events[0]), events[0].now, events[1..]))
  }

  /** The time of the last event. */
  function End(last: int, events: seq<Event>): int {
    if events == [] then last else events[|events| - 1].now
  }

  // ---------------------------------------------------------------- the invariant

  ghost predicate DistinctTokens(t: Table) {
    forall i, j :: 0 <= i < j < |t.handles| ==> t.handles[i].token != t.handles[j].token
  }

  /** A handle that was not released holds its lease until the same time, or has ended. */
  ghost predicate Accounted(t: Table, last: int) {
    forall h: nat :: h < |t.handles| && !t.handles[h].released ==>
      t.handles[h].expiresAt <= last
      || (Holds(t, h) && t.leases[t.handles[h].resource].expiresAt == t.handles[h].expiresAt)
  }

  /** Every lease belongs to a handle that was not released. */
  ghost predicate Owned(t: Table) {
    forall r <- t.leases :: exists h: nat :: h < |t.handles| && OwnerOf(t, h, r)
  }

  ghost predicate OwnerOf(t: Table, h: nat, r: string)
    requires h < |t.handles| && r in t.leases
  {
    && t.handles[h].resource == r && !t.handles[h].released
    && t.leases[r] == Lease(t.handles[h].token, t.handles[h].expiresAt)
  }

  ghost predicate Inv(t: Table, last: int) {
    DistinctTokens(t) && Accounted(t, last) && Owned(t)
  }

  lemma AcquireKeeps(t: Table, resource: string, ttl: int, token: string, last: int, now: int)
    requires Inv(t, last) && last <= now
    requires forall h <- t.handles :: h.token != token
    ensures Inv(Acquire(t, resource, ttl, token, now), now)
  {
    var u := Acquire(t, resource, ttl, token, now);
    if !Taken(t, resource, now) {
      var n := |t.handles|;
      assert OwnerOf(u, n, resource);
      forall r | r in u.leases ensures exists h: nat :: h < |u.handles| && OwnerOf(u, h, r) {
        if r != resource {
          var h: nat :| h < |t.handles| && OwnerOf(t, h, r);
          assert OwnerOf(u, h, r);
        }
      }
      forall h: nat | h < |u.handles| && !u.handles[h].released
        ensures u.handles[h].expiresAt <= now
                || (Holds(u, h) && u.leases[u.handles[h].resource].expiresAt == u.handles[h].expiresAt)
      {
        if h < n { assert u.handles[h] == t.handles[h]; }
      }
    }
  }

  /** Two handles that hold leases hold different ones. */
  lemma HoldersDiffer(t: Table, g: nat, h: nat)
    requires DistinctTokens(t) && Holds(t, g) && Holds(t, h) && t.handles[g].resource == t.handles[h].resource
    ensures g == h
  {
  }

  lemma ReleaseKeeps(t: Table, h: nat, last: int, now: int)
    requires Inv(t, last) && last <= now
    ensures Inv(Release(t, h), now)
  {
    var u := Release(t, h);
    if Holds(t, h) {
      forall r | r in u.leases ensures exists g: nat :: g < |u.handles| && OwnerOf(u, g, r) {
        var g: nat :| g < |t.handles| && OwnerOf(t, g, r);
        assert g != h;
        assert OwnerOf(u, g, r);
      }
      forall g: nat | g < |u.handles| && !u.handles[g].released
        ensures u.handles[g].expiresAt <= now
                || (Holds(u, g) && u.leases[u.handles[g].resource].expiresAt == u.handles[g].expiresAt)
      {
        assert g != h && u.handles[g] == t.handles[g];
        if t.handles[g].expiresAt > now {
          assert Holds(t, g);
          if t.handles[g].resource == t.handles[h].resource { HoldersDiffer(t, g, h); }
        }
      }
    }
  }

  /** Only an unreleased handle holds a lease. */
  lemma HolderIsOwner(t: Table, h: nat)
    requires DistinctTokens(t) && Owned(t) && Holds(t, h)
    ensures OwnerOf(t, h, t.handles[h].resource)
  {
    var r := t.handles[h].resource;
    var g: nat :| g < |t.handles| && OwnerOf(t, g, r);
    HoldersDiffer(t, g, h);
  }

  lemma ExtendKeeps(t: Table, h: nat, ttl: int, last: int, now: int)
    requires Inv(t, last) && last <= now
    ensures Inv(Extend(t, h, ttl, now), now)
  {
    var u := Extend(t, h, ttl, now);
    if Holds(t, h) {
      HolderIsOwner(t, h);
      assert OwnerOf(u, h, t.handles[h].resource);
      forall r | r in u.leases ensures exists g: nat :: g < |u.handles| && OwnerOf(u, g, r) {
        if r != t.handles[h].resource {
          var g: nat :| g < |t.handles| && OwnerOf(t, g, r);
          assert OwnerOf(u, g, r);
        }
      }
      forall g: nat | g < |u.handles| && !u.handles[g].released
        ensures u.handles[g].expiresAt <= now
                || (Holds(u, g) && u.leases[u.handles[g].resource].expiresAt == u.handles[g].expiresAt)
      {
        if g != h && t.handles[g].expiresAt > now {
          assert Holds(t, g);
          if t.handles[g].resource == t.handles[h].resource { HoldersDiffer(t, g, h); }
        }
      }
    }
  }

  lemma StepKeeps(t: Table, e: Event, last: int)
    requires Inv(t, last) && last <= e.now
    requires e.op.DoAcquire? ==> forall h <- t.handles :: h.token != e.op.token
    ensures Inv(Step(t, e), e.now)
  {
    match e.op
    case DoAcquire(resource, ttl, token) => AcquireKeeps(t, resource, ttl, token, last, e.now);
    case DoRelease(h) => ReleaseKeeps(t, h, last, e.now);
    case DoExtend(h, ttl) => ExtendKeeps(t, h, ttl, last, e.now);
  }

  lemma {:induction false} RunKeeps(t: Table, events: seq<Event>, last: int)
    requires Inv(t, last) && Proper(t, last, events)
    ensures Inv(Run(t, events), End(last, events))
    decreases |events|
  {
    if events != [] {
      StepKeeps(t, events[0], last);
      RunKeeps(Step(t, events[0]), events[1..], events[0].now);
    }
  }

  // ---------------------------------------------------------------- mutual exclusion

  /** The handle was not released and has not ended. */
  predicate Live(t: Table, h: nat, now: int) {
    h < |t.handles| && !t.handles[h].released && t.handles[h].expiresAt > now
  }

  /** At any moment of any run with distinct tokens, at most one handle of a resource is live. */
  lemma MutualExclusion(events: seq<Event>, last: int, now: int, g: nat, h: nat)
    requires Proper(Empty(), last, events) && End(last, events) <= now
    requires var t := Run(Empty(), events);
             Live(t, g, now) && Live(t, h, now) && t.handles[g].resource == t.handles[h].resource
    ensures g == h
  {
    RunKeeps(Empty(), events, last);
    var t := Run(Empty(), events);
    assert Holds(t, g) && Holds(t, h);
    HoldersDiffer(t, g, h);
  }

  /** An acquire succeeds exactly when no handle of the resource is live. */
  lemma AcquiresIff(events: seq<Event>, last: int, resource: string, now: int)
    requires Proper(Empty(), last, events) && End(last, events) <= now
    ensures var t := Run(Empty(), events);
            !Taken(t, resource, now) <==> forall h: nat :: h < |t.handles| && t.handles[h].resource == resource ==> !Live(t, h, now)
  {
    RunKeeps(Empty(), events, last);
    var t := Run(Empty(), events);
    if Taken(t, resource, now) {
      var h: nat :| h < |t.handles| && OwnerOf(t, h, resource);
      assert Live(t, h, now);
    }
    forall h: nat | h < |t.handles| && t.handles[h].resource == resource && Live(t, h, now) ensures Taken(t, resource, now) {
      assert Holds(t, h);
    }
  }

  /** A release or an extension succeeds exactly for the handle that owns the lease: it was not
      released, and its own end is the end of the lease. Whether that end has passed does not
      matter, so a lease that has ended but was not taken can still be extended. */
  lemma HoldsIff(events: seq<Event>, last: int, h: nat)
    requires Proper(Empty(), last, events) && h < |Run(Empty(), events).handles|
    ensures var t := Run(Empty(), events);
            Holds(t, h) <==> t.handles[h].resource in t.leases && OwnerOf(t, h, t.handles[h].resource)
  {
    RunKeeps(Empty(), events, last);
    var t := Run(Empty(), events);
    if Holds(t, h) { HolderIsOwner(t, h); }
  }

  /** A handle that does not hold the lease never affects any lease again, whatever is tried. */
  lemma {:induction false} StaleHandleIsHarmless(t: Table, last: int, events: seq<Event>, h: nat, ttl: int, now: int)
    requires h < |t.handles| && !Holds(t, h) && Proper(t, last, events)
    ensures var u := Run(t, events);
            && h < |u.handles| && !Holds(u, h)
            && Release(u, h) == u && Extend(u, h, ttl, now) == u
    decreases |events|
  {
    if events != [] {
      var e := events[0];
      assert t.handles[h] in t.handles;
      var next := Step(t, e);
      assert next.handles[h].token == t.handles[h].token && next.handles[h].resource == t.handles[h].resource;
      assert !Holds(next, h);
      StaleHandleIsHarmless(next, e.now, events[1..], h, ttl, now);
    }
  }

  /** Taking over a lock makes every earlier handle of it stale. */
  lemma TakeoverMakesStale(t: Table, last: int, resource: string, ttl: int, token: string, now: int, h: nat)
    requires Inv(t, last) && !Taken(t, resource, now)
    requires forall x <- t.handles :: x.token != token
    requires h < |t.handles| && t.handles[h].resource == resource
    ensures !Holds(Acquire(t, resource, ttl, token, now), h)
  {
    assert t.handles[h] in t.handles;
  }

  // ---------------------------------------------------------------- where exclusion ends

  /** A holder whose work outlasts its lease works beside the next one: the lock is free again
      when the lease ends, although the handle was not released. */
  lemma WorkMayOutlastLease(resource: string, a: string, b: string, ttl: nat, now: int)
    requires a != b
    ensures var events := [At(now, DoAcquire(resource, ttl, a)), At(now + ttl, DoAcquire(resource, ttl, b))];
            var t := Run(Empty(), events);
            && Proper(Empty(), now, events)
            && |t.handles| == 2 && !t.handles[0].released && !t.handles[1].released
            && t.handles[0].resource == t.handles[1].resource
            && Holds(t, 1) && Release(t, 0) == t
  {
    var first := At(now, DoAcquire(resource, ttl, a));
    var second := At(now + ttl, DoAcquire(resource, ttl, b));
    var t1 := Step(Empty(), first);
    assert [first, second][1..] == [second] && [second][1..] == [];
    assert t1 == Table(map[resource := Lease(a, now + ttl)], [Handle(resource, a, now + ttl, false)]);
    assert Run(t1, [second]) == Run(Step(t1, second), []);
    assert Proper(t1, now, [second]);
  }

  /** With a token used twice, a handle whose lease has ended releases somebody else's lease. */
  lemma ReusedTokenReleasesAnothersLease(resource: string, token: string, ttl: nat, now: int)
    ensures var t := Acquire(Acquire(Empty(), resource, ttl, token, now), resource, ttl, token, now + ttl);
            && |t.handles| == 2 && t.handles[0].expiresAt <= now + ttl
            && resource in t.leases && resource !in Release(t, 0).leases
            && !Release(t, 0).handles[1].released
  {
  }
}
