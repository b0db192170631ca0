/** How long a lease lasts, and that nobody gets the lock in the meantime. */
module LocksLeases {
  import opened Prelude
  import opened Locks

  /** The lease of the resource is the one that handle `h` took or extended, and ends at `end`. */
  ghost predicate Leased(t: Table, h: nat, resource: string, end: int) {
    && h < |t.handles| && t.handles[h].resource == resource
    && resource in t.leases && t.leases[resource] == Lease(t.handles[h].token, end)
  }

  /** The event is no release or extension of handle `h`. */
  predicate LeavesHandle(e: Event, h: nat) {
    match e.op
    case DoRelease(g) => g != h
    case DoExtend(g, _) => g != h
    case _ => true
  }

  /** No acquire of the resource comes at `end` or later. */
  predicate NoneFrom(events: seq<Event>, resource: string, end: int) {
    forall e <- events :: e.op.DoAcquire? && e.op.resource == resource ==> e.now < end
  }

  lemma StepLeased(t: Table, e: Event, h: nat, resource: string, end: int)
    requires DistinctTokens(t) && Leased(t, h, resource, end) && LeavesHandle(e, h)
    requires e.op.DoAcquire? ==> forall x <- t.handles :: x.token != e.op.token
    requires e.op.DoAcquire? && e.op.resource == resource ==> e.now < end
    ensures DistinctTokens(Step(t, e)) && Leased(Step(t, e), h, resource, end)
  {
    assert t.handles[h] in t.handles;
  }

  lemma {:induction false} RunLeased(t: Table, last: int, events: seq<Event>, h: nat, resource: string, end: int)
    requires DistinctTokens(t) && Leased(t, h, resource, end) && Proper(t, last, events)
    requires NoneFrom(events, resource, end) && forall e <- events :: LeavesHandle(e, h)
    ensures Leased(Run(t, events), h, resource, end)
    decreases |events|
  {
    if events != [] {
      assert events[0] in events && forall e <- events[1..] :: e in events;
      StepLeased(t, events[0], h, resource, end);
      RunLeased(Step(t, events[0]), events[0].now, events[1..], h, resource, end);
    }
  }

  /** A successful acquire takes the lock for exactly its lifetime: as long as its handle is neither
      released nor extended, and nobody takes the lock over after its end, the lock is taken at
      `x` exactly when `x` is before `now + ttl`, and an acquire at `x` changes nothing then. */
  lemma AcquiredFor(before: seq<Event>, last: int, resource: string, ttl: int, token: string, now: int, after: seq<Event>, x: int)
    requires Proper(Empty(), last, before) && End(last, before) <= now && !Taken(Run(Empty(), before), resource, now)
    requires forall h <- Run(Empty(), before).handles :: h.token != token
    requires var t := Acquire(Run(Empty(), before), resource, ttl, token, now);
             Proper(t, now, after) && forall e <- after :: LeavesHandle(e, |Run(Empty(), before).handles|)
    requires NoneFrom(after, resource, now + ttl)
    ensures var n := |Run(Empty(), before).handles|;
            var t := Acquire(Run(Empty(), before), resource, ttl, token, now);
            var u := Run(t, after);
            && |t.handles| == n + 1 && t.handles[n] == Handle(resource, token, now + ttl, false)
            && (Taken(u, resource, x) <==> x < now + ttl)
            && (forall ttl2, token2 :: x < now + ttl ==> Acquire(u, resource, ttl2, token2, x) == u)
  {
    RunKeeps(Empty(), before, last);
    var s := Run(Empty(), before);
    var t := Acquire(s, resource, ttl, token, now);
    AcquireKeeps(s, resource, ttl, token, End(last, before), now);
    RunLeased(t, now, after, |s.handles|, resource, now + ttl);
  }

  /** A successful extension starts the lifetime anew from its own moment. */
  lemma ExtendedFor(before: seq<Event>, last: int, h: nat, ttl: int, now: int, after: seq<Event>, x: int)
    requires Proper(Empty(), last, before) && End(last, before) <= now && Holds(Run(Empty(), before), h)
    requires var t := Extend(Run(Empty(), before), h, ttl, now);
             Proper(t, now, after) && forall e <- after :: LeavesHandle(e, h)
    requires NoneFrom(after, Run(Empty(), before).handles[h].resource, now + ttl)
    ensures var resource := Run(Empty(), before).handles[h].resource;
            var t := Extend(Run(Empty(), before), h, ttl, now);
            var u := Run(t, after);
            && |t.handles| == |Run(Empty(), before).handles| && t.handles[h].expiresAt == now + ttl
            && (Taken(u, resource, x) <==> x < now + ttl)
            && (forall ttl2, token2 :: x < now + ttl ==> Acquire(u, resource, ttl2, token2, x) == u)
  {
    RunKeeps(Empty(), before, last);
    var s := Run(Empty(), before);
    ExtendKeeps(s, h, ttl, End(last, before), now);
    RunLeased(Extend(s, h, ttl, now), now, after, h, s.handles[h].resource, now + ttl);
  }
}
