/** What a label says about the age of a value, and what a miss waits for. */
module SwrRuns {
  import opened Prelude
  import opened Swr
  import L = LruCache
  import S = SingleFlight

  // ---------------------------------------------------------------- where values come from

  ghost predicate Wrote<V>(s: State<V>, key: string, e: Envelope<V>) {
    exists w :: w in s.writes && w.key == key && e == Seal(w)
  }

  /** The entry holds a sealed write, and the store keeps it at least until it is stale. */
  ghost predicate Kept<V>(s: State<V>, e: L.Entry<Envelope<V>>) {
    Wrote(s, e.key, e.value) && e.value.staleUntil <= e.expiresAt
  }

  ghost predicate LabelTrue<V>(s: State<V>, r: Request<V>) {
    r.answer.Some? && r.answer.value.Hit? ==>
      && r.raw.Some? && r.answer.value.value == r.raw.value.value
      && match r.answer.value.age
         case Fresh => r.answer.value.at <= r.raw.value.expiresAt
         case Stale => r.raw.value.expiresAt < r.answer.value.at <= r.raw.value.staleUntil
  }

  ghost predicate Traced<V>(s: State<V>) {
    && (forall e <- s.cache.entries :: Kept(s, e))
    && (forall r <- s.requests :: (r.raw.Some? ==> Wrote(s, r.key, r.raw.value)) && LabelTrue(s, r))
  }

  lemma {:induction false} WithoutKeeps<V>(es: seq<L.Entry<V>>, t: L.Target)
    ensures forall e <- L.Without(es, t) :: e in es
  {
    if es != [] { WithoutKeeps(es[1..], t); }
  }

  lemma ReadTraced<V>(s: State<V>, key: string, ttl: real, swr: real, now: real)
    requires Traced(s)
    ensures Traced(Read(s, key, ttl, swr, now))
  {
    WithoutKeeps(s.cache.entries, L.Key(key));
    var t := Read(s, key, ttl, swr, now);
    forall e | e in t.cache.entries ensures Kept(t, e) {
      assert Kept(s, e);
      assert t.writes == s.writes;
    }
    forall r | r in t.requests ensures (r.raw.Some? ==> Wrote(t, r.key, r.raw.value)) && LabelTrue(t, r) {
      if r in s.requests {
        assert LabelTrue(s, r);
        assert r.raw.Some? ==> Wrote(s, r.key, r.raw.value);
      } else if r.raw.Some? {
        var e := L.Lookup(s.cache.entries, key).value;
        assert Kept(s, e);
      }
    }
  }

  lemma DecideTraced<V>(s: State<V>, i: nat, now: real)
    requires Traced(s)
    ensures Traced(Decide(s, i, now))
  {
    var t := Decide(s, i, now);
    forall e | e in t.cache.entries ensures Kept(t, e) { assert Kept(s, e); }
    forall r | r in t.requests ensures (r.raw.Some? ==> Wrote(t, r.key, r.raw.value)) && LabelTrue(t, r) {
      if r in s.requests {
        assert LabelTrue(s, r);
        assert r.raw.Some? ==> Wrote(s, r.key, r.raw.value);
      } else {
        assert s.requests[i] in s.requests;
      }
    }
  }

  lemma FetchedTraced<V>(s: State<V>, n: nat, value: V, now: real, setAt: real)
    requires Traced(s) && now <= setAt
    ensures Traced(Fetched(s, n, value, now, setAt))
  {
    var t := Fetched(s, n, value, now, setAt);
    if t != s {
      var w := t.writes[|s.writes|];
      assert w in t.writes;
      var room := L.MakeRoom(s.cache, w.key);
      WithoutKeeps(s.cache.entries, L.Key(w.key));
      forall e | e in t.cache.entries ensures Kept(t, e) {
        if e in room.entries {
          assert e in s.cache.entries;
          assert Kept(s, e);
          GrowsWrote(s, t, e.key, e.value);
        } else {
          assert e.value == Seal(w);
        }
      }
      forall r | r in t.requests ensures (r.raw.Some? ==> Wrote(t, r.key, r.raw.value)) && LabelTrue(t, r) {
        assert LabelTrue(s, r);
        if r.raw.Some? { GrowsWrote(s, t, r.key, r.raw.value); }
      }
    }
  }

  lemma GrowsWrote<V>(s: State<V>, t: State<V>, key: string, e: Envelope<V>)
    requires Wrote(s, key, e) && s.writes <= t.writes
    ensures Wrote(t, key, e)
  {
    var w :| w in s.writes && w.key == key && e == Seal(w);
    assert w in t.writes;
  }

  lemma StepTraced<V>(s: State<V>, op: Op<V>)
    requires Traced(s) && Orderly(op)
    ensures Traced(Step(s, op))
  {
    match op
    case DoRead(key, ttl, swr, now) => ReadTraced(s, key, ttl, swr, now);
    case DoDecide(i, now) => DecideTraced(s, i, now);
    case DoFetched(n, value, now, setAt) => FetchedTraced(s, n, value, now, setAt);
    case DoInvalidate(target) => InvalidateTraced(s, target);
    case _ => SameStore(s, Step(s, op));
  }

  lemma InvalidateTraced<V>(s: State<V>, target: L.Target)
    requires Traced(s)
    ensures Traced(Invalidate(s, target))
  {
    WithoutKeeps(s.cache.entries, target);
    var t := Invalidate(s, target);
    forall e | e in t.cache.entries ensures Kept(t, e) { assert Kept(s, e); }
    forall r | r in t.requests ensures (r.raw.Some? ==> Wrote(t, r.key, r.raw.value)) && LabelTrue(t, r) {
      assert LabelTrue(s, r);
      assert r.raw.Some? ==> Wrote(s, r.key, r.raw.value);
    }
  }

  lemma SameStore<V>(s: State<V>, t: State<V>)
    requires Traced(s) && t.cache == s.cache && t.requests == s.requests && t.writes == s.writes
    ensures Traced(t)
  {
    forall e | e in t.cache.entries ensures Kept(t, e) { assert Kept(s, e); }
    forall r | r in t.requests ensures (r.raw.Some? ==> Wrote(t, r.key, r.raw.value)) && LabelTrue(t, r) {
      assert LabelTrue(s, r);
      assert r.raw.Some? ==> Wrote(s, r.key, r.raw.value);
    }
  }

  lemma {:induction false} RunTraced<V>(s: State<V>, ops: seq<Op<V>>)
    requires Traced(s) && forall op <- ops :: Orderly(op)
    ensures Traced(Run(s, ops))
    decreases |ops|
  {
    if ops != [] {
      StepTraced(s, ops[0]);
      assert forall op <- ops[1..] :: op in ops;
      RunTraced(Step(s, ops[0]), ops[1..]);
    }
  }

  /** A label tells the age of the value, for every interleaving: a fresh value was written for
      this key at most its lifetime ago, a stale one longer ago than that and at most its
      lifetime and its grace period ago. The lifetimes are those of the write. */
  lemma LabelsAreTrue<V>(maxEntries: int, ops: seq<Op<V>>, i: nat) returns (w: Write<V>)
    requires forall op <- ops :: Orderly(op)
    requires var s := Run(Empty<V>(maxEntries), ops);
             i < |s.requests| && s.requests[i].answer.Some? && s.requests[i].answer.value.Hit?
    ensures var s := Run(Empty<V>(maxEntries), ops);
            var r := s.requests[i];
            var a := r.answer.value;
            && w in s.writes && w.key == r.key && w.value == a.value
            && (a.age.Fresh? ==> a.at <= w.now + w.ttlSec * 1000.0)
            && (a.age.Stale? ==> w.now + w.ttlSec * 1000.0 < a.at <= w.now + (w.ttlSec + w.swrSec) * 1000.0)
  {
    RunTraced(Empty<V>(maxEntries), ops);
    var s := Run(Empty<V>(maxEntries), ops);
    var r := s.requests[i];
    assert r in s.requests;
    assert LabelTrue(s, r) && Wrote(s, r.key, r.raw.value);
    w :| w in s.writes && w.key == r.key && r.raw.value == Seal(w);
  }

  /** The store never drops an envelope before it is stale, so a read that decides at once is a
      miss exactly when the store holds nothing for the key or the envelope is stale. (With a
      negative grace period the store's own expiry can come before the envelope's.) */
  lemma MissIff<V>(maxEntries: int, ops: seq<Op<V>>, key: string, now: real)
    requires forall op <- ops :: Orderly(op)
    ensures var s := Run(Empty<V>(maxEntries), ops);
            var found := L.Lookup(s.cache.entries, key);
            var miss := Decision(s, L.Get(s.cache, key, now).1, now).Miss?;
            && (found.None? ==> miss)
            && (found.Some? ==> found.value.value.staleUntil <= found.value.expiresAt)
            && (found.Some? && found.value.value.expiresAt <= found.value.value.staleUntil ==>
                  (miss <==> now > found.value.value.staleUntil))
            && (found.Some? && found.value.value.expiresAt > found.value.value.staleUntil ==>
                  (miss <==> now > found.value.expiresAt || now > found.value.value.expiresAt))
  {
    RunTraced(Empty<V>(maxEntries), ops);
    var s := Run(Empty<V>(maxEntries), ops);
    var found := L.Lookup(s.cache.entries, key);
    if found.Some? {
      assert Kept(s, found.value);
      assert found.value.value.staleUntil <= found.value.expiresAt;
    }
  }

  // ---------------------------------------------------------------- one fetch per key

  /** What holds in every run, resets included: entries of the table lead to running executions
      of their key, and every execution has its options. */
  ghost predicate Coupled<V>(s: State<V>) {
    S.Keyed(s.flight) && S.Clean(s.flight) && |s.fetches| == |s.flight.executions|
  }

  lemma FlightStep<V>(g: S.Group<V>, op: S.Op<V>)
    requires S.Keyed(g) && S.Clean(g) && (op.DoCall? ==> op.thrown.None?)
    ensures S.Keyed(S.Step(g, op)) && S.Clean(S.Step(g, op))
    ensures S.Listed(g) && !op.DoReset? ==> S.Listed(S.Step(g, op))
    ensures S.Listed(g) && !op.DoReset? && S.Counted(g) ==> S.Counted(S.Step(g, op))
  {
    S.StepKeyed(g, op);
    S.StepClean(g, op);
    if S.Listed(g) && !op.DoReset? {
      S.StepTracks(g, op);
      if S.Counted(g) { S.StepCounts(g, op); }
    }
  }

  /** What a step does to the flight table, if it does anything to it. */
  ghost function FlightOp<V>(s: State<V>, op: Op<V>): Option<S.Op<V>> {
    match op
    case DoDecide(i, now) =>
      if i < |s.requests| && s.requests[i].answer.None? && !IsFresh(Decision(s, s.requests[i].raw, now))
      then Some(S.DoCall(s.requests[i].key, None)) else None
    case DoSettled(n) =>
      if n < |s.fetches| && s.fetches[n].written.Some?
      then Some(S.DoSettle(n, S.Returned(s.fetches[n].written.value))) else None
    case DoFailed(n, error) => Some(S.DoSettle(n, S.Threw(error)))
    case DoReset => Some(S.DoReset)
    case _ => None
  }

  lemma FlightFollows<V>(s: State<V>, op: Op<V>)
    ensures Step(s, op).flight == match FlightOp(s, op) case Some(o) => S.Step(s.flight, o) case None => s.flight
    ensures FlightOp(s, op).Some? ==> (FlightOp(s, op).value.DoReset? <==> op.DoReset?)
    ensures FlightOp(s, op).Some? && FlightOp(s, op).value.DoCall? ==> FlightOp(s, op).value.thrown.None?
    ensures |s.fetches| == |s.flight.executions| ==> |Step(s, op).fetches| == |Step(s, op).flight.executions|
  {
  }

  lemma StepCoupled<V>(s: State<V>, op: Op<V>)
    requires Coupled(s)
    ensures Coupled(Step(s, op))
    ensures S.Listed(s.flight) && !op.DoReset? ==> S.Listed(Step(s, op).flight)
    ensures S.Listed(s.flight) && !op.DoReset? && S.Counted(s.flight) ==> S.Counted(Step(s, op).flight)
  {
    FlightFollows(s, op);
    var o := FlightOp(s, op);
    if o.Some? { FlightStep(s.flight, o.value); }
  }

  ghost predicate NothingRuns<V>(g: S.Group<V>) {
    forall n: nat :: n < |g.executions| ==> g.executions[n].outcome.Some?
  }

  /** Nothing runs whenever the flight table is reset. */
  ghost predicate Gentle<V>(s: State<V>, ops: seq<Op<V>>)
    decreases |ops|
  {
    ops == [] || ((ops[0].DoReset? ==> NothingRuns(s.flight)) && Gentle(Step(s, ops[0]), ops[1..]))
  }

  lemma {:induction false} RunListed<V>(s: State<V>, ops: seq<Op<V>>)
    requires Coupled(s) && S.Listed(s.flight) && Gentle(s, ops)
    ensures Coupled(Run(s, ops)) && S.Listed(Run(s, ops).flight)
    decreases |ops|
  {
    if ops != [] {
      StepCoupled(s, ops[0]);
      RunListed(Step(s, ops[0]), ops[1..]);
    }
  }

  lemma {:induction false} RunCounted<V>(s: State<V>, ops: seq<Op<V>>)
    requires Coupled(s) && S.Listed(s.flight) && S.Counted(s.flight) && forall op <- ops :: !op.DoReset?
    ensures var g := Run(s, ops).flight; |g.calls| == g.executed + g.coalesced
    decreases |ops|
  {
    if ops != [] {
      StepCoupled(s, ops[0]);
      assert forall op <- ops[1..] :: op in ops;
      RunCounted(Step(s, ops[0]), ops[1..]);
    }
  }

  // ---------------------------------------------------------------- what executions return

  /** What has been written was written by the fetch of its execution; an execution that returned
      has returned what it wrote. */
  ghost predicate Honest<V>(s: State<V>) {
    && |s.fetches| == |s.flight.executions|
    && (forall n :: 0 <= n < |s.flight.executions| && s.flight.executions[n].outcome.Some?
          && s.flight.executions[n].outcome.value.Returned?
          ==> s.fetches[n].written == Some(s.flight.executions[n].outcome.value.value))
    && (forall w <- s.writes :: w.execution < |s.fetches| && s.fetches[w.execution].written == Some(w.value)
          && s.flight.executions[w.execution].key == w.key)
  }

  lemma StepHonest<V>(s: State<V>, op: Op<V>)
    requires Honest(s) && Coupled(s)
    ensures Honest(Step(s, op))
  {
    match op
    case DoFetched(n, value, now, setAt) => FetchedHonest(s, n, value, now, setAt);
    case DoDecide(i, now) => DecideHonest(s, i, now);
    case _ =>
  }

  lemma FetchedHonest<V>(s: State<V>, n: nat, value: V, now: real, setAt: real)
    requires Honest(s) && Coupled(s)
    ensures Honest(Fetched(s, n, value, now, setAt))
  {
  }

  lemma DecideHonest<V>(s: State<V>, i: nat, now: real)
    requires Honest(s) && Coupled(s)
    ensures Honest(Decide(s, i, now))
  {
  }

  lemma {:induction false} RunHonest<V>(s: State<V>, ops: seq<Op<V>>)
    requires Honest(s) && Coupled(s)
    ensures Honest(Run(s, ops)) && Coupled(Run(s, ops))
    decreases |ops|
  {
    if ops != [] {
      StepHonest(s, ops[0]);
      StepCoupled(s, ops[0]);
      RunHonest(Step(s, ops[0]), ops[1..]);
    }
  }

  lemma Reached<V>(maxEntries: int, ops: seq<Op<V>>) returns (s: State<V>)
    ensures s == Run(Empty<V>(maxEntries), ops)
    ensures Coupled(s) && Honest(s)
  {
    RunHonest(Empty<V>(maxEntries), ops);
    s := Run(Empty<V>(maxEntries), ops);
  }

  // ---------------------------------------------------------------- main results

  /** At most one fetch runs for each key. */
  ghost predicate OnePerKey<V>(s: State<V>) {
    forall m: nat, n: nat :: m < |s.flight.executions| && n < |s.flight.executions|
      && S.Running(s.flight, m) && S.Running(s.flight, n) && s.flight.executions[m].key == s.flight.executions[n].key
      ==> m == n
  }

  /** In every interleaving in which the flight table is never reset while a fetch runs, at most
      one fetch per key runs. */
  lemma OneFetchPerKey<V>(maxEntries: int, ops: seq<Op<V>>)
    requires Gentle(Empty<V>(maxEntries), ops)
    ensures OnePerKey(Run(Empty<V>(maxEntries), ops))
  {
    S.EmptyIsCounted<V>();
    RunListed(Empty<V>(maxEntries), ops);
  }

  /** Without a reset, every decision that is not fresh started a fetch or was coalesced into one. */
  lemma {:induction false} CallsAreCounted<V>(maxEntries: int, ops: seq<Op<V>>)
    requires forall op <- ops :: !op.DoReset?
    ensures var g := Run(Empty<V>(maxEntries), ops).flight; |g.calls| == g.executed + g.coalesced
  {
    CountedFrom(Empty<V>(maxEntries), ops);
  }

  lemma {:induction false} CountedFrom<V>(s: State<V>, ops: seq<Op<V>>)
    requires s.flight == S.Empty() && s.fetches == [] && forall op <- ops :: !op.DoReset?
    ensures var g := Run(s, ops).flight; |g.calls| == g.executed + g.coalesced
  {
    StartsCounted(s);
    RunCounted(s, ops);
  }

  lemma StartsCounted<V>(s: State<V>)
    requires s.flight == S.Empty() && s.fetches == []
    ensures Coupled(s) && S.Listed(s.flight) && S.Counted(s.flight)
  {
    S.EmptyIsCounted<V>();
  }

  /** A request for the key after the store was emptied. */
  function AskAgain<V>(s: State<V>, key: string): seq<Op<V>> {
    [DoInvalidate(L.Everything), DoRead(key, 1.0, 1.0, 0.0), DoDecide(|s.requests|, 0.0)]
  }

  /** After a reset, the next request for a key whose fetch still runs starts a second one. */
  lemma AskAgainDoubles<V>(s: State<V>, n: nat)
    requires S.Running(s.flight, n)
    ensures var t := Run(ResetFlight(s), AskAgain(s, s.flight.executions[n].key));
            && S.Running(t.flight, n) && S.Running(t.flight, |s.flight.executions|)
            && t.flight.executions[n].key == t.flight.executions[|s.flight.executions|].key
    ensures Gentle(ResetFlight(s), AskAgain(s, s.flight.executions[n].key))
  {
    var key, r := s.flight.executions[n].key, ResetFlight(s);
    var clear, read, decide: Op<V> := DoInvalidate(L.Everything), DoRead(key, 1.0, 1.0, 0.0), DoDecide(|s.requests|, 0.0);
    EmptiedStore(r.cache.entries, key);
    assert AskAgain(s, key)[1..] == [read, decide] && [read, decide][1..] == [decide] && [decide][1..] == [];
    var r1 := Step(r, clear);
    var r2 := Step(r1, read);
    assert r2.requests[|s.requests|].raw.None? && r2.flight == r.flight;
    assert Run(r2, [decide]) == Run(Step(r2, decide), []);
    assert Run(r1, [read, decide]) == Run(r2, [decide]);
    assert Gentle(r2, [decide]) && Gentle(r1, [read, decide]);
  }

  lemma {:induction false} EmptiedStore<V>(es: seq<L.Entry<V>>, key: string)
    ensures L.Without(es, L.Everything) == []
  {
    if es != [] { EmptiedStore(es[1..], key); }
  }

  /** The exact condition: when the flight table is reset in a state with one fetch per key, this
      stays so in all further interleavings exactly when nothing runs at that moment. */
  lemma ResetKeepsOneFetchIff<V>(s: State<V>)
    requires Coupled(s) && S.Listed(s.flight)
    ensures NothingRuns(s.flight)
            <==> forall ops :: Gentle(ResetFlight(s), ops) ==> OnePerKey(Run(ResetFlight(s), ops))
  {
    var r := ResetFlight(s);
    if NothingRuns(s.flight) {
      forall ops | Gentle(r, ops) ensures OnePerKey(Run(r, ops)) {
        RunListed(r, ops);
      }
    } else {
      var n: nat :| n < |s.flight.executions| && s.flight.executions[n].outcome.None?;
      AskAgainDoubles(s, n);
      var ops := AskAgain(s, s.flight.executions[n].key);
      assert Gentle(r, ops) && !OnePerKey(Run(r, ops));
    }
  }

  /** A run in which clearing everything doubles a fetch: a request misses, everything is cleared
      while its fetch runs, and a second request for the key starts another fetch. */
  lemma ClearingDoublesTheFetch<V>(key: string)
    ensures var before := [DoRead(key, 1.0, 1.0, 0.0), DoDecide(0, 0.0), DoInvalidate(L.Everything), DoReset];
            var s := Run(Empty<V>(10), before);
            !OnePerKey(Run(s, AskAgain(s, key)))
  {
    var read, decide: Op<V>, clear: Op<V>, reset: Op<V> := DoRead(key, 1.0, 1.0, 0.0), DoDecide(0, 0.0), DoInvalidate(L.Everything), DoReset;
    assert [read, decide, clear, reset][1..] == [decide, clear, reset] && [decide, clear, reset][1..] == [clear, reset]
           && [clear, reset][1..] == [reset] && [reset][1..] == [];
    var s1 := Step(Empty<V>(10), read);
    var s2 := Step(s1, decide);
    var s3 := Step(s2, clear);
    assert S.Running(s2.flight, 0) && s2.flight.executions[0].key == key;
    assert Run(s3, [reset]) == Run(ResetFlight(s3), []);
    assert Run(s2, [clear, reset]) == Run(s3, [reset]);
    assert Run(s1, [decide, clear, reset]) == Run(s2, [clear, reset]);
    AskAgainDoubles(s3, 0);
  }

  /** Deciding makes one call, given an execution of the request's key that runs; a request that
      is not answered from the store waits for this call. */
  ghost predicate Refreshing<V>(s: State<V>, i: nat, now: real)
    requires i < |s.requests|
  {
    var t := Decide(s, i, now);
    && |t.flight.calls| == |s.flight.calls| + 1
    && var n := t.flight.calls[|s.flight.calls|].execution;
       && S.Running(t.flight, n) && t.flight.executions[n].key == s.requests[i].key
       && (t.requests[i].answer == Some(Miss(|s.flight.calls|))
           || (t.requests[i].answer.Some? && t.requests[i].answer.value.Hit?))
  }

  /** A decision that is not fresh leaves a fetch of the key running, and a miss waits for it. */
  lemma RefreshIsUnderWay<V>(maxEntries: int, ops: seq<Op<V>>, i: nat, now: real)
    requires var s := Run(Empty<V>(maxEntries), ops);
             && i < |s.requests| && s.requests[i].answer.None?
             && !IsFresh(Decision(s, s.requests[i].raw, now))
    ensures Refreshing(Run(Empty<V>(maxEntries), ops), i, now)
  {
    var s := Reached(maxEntries, ops);
  }

  /** Everything ever written for a key is what exactly one execution for that key fetched, and
      an execution that has returned handed its callers the value it wrote. */
  lemma WritesComeFromFetches<V>(maxEntries: int, ops: seq<Op<V>>, w: Write<V>)
    requires w in Run(Empty<V>(maxEntries), ops).writes
    ensures var g := Run(Empty<V>(maxEntries), ops).flight;
            && w.execution < |g.executions| && g.executions[w.execution].key == w.key
            && (g.executions[w.execution].outcome.Some? ==>
                  g.executions[w.execution].outcome.value == S.Returned(w.value) || g.executions[w.execution].outcome.value.Threw?)
  {
    var s := Reached(maxEntries, ops);
  }
}
