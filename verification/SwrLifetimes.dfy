/** Which lifetimes a fetch uses, and what the store keeps of what it wrote. */
module SwrLifetimes {
  import opened Prelude
  import opened Swr
  import opened SwrRuns
  import L = LruCache
  import S = SingleFlight

  /** What the reads of a run ask for, in order. */
  function Asked<V>(ops: seq<Op<V>>): seq<(string, real, real)>
    decreases |ops|
  {
    if ops == [] then []
    else (if ops[0].DoRead? then [(ops[0].key, ops[0].ttlSec, ops[0].swrSec)] else []) + Asked(ops[1..])
  }

  function Terms<V>(r: Request<V>): (string, real, real) {
    (r.key, r.ttlSec, r.swrSec)
  }

  function AllTerms<V>(rs: seq<Request<V>>): seq<(string, real, real)> {
    seq(|rs|, i requires 0 <= i < |rs| => Terms(rs[i]))
  }

  lemma {:induction false} StepAsks<V>(s: State<V>, op: Op<V>)
    ensures AllTerms(Step(s, op).requests)
            == AllTerms(s.requests) + if op.DoRead? then [(op.key, op.ttlSec, op.swrSec)] else []
  {
  }

  lemma AskedMore<V>(next: State<V>, s: State<V>, ops: seq<Op<V>>)
    requires ops != []
    requires AllTerms(next.requests)
             == AllTerms(s.requests) + if ops[0].DoRead? then [(ops[0].key, ops[0].ttlSec, ops[0].swrSec)] else []
    ensures AllTerms(next.requests) + Asked(ops[1..]) == AllTerms(s.requests) + Asked(ops)
  {
  }

  /** The requests are the reads of the run, with the key and the lifetimes they were made with. */
  lemma {:induction false} RequestsAreAsked<V>(s: State<V>, ops: seq<Op<V>>)
    ensures AllTerms(Run(s, ops).requests) == AllTerms(s.requests) + Asked(ops)
    decreases |ops|
  {
    if ops != [] {
      var next := Step(s, ops[0]);
      StepAsks(s, ops[0]);
      AskedMore(next, s, ops);
      RequestsAreAsked(next, ops[1..]);
    }
  }

  /** The fetch of execution `n` uses the lifetimes of a request for its key. */
  ghost predicate FetchTerms<V>(s: State<V>, n: nat) {
    && n < |s.fetches| && n < |s.flight.executions|
    && (s.flight.executions[n].key, s.fetches[n].ttlSec, s.fetches[n].swrSec) in AllTerms(s.requests)
  }

  /** A write uses the lifetimes of its fetch. */
  ghost predicate WriteTerms<V>(s: State<V>, w: Write<V>) {
    && w.execution < |s.fetches| && w.execution < |s.flight.executions| && s.flight.executions[w.execution].key == w.key
    && s.fetches[w.execution].ttlSec == w.ttlSec && s.fetches[w.execution].swrSec == w.swrSec
  }

  /** What the store keeps of a write: the value, when it was fetched, how long it is fresh and how
      long it may be served stale; and the store itself keeps it that long, from the moment it got it. */
  ghost predicate StoredFrom<V>(e: L.Entry<Envelope<V>>, w: Write<V>) {
    && e.key == w.key
    && e.value == Envelope(w.value, w.now, w.now + w.ttlSec * 1000.0, w.now + (w.ttlSec + w.swrSec) * 1000.0)
    && e.expiresAt == w.setAt + (w.ttlSec + w.swrSec) * 1000.0
  }

  ghost predicate EntryTerms<V>(s: State<V>, e: L.Entry<Envelope<V>>) {
    exists w <- s.writes :: StoredFrom(e, w)
  }

  ghost predicate OnTerms<V>(s: State<V>) {
    && |s.fetches| == |s.flight.executions|
    && (forall n: nat :: n < |s.fetches| ==> FetchTerms(s, n))
    && (forall w <- s.writes :: WriteTerms(s, w))
    && (forall e <- s.cache.entries :: EntryTerms(s, e))
  }

  lemma {:induction false} ReadTerms<V>(s: State<V>, key: string, ttl: real, swr: real, now: real)
    requires OnTerms(s)
    ensures OnTerms(Read(s, key, ttl, swr, now))
  {
    var t := Read(s, key, ttl, swr, now);
    WithoutKeeps(s.cache.entries, L.Key(key));
    assert AllTerms(t.requests) == AllTerms(s.requests) + [(key, ttl, swr)];
    forall n: nat | n < |t.fetches| ensures FetchTerms(t, n) { assert FetchTerms(s, n); }
    forall w | w in t.writes ensures WriteTerms(t, w) { assert WriteTerms(s, w); }
    forall e | e in t.cache.entries ensures EntryTerms(t, e) { assert EntryTerms(s, e); }
  }

  lemma {:induction false} DecideTerms<V>(s: State<V>, i: nat, now: real)
    requires OnTerms(s)
    ensures OnTerms(Decide(s, i, now))
  {
    var t := Decide(s, i, now);
    if i < |s.requests| && s.requests[i].answer.None? {
      assert AllTerms(t.requests) == AllTerms(s.requests);
      assert AllTerms(t.requests)[i] == Terms(s.requests[i]);
      forall n: nat | n < |t.fetches| ensures FetchTerms(t, n) {
        if n < |s.fetches| { assert FetchTerms(s, n); }
      }
      forall w | w in t.writes ensures WriteTerms(t, w) { assert WriteTerms(s, w); }
      forall e | e in t.cache.entries ensures EntryTerms(t, e) { assert EntryTerms(s, e); }
    }
  }

  lemma {:induction false} FetchedTerms<V>(s: State<V>, n: nat, value: V, now: real, setAt: real)
    requires OnTerms(s)
    ensures OnTerms(Fetched(s, n, value, now, setAt))
  {
    var t := Fetched(s, n, value, now, setAt);
    if t != s {
      var key, f := s.flight.executions[n].key, s.fetches[n];
      var w := t.writes[|s.writes|];
      WithoutKeeps(s.cache.entries, L.Key(key));
      forall m: nat | m < |t.fetches| ensures FetchTerms(t, m) { assert FetchTerms(s, m); }
      forall x | x in t.writes ensures WriteTerms(t, x) { if x in s.writes { assert WriteTerms(s, x); } }
      forall e | e in t.cache.entries ensures EntryTerms(t, e) {
        if e in L.MakeRoom(s.cache, key).entries {
          assert EntryTerms(s, e);
          var x :| x in s.writes && StoredFrom(e, x);
          assert x in t.writes;
        } else {
          assert w in t.writes && StoredFrom(e, w);
        }
      }
    }
  }

  lemma {:induction false} OtherTerms<V>(s: State<V>, t: State<V>)
    requires OnTerms(s) && t.requests == s.requests && t.fetches == s.fetches && t.writes == s.writes
    requires |t.flight.executions| == |s.flight.executions|
    requires forall n: nat :: n < |t.flight.executions| ==> t.flight.executions[n].key == s.flight.executions[n].key
    requires forall e <- t.cache.entries :: e in s.cache.entries
    ensures OnTerms(t)
  {
    forall n: nat | n < |t.fetches| ensures FetchTerms(t, n) { assert FetchTerms(s, n); }
    forall w | w in t.writes ensures WriteTerms(t, w) { assert WriteTerms(s, w); }
    forall e | e in t.cache.entries ensures EntryTerms(t, e) { assert EntryTerms(s, e); }
  }

  lemma {:induction false} StepTerms<V>(s: State<V>, op: Op<V>)
    requires OnTerms(s)
    ensures OnTerms(Step(s, op))
  {
    match op
    case DoRead(key, ttl, swr, now) => ReadTerms(s, key, ttl, swr, now);
    case DoDecide(i, now) => DecideTerms(s, i, now);
    case DoFetched(n, value, now, setAt) => FetchedTerms(s, n, value, now, setAt);
    case DoInvalidate(target) => WithoutKeeps(s.cache.entries, target); OtherTerms(s, Step(s, op));
    case _ => OtherTerms(s, Step(s, op));
  }

  lemma {:induction false} RunTerms<V>(s: State<V>, ops: seq<Op<V>>)
    requires OnTerms(s)
    ensures OnTerms(Run(s, ops))
    decreases |ops|
  {
    if ops != [] {
      StepTerms(s, ops[0]);
      RunTerms(Step(s, ops[0]), ops[1..]);
    }
  }

  /** In every interleaving, whatever the store holds was written for its key with the lifetimes that
      one of the reads of this key asked for, and is kept for exactly these lifetimes. */
  lemma {:induction false} StoredOnTerms<V>(maxEntries: int, ops: seq<Op<V>>, e: L.Entry<Envelope<V>>) returns (w: Write<V>)
    requires e in Run(Empty<V>(maxEntries), ops).cache.entries
    ensures w in Run(Empty<V>(maxEntries), ops).writes && StoredFrom(e, w) && (w.key, w.ttlSec, w.swrSec) in Asked(ops)
  {
    var start := Empty<V>(maxEntries);
    RunTerms(start, ops);
    RequestsAreAsked(start, ops);
    var s := Run(start, ops);
    assert AllTerms(s.requests) == Asked(ops);
    assert EntryTerms(s, e);
    w :| w in s.writes && StoredFrom(e, w);
    assert WriteTerms(s, w) && FetchTerms(s, w.execution);
  }

  /** An execution that is done returns what it has written, one that fails throws, and only the
      first of the two counts. */
  lemma {:induction false} OutcomeIs<V>(maxEntries: int, ops: seq<Op<V>>, n: nat, error: string)
    requires var s := Run(Empty<V>(maxEntries), ops); n < |s.fetches|
    ensures var s := Run(Empty<V>(maxEntries), ops);
            && n < |s.flight.executions|
            && var was := s.flight.executions[n].outcome;
               && Failed(s, n, error).flight.executions[n].outcome == (if was.None? then Some(S.Threw(error)) else was)
               && Settled(s, n).flight.executions[n].outcome
                  == if was.None? && s.fetches[n].written.Some? then Some(S.Returned(s.fetches[n].written.value)) else was
  {
    RunTerms(Empty<V>(maxEntries), ops);
  }

  // ---------------------------------------------------------------- decisions and writes

  /** Join the fetch of the key if one runs, else start one with these lifetimes. */
  ghost predicate Joined<V>(s: State<V>, t: State<V>, key: string, ttlSec: real, swrSec: real) {
    if key in s.flight.inFlight then
      && t.flight == s.flight.(calls := s.flight.calls + [S.Call(key, s.flight.inFlight[key])], coalesced := s.flight.coalesced + 1)
      && t.fetches == s.fetches
    else
      && t.flight.executions == s.flight.executions + [S.Execution(key, None)]
      && t.flight.inFlight == s.flight.inFlight[key := |s.flight.executions|]
      && t.flight.calls == s.flight.calls + [S.Call(key, |s.flight.executions|)]
      && t.flight.executed == s.flight.executed + 1 && t.flight.coalesced == s.flight.coalesced
      && t.fetches == s.fetches + [Fetch(ttlSec, swrSec, None)]
  }

  /** What a request gets, and that it fetches exactly when it is not answered with a fresh value:
      what it read is fresh up to its end, stale up to the end of its grace, and missed after that,
      and then the request waits for the call it makes. Nothing else changes. */
  lemma {:induction false} DecidesByAge<V>(s: State<V>, i: nat, now: real)
    requires i < |s.requests| && s.requests[i].answer.None?
    ensures var r, t := s.requests[i], Decide(s, i, now);
            var young := r.raw.Some? && now <= r.raw.value.expiresAt;
            var answer := if young then Hit(Age.Fresh, r.raw.value.value, now)
                          else if r.raw.Some? && now <= r.raw.value.staleUntil then Hit(Age.Stale, r.raw.value.value, now)
                          else Miss(|s.flight.calls|);
            && t.requests == s.requests[i := r.(answer := Some(answer))] && t.cache == s.cache && t.writes == s.writes
            && if young then t.flight == s.flight && t.fetches == s.fetches else Joined(s, t, r.key, r.ttlSec, r.swrSec)
  {
  }

  /** Every write is what some execution fetched, at the moments it was fetched and stored. */
  lemma {:induction false} WritesAreFetched<V>(s: State<V>, ops: seq<Op<V>>, w: Write<V>)
    requires w in Run(s, ops).writes
    ensures w in s.writes || DoFetched(w.execution, w.value, w.now, w.setAt) in ops
    decreases |ops|
  {
    if ops != [] {
      assert ops == [ops[0]] + ops[1..];
      WritesAreFetched(Step(s, ops[0]), ops[1..], w);
    }
  }

  // ---------------------------------------------------------------- the store

  /** What one step asks of the store: a read looks its key up, a write puts its envelope under its
      key for the fresh and the stale lifetime together, an invalidation removes; nothing else asks. */
  function Store<V>(s: State<V>, op: Op<V>): seq<L.Op<Envelope<V>>> {
    match op
    case DoRead(key, _, _, now) => [L.DoGet(key, now)]
    case DoFetched(_, _, _, _) =>
      var writes := Step(s, op).writes;
      if |writes| <= |s.writes| then []
      else
        var w := writes[|writes| - 1];
        var seal := Envelope(w.value, w.now, w.now + w.ttlSec * 1000.0, w.now + (w.ttlSec + w.swrSec) * 1000.0);
        [L.DoSet(w.key, seal, w.ttlSec + w.swrSec, w.setAt)]
    case DoInvalidate(target) => [L.DoRemove(target)]
    case _ => []
  }

  function Stored<V>(s: State<V>, ops: seq<Op<V>>): seq<L.Op<Envelope<V>>>
    decreases |ops|
  {
    if ops == [] then [] else Store(s, ops[0]) + Stored(Step(s, ops[0]), ops[1..])
  }

  lemma {:induction false} StoreRun<V>(c: L.Cache<V>, ops: seq<L.Op<V>>, more: seq<L.Op<V>>)
    ensures L.Run(c, ops + more) == L.Run(L.Run(c, ops), more)
    decreases |more|
  {
    if more == [] {
      assert ops + more == ops;
    } else {
      assert (ops + more)[..|ops + more| - 1] == ops + more[..|more| - 1];
      StoreRun(c, ops, more[..|more| - 1]);
    }
  }

  lemma {:induction false} StepStore<V>(s: State<V>, op: Op<V>)
    ensures Step(s, op).cache == L.Run(s.cache, Store(s, op))
  {
    var asked := Store(s, op);
    if asked != [] {
      assert asked == [asked[0]] && asked[..0] == [];
      assert L.Run(s.cache, []) == s.cache;
    }
  }

  /** In every interleaving the store is an ordinary cache, to which exactly this was done, in this
      order: so whatever is known of a run of the cache holds of it. */
  lemma {:induction false} StoreIsLruRun<V>(s: State<V>, ops: seq<Op<V>>)
    ensures Run(s, ops).cache == L.Run(s.cache, Stored(s, ops))
    decreases |ops|
  {
    if ops != [] {
      StepStore(s, ops[0]);
      StoreIsLruRun(Step(s, ops[0]), ops[1..]);
      StoreRun(s.cache, Store(s, ops[0]), Stored(Step(s, ops[0]), ops[1..]));
    }
  }

  /** And a read carries on with the answer of the store. */
  lemma {:induction false} ReadAsksStore<V>(s: State<V>, key: string, ttlSec: real, swrSec: real, now: real)
    ensures Step(s, DoRead(key, ttlSec, swrSec, now)).requests
            == s.requests + [Request(key, ttlSec, swrSec, L.Answer(s.cache, L.DoGet(key, now)), None)]
  {
  }
}
