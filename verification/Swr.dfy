/**
 Stale-while-revalidate over the in-memory cache and single flight. A request reads the cache,
 and decides in a later step. An execution of the flight table fetches, writes an envelope and
 settles. Times are milliseconds, lifetimes are seconds.
 */
module Swr {
  import opened Prelude
  import L = LruCache
  import S = SingleFlight

  datatype Envelope<V> = Envelope(value: V, cachedAt: real, expiresAt: real, staleUntil: real)

  datatype Age = Fresh | Stale

  /** A hit is answered with a value; a miss waits for the promise of a call. */
  datatype Answer<V> = Hit(age: Age, value: V, at: real) | Miss(call: nat)

  datatype Request<V> = Request(key: string, ttlSec: real, swrSec: real, raw: Option<Envelope<V>>, answer: Option<Answer<V>>)

  /** The options an execution was started with, and the value it has written. */
  datatype Fetch<V> = Fetch(ttlSec: real, swrSec: real, written: Option<V>)

  /** A write into the store: `now` goes into the envelope, `setAt` is when the store takes it. */
  datatype Write<V> = Write(key: string, value: V, ttlSec: real, swrSec: real, now: real, setAt: real, execution: nat)

  datatype State<V> = State(cache: L.Cache<Envelope<V>>, flight: S.Group<V>, fetches: seq<Fetch<V>>,
                            requests: seq<Request<V>>, writes: seq<Write<V>>)

  function Empty<V>(maxEntries: int): State<V> {
    State(L.Empty(maxEntries), S.Empty(), [], [], [])
  }

  function Seal<V>(w: Write<V>): Envelope<V> {
    Envelope(w.value, w.now, w.now + w.ttlSec * 1000.0, w.now + (w.ttlSec + w.swrSec) * 1000.0)
  }

  /** Join the fetch of the key, or start one. */
  function Start<V>(s: State<V>, key: string, ttlSec: real, swrSec: real): State<V> {
    s.(flight := S.Do(s.flight, key, None),
       fetches := if key in s.flight.inFlight then s.fetches else s.fetches + [Fetch(ttlSec, swrSec, None)])
  }

  function Read<V>(s: State<V>, key: string, ttlSec: real, swrSec: real, now: real): State<V> {
    var (cache, raw) := L.Get(s.cache, key, now);
    s.(cache := cache, requests := s.requests + [Request(key, ttlSec, swrSec, raw, None)])
  }

  function Decision<V>(s: State<V>, raw: Option<Envelope<V>>, now: real): Answer<V> {
    if raw.Some? && now <= raw.value.expiresAt then Hit(Fresh, raw.value.value, now)
    else if raw.Some? && now <= raw.value.staleUntil then Hit(Stale, raw.value.value, now)
    else Miss(|s.flight.calls|)
  }

  predicate IsFresh<V>(a: Answer<V>) {
    a.Hit? && a.age.Fresh?
  }

  function Decide<V>(s: State<V>, i: nat, now: real): State<V> {
    if i >= |s.requests| || s.requests[i].answer.Some? then s
    else
      var r := s.requests[i];
      var answer := Decision(s, r.raw, now);
      var answered := s.(requests := s.requests[i := r.(answer := Some(answer))]);
      if IsFresh(answer) then answered else Start(answered, r.key, r.ttlSec, r.swrSec)
  }

  function Fetched<V>(s: State<V>, n: nat, value: V, now: real, setAt: real): State<V> {
    if !S.Running(s.flight, n) || n >= |s.fetches| || s.fetches[n].written.Some? then s
    else
      var key, f := s.flight.executions[n].key, s.fetches[n];
      var w := Write(key, value, f.ttlSec, f.swrSec, now, setAt, n);
      s.(cache := L.Set(s.cache, key, Seal(w), f.ttlSec + f.swrSec, setAt),
         fetches := s.fetches[n := f.(written := Some(value))],
         writes := s.writes + [w])
  }

  /** An execution returns what it has written. */
  function Settled<V>(s: State<V>, n: nat): State<V> {
    if n >= |s.fetches| || s.fetches[n].written.None? then s
    else s.(flight := S.Settle(s.flight, n, S.Returned(s.fetches[n].written.value)))
  }

  function Failed<V>(s: State<V>, n: nat, error: string): State<V> {
    s.(flight := S.Settle(s.flight, n, S.Threw(error)))
  }

  function Invalidate<V>(s: State<V>, target: L.Target): State<V> {
    s.(cache := L.Remove(s.cache, target))
  }

  /** The second half of clearing everything; the first half, which empties the store, is an
      invalidation of its own. */
  function ResetFlight<V>(s: State<V>): State<V> {
    s.(flight := S.Reset(s.flight))
  }

  // ---------------------------------------------------------------- runs

  datatype Op<V> =
    | DoRead(key: string, ttlSec: real, swrSec: real, now: real)
    | DoDecide(i: nat, now: real)
    | DoFetched(n: nat, value: V, now: real, setAt: real)
    | DoSettled(n: nat)
    | DoFailed(n: nat, error: string)
    | DoInvalidate(target: L.Target)
    | DoReset

  function Step<V>(s: State<V>, op: Op<V>): State<V> {
    match op
    case DoRead(key, ttl, swr, now) => Read(s, key, ttl, swr, now)
    case DoDecide(i, now) => Decide(s, i, now)
    case DoFetched(n, value, now, setAt) => Fetched(s, n, value, now, setAt)
    case DoSettled(n) => Settled(s, n)
    case DoFailed(n, error) => Failed(s, n, error)
    case DoInvalidate(target) => Invalidate(s, target)
    case DoReset => ResetFlight(s)
  }

  function Run<V>(s: State<V>, ops: seq<Op<V>>): State<V>
    decreases |ops|
  {
    if ops == [] then s else Run(Step(s, ops[0]), ops[1..])
  }

  /** The store takes a write no earlier than its envelope was made. */
  ghost predicate Orderly<V>(op: Op<V>) {
    op.DoFetched? ==> op.now <= op.setAt
  }
}
