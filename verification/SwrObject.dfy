/** Single flight and stale-while-revalidate as the objects the service shares. */
module SwrObject {
  import opened Prelude
  import L = LruCache
  import S = SingleFlight
  import opened LruCacheObject
  import opened Swr

  class SingleFlightGroup<V> {
    var inFlight: map<string, nat>
    var executions: seq<S.Execution<V>>
    var calls: seq<S.Call>
    var totalExecuted: nat
    var totalCoalesced: nat

    ghost function View(): S.Group<V>
      reads this
    {
      S.Group(inFlight, executions, calls, totalExecuted, totalCoalesced)
    }

    constructor ()
      ensures View() == S.Empty()
    {
      inFlight, executions, calls, totalExecuted, totalCoalesced := map[], [], [], 0, 0;
    }

    /** Call with a key; `thrown` is what the function throws before it returns a promise. The
        result is the execution whose promise the caller gets. */
    method Do(key: string, thrown: Option<string>) returns (n: nat)
      modifies this
      ensures View() == S.Do(old(View()), key, thrown)
      ensures calls == old(calls) + [S.Call(key, n)]
    {
      if key in inFlight {
        totalCoalesced := totalCoalesced + 1;
        n := inFlight[key];
        calls := calls + [S.Call(key, n)];
        return;
      }
      totalExecuted := totalExecuted + 1;
      n := |executions|;
      executions := executions + [S.Execution(key, None)];
      if thrown.Some? {
        Finish(n, S.Threw(thrown.value));
        assert old(inFlight) - {key} == old(inFlight);
        assert executions == old(executions) + [S.Execution(key, Some(S.Threw(thrown.value)))];
      }
      inFlight := inFlight[key := n];
      calls := calls + [S.Call(key, n)];
    }

    /** What happens when the function is over: its key leaves the table. */
    method Finish(n: nat, outcome: S.Outcome<V>)
      modifies this
      ensures View() == S.Settle(old(View()), n, outcome)
    {
      if n >= |executions| || executions[n].outcome.Some? { return; }
      inFlight := inFlight - {executions[n].key};
      executions := executions[n := executions[n].(outcome := Some(outcome))];
    }

    method Reset()
      modifies this
      ensures View() == S.Reset(old(View()))
    {
      inFlight := map[];
      totalCoalesced := 0;
      totalExecuted := 0;
    }
  }

  class StaleWhileRevalidate<V> {
    const cache: MemoryLruCache<Envelope<V>>
    const flight: SingleFlightGroup<V>
    var requests: seq<Request<V>>
    var fetches: seq<Fetch<V>>
    ghost var writes: seq<Write<V>>

    ghost predicate Valid()
      reads this, cache
    {
      cache.Valid()
    }

    ghost function View(): State<V>
      reads this, cache, flight
    {
      State(cache.View(), flight.View(), fetches, requests, writes)
    }

    constructor (maxEntries: int)
      ensures Valid() && fresh(cache) && fresh(flight)
      ensures View() == Empty(maxEntries)
    {
      cache := new MemoryLruCache<Envelope<V>>(maxEntries);
      flight := new SingleFlightGroup<V>();
      requests, fetches, writes := [], [], [];
    }

    /** The first step of a request: it reads the store. */
    method Ask(key: string, ttlSec: real, swrSec: real, now: real) returns (request: nat)
      requires Valid()
      modifies this, cache
      ensures Valid() && View() == Read(old(View()), key, ttlSec, swrSec, now)
      ensures request == |old(requests)|
    {
      request := |requests|;
      var raw := cache.Get(key, now);
      requests := requests + [Request(key, ttlSec, swrSec, raw, None)];
    }

    /** Join the fetch of the key or start one; a background refresh forgets its call. */
    method Launch(key: string, ttlSec: real, swrSec: real)
      requires Valid()
      modifies this, flight
      ensures Valid() && View() == Start(old(View()), key, ttlSec, swrSec)
    {
      var running := key in flight.inFlight;
      var n := flight.Do(key, None);
      if !running {
        fetches := fetches + [Fetch(ttlSec, swrSec, None)];
      }
    }

    /** The second step: fresh and stale values are answered at once, the rest waits. */
    method GetOrFetch(request: nat, now: real)
      requires Valid()
      modifies this, flight
      ensures Valid() && View() == Decide(old(View()), request, now)
    {
      if request >= |requests| || requests[request].answer.Some? { return; }
      var r := requests[request];
      if r.raw.Some? {
        var env := r.raw.value;
        if now <= env.expiresAt {
          requests := requests[request := r.(answer := Some(Hit(Fresh, env.value, now)))];
          return;
        }
        if now <= env.staleUntil {
          requests := requests[request := r.(answer := Some(Hit(Stale, env.value, now)))];
          Launch(r.key, r.ttlSec, r.swrSec);
          return;
        }
      }
      requests := requests[request := r.(answer := Some(Miss(|flight.calls|)))];
      Launch(r.key, r.ttlSec, r.swrSec);
    }

    /** The fetch of execution `n` has a value: it is written with its times. */
    method WriteEnvelope(n: nat, value: V, now: real, setAt: real)
      requires Valid()
      modifies this, cache
      ensures Valid() && View() == Fetched(old(View()), n, value, now, setAt)
    {
      if n >= |flight.executions| || flight.executions[n].outcome.Some? || n >= |fetches| || fetches[n].written.Some? {
        return;
      }
      var key, f := flight.executions[n].key, fetches[n];
      var totalTtlSec := f.ttlSec + f.swrSec;
      var envelope := Envelope(value, now, now + f.ttlSec * 1000.0, now + totalTtlSec * 1000.0);
      cache.Set(key, envelope, totalTtlSec, setAt);
      fetches := fetches[n := f.(written := Some(value))];
      writes := writes + [Write(key, value, f.ttlSec, f.swrSec, now, setAt, n)];
    }

    method Return(n: nat)
      requires Valid()
      modifies flight
      ensures Valid() && View() == Settled(old(View()), n)
    {
      if n < |fetches| && fetches[n].written.Some? {
        flight.Finish(n, S.Returned(fetches[n].written.value));
      }
    }

    /** Clearing everything empties the store and then resets the flight table; other steps may
        come between the two halves. */
    method ClearStore()
      requires Valid()
      modifies cache
      ensures Valid() && View() == Invalidate(old(View()), L.Everything)
    {
      cache.Clear();
    }

    method ResetFlights()
      requires Valid()
      modifies flight
      ensures Valid() && View() == ResetFlight(old(View()))
    {
      flight.Reset();
    }

    method Throw(n: nat, error: string)
      requires Valid()
      modifies flight
      ensures Valid() && View() == Failed(old(View()), n, error)
    {
      flight.Finish(n, S.Threw(error));
    }
  }
}
