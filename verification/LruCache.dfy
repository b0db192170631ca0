/**
 The in-memory cache: an insertion-ordered map with expiry times, where a hit or a write
 moves its key to the end and a full cache evicts from the front.
 */
module LruCache {
  import opened Prelude

  datatype Entry<V> = Entry(key: string, value: V, expiresAt: real)

  /** `entries` is the map in iteration order. */
  datatype Cache<V> = Cache(maxEntries: int, entries: seq<Entry<V>>, evictions: nat)

  /** The keys a removal is aimed at. */
  datatype Target = Key(key: string) | Prefix(prefix: string) | Everything {
    predicate Hits(k: string) {
      match this
      case Key(key) => k == key
      case Prefix(prefix) => StartsWith(k, prefix)
      case Everything => true
    }
  }

  predicate StartsWith(s: string, prefix: string) {
    |prefix| <= |s| && s[..|prefix|] == prefix
  }

  function Without<V>(es: seq<Entry<V>>, t: Target): seq<Entry<V>> {
    if es == [] then []
    else if t.Hits(es[0].key) then Without(es[1..], t)
    else [es[0]] + Without(es[1..], t)
  }

  function Lookup<V>(es: seq<Entry<V>>, key: string): (r: Option<Entry<V>>)
    ensures r.Some? ==> r.value in es && r.value.key == key
    ensures r.None? ==> forall e <- es :: e.key != key
  {
    if es == [] then None
    else if es[0].key == key then Some(es[0])
    else Lookup(es[1..], key)
  }

  // ---------------------------------------------------------------- operations

  function Get<V>(c: Cache<V>, key: string, now: real): (Cache<V>, Option<V>) {
    match Lookup(c.entries, key)
    case None => (c, None)
    case Some(e) =>
      var rest := Without(c.entries, Key(key));
      if now > e.expiresAt then (c.(entries := rest), None)
      else (c.(entries := rest + [e]), Some(e.value))
  }

  /** What a write of `key` does first: drop the old entry of the key, or evict when full. */
  function MakeRoom<V>(c: Cache<V>, key: string): Cache<V> {
    if Lookup(c.entries, key).Some? then c.(entries := Without(c.entries, Key(key)))
    else if |c.entries| >= c.maxEntries && c.entries != [] && c.entries[0].key != "" then
      c.(entries := c.entries[1..], evictions := c.evictions + 1)
    else c
  }

  function Set<V>(c: Cache<V>, key: string, value: V, ttlSec: real, now: real): Cache<V> {
    var room := MakeRoom(c, key);
    room.(entries := room.entries + [Entry(key, value, now + ttlSec * 1000.0)])
  }

  function Remove<V>(c: Cache<V>, t: Target): Cache<V> {
    c.(entries := Without(c.entries, t))
  }

  // ---------------------------------------------------------------- runs

  datatype Op<V> =
    | DoGet(key: string, now: real)
    | DoSet(key: string, value: V, ttlSec: real, now: real)
    | DoRemove(target: Target)

  function Step<V>(c: Cache<V>, op: Op<V>): Cache<V> {
    match op
    case DoGet(k, now) => Get(c, k, now).0
    case DoSet(k, v, ttl, now) => Set(c, k, v, ttl, now)
    case DoRemove(t) => Remove(c, t)
  }

  function Answer<V>(c: Cache<V>, op: Op<V>): Option<V> {
    match op
    case DoGet(k, now) => Get(c, k, now).1
    case DoSet(_, _, _, _) => None
    case DoRemove(_) => None
  }

  function Empty<V>(maxEntries: int): Cache<V> {
    Cache(maxEntries, [], 0)
  }

  function Run<V>(c: Cache<V>, ops: seq<Op<V>>): Cache<V> {
    if ops == [] then c else Step(Run(c, ops[..|ops| - 1]), ops[|ops| - 1])
  }
}
