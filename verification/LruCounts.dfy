/** What a removal by prefix takes, and what the eviction counter counts. */
module LruCounts {
  import opened Prelude
  import opened LruCache
  import opened LruCacheRuns

  /** A removal by prefix takes exactly the entries whose key is the prefix with something, or
      nothing, behind it; a removal of a key takes that key, and clearing takes everything. */
  lemma {:induction false} RemovalTakes<V>(c: Cache<V>, text: string, e: Entry<V>)
    ensures e in Remove(c, Prefix(text)).entries <==> e in c.entries && !exists rest :: e.key == text + rest
    ensures e in Remove(c, Key(text)).entries <==> e in c.entries && e.key != text
    ensures Remove(c, Everything).entries == []
  {
    WithoutKeeps(c.entries, Prefix(text));
    WithoutKeeps(c.entries, Key(text));
    WithoutKeeps(c.entries, Everything);
    if Prefix(text).Hits(e.key) {
      assert e.key == text + e.key[|text|..];
    }
    NothingIsLeft(c.entries);
  }

  lemma {:induction false} NothingIsLeft<V>(es: seq<Entry<V>>)
    ensures Without(es, Everything) == []
  {
    if es != [] { NothingIsLeft(es[1..]); }
  }

  /** The operation loses an entry of another key by writing. */
  ghost predicate Evicts<V>(c: Cache<V>, op: Op<V>) {
    op.DoSet? && exists e <- c.entries :: e.key != op.key && Lookup(Step(c, op).entries, e.key).None?
  }

  /** The counter counts exactly the writes that lose an entry of another key, and each of them
      loses one. */
  lemma {:induction false} EvictionsAreCounted<V>(c: Cache<V>, op: Op<V>)
    requires Distinct(c.entries)
    ensures Step(c, op).evictions == c.evictions + if Evicts(c, op) then 1 else 0
    ensures op.DoSet? ==>
              |Step(c, op).entries| == |c.entries| + (if Lookup(c.entries, op.key).Some? then 0 else 1) - if Evicts(c, op) then 1 else 0
  {
    if op.DoSet? {
      WithoutOne(c.entries, op.key);
      forall e | e in c.entries
        ensures Lookup(Step(c, op).entries, e.key).None?
                <==> Lookup(c.entries, op.key).None? && |c.entries| >= c.maxEntries && c.entries[0] == e && e.key != ""
      {
        LostExactlyWhen(c, e, op);
      }
      if c.entries != [] { assert c.entries[0] in c.entries; }
    }
  }

  /** How many writes of a run from an empty cache lost an entry of another key. */
  ghost function EvictingWrites<V>(maxEntries: int, ops: seq<Op<V>>): nat {
    if ops == [] then 0
    else
      var before := ops[..|ops| - 1];
      EvictingWrites(maxEntries, before) + if Evicts(Run(Empty(maxEntries), before), ops[|ops| - 1]) then 1 else 0
  }

  /** So the counter of a cache is that number, over its whole life. */
  lemma {:induction false} CounterIsEvictingWrites<V>(maxEntries: int, ops: seq<Op<V>>)
    ensures Run(Empty(maxEntries), ops).evictions == EvictingWrites(maxEntries, ops)
  {
    if ops != [] {
      var before := ops[..|ops| - 1];
      CounterIsEvictingWrites(maxEntries, before);
      RunDistinct(Empty(maxEntries), before);
      EvictionsAreCounted(Run(Empty(maxEntries), before), ops[|ops| - 1]);
    }
  }
}
