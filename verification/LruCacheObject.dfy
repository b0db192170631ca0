/** The cache as the object the service shares. */
module LruCacheObject {
  import opened Prelude
  import opened LruCache
  import opened LruCacheRuns

  class MemoryLruCache<V> {
    const maxEntries: int
    /** The map in iteration order. */
    var entries: seq<Entry<V>>
    var evictions: nat

    ghost function View(): Cache<V>
      reads this
    {
      Cache(maxEntries, entries, evictions)
    }

    ghost predicate Valid()
      reads this
    {
      Distinct(entries)
    }

    constructor (maxEntries: int)
      ensures Valid() && View() == Empty(maxEntries)
    {
      this.maxEntries := maxEntries;
      entries, evictions := [], 0;
    }

    /** The built-in deletion of one key. */
    method MapDelete(key: string) returns (found: bool)
      requires Valid()
      modifies this`entries
      ensures entries == Without(old(entries), Key(key)) && Valid()
      ensures found <==> Lookup(old(entries), key).Some?
    {
      WithoutDistinct(entries, Key(key));
      WithoutOne(entries, key);
      WithoutKeeps(entries, Key(key));
      found := Lookup(entries, key).Some?;
      entries := Without(entries, Key(key));
    }

    method Get(key: string, now: real) returns (value: Option<V>)
      requires Valid()
      modifies this
      ensures (View(), value) == LruCache.Get(old(View()), key, now) && Valid()
      ensures value.Some? ==> entries != [] && entries[|entries| - 1].key == key
    {
      StepEntries(View(), DoGet(key, now));
      var entry := Lookup(entries, key);
      if entry.None? {
        return None;
      }
      var _ := MapDelete(key);
      if now > entry.value.expiresAt {
        return None;
      }
      entries := entries + [entry.value];
      value := Some(entry.value.value);
    }

    method Set(key: string, value: V, ttlSec: real, now: real)
      requires Valid()
      modifies this
      ensures View() == LruCache.Set(old(View()), key, value, ttlSec, now) && Valid()
      ensures |old(entries)| <= Capacity(maxEntries) && (old(entries) != [] ==> old(entries)[0].key != "") ==>
                |entries| <= Capacity(maxEntries)
    {
      StepEntries(View(), DoSet(key, value, ttlSec, now));
      WithoutOne(entries, key);
      if Lookup(entries, key).Some? {
        var _ := MapDelete(key);
      } else if |entries| >= maxEntries {
        if entries != [] && entries[0].key != "" {
          entries := entries[1..];
          evictions := evictions + 1;
        }
      }
      entries := entries + [Entry(key, value, now + ttlSec * 1000.0)];
    }

    method Del(key: string) returns (found: bool)
      requires Valid()
      modifies this`entries
      ensures View() == Remove(old(View()), Key(key)) && Valid()
      ensures found <==> Lookup(old(entries), key).Some?
    {
      found := MapDelete(key);
    }

    method DeleteWhenPrefixed(key: string, prefix: string) returns (gone: nat)
      requires Valid()
      modifies this`entries
      ensures Valid() && gone == |old(entries)| - |entries|
      ensures entries == if StartsWith(key, prefix) then Without(old(entries), Key(key)) else old(entries)
    {
      gone := 0;
      if StartsWith(key, prefix) {
        WithoutOne(entries, key);
        var found := MapDelete(key);
        gone := if found then 1 else 0;
      }
    }

    /** One turn of the walk over the keys. */
    method WalkStep(snapshot: seq<Entry<V>>, i: nat, prefix: string) returns (gone: nat)
      requires Valid() && i < |snapshot| && entries == Walked(snapshot, i, prefix)
      modifies this`entries
      ensures Valid() && entries == Walked(snapshot, i + 1, prefix) && gone == |old(entries)| - |entries|
    {
      PrefixStep(snapshot, i, prefix);
      gone := DeleteWhenPrefixed(snapshot[i].key, prefix);
    }

    /** Walks over a copy of the keys and deletes the ones with the prefix, one by one. */
    method DeletePrefix(prefix: string) returns (count: nat)
      requires Valid()
      modifies this`entries
      ensures View() == Remove(old(View()), Prefix(prefix)) && Valid()
      ensures count == |old(entries)| - |entries|
    {
      var snapshot := entries;
      WalkedEnds(snapshot, prefix);
      count := 0;
      var i := 0;
      while i < |snapshot|
        invariant 0 <= i <= |snapshot|
        invariant entries == Walked(snapshot, i, prefix)
        invariant count == |snapshot| - |entries|
        invariant Valid()
      {
        var gone := WalkStep(snapshot, i, prefix);
        count := count + gone;
        i := i + 1;
      }
    }

    method Clear()
      modifies this`entries
      ensures View() == Remove(old(View()), Everything) && Valid() && entries == []
    {
      RemovesAll(entries);
      entries := [];
    }

    method Size() returns (n: nat)
      ensures n == |entries|
    {
      n := |entries|;
    }
  }

  lemma {:induction false} RemovesAll<V>(es: seq<Entry<V>>)
    ensures Without(es, Everything) == []
  {
    if es != [] { RemovesAll(es[1..]); }
  }

  lemma {:induction false} WithoutConcat<V>(a: seq<Entry<V>>, b: seq<Entry<V>>, t: Target)
    ensures Without(a + b, t) == Without(a, t) + Without(b, t)
  {
    if a == [] {
      assert a + b == b;
    } else {
      assert (a + b)[1..] == a[1..] + b;
      WithoutConcat(a[1..], b, t);
    }
  }

  lemma WithoutSnoc<V>(es: seq<Entry<V>>, i: nat, t: Target)
    requires i < |es|
    ensures Without(es[..i + 1], t) == Without(es[..i], t) + if t.Hits(es[i].key) then [] else [es[i]]
  {
    assert es[..i + 1] == es[..i] + [es[i]];
    WithoutConcat(es[..i], [es[i]], t);
  }

  /** Deleting the one entry of a key from the middle. */
  lemma DeleteAt<V>(a: seq<Entry<V>>, e: Entry<V>, b: seq<Entry<V>>)
    requires Distinct(a + ([e] + b))
    ensures Without(a + ([e] + b), Key(e.key)) == a + b
  {
    var es := a + ([e] + b);
    WithoutConcat(a, [e] + b, Key(e.key));
    forall x | x in a ensures x.key != e.key {
      var i :| 0 <= i < |a| && a[i] == x;
      assert es[i] == x && es[|a|] == e;
    }
    forall x | x in b ensures x.key != e.key {
      var i :| 0 <= i < |b| && b[i] == x;
      assert es[|a| + 1 + i] == x && es[|a|] == e;
    }
    WithoutKeeps(a, Key(e.key));
    WithoutKeeps(b, Key(e.key));
    assert ([e] + b)[1..] == b;
  }

  /** The entries left when the walk over the keys has reached position `i`. */
  ghost function Walked<V>(es: seq<Entry<V>>, i: nat, prefix: string): seq<Entry<V>>
    requires i <= |es|
  {
    Without(es[..i], Prefix(prefix)) + es[i..]
  }

  lemma WalkedEnds<V>(es: seq<Entry<V>>, prefix: string)
    ensures Walked(es, 0, prefix) == es
    ensures Walked(es, |es|, prefix) == Without(es, Prefix(prefix))
  {
    assert es[..|es|] == es;
  }

  /** One turn of the prefix loop: the entry at `i` goes, or the walk just passes it. */
  lemma PrefixStep<V>(es: seq<Entry<V>>, i: nat, prefix: string)
    requires i < |es| && Distinct(Walked(es, i, prefix))
    ensures var now, next := Walked(es, i, prefix), Walked(es, i + 1, prefix);
            next == if StartsWith(es[i].key, prefix) then Without(now, Key(es[i].key)) else now
  {
    var front := Without(es[..i], Prefix(prefix));
    WithoutSnoc(es, i, Prefix(prefix));
    assert es[i..] == [es[i]] + es[i + 1..];
    DeleteAt(front, es[i], es[i + 1..]);
  }
}
