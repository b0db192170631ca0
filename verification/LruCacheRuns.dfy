/** What holds over every run of one cache. */
module LruCacheRuns {
  import opened Prelude
  import opened LruCache

  ghost predicate Distinct<V>(es: seq<Entry<V>>) {
    forall i, j :: 0 <= i < j < |es| ==> es[i].key != es[j].key
  }

  // ---------------------------------------------------------------- removal

  lemma {:induction false} WithoutKeeps<V>(es: seq<Entry<V>>, t: Target)
    ensures forall e <- Without(es, t) :: e in es && !t.Hits(e.key)
    ensures forall e <- es :: !t.Hits(e.key) ==> e in Without(es, t)
    ensures |Without(es, t)| <= |es|
    ensures (forall e <- es :: !t.Hits(e.key)) ==> Without(es, t) == es
  {
    if es != [] {
      WithoutKeeps(es[1..], t);
      assert es == [es[0]] + es[1..];
    }
  }

  lemma {:induction false} WithoutDistinct<V>(es: seq<Entry<V>>, t: Target)
    requires Distinct(es)
    ensures Distinct(Without(es, t))
  {
    if es != [] {
      WithoutDistinct(es[1..], t);
      WithoutKeeps(es[1..], t);
      if !t.Hits(es[0].key) {
        assert forall x <- es[1..] :: x.key != es[0].key;
      }
    }
  }

  /** Removing one key removes at most one entry, exactly one when the key is there. */
  lemma {:induction false} WithoutOne<V>(es: seq<Entry<V>>, key: string)
    requires Distinct(es)
    ensures |Without(es, Key(key))| == |es| - if Lookup(es, key).Some? then 1 else 0
  {
    if es != [] {
      if es[0].key == key {
        WithoutKeeps(es[1..], Key(key));
      } else {
        WithoutOne(es[1..], key);
      }
    }
  }

  lemma LookupFinds<V>(es: seq<Entry<V>>, e: Entry<V>)
    requires Distinct(es) && e in es
    ensures Lookup(es, e.key) == Some(e)
  {
  }

  /** Putting an entry at the end in place of the ones with its key. */
  lemma MoveToEnd<V>(es: seq<Entry<V>>, e: Entry<V>)
    requires Distinct(es)
    ensures Distinct(Without(es, Key(e.key)) + [e])
    ensures forall x <- Without(es, Key(e.key)) + [e] :: x in es || x == e
  {
    WithoutDistinct(es, Key(e.key));
    WithoutKeeps(es, Key(e.key));
  }

  function Written<V>(op: Op<V>): Entry<V>
    requires op.DoSet?
  {
    Entry(op.key, op.value, op.now + op.ttlSec * 1000.0)
  }

  lemma WriteEntries<V>(c: Cache<V>, op: Op<V>)
    requires Distinct(c.entries) && op.DoSet?
    ensures Distinct(Step(c, op).entries)
    ensures forall e <- Step(c, op).entries :: e in c.entries || e == Written(op)
  {
    if Lookup(c.entries, op.key).Some? {
      MoveToEnd(c.entries, Written(op));
    }
  }

  /** The entries of a cache after one operation. */
  lemma StepEntries<V>(c: Cache<V>, op: Op<V>)
    requires Distinct(c.entries)
    ensures Distinct(Step(c, op).entries) && Step(c, op).maxEntries == c.maxEntries
    ensures forall e <- Step(c, op).entries :: e in c.entries || (op.DoSet? && e == Written(op))
  {
    match op
    case DoGet(k, now) =>
      WithoutDistinct(c.entries, Key(k));
      WithoutKeeps(c.entries, Key(k));
      if Lookup(c.entries, k).Some? {
        MoveToEnd(c.entries, Lookup(c.entries, k).value);
      }
    case DoSet(k, v, ttl, now) =>
      WriteEntries(c, op);
    case DoRemove(t) =>
      WithoutDistinct(c.entries, t);
      WithoutKeeps(c.entries, t);
  }

  lemma {:induction false} RunDistinct<V>(c: Cache<V>, ops: seq<Op<V>>)
    requires Distinct(c.entries)
    ensures Distinct(Run(c, ops).entries) && Run(c, ops).maxEntries == c.maxEntries
  {
    if ops != [] {
      RunDistinct(c, ops[..|ops| - 1]);
      StepEntries(Run(c, ops[..|ops| - 1]), ops[|ops| - 1]);
    }
  }

  // ---------------------------------------------------------------- agreement with a timed map

  /** The last write of `key` in a history, unless the key was removed after it. */
  function LastWrite<V>(ops: seq<Op<V>>, key: string): Option<Entry<V>> {
    if ops == [] then None
    else
      match ops[|ops| - 1]
      case DoGet(_, _) => LastWrite(ops[..|ops| - 1], key)
      case DoSet(k, v, ttl, now) =>
        if k == key then Some(Entry(k, v, now + ttl * 1000.0)) else LastWrite(ops[..|ops| - 1], key)
      case DoRemove(t) =>
        if t.Hits(key) then None else LastWrite(ops[..|ops| - 1], key)
  }

  lemma {:induction false} EntryIsLastWrite<V>(maxEntries: int, ops: seq<Op<V>>, e: Entry<V>)
    requires e in Run(Empty(maxEntries), ops).entries
    ensures LastWrite(ops, e.key) == Some(e)
  {
    if ops != [] {
      var before, op := ops[..|ops| - 1], ops[|ops| - 1];
      var prev := Run(Empty<V>(maxEntries), before);
      RunDistinct(Empty<V>(maxEntries), before);
      StepEntries(prev, op);
      if e in prev.entries {
        EntryIsLastWrite(maxEntries, before, e);
      }
      match op
      case DoGet(k, now) =>
      case DoSet(k, v, ttl, now) =>
        RunDistinct(Empty<V>(maxEntries), ops);
        LookupFinds(Step(prev, op).entries, e);
        LookupFinds(Step(prev, op).entries, Entry(k, v, now + ttl * 1000.0));
      case DoRemove(t) => WithoutKeeps(prev.entries, t);
    }
  }

  /** A hit is the last value written, not removed since and not past its expiry time. */
  lemma HitIsLastWrite<V>(maxEntries: int, ops: seq<Op<V>>, key: string, now: real)
    requires Get(Run(Empty(maxEntries), ops), key, now).1.Some?
    ensures var w := LastWrite(ops, key);
            && w.Some? && now <= w.value.expiresAt
            && Get(Run(Empty(maxEntries), ops), key, now).1 == Some(w.value.value)
  {
    EntryIsLastWrite(maxEntries, ops, Lookup(Run(Empty<V>(maxEntries), ops).entries, key).value);
  }

  lemma {:induction false} LookupWithout<V>(es: seq<Entry<V>>, key: string, t: Target)
    requires !t.Hits(key)
    ensures Lookup(Without(es, t), key) == Lookup(es, key)
  {
    if es != [] && es[0].key != key {
      LookupWithout(es[1..], key, t);
    }
  }

  lemma {:induction false} LookupAppend<V>(es: seq<Entry<V>>, key: string, e: Entry<V>)
    requires Lookup(es, key).Some?
    ensures Lookup(es + [e], key) == Lookup(es, key)
  {
    assert (es + [e])[1..] == es[1..] + [e];
    if es[0].key != key {
      LookupAppend(es[1..], key, e);
    }
  }

  lemma {:induction false} LookupRemoved<V>(es: seq<Entry<V>>, key: string, t: Target)
    requires t.Hits(key)
    ensures Lookup(Without(es, t), key).None?
  {
    WithoutKeeps(es, t);
  }

  lemma GetLoses<V>(c: Cache<V>, e: Entry<V>, key: string, now: real)
    requires Lookup(c.entries, e.key) == Some(e)
    ensures Lookup(Get(c, key, now).0.entries, e.key).None? <==> key == e.key && now > e.expiresAt
  {
    var rest := Without(c.entries, Key(key));
    if key == e.key {
      LookupRemoved(c.entries, key, Key(key));
    } else {
      LookupWithout(c.entries, e.key, Key(key));
      if Lookup(c.entries, key).Some? {
        LookupAppend(rest, e.key, Lookup(c.entries, key).value);
      }
    }
  }

  lemma WriteLoses<V>(c: Cache<V>, e: Entry<V>, op: Op<V>)
    requires Distinct(c.entries) && Lookup(c.entries, e.key) == Some(e) && op.DoSet?
    ensures Lookup(Step(c, op).entries, e.key).None? <==>
              Lookup(c.entries, op.key).None? && |c.entries| >= c.maxEntries && c.entries[0] == e && e.key != ""
  {
    var room := MakeRoom(c, op.key).entries;
    if op.key == e.key {
      LookupRemoved(c.entries, e.key, Key(op.key));
    } else {
      LookupWithout(c.entries, e.key, Key(op.key));
      if Lookup(room, e.key).Some? {
        LookupAppend(room, e.key, Written(op));
      }
    }
  }

  /** One operation loses a cached entry exactly when it removes the key, finds it expired, or
      writes a new key into a full cache whose least recently used entry this is. */
  lemma LostExactlyWhen<V>(c: Cache<V>, e: Entry<V>, op: Op<V>)
    requires Distinct(c.entries) && e in c.entries
    ensures Lookup(Step(c, op).entries, e.key).None? <==>
              match op
              case DoGet(k, now) => k == e.key && now > e.expiresAt
              case DoSet(k, _, _, _) =>
                Lookup(c.entries, k).None? && |c.entries| >= c.maxEntries && c.entries[0] == e && e.key != ""
              case DoRemove(t) => t.Hits(e.key)
  {
    LookupFinds(c.entries, e);
    match op
    case DoGet(k, now) => GetLoses(c, e, k, now);
    case DoSet(k, v, ttl, now) => WriteLoses(c, e, op);
    case DoRemove(t) =>
      if t.Hits(e.key) {
        LookupRemoved(c.entries, e.key, t);
      } else {
        LookupWithout(c.entries, e.key, t);
      }
  }

  // ---------------------------------------------------------------- size

  /** The number of entries a cache of this configuration is meant to hold. */
  function Capacity(maxEntries: int): nat {
    Max(1, maxEntries)
  }

  /** A write keeps the size within the capacity exactly when it does not need to evict an entry
      whose key is the empty string: that entry is never evicted. */
  lemma WriteStaysWithinCapacityIff<V>(c: Cache<V>, key: string, value: V, ttlSec: real, now: real)
    requires Distinct(c.entries) && |c.entries| <= Capacity(c.maxEntries)
    ensures |Set(c, key, value, ttlSec, now).entries| <= Capacity(c.maxEntries) <==>
            !(&& Lookup(c.entries, key).None? && |c.entries| >= c.maxEntries
              && c.entries != [] && c.entries[0].key == "")
  {
    WithoutOne(c.entries, key);
  }

  ghost predicate NoEmptyKey<V>(ops: seq<Op<V>>) {
    forall op <- ops :: op.DoSet? ==> op.key != ""
  }

  /** A run that never writes the empty key stays within the capacity. */
  lemma {:induction false} SizeBounded<V>(maxEntries: int, ops: seq<Op<V>>)
    requires NoEmptyKey(ops)
    ensures |Run(Empty(maxEntries), ops).entries| <= Capacity(maxEntries)
    ensures forall e <- Run(Empty(maxEntries), ops).entries :: e.key != ""
  {
    if ops != [] {
      var before, op := ops[..|ops| - 1], ops[|ops| - 1];
      var prev := Run(Empty<V>(maxEntries), before);
      SizeBounded(maxEntries, before);
      RunDistinct(Empty<V>(maxEntries), before);
      StepEntries(prev, op);
      match op
      case DoGet(k, now) => WithoutOne(prev.entries, k);
      case DoSet(k, v, ttl, now) =>
        assert op in ops;
        WriteStaysWithinCapacityIff(prev, k, v, ttl, now);
      case DoRemove(t) => WithoutKeeps(prev.entries, t);
    }
  }

  function Repeated(n: nat): (s: string)
    ensures |s| == n
  {
    if n == 0 then "" else Repeated(n - 1) + ['a']
  }

  function GrowingWrites(n: nat): seq<Op<int>> {
    if n == 0 then [] else GrowingWrites(n - 1) + [DoSet(Repeated(n - 1), 0, 1.0, 0.0)]
  }

  ghost predicate KeysGrow(es: seq<Entry<int>>) {
    forall i :: 0 <= i < |es| ==> |es[i].key| == i
  }

  lemma GrowingWriteEvictsNobody(c: Cache<int>, key: string)
    requires KeysGrow(c.entries) && |key| == |c.entries|
    ensures Set(c, key, 0, 1.0, 0.0).entries == c.entries + [Entry(key, 0, 0.0 + 1.0 * 1000.0)]
    ensures KeysGrow(Set(c, key, 0, 1.0, 0.0).entries)
  {
    assert Lookup(c.entries, key).None?;
    assert c.entries != [] ==> c.entries[0].key == "";
  }

  /** Once the empty key is the oldest entry, a cache of capacity one grows without bound. */
  lemma {:induction false} EmptyKeyUnbounded(n: nat)
    ensures var es := Run(Empty<int>(1), GrowingWrites(n)).entries;
            |es| == n && KeysGrow(es)
  {
    if n > 0 {
      EmptyKeyUnbounded(n - 1);
      var ops := GrowingWrites(n);
      assert ops[..|ops| - 1] == GrowingWrites(n - 1);
      GrowingWriteEvictsNobody(Run(Empty<int>(1), GrowingWrites(n - 1)), Repeated(n - 1));
    }
  }

  // ---------------------------------------------------------------- survival

  /** The other keys that a stretch of operations reads or writes. */
  function Touched<V>(ops: seq<Op<V>>, key: string): set<string> {
    if ops == [] then {}
    else
      Touched(ops[..|ops| - 1], key) +
      match ops[|ops| - 1]
      case DoGet(k, _) => if k == key then {} else {k}
      case DoSet(k, _, _, _) => if k == key then {} else {k}
      case DoRemove(_) => {}
  }

  /** The operation neither reads, nor writes, nor removes `key`. */
  predicate Leaves<V>(op: Op<V>, key: string) {
    match op
    case DoGet(k, _) => k != key
    case DoSet(k, _, _, _) => k != key
    case DoRemove(t) => !t.Hits(key)
  }

  /** The entries more recently used than `key`. */
  function Behind<V>(es: seq<Entry<V>>, key: string): seq<Entry<V>> {
    if es == [] then []
    else if es[0].key == key then es[1..]
    else Behind(es[1..], key)
  }

  lemma {:induction false} BehindWithout<V>(es: seq<Entry<V>>, key: string, t: Target)
    requires !t.Hits(key)
    ensures Behind(Without(es, t), key) == Without(Behind(es, key), t)
  {
    if es != [] && es[0].key != key {
      BehindWithout(es[1..], key, t);
    }
  }

  lemma {:induction false} BehindAppend<V>(es: seq<Entry<V>>, key: string, e: Entry<V>)
    requires Lookup(es, key).Some?
    ensures Behind(es + [e], key) == Behind(es, key) + [e]
  {
    assert (es + [e])[1..] == es[1..] + [e];
    if es[0].key != key {
      BehindAppend(es[1..], key, e);
    }
  }

  lemma {:induction false} BehindLast<V>(es: seq<Entry<V>>)
    requires es != [] && Distinct(es)
    ensures Behind(es, es[|es| - 1].key) == []
  {
    if |es| > 1 {
      BehindLast(es[1..]);
    }
  }

  lemma {:induction false} DistinctFitsIn<V>(es: seq<Entry<V>>, keys: set<string>)
    requires Distinct(es) && forall e <- es :: e.key in keys
    ensures |es| <= |keys|
  {
    if es != [] {
      DistinctFitsIn(es[1..], keys - {es[0].key});
    }
  }

  lemma SubsetSize(a: set<string>, b: set<string>)
    requires a <= b
    ensures |a| <= |b|
  {
    if a != b {
      assert b == a + (b - a);
    }
  }

  /** `e` is cached and every entry used after it has its key in `touched`. */
  ghost predicate HeldBehind<V>(es: seq<Entry<V>>, e: Entry<V>, touched: set<string>) {
    && Lookup(es, e.key) == Some(e)
    && forall x <- Behind(es, e.key) :: x.key in touched
  }

  lemma RemovalHolds<V>(es: seq<Entry<V>>, e: Entry<V>, touched: set<string>, t: Target)
    requires HeldBehind(es, e, touched) && !t.Hits(e.key)
    ensures HeldBehind(Without(es, t), e, touched)
  {
    LookupWithout(es, e.key, t);
    BehindWithout(es, e.key, t);
    WithoutKeeps(Behind(es, e.key), t);
  }

  lemma AppendHolds<V>(es: seq<Entry<V>>, e: Entry<V>, touched: set<string>, x: Entry<V>)
    requires HeldBehind(es, e, touched)
    ensures HeldBehind(es + [x], e, touched + {x.key})
  {
    LookupAppend(es, e.key, x);
    BehindAppend(es, e.key, x);
  }

  /** An operation that leaves `e` alone evicts it only when as many other keys as the cache
      holds have been touched since its last use. */
  lemma LeftAloneStays<V>(c: Cache<V>, e: Entry<V>, touched: set<string>, op: Op<V>)
    requires Distinct(c.entries) && HeldBehind(c.entries, e, touched) && Leaves(op, e.key)
    requires |touched + Touched([op], e.key)| < c.maxEntries
    ensures HeldBehind(Step(c, op).entries, e, touched + Touched([op], e.key))
  {
    var es := c.entries;
    assert Touched(([op])[..0], e.key) == {};
    match op
    case DoGet(k, now) =>
      RemovalHolds(es, e, touched, Key(k));
      if Lookup(es, k).Some? {
        AppendHolds(Without(es, Key(k)), e, touched, Lookup(es, k).value);
      }
    case DoSet(k, v, ttl, now) =>
      WriteHolds(c, e, touched, op);
    case DoRemove(t) =>
      RemovalHolds(es, e, touched, t);
  }

  /** The front entry has the whole cache behind it, so a cache that evicts it for a new key has
      seen `maxEntries` other keys. */
  lemma EvictionSpares<V>(c: Cache<V>, e: Entry<V>, touched: set<string>, op: Op<V>)
    requires Distinct(c.entries) && HeldBehind(c.entries, e, touched) && op.DoSet?
    requires Lookup(c.entries, op.key).None? && |touched + {op.key}| < c.maxEntries <= |c.entries|
    ensures c.entries[0].key != e.key && HeldBehind(c.entries[1..], e, touched)
  {
    var rest := c.entries[1..];
    if c.entries[0].key == e.key {
      assert forall x <- rest :: x.key in touched;
      DistinctFitsIn(rest + [Written(op)], touched + {op.key});
      assert false;
    }
  }

  lemma MakeRoomHolds<V>(c: Cache<V>, e: Entry<V>, touched: set<string>, op: Op<V>)
    requires Distinct(c.entries) && HeldBehind(c.entries, e, touched) && op.DoSet? && op.key != e.key
    requires |touched + {op.key}| < c.maxEntries
    ensures HeldBehind(MakeRoom(c, op.key).entries, e, touched)
  {
    if Lookup(c.entries, op.key).Some? {
      RemovalHolds(c.entries, e, touched, Key(op.key));
    } else if |c.entries| >= c.maxEntries {
      EvictionSpares(c, e, touched, op);
    }
  }

  lemma WriteHolds<V>(c: Cache<V>, e: Entry<V>, touched: set<string>, op: Op<V>)
    requires Distinct(c.entries) && HeldBehind(c.entries, e, touched) && op.DoSet? && op.key != e.key
    requires |touched + {op.key}| < c.maxEntries
    ensures HeldBehind(Step(c, op).entries, e, touched + {op.key})
  {
    MakeRoomHolds(c, e, touched, op);
    WriteAppends(c, op);
    AppendHolds(MakeRoom(c, op.key).entries, e, touched, Written(op));
  }

  lemma WriteAppends<V>(c: Cache<V>, op: Op<V>)
    requires op.DoSet?
    ensures Step(c, op).entries == MakeRoom(c, op.key).entries + [Written(op)]
  {
  }

  lemma {:induction false} LeftAloneSurvives<V>(c: Cache<V>, e: Entry<V>, ops: seq<Op<V>>)
    requires Distinct(c.entries) && c.entries != [] && c.entries[|c.entries| - 1] == e
    requires forall op <- ops :: Leaves(op, e.key)
    requires |Touched(ops, e.key)| < c.maxEntries
    ensures HeldBehind(Run(c, ops).entries, e, Touched(ops, e.key))
  {
    if ops == [] {
      BehindLast(c.entries);
      LookupFinds(c.entries, e);
    } else {
      var before, op := ops[..|ops| - 1], ops[|ops| - 1];
      assert op in ops && forall o <- before :: o in ops;
      SubsetSize(Touched(before, e.key), Touched(ops, e.key));
      LeftAloneSurvives(c, e, before);
      RunDistinct(c, before);
      assert ([op])[..0] == [];
      assert Touched(ops, e.key) == Touched(before, e.key) + Touched([op], e.key);
      LeftAloneStays(Run(c, before), e, Touched(before, e.key), op);
    }
  }

  /** A key just read or written is still a hit, with the same value, as long as it has not
      expired, nobody removed or rewrote it, and fewer than `maxEntries` other keys have been
      read or written since. */
  lemma RecentlyUsedIsHit<V>(maxEntries: int, ops: seq<Op<V>>, since: seq<Op<V>>, now: real, e: Entry<V>)
    requires var c := Run(Empty(maxEntries), ops);
             c.entries != [] && c.entries[|c.entries| - 1] == e
    requires forall op <- since :: Leaves(op, e.key)
    requires |Touched(since, e.key)| < maxEntries && now <= e.expiresAt
    ensures Get(Run(Run(Empty(maxEntries), ops), since), e.key, now).1 == Some(e.value)
  {
    var c := Run(Empty<V>(maxEntries), ops);
    RunDistinct(Empty<V>(maxEntries), ops);
    LeftAloneSurvives(c, e, since);
  }

  /** A hit and a write both put their key at the end, where the previous lemma picks it up. */
  lemma UseMovesToEnd<V>(c: Cache<V>, op: Op<V>)
    requires op.DoSet? || (op.DoGet? && Answer(c, op).Some?)
    ensures var es := Step(c, op).entries;
            && es != [] && es[|es| - 1].key == op.key
            && (op.DoGet? ==> es[|es| - 1] in c.entries && Answer(c, op) == Some(es[|es| - 1].value))
            && (op.DoSet? ==> es[|es| - 1].value == op.value)
  {
  }

  /** Counting only the keys inserted since the last use is not enough: here one key is
      inserted into a cache of two, and the key used last but one operation is gone. */
  lemma InsertionsAloneDoNotDecide()
    ensures var used := [DoSet("a", 1, 9.0, 0.0), DoSet("k", 2, 9.0, 0.0)];
            var since := [DoGet("a", 0.0), DoSet("b", 3, 9.0, 0.0)];
            var c := Run(Empty<int>(2), used);
            && c.entries[|c.entries| - 1].key == "k"
            && Lookup(Run(c, since).entries, "k").None?
  {
    var used := [DoSet("a", 1, 9.0, 0.0), DoSet("k", 2, 9.0, 0.0)];
    var a := Entry("a", 1, 9000.0);
    var k := Entry("k", 2, 9000.0);
    assert used[..1] == [used[0]] && used[..1][..0] == [];
    assert Run(Empty<int>(2), used[..1]).entries == [a];
    assert Run(Empty<int>(2), used).entries == [a, k];
    var c := Run(Empty<int>(2), used);
    var since := [DoGet("a", 0.0), DoSet("b", 3, 9.0, 0.0)];
    assert since[..1] == [since[0]] && since[..1][..0] == [];
    assert ([a, k])[1..] == [k] && ([k])[1..] == [];
    assert Without([k], Key("a")) == [k];
    assert Without([a, k], Key("a")) == [k];
    assert Run(c, since[..1]).entries == [k, a];
  }
}
