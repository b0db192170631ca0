/** Exactly how long a key survives in the cache after its last use. */
module LruSurvival {
  import opened Prelude
  import opened LruCache
  import opened LruCacheRuns

  /** The keys used after `key`, as a run from `c` leaves them: a hit and a write add their key, an
      expired read and a removal take keys out, and a read that finds nothing changes nothing. */
  function Fresher<V>(c: Cache<V>, ops: seq<Op<V>>, key: string): set<string> {
    if ops == [] then {}
    else Refreshed(Run(c, ops[..|ops| - 1]), Fresher(c, ops[..|ops| - 1], key), ops[|ops| - 1])
  }

  function Refreshed<V>(c: Cache<V>, fresher: set<string>, op: Op<V>): set<string> {
    match op
    case DoGet(k, now) =>
      (match Lookup(c.entries, k)
       case None => fresher
       case Some(e) => if now > e.expiresAt then fresher - {k} else fresher + {k})
    case DoSet(k, _, _, _) => fresher + {k}
    case DoRemove(t) => set k | k in fresher && !t.Hits(k)
  }

  /** At no moment of the run as many other keys are fresher as the cache holds. */
  predicate NeverFull<V>(c: Cache<V>, ops: seq<Op<V>>, key: string) {
    |Fresher(c, ops, key)| < Capacity(c.maxEntries) && (ops == [] || NeverFull(c, ops[..|ops| - 1], key))
  }

  ghost function KeysOf<V>(es: seq<Entry<V>>): set<string> {
    set e | e in es :: e.key
  }

  lemma {:induction false} KeysCount<V>(es: seq<Entry<V>>)
    requires Distinct(es)
    ensures |KeysOf(es)| == |es|
  {
    if es != [] {
      KeysCount(es[1..]);
      assert es == [es[0]] + es[1..];
      assert KeysOf(es) == KeysOf(es[1..]) + {es[0].key};
      assert es[0].key !in KeysOf(es[1..]);
    }
  }

  lemma KeysAppend<V>(es: seq<Entry<V>>, e: Entry<V>)
    ensures KeysOf(es + [e]) == KeysOf(es) + {e.key}
  {
  }

  lemma KeysWithout<V>(es: seq<Entry<V>>, t: Target)
    ensures KeysOf(Without(es, t)) == set k | k in KeysOf(es) && !t.Hits(k)
  {
    WithoutKeeps(es, t);
  }

  lemma {:induction false} BehindDistinct<V>(es: seq<Entry<V>>, key: string)
    requires Distinct(es)
    ensures Distinct(Behind(es, key)) && (Lookup(es, key).Some? ==> |Behind(es, key)| < |es|)
  {
    if es != [] && es[0].key != key { BehindDistinct(es[1..], key); }
  }

  // ---------------------------------------------------------------- one operation

  /** A cache within its capacity, without the empty key. */
  ghost predicate Sound<V>(c: Cache<V>) {
    Distinct(c.entries) && |c.entries| <= Capacity(c.maxEntries) && forall e <- c.entries :: e.key != ""
  }

  /** `e` is cached and `fresher` are the keys behind it. */
  ghost predicate HeldWith<V>(es: seq<Entry<V>>, e: Entry<V>, fresher: set<string>) {
    Lookup(es, e.key) == Some(e) && KeysOf(Behind(es, e.key)) == fresher
  }

  lemma HeldIsBelow<V>(c: Cache<V>, e: Entry<V>, fresher: set<string>)
    requires Sound(c) && HeldWith(c.entries, e, fresher)
    ensures |fresher| < Capacity(c.maxEntries)
  {
    BehindDistinct(c.entries, e.key);
    KeysCount(Behind(c.entries, e.key));
  }

  lemma SoundStays<V>(c: Cache<V>, op: Op<V>)
    requires Sound(c) && (op.DoSet? ==> op.key != "")
    ensures Sound(Step(c, op)) && Step(c, op).maxEntries == c.maxEntries
  {
    StepEntries(c, op);
    match op
    case DoGet(k, now) => WithoutOne(c.entries, k);
    case DoSet(k, v, ttl, now) => WriteStaysWithinCapacityIff(c, k, v, ttl, now);
    case DoRemove(t) => WithoutKeeps(c.entries, t);
  }

  lemma RemovalHeld<V>(es: seq<Entry<V>>, e: Entry<V>, fresher: set<string>, t: Target)
    requires HeldWith(es, e, fresher) && !t.Hits(e.key)
    ensures HeldWith(Without(es, t), e, set k | k in fresher && !t.Hits(k))
  {
    LookupWithout(es, e.key, t);
    BehindWithout(es, e.key, t);
    KeysWithout(Behind(es, e.key), t);
  }

  lemma OneOut(fresher: set<string>, k: string)
    ensures (set x | x in fresher && !Key(k).Hits(x)) == fresher - {k}
  {
  }

  lemma AppendHeld<V>(es: seq<Entry<V>>, e: Entry<V>, fresher: set<string>, x: Entry<V>)
    requires HeldWith(es, e, fresher)
    ensures HeldWith(es + [x], e, fresher + {x.key})
  {
    LookupAppend(es, e.key, x);
    BehindAppend(es, e.key, x);
    KeysAppend(Behind(es, e.key), x);
  }

  /** Taking a key out and putting it at the end. */
  lemma MoveHeld<V>(es: seq<Entry<V>>, e: Entry<V>, fresher: set<string>, x: Entry<V>)
    requires HeldWith(es, e, fresher) && x.key != e.key
    ensures HeldWith(Without(es, Key(x.key)) + [x], e, fresher + {x.key})
  {
    RemovalHeld(es, e, fresher, Key(x.key));
    OneOut(fresher, x.key);
    AppendHeld(Without(es, Key(x.key)), e, fresher - {x.key}, x);
    assert fresher - {x.key} + {x.key} == fresher + {x.key};
  }

  /** `e` is held with `fresher` behind it, or lost if that is as much as the cache holds. */
  ghost predicate HeldOrLost<V>(c: Cache<V>, e: Entry<V>, fresher: set<string>) {
    if |fresher| < Capacity(c.maxEntries) then HeldWith(c.entries, e, fresher) else Lookup(c.entries, e.key).None?
  }

  predicate WritesNewKey<V>(c: Cache<V>, op: Op<V>) {
    op.DoSet? && Lookup(c.entries, op.key).None?
  }

  lemma NewKeyIsNew<V>(c: Cache<V>, e: Entry<V>, fresher: set<string>, key: string)
    requires Sound(c) && HeldWith(c.entries, e, fresher) && Lookup(c.entries, key).None?
    ensures key !in fresher && |fresher + {key}| == |fresher| + 1
  {
    BehindMembers(c.entries, e.key);
  }

  /** A new key and no room, and `e` is at the front: everything else is fresher. */
  lemma FrontIsLost<V>(c: Cache<V>, e: Entry<V>, fresher: set<string>, op: Op<V>)
    requires Sound(c) && HeldWith(c.entries, e, fresher) && Leaves(op, e.key) && WritesNewKey(c, op)
    requires |c.entries| >= c.maxEntries && c.entries[0].key == e.key
    ensures |fresher| + 1 >= Capacity(c.maxEntries) && Lookup(Step(c, op).entries, e.key).None?
  {
    KeysCount(c.entries[1..]);
    assert Lookup(c.entries[1..] + [Written(op)], e.key).None?;
  }

  /** A new key, and there is room or somebody else at the front. */
  lemma NewKeyHeld<V>(c: Cache<V>, e: Entry<V>, fresher: set<string>, op: Op<V>)
    requires HeldWith(c.entries, e, fresher) && WritesNewKey(c, op)
    requires |c.entries| < c.maxEntries || c.entries[0].key != e.key
    ensures HeldWith(Step(c, op).entries, e, fresher + {op.key})
  {
    RoomHeld(c, e, fresher, op.key);
    AppendHeld(MakeRoom(c, op.key).entries, e, fresher, Written(op));
  }

  lemma RoomHeld<V>(c: Cache<V>, e: Entry<V>, fresher: set<string>, key: string)
    requires HeldWith(c.entries, e, fresher) && Lookup(c.entries, key).None?
    requires |c.entries| < c.maxEntries || c.entries[0].key != e.key
    ensures HeldWith(MakeRoom(c, key).entries, e, fresher)
  {
  }

  lemma {:induction false} BehindMembers<V>(es: seq<Entry<V>>, key: string)
    ensures forall e <- Behind(es, key) :: e in es
  {
    if es != [] && es[0].key != key { BehindMembers(es[1..], key); }
  }

  lemma ReadHeld<V>(c: Cache<V>, e: Entry<V>, fresher: set<string>, op: Op<V>)
    requires HeldWith(c.entries, e, fresher) && op.DoGet? && op.key != e.key
    ensures HeldWith(Step(c, op).entries, e, Refreshed(c, fresher, op))
  {
    if Lookup(c.entries, op.key).Some? {
      RemovalHeld(c.entries, e, fresher, Key(op.key));
      OneOut(fresher, op.key);
      MoveHeld(c.entries, e, fresher, Lookup(c.entries, op.key).value);
    }
  }

  /** Any operation that leaves `e` alone, except a write of a new key. */
  lemma OtherStepHeld<V>(c: Cache<V>, e: Entry<V>, fresher: set<string>, op: Op<V>)
    requires HeldWith(c.entries, e, fresher) && Leaves(op, e.key) && !WritesNewKey(c, op)
    ensures HeldWith(Step(c, op).entries, e, Refreshed(c, fresher, op))
  {
    match op
    case DoGet(k, now) => ReadHeld(c, e, fresher, op);
    case DoSet(k, v, ttl, now) => MoveHeld(c.entries, e, fresher, Written(op));
    case DoRemove(t) => RemovalHeld(c.entries, e, fresher, t);
  }

  lemma HeldIsNotLost<V>(c: Cache<V>, e: Entry<V>, fresher: set<string>)
    requires Sound(c) && HeldWith(c.entries, e, fresher)
    ensures HeldOrLost(c, e, fresher)
  {
    HeldIsBelow(c, e, fresher);
  }

  /** One operation that leaves `e` alone. */
  lemma StepHeld<V>(c: Cache<V>, e: Entry<V>, fresher: set<string>, op: Op<V>)
    requires Sound(c) && HeldWith(c.entries, e, fresher) && Leaves(op, e.key) && (op.DoSet? ==> op.key != "")
    ensures HeldOrLost(Step(c, op), e, Refreshed(c, fresher, op))
  {
    SoundStays(c, op);
    if !WritesNewKey(c, op) {
      OtherStepHeld(c, e, fresher, op);
      HeldIsNotLost(Step(c, op), e, Refreshed(c, fresher, op));
    } else if |c.entries| >= c.maxEntries && c.entries[0].key == e.key {
      NewKeyIsNew(c, e, fresher, op.key);
      FrontIsLost(c, e, fresher, op);
    } else {
      NewKeyHeld(c, e, fresher, op);
      HeldIsNotLost(Step(c, op), e, Refreshed(c, fresher, op));
    }
  }

  lemma LostStaysLost<V>(c: Cache<V>, key: string, op: Op<V>)
    requires Distinct(c.entries) && Lookup(c.entries, key).None? && Leaves(op, key)
    ensures Lookup(Step(c, op).entries, key).None?
  {
    StepEntries(c, op);
  }

  // ---------------------------------------------------------------- runs

  /** A run that leaves `e` alone keeps it exactly when it is never full. */
  lemma {:induction false} RunHeld<V>(c: Cache<V>, e: Entry<V>, ops: seq<Op<V>>)
    requires Sound(c) && HeldWith(c.entries, e, {}) && NoEmptyKey(ops) && forall op <- ops :: Leaves(op, e.key)
    ensures Sound(Run(c, ops)) && Run(c, ops).maxEntries == c.maxEntries
    ensures if NeverFull(c, ops, e.key) then HeldWith(Run(c, ops).entries, e, Fresher(c, ops, e.key))
            else Lookup(Run(c, ops).entries, e.key).None?
  {
    if ops == [] {
      HeldIsBelow(c, e, {});
    } else {
      var before, op := ops[..|ops| - 1], ops[|ops| - 1];
      assert op in ops && forall o <- before :: o in ops;
      RunHeld(c, e, before);
      SoundStays(Run(c, before), op);
      if NeverFull(c, before, e.key) {
        StepHeld(Run(c, before), e, Fresher(c, before, e.key), op);
      } else {
        LostStaysLost(Run(c, before), e.key, op);
      }
    }
  }

  /** Right after its last use a key is held with nothing fresher. */
  lemma LastUseHeld<V>(maxEntries: int, ops: seq<Op<V>>, e: Entry<V>)
    requires NoEmptyKey(ops)
    requires var c := Run(Empty(maxEntries), ops); c.entries != [] && c.entries[|c.entries| - 1] == e
    ensures var c := Run(Empty(maxEntries), ops); Sound(c) && HeldWith(c.entries, e, {}) && c.maxEntries == maxEntries
  {
    var c := Run(Empty<V>(maxEntries), ops);
    SizeBounded(maxEntries, ops);
    RunDistinct(Empty<V>(maxEntries), ops);
    BehindLast(c.entries);
    LookupFinds(c.entries, e);
    assert KeysOf<V>([]) == {};
  }

  /** How long a key survives: after its last use, in a run that does not touch or remove it, a
      read of it is a hit exactly when it has not expired and at no moment as many other keys were
      fresher as the cache holds. */
  lemma SurvivesIff<V>(maxEntries: int, ops: seq<Op<V>>, since: seq<Op<V>>, now: real, e: Entry<V>)
    requires NoEmptyKey(ops) && NoEmptyKey(since) && forall op <- since :: Leaves(op, e.key)
    requires var c := Run(Empty(maxEntries), ops); c.entries != [] && c.entries[|c.entries| - 1] == e
    ensures var c := Run(Empty(maxEntries), ops);
            Get(Run(c, since), e.key, now).1
            == if NeverFull(c, since, e.key) && now <= e.expiresAt then Some(e.value) else None
  {
    LastUseHeld(maxEntries, ops, e);
    RunHeld(Run(Empty<V>(maxEntries), ops), e, since);
  }

  // ---------------------------------------------------------------- runs that only use keys

  /** No removal, and no read that finds an expired entry. */
  predicate OnlyUses<V>(c: Cache<V>, ops: seq<Op<V>>) {
    ops == [] ||
    (OnlyUses(c, ops[..|ops| - 1])
     && match ops[|ops| - 1]
        case DoGet(k, now) =>
          var found := Lookup(Run(c, ops[..|ops| - 1]).entries, k);
          found.Some? ==> now <= found.value.expiresAt
        case DoSet(_, _, _, _) => true
        case DoRemove(_) => false)
  }

  /** The keys that a run hits or writes. */
  function Used<V>(c: Cache<V>, ops: seq<Op<V>>): set<string> {
    if ops == [] then {}
    else
      var before, op := ops[..|ops| - 1], ops[|ops| - 1];
      Used(c, before) + if op.DoSet? || Answer(Run(c, before), op).Some? then {op.key} else {}
  }

  lemma {:induction false} UsesOnlyGrow<V>(c: Cache<V>, ops: seq<Op<V>>, key: string)
    requires OnlyUses(c, ops)
    ensures Fresher(c, ops, key) == Used(c, ops)
    ensures NeverFull(c, ops, key) <==> |Used(c, ops)| < Capacity(c.maxEntries)
  {
    if ops != [] {
      UsesOnlyGrow(c, ops[..|ops| - 1], key);
      SubsetSize(Used(c, ops[..|ops| - 1]), Used(c, ops));
    }
  }

  /** With neither removals nor expired entries, a key survives exactly when fewer other keys than
      the cache holds have been hit or written since its last use. Reads that find nothing do not
      count, and neither do second uses. */
  lemma SurvivesUsesIff<V>(maxEntries: int, ops: seq<Op<V>>, since: seq<Op<V>>, e: Entry<V>)
    requires NoEmptyKey(ops) && NoEmptyKey(since) && forall op <- since :: Leaves(op, e.key)
    requires var c := Run(Empty(maxEntries), ops); c.entries != [] && c.entries[|c.entries| - 1] == e && OnlyUses(c, since)
    ensures var c := Run(Empty(maxEntries), ops);
            Lookup(Run(c, since).entries, e.key).Some? <==> |Used(c, since)| < Capacity(maxEntries)
  {
    var c := Run(Empty<V>(maxEntries), ops);
    LastUseHeld(maxEntries, ops, e);
    RunHeld(c, e, since);
    UsesOnlyGrow(c, since, e.key);
  }
}
