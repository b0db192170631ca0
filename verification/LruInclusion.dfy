/**
 Two caches of different capacity that see the same operations at the same times: everything
 the small one answers, the large one answers too. No assumption on the capacities, the keys
 or the clock is needed.
 */
module LruInclusion {
  import opened Prelude
  import opened LruCache
  import opened LruCacheRuns

  /** `s` is `b` with some entries left out. */
  ghost predicate SubSeq<V>(s: seq<Entry<V>>, b: seq<Entry<V>>) {
    s == [] || (b != [] && ((s[0] == b[0] && SubSeq(s[1..], b[1..])) || SubSeq(s, b[1..])))
  }

  /** How a small and a large cache that saw the same operations are related. */
  ghost predicate Included<V>(small: Cache<V>, large: Cache<V>) {
    && Distinct(small.entries) && Distinct(large.entries)
    && SubSeq(small.entries, large.entries)
    && |large.entries| - |small.entries| <= large.maxEntries - small.maxEntries
    && (Lookup(large.entries, "").Some? ==> Lookup(small.entries, "").Some?)
  }

  // ---------------------------------------------------------------- embeddings

  lemma {:induction false} SubSeqContains<V>(s: seq<Entry<V>>, b: seq<Entry<V>>)
    requires SubSeq(s, b)
    ensures forall e <- s :: e in b
    ensures |s| <= |b|
    decreases |b|
  {
    if s != [] {
      if s[0] == b[0] && SubSeq(s[1..], b[1..]) {
        SubSeqContains(s[1..], b[1..]);
        assert s == [s[0]] + s[1..];
      } else {
        SubSeqContains(s, b[1..]);
      }
    }
  }

  lemma {:induction false} SubSeqSkip<V>(s: seq<Entry<V>>, b: seq<Entry<V>>)
    requires s != [] && SubSeq(s, b)
    ensures SubSeq(s[1..], b)
    decreases |b|
  {
    if !(s[0] == b[0] && SubSeq(s[1..], b[1..])) {
      SubSeqSkip(s, b[1..]);
    }
  }

  lemma {:induction false} SubSeqWithout<V>(s: seq<Entry<V>>, b: seq<Entry<V>>, t: Target)
    requires SubSeq(s, b)
    ensures SubSeq(Without(s, t), Without(b, t))
    ensures |Without(b, t)| - |Without(s, t)| <= |b| - |s|
    decreases |b|
  {
    if s == [] {
      WithoutKeeps(b, t);
    } else if s[0] == b[0] && SubSeq(s[1..], b[1..]) {
      SubSeqWithout(s[1..], b[1..], t);
    } else {
      SubSeqWithout(s, b[1..], t);
      if !t.Hits(b[0].key) {
        assert Without(b, t)[1..] == Without(b[1..], t);
      }
    }
  }

  lemma {:induction false} SubSeqAppend<V>(s: seq<Entry<V>>, b: seq<Entry<V>>, e: Entry<V>)
    requires SubSeq(s, b)
    ensures SubSeq(s + [e], b + [e]) && SubSeq(s, b + [e])
    decreases |b|
  {
    assert b != [] ==> (b + [e])[1..] == b[1..] + [e];
    assert s != [] ==> (s + [e])[1..] == s[1..] + [e];
    if b == [] {
      assert SubSeq((s + [e])[1..], (b + [e])[1..]);
    } else if s == [] {
      SubSeqAppend(s, b[1..], e);
    } else if s[0] == b[0] && SubSeq(s[1..], b[1..]) {
      SubSeqAppend(s[1..], b[1..], e);
    } else {
      SubSeqAppend(s, b[1..], e);
    }
  }

  /** The front of the large sequence, if it is in the small one at all, is its front too. */
  lemma FrontIsShared<V>(s: seq<Entry<V>>, b: seq<Entry<V>>)
    requires SubSeq(s, b) && b != [] && Distinct(b)
    ensures (s != [] && s[0] == b[0]) || SubSeq(s, b[1..])
    ensures SubSeq(s, b[1..]) ==> b[0] !in s
    ensures s != [] ==> SubSeq(s[1..], b[1..])
  {
    if SubSeq(s, b[1..]) {
      SubSeqContains(s, b[1..]);
      if s != [] { SubSeqSkip(s, b[1..]); }
    }
  }

  // ---------------------------------------------------------------- the empty key

  /** Whether an entry for the key is there after an operation. */
  lemma EmptyKeyAfter<V>(c: Cache<V>, op: Op<V>)
    requires Distinct(c.entries)
    ensures Lookup(Step(c, op).entries, "").Some? <==>
              match op
              case DoGet(k, now) =>
                Lookup(c.entries, "").Some? && !(k == "" && now > Lookup(c.entries, "").value.expiresAt)
              case DoSet(k, _, _, _) => Lookup(c.entries, "").Some? || k == ""
              case DoRemove(t) => Lookup(c.entries, "").Some? && !t.Hits("")
  {
    StepEntries(c, op);
    if Lookup(c.entries, "").Some? {
      LostExactlyWhen(c, Lookup(c.entries, "").value, op);
    } else if op.DoSet? && op.key == "" {
      assert Step(c, op).entries[|Step(c, op).entries| - 1] == Written(op);
    }
  }

  lemma LookupAgrees<V>(small: Cache<V>, large: Cache<V>, key: string)
    requires Included(small, large) && Lookup(small.entries, key).Some?
    ensures Lookup(large.entries, key) == Lookup(small.entries, key)
  {
    SubSeqContains(small.entries, large.entries);
    LookupFinds(large.entries, Lookup(small.entries, key).value);
  }

  lemma EmptyKeyFollows<V>(small: Cache<V>, large: Cache<V>, op: Op<V>)
    requires Included(small, large)
    ensures Lookup(Step(large, op).entries, "").Some? ==> Lookup(Step(small, op).entries, "").Some?
  {
    EmptyKeyAfter(small, op);
    EmptyKeyAfter(large, op);
    if Lookup(small.entries, "").Some? {
      LookupAgrees(small, large, "");
    }
  }

  // ---------------------------------------------------------------- steps

  lemma RemovalKeepsInclusion<V>(small: Cache<V>, large: Cache<V>, t: Target)
    requires Included(small, large)
    ensures Included(Remove(small, t), Remove(large, t))
  {
    SubSeqWithout(small.entries, large.entries, t);
    WithoutDistinct(small.entries, t);
    WithoutDistinct(large.entries, t);
    EmptyKeyFollows(small, large, DoRemove(t));
  }

  /** A hit of the small cache is a hit of the large one, and both move the same entry. */
  lemma GetKeepsInclusion<V>(small: Cache<V>, large: Cache<V>, key: string, now: real)
    requires Included(small, large)
    ensures Included(Get(small, key, now).0, Get(large, key, now).0)
    ensures Get(small, key, now).1.Some? ==> Get(large, key, now).1 == Get(small, key, now).1
  {
    var s, b := Lookup(small.entries, key), Lookup(large.entries, key);
    if s.Some? {
      LookupAgrees(small, large, key);
    } else {
      WithoutKeeps(small.entries, Key(key));
    }
    StepEntries(small, DoGet(key, now));
    StepEntries(large, DoGet(key, now));
    EmptyKeyFollows(small, large, DoGet(key, now));
    if b.Some? {
      var s', b' := Without(small.entries, Key(key)), Without(large.entries, Key(key));
      SubSeqWithout(small.entries, large.entries, Key(key));
      SubSeqAppend(s', b', b.value);
      WithoutOne(small.entries, key);
      WithoutOne(large.entries, key);
    }
  }

  /** Making room for one key: the large cache never drops what the small one keeps, and it
      never ends up further ahead than it was or than the capacities allow. */
  lemma MakeRoomKeepsEmbedding<V>(small: Cache<V>, large: Cache<V>, key: string)
    requires Included(small, large)
    ensures var s, b := MakeRoom(small, key).entries, MakeRoom(large, key).entries;
            SubSeq(s, b) && |b| - |s| <= large.maxEntries - small.maxEntries
  {
    SubSeqWithout(small.entries, large.entries, Key(key));
    WithoutOne(small.entries, key);
    WithoutOne(large.entries, key);
    if Lookup(small.entries, key).Some? {
      LookupAgrees(small, large, key);
    } else if Lookup(large.entries, key).Some? {
      WithoutKeeps(small.entries, Key(key));
      if small.entries != [] { SubSeqSkip(small.entries, Without(large.entries, Key(key))); }
    } else if large.entries != [] {
      FrontIsShared(small.entries, large.entries);
      if small.entries != [] { SubSeqSkip(small.entries, large.entries); }
      if large.entries[0].key == "" {
        LookupFinds(large.entries, large.entries[0]);
        LookupAgrees(small, large, "");
        assert large.entries[0] in small.entries;
      }
    }
  }

  lemma SetKeepsInclusion<V>(small: Cache<V>, large: Cache<V>, op: Op<V>)
    requires Included(small, large) && op.DoSet?
    ensures Included(Step(small, op), Step(large, op))
  {
    MakeRoomKeepsEmbedding(small, large, op.key);
    SubSeqAppend(MakeRoom(small, op.key).entries, MakeRoom(large, op.key).entries, Written(op));
    StepEntries(small, op);
    StepEntries(large, op);
    EmptyKeyFollows(small, large, op);
  }

  lemma StepKeepsInclusion<V>(small: Cache<V>, large: Cache<V>, op: Op<V>)
    requires Included(small, large)
    ensures Included(Step(small, op), Step(large, op))
    ensures Answer(small, op).Some? ==> Answer(large, op) == Answer(small, op)
  {
    match op
    case DoGet(k, now) => GetKeepsInclusion(small, large, k, now);
    case DoSet(_, _, _, _) => SetKeepsInclusion(small, large, op);
    case DoRemove(t) => RemovalKeepsInclusion(small, large, t);
  }

  lemma {:induction false} RunKeepsInclusion<V>(small: Cache<V>, large: Cache<V>, ops: seq<Op<V>>)
    requires Included(small, large)
    ensures Included(Run(small, ops), Run(large, ops))
  {
    if ops != [] {
      var before := ops[..|ops| - 1];
      RunKeepsInclusion(small, large, before);
      StepKeepsInclusion(Run(small, before), Run(large, before), ops[|ops| - 1]);
    }
  }

  // ---------------------------------------------------------------- the theorem

  /** No Belady anomaly: at every point of every run, whatever a cache of capacity `m` answers,
      a cache of capacity `n >= m` answers the same. */
  lemma HitsOfSmallAreHitsOfLarge<V>(m: int, n: int, ops: seq<Op<V>>, i: nat)
    requires m <= n && i < |ops|
    ensures var small, large := Run(Empty(m), ops[..i]), Run(Empty(n), ops[..i]);
            Answer(small, ops[i]).Some? ==> Answer(large, ops[i]) == Answer(small, ops[i])
  {
    RunKeepsInclusion(Empty<V>(m), Empty<V>(n), ops[..i]);
    StepKeepsInclusion(Run(Empty<V>(m), ops[..i]), Run(Empty<V>(n), ops[..i]), ops[i]);
  }
}
