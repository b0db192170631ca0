/** The order in which addons are tried: by their `order`, ties by name. */
module Priority {
  import opened StableSort

  /** An installed addon. `streams` says that its manifest offers streams; `body` stands for the
      manifest and the URLs a provider is built from. */
  datatype Addon = Addon(id: string, name: string, enabled: bool, streams: bool, order: int, timeout: int, body: int)

  /** The place of a name in the collation order of the runtime. Names that it cannot tell apart
      have the same place. */
  type Collation = string -> real

  predicate Precedes(collate: Collation, a: Addon, b: Addon) {
    a.order < b.order || (a.order == b.order && collate(a.name) <= collate(b.name))
  }

  function ByPriority(collate: Collation): (Addon, Addon) -> bool {
    (a, b) => Precedes(collate, a, b)
  }

  function SortAddons(collate: Collation, addons: seq<Addon>): seq<Addon> {
    Sort(ByPriority(collate), addons)
  }

  /** Where `x` first occurs. */
  function Position<T(==)>(s: seq<T>, x: T): (p: nat)
    ensures p <= |s| && (p < |s| <==> x in s)
    ensures p < |s| ==> s[p] == x
    ensures forall k :: 0 <= k < p ==> s[k] != x
  {
    if s == [] || s[0] == x then 0 else 1 + Position(s[1..], x)
  }

  /** Give every addon its place in the sorted list as its order; the list itself stays put. */
  function Renumber(collate: Collation, addons: seq<Addon>): seq<Addon> {
    seq(|addons|, i requires 0 <= i < |addons| =>
      addons[i].(order := Position(SortAddons(collate, addons), addons[i])))
  }

  // ---------------------------------------------------------------- distinctness

  ghost predicate DistinctIds(addons: seq<Addon>) {
    forall i, j :: 0 <= i < j < |addons| ==> addons[i].id != addons[j].id
  }

  ghost predicate DistinctOrders(addons: seq<Addon>) {
    forall i, j :: 0 <= i < j < |addons| ==> addons[i].order != addons[j].order
  }

  lemma PriorityIsPreorder(collate: Collation)
    ensures TotalPreorder(ByPriority(collate))
  {
  }

  lemma DistinctMultiset<T>(a: seq<T>, b: seq<T>)
    requires forall i, j :: 0 <= i < j < |a| ==> a[i] != a[j]
    requires multiset(a) == multiset(b)
    ensures forall i, j :: 0 <= i < j < |b| ==> b[i] != b[j]
  {
    forall i, j | 0 <= i < j < |b| ensures b[i] != b[j] {
      if b[i] == b[j] {
        CountedTwice(b, i, j);
        CountedOnce(a, b[i]);
      }
    }
  }

  lemma CountedTwice<T>(s: seq<T>, i: nat, j: nat)
    requires i < j < |s| && s[i] == s[j]
    ensures multiset(s)[s[i]] >= 2
  {
    assert s == s[..j] + [s[j]] + s[j + 1..];
    assert s[i] in s[..j] by { assert s[..j][i] == s[i]; }
    assert multiset(s) == multiset(s[..j]) + multiset{s[j]} + multiset(s[j + 1..]);
  }

  lemma {:induction false} CountedOnce<T>(s: seq<T>, x: T)
    requires forall i, j :: 0 <= i < j < |s| ==> s[i] != s[j]
    ensures multiset(s)[x] <= 1
  {
    if s != [] {
      assert s == [s[0]] + s[1..];
      CountedOnce(s[1..], x);
      if s[0] == x {
        assert x !in s[1..];
        assert multiset(s[1..])[x] == 0;
      }
    }
  }

  /** The sorted list has the same addons, each in one place. */
  lemma SortedPlaces(collate: Collation, addons: seq<Addon>)
    requires DistinctIds(addons)
    ensures |SortAddons(collate, addons)| == |addons|
    ensures DistinctIds(SortAddons(collate, addons))
    ensures forall a :: a in SortAddons(collate, addons) <==> a in addons
    ensures Sorted(ByPriority(collate), SortAddons(collate, addons))
  {
    var s := SortAddons(collate, addons);
    var le := ByPriority(collate);
    SortContents(le, addons);
    PriorityIsPreorder(collate);
    SortSorts(le, addons);
    forall a ensures a in s <==> a in addons { SortMembers(le, addons, a); }
    DistinctMultiset(addons, s);
    forall i, j | 0 <= i < j < |s| ensures s[i].id != s[j].id {
      assert s[i] in addons && s[j] in addons && s[i] != s[j];
    }
  }

  lemma RenumberedPlace(collate: Collation, addons: seq<Addon>, i: nat)
    requires DistinctIds(addons) && i < |addons|
    ensures var s, p := SortAddons(collate, addons), Renumber(collate, addons)[i].order;
            |s| == |addons| && 0 <= p < |s| && s[p] == addons[i]
  {
    SortedPlaces(collate, addons);
    assert addons[i] in addons;
  }

  /** Renumbering numbers the addons from zero without gaps, by priority, and changes nothing
      else about them. */
  lemma RenumberPlaces(collate: Collation, addons: seq<Addon>)
    requires DistinctIds(addons)
    ensures var r := Renumber(collate, addons);
            && |r| == |addons|
            && (forall i :: 0 <= i < |r| ==> r[i] == addons[i].(order := r[i].order) && 0 <= r[i].order < |r|)
            && DistinctIds(r) && DistinctOrders(r)
    ensures var r := Renumber(collate, addons);
            forall i, j :: 0 <= i < |r| && 0 <= j < |r| && r[i].order < r[j].order ==> Precedes(collate, addons[i], addons[j])
  {
    var s := SortAddons(collate, addons);
    var r := Renumber(collate, addons);
    forall i | 0 <= i < |r| ensures r[i] == addons[i].(order := r[i].order) && 0 <= r[i].order < |r| {
      RenumberedPlace(collate, addons, i);
    }
    forall i, j | 0 <= i < |r| && 0 <= j < |r| && r[i].order < r[j].order
      ensures Precedes(collate, addons[i], addons[j])
    {
      SortedPlaces(collate, addons);
      RenumberedPlace(collate, addons, i);
      RenumberedPlace(collate, addons, j);
      assert ByPriority(collate)(s[r[i].order], s[r[j].order]);
    }
    forall i, j | 0 <= i < j < |r| ensures r[i].order != r[j].order {
      RenumberedPlace(collate, addons, i);
      RenumberedPlace(collate, addons, j);
    }
  }

  lemma DistinctOrdersNoTie(collate: Collation, addons: seq<Addon>)
    requires DistinctOrders(addons)
    ensures NoTie(ByPriority(collate), addons)
    ensures StrictlySorted(ByPriority(collate), SortAddons(collate, addons))
    ensures forall i, j :: 0 <= i < j < |SortAddons(collate, addons)|
              ==> SortAddons(collate, addons)[i].order < SortAddons(collate, addons)[j].order
  {
    PriorityIsPreorder(collate);
    SortStrict(ByPriority(collate), addons);
    var s := SortAddons(collate, addons);
    forall i, j | 0 <= i < j < |s| ensures s[i].order < s[j].order {
      SortMembers(ByPriority(collate), addons, s[i]);
      SortMembers(ByPriority(collate), addons, s[j]);
      var x :| 0 <= x < |addons| && addons[x] == s[i];
      var y :| 0 <= y < |addons| && addons[y] == s[j];
      assert ByPriority(collate)(s[i], s[j]) && !ByPriority(collate)(s[j], s[i]);
    }
  }

  function Ids(addons: seq<Addon>): seq<string> {
    seq(|addons|, i requires 0 <= i < |addons| => addons[i].id)
  }

  /** The sorted list with its own positions as orders. */
  function Numbered(sorted: seq<Addon>): seq<Addon> {
    seq(|sorted|, k requires 0 <= k < |sorted| => sorted[k].(order := k))
  }

  lemma NumberedIsRenumbered(collate: Collation, addons: seq<Addon>, k: nat)
    requires DistinctIds(addons) && k < |addons|
    ensures |SortAddons(collate, addons)| == |addons|
    ensures Numbered(SortAddons(collate, addons))[k] in Renumber(collate, addons)
  {
    SortedPlaces(collate, addons);
    var s := SortAddons(collate, addons);
    assert s[k] in addons;
    var i :| 0 <= i < |addons| && addons[i] == s[k];
    assert Position(s, addons[i]) == k;
    assert Renumber(collate, addons)[i] == Numbered(s)[k];
  }

  lemma RenumberedIsNumbered(collate: Collation, addons: seq<Addon>, i: nat)
    requires DistinctIds(addons) && i < |addons|
    ensures Renumber(collate, addons)[i] in Numbered(SortAddons(collate, addons))
  {
    SortedPlaces(collate, addons);
    var s := SortAddons(collate, addons);
    assert addons[i] in s;
    assert Numbered(s)[Position(s, addons[i])] == Renumber(collate, addons)[i];
  }

  /** The list as users see it does not change when it is renumbered. */
  lemma RenumberKeepsList(collate: Collation, addons: seq<Addon>)
    requires DistinctIds(addons)
    ensures SortAddons(collate, Renumber(collate, addons)) == Numbered(SortAddons(collate, addons))
    ensures Ids(SortAddons(collate, Renumber(collate, addons))) == Ids(SortAddons(collate, addons))
  {
    var s := SortAddons(collate, addons);
    var r := Renumber(collate, addons);
    var le := ByPriority(collate);
    RenumberPlaces(collate, addons);
    DistinctOrdersNoTie(collate, r);
    var t := SortAddons(collate, r);
    forall a | a in Numbered(s) ensures a in t {
      SortContents(le, addons);
      var k :| 0 <= k < |s| && Numbered(s)[k] == a;
      NumberedIsRenumbered(collate, addons, k);
      SortMembers(le, r, a);
    }
    forall a | a in t ensures a in Numbered(s) {
      SortMembers(le, r, a);
      var i :| 0 <= i < |r| && r[i] == a;
      RenumberedIsNumbered(collate, addons, i);
    }
    assert StrictlySorted(le, Numbered(s));
    StrictOrderIsUnique(le, Numbered(s), t);
  }

  // ---------------------------------------------------------------- the priority index

  /** The index each id gets: its place in the sorted list, the last place if an id occurs twice. */
  function PriorityIndex(sorted: seq<Addon>): map<string, nat> {
    if sorted == [] then map[]
    else PriorityIndex(sorted[..|sorted| - 1])[sorted[|sorted| - 1].id := |sorted| - 1]
  }

  lemma {:induction false} IndexIsPlace(sorted: seq<Addon>)
    requires DistinctIds(sorted)
    ensures forall k :: 0 <= k < |sorted| ==> sorted[k].id in PriorityIndex(sorted) && PriorityIndex(sorted)[sorted[k].id] == k
    ensures forall id <- PriorityIndex(sorted) :: PriorityIndex(sorted)[id] < |sorted| && sorted[PriorityIndex(sorted)[id]].id == id
  {
    if sorted != [] {
      IndexIsPlace(sorted[..|sorted| - 1]);
    }
  }

  method PriorityIndexMap(collate: Collation, addons: seq<Addon>) returns (index: map<string, nat>)
    ensures index == PriorityIndex(SortAddons(collate, addons))
  {
    var sorted := SortAddons(collate, addons);
    index := map[];
    for i := 0 to |sorted|
      invariant index == PriorityIndex(sorted[..i])
    {
      assert sorted[..i + 1][..i] == sorted[..i];
      index := index[sorted[i].id := i];
    }
    assert sorted[..|sorted|] == sorted;
  }

  /** Every addon has an index, the indices run from zero without gaps, and a smaller index never
      goes to an addon that comes later. */
  lemma PriorityIndexRanks(collate: Collation, addons: seq<Addon>, a: Addon, b: Addon)
    requires DistinctIds(addons) && a in addons && b in addons
    ensures var index := PriorityIndex(SortAddons(collate, addons));
            && a.id in index && b.id in index && index[a.id] < |addons|
            && (index[a.id] == index[b.id] <==> a == b)
            && (index[a.id] < index[b.id] ==> Precedes(collate, a, b))
  {
    SortedPlaces(collate, addons);
    var s := SortAddons(collate, addons);
    IndexIsPlace(s);
    assert a in s && b in s;
    var i :| 0 <= i < |s| && s[i] == a;
    var j :| 0 <= j < |s| && s[j] == b;
    assert i < j ==> ByPriority(collate)(s[i], s[j]);
  }
}
