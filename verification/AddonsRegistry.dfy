/** After a reconciliation the registry mirrors the addons that are asked for streams. */
module AddonsRegistry {
  import opened Prelude
  import opened StableSort
  import opened Priority
  import opened FreshId
  import opened Addons

  /** Distinct ids that carry the prefix of addons. */
  ghost predicate WellNamed(addons: seq<Addon>) {
    DistinctIds(addons) && forall a <- addons :: Managed(a.id)
  }

  function Builds(addons: seq<Addon>): seq<Provider> {
    seq(|addons|, i requires 0 <= i < |addons| => Build(addons[i]))
  }

  /** The providers whose id is desired. */
  function Wanted(registry: seq<Provider>, desired: seq<string>): seq<Provider> {
    if registry == [] then []
    else (if registry[0].id in desired then [registry[0]] else []) + Wanted(registry[1..], desired)
  }

  // ---------------------------------------------------------------- one provider leaves

  lemma {:induction false} UnregisterSplits(registry: seq<Provider>, id: string)
    requires Managed(id)
    ensures Others(Unregister(registry, id)) == Others(registry)
    ensures OfAddons(Unregister(registry, id)) == Unregister(OfAddons(registry), id)
  {
    if registry != [] {
      UnregisterSplits(registry[1..], id);
      var rest := Unregister(registry[1..], id);
      if registry[0].id != id {
        assert Unregister(registry, id)[1..] == rest;
        if Managed(registry[0].id) {
          assert OfAddons(registry)[1..] == OfAddons(registry[1..]);
        } else {
          assert OfAddons(registry) == OfAddons(registry[1..]);
          assert OfAddons(Unregister(registry, id)) == OfAddons(rest);
        }
      } else {
        assert OfAddons(registry)[1..] == OfAddons(registry[1..]);
      }
    }
  }

  lemma {:induction false} UnregisterAllSplits(registry: seq<Provider>, ids: seq<string>)
    requires forall id <- ids :: Managed(id)
    ensures Others(UnregisterAll(registry, ids)) == Others(registry)
    ensures OfAddons(UnregisterAll(registry, ids)) == UnregisterAll(OfAddons(registry), ids)
    decreases |ids|
  {
    if ids != [] {
      UnregisterSplits(registry, ids[0]);
      UnregisterAllSplits(Unregister(registry, ids[0]), ids[1..]);
    }
  }

  lemma {:induction false} UnregisterMembers(registry: seq<Provider>, id: string)
    ensures forall p :: p in Unregister(registry, id) <==> p in registry && p.id != id
  {
    if registry != [] {
      UnregisterMembers(registry[1..], id);
      assert registry == [registry[0]] + registry[1..];
    }
  }

  /** Taking out one id after another keeps, in order, the providers with none of these ids. */
  function Spared(registry: seq<Provider>, ids: seq<string>): seq<Provider> {
    if registry == [] then []
    else (if registry[0].id in ids then [] else [registry[0]]) + Spared(registry[1..], ids)
  }

  lemma {:induction false} SparedStep(registry: seq<Provider>, ids: seq<string>)
    requires ids != []
    ensures Spared(registry, ids) == Spared(Unregister(registry, ids[0]), ids[1..])
  {
    if registry != [] {
      SparedStep(registry[1..], ids);
      assert ids == [ids[0]] + ids[1..];
      if registry[0].id != ids[0] {
        assert Unregister(registry, ids[0])[1..] == Unregister(registry[1..], ids[0]);
      }
    }
  }

  lemma {:induction false} SparedNone(registry: seq<Provider>)
    ensures Spared(registry, []) == registry
  {
    if registry != [] {
      SparedNone(registry[1..]);
    }
  }

  lemma {:induction false} UnregisterAllSpares(registry: seq<Provider>, ids: seq<string>)
    ensures UnregisterAll(registry, ids) == Spared(registry, ids)
    decreases |ids|
  {
    if ids == [] {
      SparedNone(registry);
    } else {
      UnregisterAllSpares(Unregister(registry, ids[0]), ids[1..]);
      SparedStep(registry, ids);
    }
  }

  lemma {:induction false} SparedWanted(registry: seq<Provider>, ids: seq<string>, desired: seq<string>)
    requires forall p <- registry :: p.id in ids <==> p.id !in desired
    ensures Spared(registry, ids) == Wanted(registry, desired)
  {
    if registry != [] {
      assert registry[0] in registry;
      assert forall p <- registry[1..] :: p in registry;
      SparedWanted(registry[1..], ids, desired);
    }
  }

  lemma {:induction false} SparedAll(registry: seq<Provider>, ids: seq<string>)
    requires forall p <- registry :: p.id in ids
    ensures Spared(registry, ids) == []
  {
    if registry != [] {
      assert registry[0] in registry;
      assert forall p <- registry[1..] :: p in registry;
      SparedAll(registry[1..], ids);
    }
  }

  // ---------------------------------------------------------------- providers arrive

  lemma {:induction false} SplitAppend(registry: seq<Provider>, p: Provider)
    ensures OfAddons(registry + [p]) == OfAddons(registry) + if Managed(p.id) then [p] else []
    ensures Others(registry + [p]) == Others(registry) + if Managed(p.id) then [] else [p]
  {
    if registry == [] {
      assert registry + [p] == [p] && ([p])[1..] == [];
    } else {
      assert (registry + [p])[1..] == registry[1..] + [p];
      SplitAppend(registry[1..], p);
    }
  }

  lemma {:induction false} SplitMembers(registry: seq<Provider>)
    ensures forall p :: p in OfAddons(registry) <==> p in registry && Managed(p.id)
  {
    if registry != [] {
      SplitMembers(registry[1..]);
      assert registry == [registry[0]] + registry[1..];
    }
  }

  lemma HasId(registry: seq<Provider>, id: string)
    ensures id in ProviderIds(registry) <==> exists p :: p in registry && p.id == id
  {
    if id in ProviderIds(registry) {
      var i :| 0 <= i < |registry| && ProviderIds(registry)[i] == id;
      assert registry[i] in registry;
    }
    if p :| p in registry && p.id == id {
      var i :| 0 <= i < |registry| && registry[i] == p;
      assert ProviderIds(registry)[i] == id;
    }
  }

  lemma SameManagedIds(registry: seq<Provider>, id: string)
    requires Managed(id)
    ensures id in ProviderIds(OfAddons(registry)) <==> id in ProviderIds(registry)
  {
    SplitMembers(registry);
    HasId(registry, id);
    HasId(OfAddons(registry), id);
  }

  lemma RegisterSplits(registry: seq<Provider>, a: Addon)
    requires Managed(a.id)
    ensures Others(Register(registry, a)) == Others(registry)
    ensures OfAddons(Register(registry, a)) == Register(OfAddons(registry), a)
  {
    SplitAppend(registry, Build(a));
    SameManagedIds(registry, a.id);
  }

  lemma {:induction false} RegisterAllSplits(registry: seq<Provider>, addons: seq<Addon>)
    requires forall a <- addons :: Managed(a.id)
    ensures Others(RegisterAll(registry, addons)) == Others(registry)
    ensures OfAddons(RegisterAll(registry, addons)) == RegisterAll(OfAddons(registry), addons)
    decreases |addons|
  {
    if addons != [] {
      RegisterSplits(registry, addons[0]);
      RegisterAllSplits(Register(registry, addons[0]), addons[1..]);
    }
  }

  /** Registering distinct addons of which none is there appends the live ones in order. */
  lemma {:induction false} RegisterAllAppends(registry: seq<Provider>, addons: seq<Addon>)
    requires DistinctIds(addons) && forall a <- addons :: a.id !in ProviderIds(registry)
    ensures RegisterAll(registry, addons) == registry + Builds(OnlyLive(addons))
    decreases |addons|
  {
    if addons != [] {
      var next := Register(registry, addons[0]);
      assert addons[0] in addons;
      forall a | a in addons[1..] ensures a.id !in ProviderIds(next) {
        assert a in addons;
        var i :| 0 <= i < |addons[1..]| && addons[1..][i] == a;
        assert addons[i + 1].id != addons[0].id;
        if Live(addons[0]) {
          assert ProviderIds(next) == ProviderIds(registry) + [addons[0].id];
        }
      }
      RegisterAllAppends(next, addons[1..]);
      if Live(addons[0]) {
        assert Builds(OnlyLive(addons)) == [Build(addons[0])] + Builds(OnlyLive(addons[1..]));
      }
    }
  }

  /** Registering addons that are all there changes nothing. */
  lemma {:induction false} RegisterAllPresent(registry: seq<Provider>, addons: seq<Addon>)
    requires forall a <- addons :: a.id in ProviderIds(registry)
    ensures RegisterAll(registry, addons) == registry
    decreases |addons|
  {
    if addons != [] {
      assert addons[0] in addons;
      assert forall a <- addons[1..] :: a in addons;
      RegisterAllPresent(registry, addons[1..]);
    }
  }

  // ---------------------------------------------------------------- the live addons

  lemma {:induction false} OnlyLiveMembers(addons: seq<Addon>)
    ensures forall a :: a in OnlyLive(addons) <==> a in addons && Live(a)
  {
    if addons != [] {
      OnlyLiveMembers(addons[1..]);
      assert addons == [addons[0]] + addons[1..];
    }
  }

  lemma {:induction false} OnlyLiveDistinct(addons: seq<Addon>)
    requires DistinctIds(addons)
    ensures DistinctIds(OnlyLive(addons))
  {
    if addons != [] {
      OnlyLiveDistinct(addons[1..]);
      OnlyLiveMembers(addons[1..]);
      forall a | a in OnlyLive(addons[1..]) ensures a.id != addons[0].id {
        var i :| 0 <= i < |addons[1..]| && addons[1..][i] == a;
        assert addons[i + 1] == a;
      }
    }
  }

  lemma {:induction false} OnlyLiveTwice(addons: seq<Addon>)
    requires forall a <- addons :: Live(a)
    ensures OnlyLive(addons) == addons
  {
    if addons != [] {
      assert addons[0] in addons;
      assert forall a <- addons[1..] :: a in addons;
      OnlyLiveTwice(addons[1..]);
    }
  }

  lemma StreamEnabledMembers(collate: Collation, addons: seq<Addon>)
    requires WellNamed(addons)
    ensures DistinctIds(StreamEnabled(collate, addons))
    ensures forall a :: a in StreamEnabled(collate, addons) <==> a in addons && Live(a)
    ensures OnlyLive(StreamEnabled(collate, addons)) == StreamEnabled(collate, addons)
  {
    SortedPlaces(collate, addons);
    OnlyLiveMembers(SortAddons(collate, addons));
    OnlyLiveDistinct(SortAddons(collate, addons));
    OnlyLiveTwice(StreamEnabled(collate, addons));
  }

  // ---------------------------------------------------------------- reconciliation

  lemma {:induction false} StaleIds(ids: seq<string>, desired: seq<string>)
    ensures forall id :: id in Stale(ids, desired) <==> id in ids && id !in desired && Managed(id)
  {
    if ids != [] {
      StaleIds(ids[1..], desired);
      assert ids == [ids[0]] + ids[1..];
    }
  }

  /** What is left of the addons' providers after the stale ones are gone. */
  lemma StaleGo(registry: seq<Provider>, desired: seq<string>)
    ensures var kept := UnregisterAll(registry, Stale(ProviderIds(registry), desired));
            Others(kept) == Others(registry) && OfAddons(kept) == Wanted(OfAddons(registry), desired)
  {
    var stale := Stale(ProviderIds(registry), desired);
    StaleIds(ProviderIds(registry), desired);
    UnregisterAllSplits(registry, stale);
    UnregisterAllSpares(OfAddons(registry), stale);
    SplitMembers(registry);
    forall p | p in OfAddons(registry) ensures p.id in stale <==> p.id !in desired {
      HasId(registry, p.id);
    }
    SparedWanted(OfAddons(registry), stale, desired);
  }

  /** Whether the wanted providers are not the desired ones in the desired order, so that all of
      them are built anew. */
  predicate Rebuilds(collate: Collation, addons: seq<Addon>, registry: seq<Provider>) {
    var desired := Ids(StreamEnabled(collate, addons));
    ProviderIds(Wanted(OfAddons(registry), desired)) != desired
  }

  /** A reconciliation either builds all providers of addons anew, in priority order, or keeps
      the wanted ones as they are. The other providers stay as they are. */
  lemma ReconcileDoes(collate: Collation, addons: seq<Addon>, registry: seq<Provider>)
    requires WellNamed(addons)
    ensures var ordered := StreamEnabled(collate, addons);
            var after := Reconcile(collate, addons, registry);
            && Others(after) == Others(registry)
            && OfAddons(after) == if Rebuilds(collate, addons, registry) then Builds(ordered)
                                  else Wanted(OfAddons(registry), Ids(ordered))
  {
    var ordered := StreamEnabled(collate, addons);
    var desired := Ids(ordered);
    var kept := UnregisterAll(registry, Stale(ProviderIds(registry), desired));
    StaleGo(registry, desired);
    StreamEnabledMembers(collate, addons);
    var current := ProviderIds(OfAddons(kept));
    if current != desired {
      AllGo(kept, current);
      var cleared := UnregisterAll(kept, current);
      RegisterAllSplits(cleared, ordered);
      RegisterAllAppends([], ordered);
      assert [] + Builds(OnlyLive(ordered)) == Builds(ordered);
    } else {
      RegisterAllSplits(kept, ordered);
      forall a | a in ordered ensures a.id in ProviderIds(OfAddons(kept)) {
        var i :| 0 <= i < |ordered| && ordered[i] == a;
        assert desired[i] == a.id;
      }
      RegisterAllPresent(OfAddons(kept), ordered);
    }
  }

  /** Unregistering every addon's provider leaves only the others. */
  lemma AllGo(registry: seq<Provider>, current: seq<string>)
    requires current == ProviderIds(OfAddons(registry))
    ensures Others(UnregisterAll(registry, current)) == Others(registry)
    ensures OfAddons(UnregisterAll(registry, current)) == []
  {
    var mine := OfAddons(registry);
    SplitMembers(registry);
    forall id | id in current ensures Managed(id) {
      HasId(mine, id);
    }
    UnregisterAllSplits(registry, current);
    UnregisterAllSpares(mine, current);
    forall p | p in mine ensures p.id in current {
      HasId(mine, p.id);
    }
    SparedAll(mine, current);
  }

  /** The registry lists the addons asked for streams, best first. */
  ghost predicate Mirrors(collate: Collation, addons: seq<Addon>, registry: seq<Provider>) {
    ProviderIds(OfAddons(registry)) == Ids(StreamEnabled(collate, addons))
  }

  /** Every addon's provider in the registry is built from that addon as it is now. */
  ghost predicate UpToDate(addons: seq<Addon>, registry: seq<Provider>) {
    forall p <- OfAddons(registry) ::
      && (exists a :: a in addons && a.id == p.id)
      && (forall a <- addons :: a.id == p.id ==> p == Build(a))
  }

  /** Whatever the registry was, a reconciliation makes it mirror the addons. */
  lemma ReconcileMirrors(collate: Collation, addons: seq<Addon>, registry: seq<Provider>)
    requires WellNamed(addons)
    ensures Mirrors(collate, addons, Reconcile(collate, addons, registry))
    ensures Others(Reconcile(collate, addons, registry)) == Others(registry)
  {
    ReconcileDoes(collate, addons, registry);
  }

  lemma {:induction false} WantedMembers(registry: seq<Provider>, desired: seq<string>)
    ensures forall p :: p in Wanted(registry, desired) <==> p in registry && p.id in desired
  {
    if registry != [] {
      WantedMembers(registry[1..], desired);
      assert registry == [registry[0]] + registry[1..];
    }
  }

  lemma HasAddon(addons: seq<Addon>, id: string)
    ensures id in Ids(addons) <==> exists a :: a in addons && a.id == id
  {
    if id in Ids(addons) {
      var i :| 0 <= i < |addons| && Ids(addons)[i] == id;
      assert addons[i] in addons;
    }
    if a :| a in addons && a.id == id {
      var i :| 0 <= i < |addons| && addons[i] == a;
      assert Ids(addons)[i] == id;
    }
  }

  /** Every provider that is wanted already is built from its addon as it is now. */
  ghost predicate WantedUpToDate(addons: seq<Addon>, registry: seq<Provider>) {
    forall p <- OfAddons(registry), a <- addons :: a.id == p.id && Live(a) ==> p == Build(a)
  }

  /** A reconciliation leaves every provider up to date exactly when it rebuilds them or those
      it keeps were up to date before: it does not look at what a provider was built from. */
  lemma ReconcileRefreshesIff(collate: Collation, addons: seq<Addon>, registry: seq<Provider>)
    requires WellNamed(addons)
    ensures UpToDate(addons, Reconcile(collate, addons, registry))
            <==> Rebuilds(collate, addons, registry) || WantedUpToDate(addons, registry)
  {
    ReconcileDoes(collate, addons, registry);
    StreamEnabledMembers(collate, addons);
    var ordered := StreamEnabled(collate, addons);
    var after := OfAddons(Reconcile(collate, addons, registry));
    if Rebuilds(collate, addons, registry) {
      BuildsUpToDate(addons, ordered);
    } else {
      WantedMembers(OfAddons(registry), Ids(ordered));
      forall p | p in after ensures exists a :: a in addons && a.id == p.id && Live(a) {
        HasAddon(ordered, p.id);
      }
      if UpToDate(addons, Reconcile(collate, addons, registry)) {
        forall p, a | p in OfAddons(registry) && a in addons && a.id == p.id && Live(a) ensures p == Build(a) {
          HasAddon(ordered, p.id);
          assert p in after;
        }
      }
      if WantedUpToDate(addons, registry) {
        forall p, a | p in after && a in addons && a.id == p.id ensures p == Build(a) {
          var b :| b in addons && b.id == p.id && Live(b);
          SameAddon(addons, a, b);
        }
      }
    }
  }

  lemma SameAddon(addons: seq<Addon>, a: Addon, b: Addon)
    requires DistinctIds(addons) && a in addons && b in addons && a.id == b.id
    ensures a == b
  {
  }

  lemma BuildsUpToDate(addons: seq<Addon>, ordered: seq<Addon>)
    requires DistinctIds(addons) && forall a <- ordered :: a in addons
    ensures forall p <- Builds(ordered) ::
              && (exists a :: a in addons && a.id == p.id)
              && (forall a <- addons :: a.id == p.id ==> p == Build(a))
  {
    forall p | p in Builds(ordered)
      ensures (exists a :: a in addons && a.id == p.id) && forall a <- addons :: a.id == p.id ==> p == Build(a)
    {
      var i :| 0 <= i < |ordered| && Builds(ordered)[i] == p;
      assert ordered[i] in ordered;
      forall a | a in addons && a.id == p.id ensures p == Build(a) { SameAddon(addons, a, ordered[i]); }
    }
  }
}
