/** What the providers in the registry are built from, and the paths that follow the stored list
    instead of the priorities. */
module AddonsProviders {
  import opened Prelude
  import opened StableSort
  import opened Priority
  import opened FreshId
  import opened Addons
  import opened AddonsRegistry
  import opened AddonsRuns

  ghost predicate Current(m: Manager) {
    UpToDate(m.addons, m.registry)
  }

  // ---------------------------------------------------------------- up to date

  /** A provider that is not the one of `a` stays; the one of `a`, if any, is new. */
  lemma ReplacedUpToDate(old_: seq<Addon>, registry: seq<Provider>, addons: seq<Addon>, a: Addon)
    requires WellNamed(addons) && a in addons && UpToDate(old_, registry)
    requires forall b <- addons :: b.id != a.id ==> b in old_
    ensures WantedUpToDate(addons, Register(Unregister(registry, a.id), a))
  {
    ReplacedOthers(registry, a);
    UnregisterMembers(OfAddons(registry), a.id);
    var after := OfAddons(Register(Unregister(registry, a.id), a));
    forall p, b | p in after && b in addons && b.id == p.id && Live(b) ensures p == Build(b) {
      if b.id == a.id {
        SameAddon(addons, a, b);
      } else {
        assert p in OfAddons(registry);
      }
    }
  }

  /** Providers stay what their addons make of them when addons keep what a provider is built
      from. */
  lemma KeptUpToDate(old_: seq<Addon>, registry: seq<Provider>, addons: seq<Addon>)
    requires UpToDate(old_, registry)
    requires forall b <- addons :: b.id in Ids(old_) ==> exists a :: a in old_ && a.id == b.id && Build(a) == Build(b)
    ensures WantedUpToDate(addons, registry)
  {
    forall p, b | p in OfAddons(registry) && b in addons && b.id == p.id && Live(b) ensures p == Build(b) {
      HasAddon(old_, p.id);
      var a :| a in old_ && a.id == b.id && Build(a) == Build(b);
    }
  }

  lemma RenumberedUpToDate(collate: Collation, m: Manager, request: seq<string>)
    requires WellFormed(m) && Current(m)
    ensures WantedUpToDate(Reorder(collate, m, request).addons, m.registry)
  {
    ReorderPlaces(collate, m, request);
    var r := Reorder(collate, m, request).addons;
    forall b | b in r && b.id in Ids(m.addons)
      ensures exists a :: a in m.addons && a.id == b.id && Build(a) == Build(b)
    {
      var i :| 0 <= i < |r| && r[i] == b;
      assert m.addons[i] in m.addons && m.addons[i].id == b.id && Build(m.addons[i]) == Build(b);
    }
    KeptUpToDate(m.addons, m.registry, r);
  }

  lemma InstallUpToDate(collate: Collation, m: Manager, op: Op)
    requires WellFormed(m) && Current(m) && op.DoInstall?
    ensures WantedUpToDate(Step(collate, m, op).addons, m.registry)
  {
    FreshIsFree(op.base, Ids(m.addons));
    var after := Step(collate, m, op).addons;
    forall b | b in after && b.id in Ids(m.addons)
      ensures exists a :: a in m.addons && a.id == b.id && Build(a) == Build(b)
    {
      assert b in m.addons;
    }
    KeptUpToDate(m.addons, m.registry, after);
  }

  lemma EnabledUpToDate(collate: Collation, m: Manager, op: Op)
    requires WellFormed(m) && Current(m) && op.DoSetEnabled? && Find(m.addons, op.id) < |m.addons|
    ensures WantedUpToDate(Step(collate, m, op).addons, m.registry)
  {
    var i := Find(m.addons, op.id);
    var after := Step(collate, m, op).addons;
    forall b | b in after && b.id in Ids(m.addons)
      ensures exists a :: a in m.addons && a.id == b.id && Build(a) == Build(b)
    {
      var k :| 0 <= k < |after| && after[k] == b;
      assert m.addons[k] in m.addons && m.addons[k].id == b.id && Build(m.addons[k]) == Build(b);
    }
    KeptUpToDate(m.addons, m.registry, after);
  }

  /** The registry with the provider of one addon built anew, or as it is if the addon is off. */
  function Replaced(registry: seq<Provider>, a: Addon): seq<Provider> {
    Register(Unregister(registry, a.id), a)
  }

  lemma UpdatedUpToDate(m: Manager, i: nat, a: Addon)
    requires WellFormed(m) && Current(m) && i < |m.addons| && a.id == m.addons[i].id && a.order == m.addons[i].order
    ensures WantedUpToDate(m.addons[i := a], Replaced(m.registry, a))
    ensures !a.enabled ==> WantedUpToDate(m.addons[i := a], m.registry)
  {
    ReplaceKeeps(m.addons, i, a);
    var after := m.addons[i := a];
    assert after[i] in after;
    forall b | b in after && b.id != a.id ensures b in m.addons {
      var k :| 0 <= k < |after| && after[k] == b;
    }
    ReplacedUpToDate(m.addons, m.registry, after, a);
    if !a.enabled {
      forall p, b | p in OfAddons(m.registry) && b in after && b.id == p.id && Live(b) ensures p == Build(b) {
        if b.id == a.id { SameAddon(after, a, b); }
      }
    }
  }

  lemma RemovedUpToDate(m: Manager, id: string)
    requires WellFormed(m) && Current(m)
    ensures Current(Remove(m, id))
  {
    var i := Find(m.addons, id);
    if i < |m.addons| {
      assert m.addons[i] in m.addons;
      RemoveIsFilter(m.addons, id);
      FilterMembers(OtherThan(id), m.addons);
      UnregisterSplits(m.registry, id);
      UnregisterMembers(OfAddons(m.registry), id);
    }
  }

  /** Every mutation except a reload leaves all providers up to date. */
  lemma StepKeepsCurrent(collate: Collation, m: Manager, op: Op)
    requires WellFormed(m) && Current(m) && !op.DoReload?
    ensures Current(Step(collate, m, op))
  {
    StepKeepsWellFormed(collate, m, op);
    var after := Step(collate, m, op).addons;
    match op
    case DoInstall(_, _, _, _, _) =>
      InstallUpToDate(collate, m, op);
      ReconcileRefreshesIff(collate, after, m.registry);
    case DoUpdate(id, _, _, _) =>
      var i := Find(m.addons, id);
      if i < |m.addons| {
        UpdatedUpToDate(m, i, after[i]);
        ReconcileRefreshesIff(collate, after, if after[i].enabled then Replaced(m.registry, after[i]) else m.registry);
      }
    case DoRemove(id) => RemovedUpToDate(m, id);
    case DoSetEnabled(id, _) =>
      if Find(m.addons, id) < |m.addons| {
        EnabledUpToDate(collate, m, op);
        ReconcileRefreshesIff(collate, after, m.registry);
      }
    case DoSetTimeout(id, _) =>
      var i := Find(m.addons, id);
      if i < |m.addons| {
        UpdatedUpToDate(m, i, after[i]);
        ReconcileRefreshesIff(collate, after, Replaced(m.registry, after[i]));
      }
    case DoReorder(request) =>
      RenumberedUpToDate(collate, m, request);
      ReconcileRefreshesIff(collate, after, m.registry);
    case DoGrants => GrantsBuild(m);
  }

  // ---------------------------------------------------------------- building in list order

  function Enabled(addons: seq<Addon>): seq<string> {
    if addons == [] then [] else (if addons[0].enabled then [addons[0].id] else []) + Enabled(addons[1..])
  }

  lemma {:induction false} EnabledMembers(addons: seq<Addon>)
    ensures forall id :: id in Enabled(addons) <==> exists a :: a in addons && a.enabled && a.id == id
  {
    if addons != [] {
      EnabledMembers(addons[1..]);
      assert addons == [addons[0]] + addons[1..];
    }
  }

  lemma {:induction false} SparedAppend(registry: seq<Provider>, p: Provider, ids: seq<string>)
    requires p.id !in ids
    ensures Spared(registry + [p], ids) == Spared(registry, ids) + [p]
  {
    if registry == [] {
      assert registry + [p] == [p] && ([p])[1..] == [];
    } else {
      assert (registry + [p])[1..] == registry[1..] + [p];
      SparedAppend(registry[1..], p, ids);
    }
  }

  /** One enabled addon after another goes to the end of the registry. */
  lemma {:induction false} RebuildIs(mine: seq<Provider>, addons: seq<Addon>)
    requires DistinctIds(addons)
    ensures Rebuild(mine, addons) == Spared(mine, Enabled(addons)) + Builds(OnlyLive(addons))
    decreases |addons|
  {
    if addons == [] {
      SparedNone(mine);
      assert Builds(OnlyLive(addons)) == [];
    } else {
      var a := addons[0];
      var rest := addons[1..];
      if a.enabled {
        RebuildStep(mine, addons);
      } else {
        RebuildIs(mine, rest);
        assert Enabled(addons) == Enabled(rest);
        assert OnlyLive(addons) == OnlyLive(rest);
      }
    }
  }

  lemma FirstIsGone(mine: seq<Provider>, addons: seq<Addon>)
    requires DistinctIds(addons) && addons != []
    ensures addons[0].id !in ProviderIds(Unregister(mine, addons[0].id))
    ensures addons[0].id !in Enabled(addons[1..])
  {
    UnregisterMembers(mine, addons[0].id);
    HasId(Unregister(mine, addons[0].id), addons[0].id);
    EnabledMembers(addons[1..]);
  }

  lemma RebuildStep(mine: seq<Provider>, addons: seq<Addon>)
    requires DistinctIds(addons) && addons != [] && addons[0].enabled
    ensures Rebuild(mine, addons) == Spared(mine, Enabled(addons)) + Builds(OnlyLive(addons))
    decreases |addons|, 0
  {
    var a := addons[0];
    var rest := addons[1..];
    var without := Unregister(mine, a.id);
    var next := Register(without, a);
    RebuildIs(next, rest);
    SparedStep(mine, Enabled(addons));
    assert Enabled(addons)[1..] == Enabled(rest);
    FirstIsGone(mine, addons);
    if a.streams {
      SparedAppend(without, Build(a), Enabled(rest));
      assert Builds(OnlyLive(addons)) == [Build(a)] + Builds(OnlyLive(rest));
    } else {
      assert OnlyLive(addons) == OnlyLive(rest);
    }
  }

  lemma {:induction false} RebuildSplits(registry: seq<Provider>, addons: seq<Addon>)
    requires forall a <- addons :: Managed(a.id)
    ensures Others(Rebuild(registry, addons)) == Others(registry)
    ensures OfAddons(Rebuild(registry, addons)) == Rebuild(OfAddons(registry), addons)
    decreases |addons|
  {
    if addons != [] {
      assert addons[0] in addons;
      assert forall a <- addons[1..] :: a in addons;
      if addons[0].enabled {
        ReplacedOthers(registry, addons[0]);
        RebuildSplits(Replaced(registry, addons[0]), addons[1..]);
      } else {
        RebuildSplits(registry, addons[1..]);
      }
    }
  }

  lemma {:induction false} SparedMembers(registry: seq<Provider>, ids: seq<string>)
    ensures forall p :: p in Spared(registry, ids) <==> p in registry && p.id !in ids
  {
    if registry != [] {
      SparedMembers(registry[1..], ids);
      assert registry == [registry[0]] + registry[1..];
    }
  }

  lemma GrantsBuild(m: Manager)
    requires WellFormed(m) && Current(m)
    ensures Current(SetPlaybackGrants(m))
    ensures Others(SetPlaybackGrants(m).registry) == Others(m.registry)
  {
    RebuildSplits(m.registry, m.addons);
    RebuildIs(OfAddons(m.registry), m.addons);
    SparedMembers(OfAddons(m.registry), Enabled(m.addons));
    OnlyLiveMembers(m.addons);
    BuildsUpToDate(m.addons, OnlyLive(m.addons));
  }

  // ---------------------------------------------------------------- whole runs

  lemma StepKeepsOthers(collate: Collation, m: Manager, op: Op)
    requires WellFormed(m) && Sound(op)
    ensures Others(Step(collate, m, op).registry) == Others(m.registry)
  {
    if Reconciles(m, op) {
      ReconcilingStepMirrors(collate, m, op);
    } else if op.DoRemove? && Find(m.addons, op.id) < |m.addons| {
      assert m.addons[Find(m.addons, op.id)] in m.addons;
      UnregisterSplits(m.registry, op.id);
    } else if op.DoGrants? {
      RebuildSplits(m.registry, m.addons);
    }
  }

  /** Providers that do not belong to addons are never touched, in any run. */
  lemma {:induction false} OthersAreUntouched(collate: Collation, m: Manager, ops: seq<Op>)
    requires WellFormed(m) && forall op <- ops :: Sound(op)
    ensures Others(Run(collate, m, ops).registry) == Others(m.registry)
    decreases |ops|
  {
    if ops != [] {
      StepKeepsWellFormed(collate, m, ops[0]);
      StepKeepsOthers(collate, m, ops[0]);
      OthersAreUntouched(collate, Step(collate, m, ops[0]), ops[1..]);
    }
  }

  lemma {:induction false} RunKeepsCurrent(collate: Collation, m: Manager, ops: seq<Op>)
    requires WellFormed(m) && Current(m) && forall op <- ops :: !op.DoReload?
    ensures WellFormed(Run(collate, m, ops)) && Current(Run(collate, m, ops))
    decreases |ops|
  {
    if ops != [] {
      StepKeepsWellFormed(collate, m, ops[0]);
      StepKeepsCurrent(collate, m, ops[0]);
      RunKeepsCurrent(collate, Step(collate, m, ops[0]), ops[1..]);
    }
  }

  /** From start-up on, and as long as nothing is reloaded, every provider in the registry is
      built from its addon as it is now. */
  lemma ProvidersAreUpToDate(collate: Collation, stored: seq<Addon>, revision: nat, registry: seq<Provider>, ops: seq<Op>)
    requires WellNamed(stored) && OfAddons(registry) == []
    requires forall op <- ops :: !op.DoReload?
    ensures Current(Run(collate, Init(collate, stored, revision, registry), ops))
  {
    InitBuilds(collate, stored, revision, registry);
    var m := Init(collate, stored, revision, registry);
    OnlyLiveMembers(m.addons);
    BuildsUpToDate(m.addons, OnlyLive(m.addons));
    RunKeepsCurrent(collate, m, ops);
  }

  lemma InitBuilds(collate: Collation, stored: seq<Addon>, revision: nat, registry: seq<Provider>)
    requires WellNamed(stored) && OfAddons(registry) == []
    ensures WellFormed(Init(collate, stored, revision, registry))
    ensures Others(Init(collate, stored, revision, registry).registry) == Others(registry)
    ensures var m := Init(collate, stored, revision, registry); OfAddons(m.registry) == Builds(OnlyLive(m.addons))
  {
    RenumberKeeps(collate, stored);
    var m := Init(collate, stored, revision, registry);
    RegisterAllSplits(registry, m.addons);
    RegisterAllAppends([], m.addons);
  }

  // ---------------------------------------------------------------- list order and priority order

  /** The live addons stand in the stored list in the order of their priority. */
  ghost predicate ListedByPriority(collate: Collation, addons: seq<Addon>) {
    forall i, j :: 0 <= i < j < |addons| && Live(addons[i]) && Live(addons[j]) ==> Precedes(collate, addons[i], addons[j])
  }

  lemma {:induction false} OnlyLiveBefore(addons: seq<Addon>, a: Addon, b: Addon)
    requires DistinctIds(addons)
    ensures Before(OnlyLive(addons), a, b) <==> Before(addons, a, b) && Live(a) && Live(b)
  {
    if addons != [] {
      OnlyLiveBefore(addons[1..], a, b);
      OnlyLiveMembers(addons[1..]);
      BeforeSplits(addons, a, b);
      if Live(addons[0]) {
        assert OnlyLive(addons)[1..] == OnlyLive(addons[1..]);
        BeforeSplits(OnlyLive(addons), a, b);
      } else {
        assert OnlyLive(addons) == OnlyLive(addons[1..]);
      }
    }
  }

  lemma BeforeSplits(s: seq<Addon>, a: Addon, b: Addon)
    requires s != []
    ensures Before(s, a, b) <==> (s[0] == a && b in s[1..]) || Before(s[1..], a, b)
  {
    assert s == [s[0]] + s[1..];
    if (s[0] == a && b in s[1..]) || Before(s[1..], a, b) {
      BeforeCons(s[0], s[1..], a, b);
    }
    if p, q :| 0 <= p < q < |s| && s[p] == a && s[q] == b {
      assert s[1..][q - 1] == b;
      if p > 0 { assert s[1..][p - 1] == a; }
    }
  }

  /** Sorting leaves the live addons where they are exactly when they stand in priority order. */
  lemma ListOrderIsPriorityIff(collate: Collation, addons: seq<Addon>)
    requires WellNamed(addons)
    ensures Ids(OnlyLive(addons)) == Ids(StreamEnabled(collate, addons)) <==> ListedByPriority(collate, addons)
  {
    var ordered := StreamEnabled(collate, addons);
    var live := OnlyLive(addons);
    SortedPlaces(collate, addons);
    StreamEnabledMembers(collate, addons);
    OnlyLiveMembers(addons);
    OnlyLiveDistinct(addons);
    if ListedByPriority(collate, addons) {
      SortedIsSame(collate, addons);
    }
    if Ids(live) == Ids(ordered) {
      SameIdsSame(live, ordered, addons);
      SameIsSorted(collate, addons);
    }
  }

  lemma SameIsSorted(collate: Collation, addons: seq<Addon>)
    requires WellNamed(addons) && StreamEnabled(collate, addons) == OnlyLive(addons)
    ensures ListedByPriority(collate, addons)
  {
    var s := SortAddons(collate, addons);
    SortedPlaces(collate, addons);
    forall i, j | 0 <= i < j < |addons| && Live(addons[i]) && Live(addons[j])
      ensures Precedes(collate, addons[i], addons[j])
    {
      assert Before(addons, addons[i], addons[j]);
      SameIsBefore(addons, s, addons[i], addons[j]);
      var p, q :| 0 <= p < q < |s| && s[p] == addons[i] && s[q] == addons[j];
      assert ByPriority(collate)(s[p], s[q]);
    }
  }

  lemma SameIsBefore(addons: seq<Addon>, s: seq<Addon>, a: Addon, b: Addon)
    requires DistinctIds(addons) && DistinctIds(s)
    requires OnlyLive(addons) == OnlyLive(s) && Live(a) && Live(b) && Before(addons, a, b)
    ensures Before(s, a, b)
  {
    OnlyLiveBefore(addons, a, b);
    OnlyLiveBefore(s, a, b);
  }

  lemma SameIdsSame(a: seq<Addon>, b: seq<Addon>, addons: seq<Addon>)
    requires DistinctIds(addons) && Ids(a) == Ids(b)
    requires (forall x <- a :: x in addons) && (forall x <- b :: x in addons)
    ensures a == b
  {
    assert |a| == |Ids(a)| && |b| == |Ids(b)|;
    forall i | 0 <= i < |a| ensures a[i] == b[i] {
      assert Ids(a)[i] == Ids(b)[i];
      assert a[i] in a && b[i] in b;
      SameAddon(addons, a[i], b[i]);
    }
  }

  function IsLive(): Addon -> bool { (a: Addon) => Live(a) }

  lemma {:induction false} LiveIsFilter(addons: seq<Addon>)
    ensures OnlyLive(addons) == Filter(IsLive(), addons)
  {
    if addons != [] { LiveIsFilter(addons[1..]); }
  }

  /** A list that is in order stays as it is. */
  lemma {:induction false} SortedStays(collate: Collation, s: seq<Addon>)
    requires forall i, j :: 0 <= i < j < |s| ==> Precedes(collate, s[i], s[j])
    ensures SortAddons(collate, s) == s
  {
    if s != [] {
      SortedStays(collate, s[1..]);
    }
  }

  lemma SortedIsSame(collate: Collation, addons: seq<Addon>)
    requires WellNamed(addons) && ListedByPriority(collate, addons)
    ensures StreamEnabled(collate, addons) == OnlyLive(addons)
  {
    var le := ByPriority(collate);
    PriorityIsPreorder(collate);
    SortFilter(le, IsLive(), addons);
    LiveIsFilter(addons);
    LiveIsFilter(SortAddons(collate, addons));
    var live := OnlyLive(addons);
    forall i, j | 0 <= i < j < |live| ensures Precedes(collate, live[i], live[j]) {
      assert Before(live, live[i], live[j]);
      OnlyLiveBefore(addons, live[i], live[j]);
      var p, q :| 0 <= p < q < |addons| && addons[p] == live[i] && addons[q] == live[j];
    }
    SortedStays(collate, live);
  }

  /** Renumbering agrees with the order of two addons that come in this order in the list. */
  lemma RenumberAgrees(collate: Collation, addons: seq<Addon>, i: nat, j: nat)
    requires WellNamed(addons) && i < j < |addons|
    ensures var r := Renumber(collate, addons);
            Precedes(collate, r[i], r[j]) <==> Precedes(collate, addons[i], addons[j])
  {
    RenumberPlaces(collate, addons);
    var r := Renumber(collate, addons);
    assert r[i].order != r[j].order;
    if Precedes(collate, addons[i], addons[j]) {
      var s := SortAddons(collate, addons);
      SortedPlaces(collate, addons);
      SortKeepsBefore(ByPriority(collate), addons, i, j);
      var p, q :| 0 <= p < q < |s| && s[p] == addons[i] && s[q] == addons[j];
      assert addons[i] in addons && addons[j] in addons;
      assert r[i].order == p && r[j].order == q;
    }
  }

  /** Start-up registers in the order of the stored list, so the registry follows the priorities
      exactly when the live addons were stored in that order. */
  lemma InitMirrorsIff(collate: Collation, stored: seq<Addon>, revision: nat, registry: seq<Provider>)
    requires WellNamed(stored) && OfAddons(registry) == []
    ensures InSync(collate, Init(collate, stored, revision, registry)) <==> ListedByPriority(collate, stored)
  {
    InitBuilds(collate, stored, revision, registry);
    RenumberPlaces(collate, stored);
    var m := Init(collate, stored, revision, registry);
    ListOrderIsPriorityIff(collate, m.addons);
    BuildIds(OnlyLive(m.addons));
    forall i, j | 0 <= i < j < |stored|
      ensures Precedes(collate, m.addons[i], m.addons[j]) <==> Precedes(collate, stored[i], stored[j])
    {
      RenumberAgrees(collate, stored, i, j);
    }
  }

  lemma BuildIds(addons: seq<Addon>)
    ensures ProviderIds(Builds(addons)) == Ids(addons)
  {
  }

  /** Setting the playback grants registers anew in the order of the list: a registry that was in
      step stays so exactly when the live addons stand in the list by priority. */
  lemma GrantsMirrorIff(collate: Collation, m: Manager)
    requires WellFormed(m) && InSync(collate, m)
    ensures InSync(collate, SetPlaybackGrants(m)) <==> ListedByPriority(collate, m.addons)
  {
    var mine := OfAddons(m.registry);
    RebuildSplits(m.registry, m.addons);
    RebuildIs(mine, m.addons);
    StreamEnabledMembers(collate, m.addons);
    EnabledMembers(m.addons);
    forall p | p in mine ensures p.id in Enabled(m.addons) {
      HasId(mine, p.id);
      HasAddon(StreamEnabled(collate, m.addons), p.id);
    }
    SparedAll(mine, Enabled(m.addons));
    assert [] + Builds(OnlyLive(m.addons)) == Builds(OnlyLive(m.addons));
    BuildIds(OnlyLive(m.addons));
    ListOrderIsPriorityIff(collate, m.addons);
  }

  /** Two live addons stored against their priority: after start-up the worse one comes first. */
  lemma StartUpCanIgnorePriority(collate: Collation, a: Addon, b: Addon)
    requires Managed(a.id) && Managed(b.id) && a.id != b.id && Live(a) && Live(b) && a.order == 1 && b.order == 0
    ensures WellNamed([a, b]) && !InSync(collate, Init(collate, [a, b], 0, []))
  {
    InitMirrorsIff(collate, [a, b], 0, []);
    assert !Precedes(collate, [a, b][0], [a, b][1]);
  }

  /** A run that ends out of step: two live addons are stored, they are reordered, which puts the
      registry in the new order, and setting the playback grants puts it back in list order. */
  lemma GrantsCanUndoAReordering(collate: Collation, a: Addon, b: Addon)
    requires Managed(a.id) && Managed(b.id) && a.id != b.id && Live(a) && Live(b)
    ensures var start := Init(collate, [a, b], 0, []);
            var m := Reorder(collate, start, [b.id, a.id]);
            WellFormed(start) && InSync(collate, m) && !InSync(collate, SetPlaybackGrants(m))
  {
    InitBuilds(collate, [a, b], 0, []);
    RenumberPlaces(collate, [a, b]);
    SwappedGrants(collate, Init(collate, [a, b], 0, []));
  }

  lemma SwappedGrants(collate: Collation, start: Manager)
    requires WellFormed(start) && |start.addons| == 2 && Live(start.addons[0]) && Live(start.addons[1])
    ensures var m := Reorder(collate, start, [start.addons[1].id, start.addons[0].id]);
            InSync(collate, m) && !InSync(collate, SetPlaybackGrants(m))
  {
    var request := [start.addons[1].id, start.addons[0].id];
    var m := Reorder(collate, start, request);
    ReorderSwaps(collate, start);
    ReconcilingStepMirrors(collate, start, DoReorder(request));
    StepKeepsWellFormed(collate, start, DoReorder(request));
    assert !Precedes(collate, m.addons[0], m.addons[1]);
    GrantsMirrorIff(collate, m);
  }

  // ---------------------------------------------------------------- reload

  /** A reload leaves the providers up to date exactly when their ids or their order changed, or
      every live addon still is what its provider was built from. */
  lemma ReloadRefreshesIff(collate: Collation, m: Manager, stored: seq<Addon>, revision: nat)
    requires WellFormed(m) && WellNamed(stored) && revision > m.revision
    ensures var after := Reload(collate, m, stored, revision);
            Current(after) <==> Rebuilds(collate, after.addons, m.registry) || WantedUpToDate(after.addons, m.registry)
  {
    RenumberKeeps(collate, stored);
    ReconcileRefreshesIff(collate, Renumber(collate, stored), m.registry);
  }

  /** A replica that reloads an addon whose manifest or timeout another replica changed goes on
      with the provider it built from the old one. */
  lemma ReloadCanLeaveStaleProvider(collate: Collation, a: Addon, changed: Addon)
    requires Managed(a.id) && Live(a) && a.order == 0
    requires changed == a.(body := changed.body, timeout := changed.timeout) && Build(changed) != Build(a)
    ensures var m := Manager([a], 1, [Build(a)]);
            && WellFormed(m) && InSync(collate, m) && Current(m)
            && Reload(collate, m, [changed], 2).registry == [Build(a)]
            && !Current(Reload(collate, m, [changed], 2))
  {
    var m := Manager([a], 1, [Build(a)]);
    SortedStays(collate, [a]);
    SortedStays(collate, [changed]);
    assert ([a])[1..] == [] && ([changed])[1..] == [] && ([Build(a)])[1..] == [];
    assert OnlyLive([a]) == [a] && OnlyLive([changed]) == [changed];
    assert OfAddons([Build(a)]) == [Build(a)];
    assert Renumber(collate, [changed]) == [changed];
    assert Ids([changed]) == [a.id] && ProviderIds([Build(a)]) == [a.id];
    assert Stale([a.id], [a.id]) == [] by { assert ([a.id])[1..] == []; }
    assert RegisterAll([Build(a)], [changed]) == [Build(a)];
    assert Build(a) in OfAddons([Build(a)]);
  }

  // ---------------------------------------------------------------- revisions

  /** No step lowers the revision, and every step that changes the addons raises it. */
  lemma RevisionAdvances(collate: Collation, m: Manager, op: Op)
    ensures Step(collate, m, op).revision >= m.revision
    ensures Step(collate, m, op).addons != m.addons ==> Step(collate, m, op).revision > m.revision
    ensures Reconciles(m, op) ==> Step(collate, m, op).revision > m.revision
  {
  }

  lemma {:induction false} RevisionsAreMonotone(collate: Collation, m: Manager, ops: seq<Op>)
    ensures Run(collate, m, ops).revision >= m.revision
    ensures Run(collate, m, ops).revision == m.revision ==> Run(collate, m, ops).addons == m.addons
    decreases |ops|
  {
    if ops != [] {
      RevisionAdvances(collate, m, ops[0]);
      RevisionsAreMonotone(collate, Step(collate, m, ops[0]), ops[1..]);
    }
  }
}
