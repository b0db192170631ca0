/** What each mutation does to the addons, field by field, and to the providers. */
module AddonsEffects {
  import opened Prelude
  import opened StableSort
  import opened Priority
  import opened FreshId
  import opened Addons
  import opened AddonsRegistry
  import opened AddonsRuns
  import opened AddonsProviders

  // ---------------------------------------------------------------- who is registered

  /** Some provider of the registry has this id. */
  predicate Listed(registry: seq<Provider>, id: string) {
    exists p <- registry :: p.id == id
  }

  /** Some addon has this id, is enabled and offers streams. */
  predicate Wants(addons: seq<Addon>, id: string) {
    exists a <- addons :: a.id == id && a.enabled && a.streams
  }

  /** In step, an id of an addon is registered exactly if its addon is enabled and offers streams. */
  lemma {:induction false} InSyncLists(collate: Collation, m: Manager, id: string)
    requires WellNamed(m.addons) && InSync(collate, m) && "addon:" <= id
    ensures Listed(m.registry, id) <==> Wants(m.addons, id)
  {
    var ordered := StreamEnabled(collate, m.addons);
    StreamEnabledMembers(collate, m.addons);
    SameManagedIds(m.registry, id);
    HasId(m.registry, id);
    HasAddon(ordered, id);
  }

  /** The registry asks the addons in ascending order. */
  lemma {:induction false} InSyncAscends(collate: Collation, m: Manager, x: nat, y: nat) returns (a: Addon, b: Addon)
    requires WellFormed(m) && InSync(collate, m) && x < y < |m.registry|
    requires "addon:" <= m.registry[x].id && "addon:" <= m.registry[y].id
    ensures a in m.addons && b in m.addons && a.id == m.registry[x].id && b.id == m.registry[y].id && a.order < b.order
  {
    var ordered := StreamEnabled(collate, m.addons);
    var mine := OfAddons(m.registry);
    StreamEnabledMembers(collate, m.addons);
    var i, j := MineInOrder(m.registry, x, y);
    assert ProviderIds(mine)[i] == Ids(ordered)[i] && ProviderIds(mine)[j] == Ids(ordered)[j];
    a, b := ordered[i], ordered[j];
    DistinctOrdersNoTie(collate, m.addons);
    OnlyLiveAscends(SortAddons(collate, m.addons));
  }

  lemma {:induction false} MineInOrder(registry: seq<Provider>, x: nat, y: nat) returns (i: nat, j: nat)
    requires x < y < |registry| && Managed(registry[x].id) && Managed(registry[y].id)
    ensures i < j < |OfAddons(registry)| && OfAddons(registry)[i] == registry[x] && OfAddons(registry)[j] == registry[y]
  {
    var here := if Managed(registry[0].id) then 1 else 0;
    if x == 0 {
      j := MineIndex(registry[1..], y - 1);
      i, j := 0, j + 1;
    } else {
      i, j := MineInOrder(registry[1..], x - 1, y - 1);
      i, j := i + here, j + here;
    }
  }

  lemma {:induction false} MineIndex(registry: seq<Provider>, y: nat) returns (j: nat)
    requires y < |registry| && Managed(registry[y].id)
    ensures j < |OfAddons(registry)| && OfAddons(registry)[j] == registry[y]
  {
    if y == 0 {
      j := 0;
    } else {
      j := MineIndex(registry[1..], y - 1);
      j := j + if Managed(registry[0].id) then 1 else 0;
    }
  }

  lemma {:induction false} NoneMine(registry: seq<Provider>)
    requires forall q <- registry :: !Managed(q.id)
    ensures OfAddons(registry) == []
  {
    if registry != [] { NoneMine(registry[1..]); }
  }

  /** From start-up on and as long as nothing is reloaded, every provider of an addon was built from
      the name, the manifest and the timeout that the addon has now. */
  lemma {:induction false} BuiltFromAddon(collate: Collation, stored: seq<Addon>, revision: nat, registry: seq<Provider>, ops: seq<Op>, p: Provider)
    requires WellNamed(stored) && (forall q <- registry :: !("addon:" <= q.id)) && forall op <- ops :: !op.DoReload?
    requires p in Run(collate, Init(collate, stored, revision, registry), ops).registry && "addon:" <= p.id
    ensures exists a <- Run(collate, Init(collate, stored, revision, registry), ops).addons ::
              a.id == p.id && p.built == FromAddon(a.name, a.body, a.timeout)
  {
    assert OfAddons(registry) == [] by { NoneMine(registry); }
    ProvidersAreUpToDate(collate, stored, revision, registry, ops);
    var m := Run(collate, Init(collate, stored, revision, registry), ops);
    SplitMembers(m.registry);
    var a :| a in m.addons && a.id == p.id;
    assert p == Build(a);
  }

  lemma {:induction false} OthersMembers(registry: seq<Provider>)
    ensures forall p :: p in Others(registry) <==> p in registry && !Managed(p.id)
  {
    if registry != [] {
      OthersMembers(registry[1..]);
      assert registry == [registry[0]] + registry[1..];
    }
  }

  /** Whatever happens, a provider whose id has not the prefix of addons comes and goes with nobody. */
  lemma {:induction false} ForeignStay(collate: Collation, m: Manager, ops: seq<Op>, p: Provider)
    requires WellFormed(m) && (forall op <- ops :: Sound(op)) && !("addon:" <= p.id)
    ensures p in Run(collate, m, ops).registry <==> p in m.registry
  {
    OthersAreUntouched(collate, m, ops);
    OthersMembers(m.registry);
    OthersMembers(Run(collate, m, ops).registry);
  }

  // ---------------------------------------------------------------- one addon changes

  lemma {:induction false} FoundAt(addons: seq<Addon>, i: nat)
    requires DistinctIds(addons) && i < |addons|
    ensures Find(addons, addons[i].id) == i
  {
  }

  lemma {:induction false} NotFound(addons: seq<Addon>, id: string)
    requires forall a <- addons :: a.id != id
    ensures Find(addons, id) == |addons|
  {
  }

  /** Only the addon at `i` differs, and its id is registered exactly if it is enabled and offers
      streams. */
  ghost predicate Replaced(before: Manager, after: Manager, i: nat, a: Addon) {
    && i < |before.addons| && after.addons == before.addons[i := a]
    && (Listed(after.registry, a.id) <==> a.enabled && a.streams)
    && after.revision == before.revision + 1
  }

  lemma {:induction false} ReplacedLists(collate: Collation, before: Manager, after: Manager, i: nat, a: Addon)
    requires WellFormed(before) && i < |before.addons| && after.addons == before.addons[i := a] && a.id == before.addons[i].id
    requires WellNamed(after.addons) && InSync(collate, after)
    ensures Listed(after.registry, a.id) <==> a.enabled && a.streams
  {
    assert before.addons[i] in before.addons;
    InSyncLists(collate, after, a.id);
    assert after.addons[i] == a;
    if Wants(after.addons, a.id) {
      var b :| b in after.addons && b.id == a.id && b.enabled && b.streams;
      SameAddon(after.addons, a, b);
    }
  }

  /** An addon that is switched has the flag it was given and everything else as before. */
  lemma {:induction false} SetEnabledDoes(collate: Collation, m: Manager, i: nat, flag: bool)
    requires WellFormed(m) && i < |m.addons|
    ensures var a := m.addons[i];
            Replaced(m, SetEnabled(collate, m, a.id, flag), i, Addon(a.id, a.name, flag, a.streams, a.order, a.timeout, a.body))
  {
    var a := m.addons[i];
    FoundAt(m.addons, i);
    var op := DoSetEnabled(a.id, flag);
    StepKeepsWellFormed(collate, m, op);
    ReconcilingStepMirrors(collate, m, op);
    ReplacedLists(collate, m, Step(collate, m, op), i, a.(enabled := flag));
  }

  /** A timeout is taken as it is between one second and two minutes, and is the nearer of the two
      otherwise; everything else stays. */
  lemma {:induction false} SetTimeoutDoes(collate: Collation, m: Manager, i: nat, timeout: int)
    requires WellFormed(m) && i < |m.addons|
    ensures var a := m.addons[i];
            var t := if timeout < 1000 then 1000 else if timeout > 120000 then 120000 else timeout;
            var n := SetTimeout(collate, m, a.id, timeout);
            Replaced(m, n, i, Addon(a.id, a.name, a.enabled, a.streams, a.order, t, a.body))
  {
    var a := m.addons[i];
    FoundAt(m.addons, i);
    var op := DoSetTimeout(a.id, timeout);
    StepKeepsWellFormed(collate, m, op);
    ReconcilingStepMirrors(collate, m, op);
    ReplacedLists(collate, m, Step(collate, m, op), i, a.(timeout := Max(1000, Min(120000, timeout))));
  }

  /** An addon that is installed again takes the new manifest, and its name if it has one; whether
      it is enabled, its place and its timeout stay. */
  lemma {:induction false} UpdateDoes(collate: Collation, m: Manager, i: nat, name: string, body: int, streams: bool)
    requires WellFormed(m) && i < |m.addons|
    ensures var a := m.addons[i];
            var n := Update(collate, m, a.id, name, body, streams);
            Replaced(m, n, i, Addon(a.id, if name == "" then a.name else name, a.enabled, streams, a.order, a.timeout, body))
  {
    var a := m.addons[i];
    FoundAt(m.addons, i);
    var op := DoUpdate(a.id, name, body, streams);
    StepKeepsWellFormed(collate, m, op);
    ReconcilingStepMirrors(collate, m, op);
    ReplacedLists(collate, m, Step(collate, m, op), i, Step(collate, m, op).addons[i]);
  }

  /** A new addon comes last, behind everybody else, with a timeout of twenty seconds; its name is
      its id if the manifest has none, and the others stay as they are. */
  lemma {:induction false} InstallDoes(collate: Collation, m: Manager, base: string, name: string, body: int, streams: bool, enable: bool)
    requires WellFormed(m)
    ensures var n := Install(collate, m, base, name, body, streams, enable);
            && |n.addons| == |m.addons| + 1 && n.addons[..|m.addons|] == m.addons && n.revision == m.revision + 1
            && var a := n.addons[|m.addons|];
               && a == Addon(a.id, if name == "" then a.id else name, enable, streams, a.order, 20000, body)
               && "addon:" <= a.id && (forall b <- m.addons :: b.id != a.id && b.order < a.order)
               && a.order >= 0 && (a.order == 0 || exists b <- m.addons :: a.order == b.order + 1)
               && (Listed(n.registry, a.id) <==> enable && streams)
  {
    var op := DoInstall(base, name, body, streams, enable);
    var n := Step(collate, m, op);
    StepKeepsWellFormed(collate, m, op);
    ReconcilingStepMirrors(collate, m, op);
    FreshIsFree(base, Ids(m.addons));
    MaxOrderBounds(m.addons);
    var a := n.addons[|m.addons|];
    assert n.addons == m.addons + [a] && a in n.addons;
    forall b | b in m.addons ensures b.id != a.id { HasAddon(m.addons, b.id); }
    InSyncLists(collate, n, a.id);
    if Wants(n.addons, a.id) {
      var b :| b in n.addons && b.id == a.id && b.enabled && b.streams;
      SameAddon(n.addons, a, b);
    }
    MaxOrderIsOne(m.addons);
  }

  lemma {:induction false} MaxOrderIsOne(addons: seq<Addon>)
    ensures MaxOrder(addons) >= -1
    ensures MaxOrder(addons) == -1 || exists a <- addons :: a.order == MaxOrder(addons)
  {
    if addons != [] {
      MaxOrderIsOne(addons[..|addons| - 1]);
      assert forall a <- addons[..|addons| - 1] :: a in addons;
    }
  }

  /** A removed addon is gone with its provider, the others keep their places in the list, and no
      other provider goes. */
  lemma {:induction false} RemoveDoes(m: Manager, i: nat, p: Provider)
    requires WellFormed(m) && i < |m.addons|
    ensures var n := Remove(m, m.addons[i].id);
            && n.addons == m.addons[..i] + m.addons[i + 1..] && n.revision == m.revision + 1
            && (p in n.registry <==> p in m.registry && p.id != m.addons[i].id)
  {
    FoundAt(m.addons, i);
    UnregisterMembers(m.registry, m.addons[i].id);
  }

  /** Only the orders differ: they are 0 to n-1, by the orders and then the names that were stored. */
  ghost predicate Renumbered(collate: Collation, stored: seq<Addon>, addons: seq<Addon>) {
    && |addons| == |stored| && DistinctOrders(addons)
    && (forall i :: 0 <= i < |addons| ==>
          && addons[i] == stored[i].(order := addons[i].order) && 0 <= addons[i].order < |addons|)
    && (forall i, j :: 0 <= i < |addons| && 0 <= j < |addons| && addons[i].order < addons[j].order ==>
          stored[i].order < stored[j].order
          || (stored[i].order == stored[j].order && collate(stored[i].name) <= collate(stored[j].name)))
  }

  /** A stored state that is newer is taken over, with its revision, and renumbered; one that is not
      newer changes nothing. */
  lemma {:induction false} ReloadDoes(collate: Collation, m: Manager, stored: seq<Addon>, revision: nat, id: string)
    requires WellFormed(m) && WellNamed(stored) && "addon:" <= id
    ensures var n := Reload(collate, m, stored, revision);
            if revision > m.revision then
              && Renumbered(collate, stored, n.addons) && n.revision == revision
              && (Listed(n.registry, id) <==> Wants(n.addons, id))
            else n == m
  {
    var op := DoReload(stored, revision);
    if revision > m.revision {
      RenumberPlaces(collate, stored);
      StepKeepsWellFormed(collate, m, op);
      ReconcilingStepMirrors(collate, m, op);
      InSyncLists(collate, Step(collate, m, op), id);
    }
  }

  /** Start-up renumbers what is stored and registers exactly the addons that are enabled and offer
      streams, beside the providers that are there. */
  lemma {:induction false} InitDoes(collate: Collation, stored: seq<Addon>, revision: nat, registry: seq<Provider>, id: string)
    requires WellNamed(stored) && (forall q <- registry :: !("addon:" <= q.id)) && "addon:" <= id
    ensures var m := Init(collate, stored, revision, registry);
            && Renumbered(collate, stored, m.addons) && m.revision == revision
            && (Listed(m.registry, id) <==> Wants(m.addons, id))
  {
    NoneMine(registry);
    InitBuilds(collate, stored, revision, registry);
    RenumberPlaces(collate, stored);
    var m := Init(collate, stored, revision, registry);
    BuildIds(OnlyLive(m.addons));
    OnlyLiveMembers(m.addons);
    HasAddon(OnlyLive(m.addons), id);
    SameManagedIds(m.registry, id);
    HasId(m.registry, id);
  }

  /** A mutation that names no addon changes nothing. */
  lemma {:induction false} UnknownIdDoesNothing(collate: Collation, m: Manager, id: string, flag: bool, timeout: int, name: string, body: int)
    requires forall a <- m.addons :: a.id != id
    ensures SetEnabled(collate, m, id, flag) == SetTimeout(collate, m, id, timeout) == m
    ensures Update(collate, m, id, name, body, flag) == Remove(m, id) == m
  {
    NotFound(m.addons, id);
  }

  // ---------------------------------------------------------------- order

  /** The list as users see it: lower orders first, equal orders by name; equal names as stored. */
  lemma {:induction false} ListedInOrder(collate: Collation, addons: seq<Addon>, i: nat, j: nat)
    requires i < j < |SortAddons(collate, addons)|
    ensures multiset(SortAddons(collate, addons)) == multiset(addons)
    ensures var a, b := SortAddons(collate, addons)[i], SortAddons(collate, addons)[j];
            a.order < b.order || (a.order == b.order && collate(a.name) <= collate(b.name))
  {
    PriorityIsPreorder(collate);
    SortContents(ByPriority(collate), addons);
    SortSorts(ByPriority(collate), addons);
    assert ByPriority(collate)(SortAddons(collate, addons)[i], SortAddons(collate, addons)[j]);
  }

  /** After a reordering one addon comes before another exactly if the request lists it and either
      does not list the other or lists it later, going by the last place of each; or if it lists
      neither and the one is stored before the other. */
  lemma {:induction false} ReorderedBefore(collate: Collation, m: Manager, request: seq<string>, i: nat, j: nat)
    requires WellFormed(m) && i < |m.addons| && j < |m.addons| && i != j
    ensures |Reorder(collate, m, request).addons| == |m.addons|
    ensures var r := Reorder(collate, m, request).addons;
            var a, b := m.addons[i].id, m.addons[j].id;
            r[i].order < r[j].order
            <==> if a in request then b !in request || (exists k :: 0 <= k < |request| && request[k] == b && a !in request[k..])
                 else b !in request && i < j
  {
    ReorderPlaces(collate, m, request);
    var a, b := m.addons[i].id, m.addons[j].id;
    if a in request && b in request {
      var x, y := LastIndex(request, a), LastIndex(request, b);
      assert a != b;
      if x < y {
        assert a !in request[y..];
      }
      if k :| 0 <= k < |request| && request[k] == b && a !in request[k..] {
        assert k <= y && x < k;
      }
    }
  }
}
