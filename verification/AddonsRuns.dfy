/** What the addon manager guarantees after every sequence of mutations. */
module AddonsRuns {
  import opened Prelude
  import opened StableSort
  import opened Priority
  import opened FreshId
  import opened Addons
  import opened AddonsRegistry

  ghost predicate WellFormed(m: Manager) {
    WellNamed(m.addons) && DistinctOrders(m.addons)
  }

  /** Stored data that a replica takes over has distinct, prefixed ids. */
  ghost predicate Sound(op: Op) {
    op.DoReload? ==> WellNamed(op.stored)
  }

  // ---------------------------------------------------------------- ids and orders

  lemma {:induction false} MaxOrderBounds(addons: seq<Addon>)
    ensures forall a <- addons :: a.order <= MaxOrder(addons)
  {
    if addons != [] {
      MaxOrderBounds(addons[..|addons| - 1]);
      assert addons == addons[..|addons| - 1] + [addons[|addons| - 1]];
    }
  }

  lemma InstallKeeps(addons: seq<Addon>, base: string, a: Addon)
    requires WellNamed(addons) && DistinctOrders(addons)
    requires a.id == Fresh(base, Ids(addons)) && a.order == MaxOrder(addons) + 1
    ensures WellNamed(addons + [a]) && DistinctOrders(addons + [a])
  {
    FreshIsFree(base, Ids(addons));
    MaxOrderBounds(addons);
    forall i | 0 <= i < |addons| ensures addons[i].id != a.id && addons[i].order < a.order {
      assert Ids(addons)[i] == addons[i].id;
      assert addons[i] in addons;
    }
  }

  lemma ReplaceKeeps(addons: seq<Addon>, i: nat, a: Addon)
    requires WellNamed(addons) && DistinctOrders(addons)
    requires i < |addons| && a.id == addons[i].id && a.order == addons[i].order
    ensures WellNamed(addons[i := a]) && DistinctOrders(addons[i := a])
  {
    assert addons[i] in addons;
  }

  lemma RenumberKeeps(collate: Collation, addons: seq<Addon>)
    requires WellNamed(addons)
    ensures WellNamed(Renumber(collate, addons)) && DistinctOrders(Renumber(collate, addons))
  {
    RenumberPlaces(collate, addons);
    forall a | a in Renumber(collate, addons) ensures Managed(a.id) {
      var i :| 0 <= i < |addons| && Renumber(collate, addons)[i] == a;
      assert addons[i] in addons;
    }
  }

  lemma WishedKeeps(request: seq<string>, addons: seq<Addon>)
    requires WellNamed(addons)
    ensures WellNamed(Wished(request, addons)) && DistinctOrders(Wished(request, addons))
  {
    forall a | a in Wished(request, addons) ensures Managed(a.id) {
      var i :| 0 <= i < |addons| && Wished(request, addons)[i] == a;
      assert addons[i] in addons;
    }
  }

  /** One addon changes in place, but not its id and not its order. */
  lemma ReplaceStepKeeps(m: Manager, after: Manager, i: nat)
    requires WellFormed(m) && i < |m.addons| && |after.addons| == |m.addons|
    requires after.addons == m.addons[i := after.addons[i]]
    requires after.addons[i].id == m.addons[i].id && after.addons[i].order == m.addons[i].order
    ensures WellFormed(after)
  {
    ReplaceKeeps(m.addons, i, after.addons[i]);
  }

  lemma RemoveKeeps(m: Manager, id: string)
    requires WellFormed(m)
    ensures WellFormed(Remove(m, id))
  {
    var i := Find(m.addons, id);
    if i < |m.addons| {
      assert forall a <- RemoveAt(m.addons, i) :: a in m.addons;
    }
  }

  lemma ReorderKeeps(collate: Collation, m: Manager, request: seq<string>)
    requires WellFormed(m)
    ensures WellFormed(Reorder(collate, m, request))
  {
    WishedKeeps(request, m.addons);
    RenumberKeeps(collate, Wished(request, m.addons));
  }

  /** Ids and orders stay pairwise distinct. */
  lemma StepKeepsWellFormed(collate: Collation, m: Manager, op: Op)
    requires WellFormed(m) && Sound(op)
    ensures WellFormed(Step(collate, m, op))
  {
    var after := Step(collate, m, op);
    match op
    case DoInstall(base, name, body, streams, enable) => InstallKeeps(m.addons, base, after.addons[|m.addons|]);
    case DoUpdate(id, name, body, streams) =>
      if Find(m.addons, id) < |m.addons| { ReplaceStepKeeps(m, after, Find(m.addons, id)); }
    case DoRemove(id) => RemoveKeeps(m, id);
    case DoSetEnabled(id, enabled) =>
      if Find(m.addons, id) < |m.addons| { ReplaceStepKeeps(m, after, Find(m.addons, id)); }
    case DoSetTimeout(id, timeout) =>
      if Find(m.addons, id) < |m.addons| { ReplaceStepKeeps(m, after, Find(m.addons, id)); }
    case DoReorder(request) => ReorderKeeps(collate, m, request);
    case DoReload(stored, revision) => RenumberKeeps(collate, stored);
    case DoGrants =>
  }

  /** A reordering numbers the addons from zero without gaps. Requested ones come first, each by
      its last place in the request, then the others in the order of the stored list. Nothing
      else about an addon changes. */
  lemma ReorderPlaces(collate: Collation, m: Manager, request: seq<string>)
    requires WellFormed(m)
    ensures var r := Reorder(collate, m, request).addons;
            && |r| == |m.addons|
            && (forall i :: 0 <= i < |r| ==> r[i] == m.addons[i].(order := r[i].order) && 0 <= r[i].order < |r|)
            && DistinctOrders(r)
            && forall i, j :: 0 <= i < |r| && 0 <= j < |r| ==>
                 (r[i].order < r[j].order <==> Wish(request, i, r[i].id) < Wish(request, j, r[j].id))
  {
    var wished := Wished(request, m.addons);
    WishedKeeps(request, m.addons);
    RenumberPlaces(collate, wished);
    var r := Reorder(collate, m, request).addons;
    forall i, j | 0 <= i < |r| && 0 <= j < |r|
      ensures r[i].order < r[j].order <==> Wish(request, i, r[i].id) < Wish(request, j, r[j].id)
    {
      if i != j {
        assert wished[i].order != wished[j].order by {
          if i < j { assert wished[i].order != wished[j].order; } else { assert wished[j].order != wished[i].order; }
        }
        assert r[i].order != r[j].order by {
          if i < j { assert r[i].order != r[j].order; } else { assert r[j].order != r[i].order; }
        }
        assert r[i].order < r[j].order ==> Precedes(collate, wished[i], wished[j]);
        assert r[j].order < r[i].order ==> Precedes(collate, wished[j], wished[i]);
      }
    }
  }

  /** The unlisted addons keep their relative priority. */
  ghost predicate KeepsUnlisted(before: seq<Addon>, after: seq<Addon>, request: seq<string>)
    requires |before| == |after|
  {
    forall i, j :: 0 <= i < |before| && 0 <= j < |before| && before[i].id !in request && before[j].id !in request
      ==> (before[i].order < before[j].order <==> after[i].order < after[j].order)
  }

  /** The unlisted addons stand in the stored list by their priority. */
  ghost predicate UnlistedInOrder(addons: seq<Addon>, request: seq<string>) {
    forall i, j :: 0 <= i < j < |addons| && addons[i].id !in request && addons[j].id !in request
      ==> addons[i].order < addons[j].order
  }

  /** A reordering keeps the relative priority of the addons it does not list exactly when these
      already stand in the stored list by their priority. */
  lemma ReorderKeepsUnlistedIff(collate: Collation, m: Manager, request: seq<string>)
    requires WellFormed(m)
    ensures |Reorder(collate, m, request).addons| == |m.addons|
    ensures KeepsUnlisted(m.addons, Reorder(collate, m, request).addons, request) <==> UnlistedInOrder(m.addons, request)
  {
    ReorderPlaces(collate, m, request);
    var before, after := m.addons, Reorder(collate, m, request).addons;
    forall i, j | 0 <= i < |before| && 0 <= j < |before| && before[i].id !in request && before[j].id !in request
      ensures after[i].order < after[j].order <==> i < j
    {
      assert after[i].id == before[i].id && after[j].id == before[j].id;
    }
    if UnlistedInOrder(before, request) {
      forall i, j | 0 <= i < |before| && 0 <= j < |before| && before[i].id !in request && before[j].id !in request
        ensures before[i].order < before[j].order <==> after[i].order < after[j].order
      {
        if i > j { assert before[j].order < before[i].order; }
      }
    }
  }

  /** An empty request swaps two addons whose order in the list is not their priority. */
  lemma EmptyRequestSwaps(collate: Collation, a: Addon, b: Addon)
    requires Managed(a.id) && Managed(b.id) && a.id != b.id && a.order == 1 && b.order == 0
    ensures var m := Manager([a, b], 0, []);
            && WellFormed(m) && |Reorder(collate, m, []).addons| == 2
            && Reorder(collate, m, []).addons[0].order == 0 && Reorder(collate, m, []).addons[1].order == 1
  {
    var m := Manager([a, b], 0, []);
    ReorderPlaces(collate, m, []);
    var r := Reorder(collate, m, []).addons;
    assert Wish([], 0, r[0].id) == 0 && Wish([], 1, r[1].id) == 1;
    assert r[0].order < r[1].order;
  }

  /** Naming the second of two addons first puts it first. */
  lemma ReorderSwaps(collate: Collation, m: Manager)
    requires WellFormed(m) && |m.addons| == 2
    ensures var r := Reorder(collate, m, [m.addons[1].id, m.addons[0].id]).addons;
            && |r| == 2 && r[1].order < r[0].order
            && r[0] == m.addons[0].(order := r[0].order) && r[1] == m.addons[1].(order := r[1].order)
  {
    var request := [m.addons[1].id, m.addons[0].id];
    ReorderPlaces(collate, m, request);
    var r := Reorder(collate, m, request).addons;
    assert LastIndex(request, m.addons[0].id) == 1;
    assert LastIndex(request, m.addons[1].id) == 0;
    assert Wish(request, 1, r[1].id) < Wish(request, 0, r[0].id);
  }

  // ---------------------------------------------------------------- the registry mirrors

  /** The step changes the list or the settings of an addon and reconciles. */
  predicate Reconciles(m: Manager, op: Op) {
    match op
    case DoInstall(_, _, _, _, _) => true
    case DoUpdate(id, _, _, _) => Find(m.addons, id) < |m.addons|
    case DoSetEnabled(id, _) => Find(m.addons, id) < |m.addons|
    case DoSetTimeout(id, _) => Find(m.addons, id) < |m.addons|
    case DoReorder(_) => true
    case DoReload(_, revision) => revision > m.revision
    case _ => false
  }

  ghost predicate InSync(collate: Collation, m: Manager) {
    Mirrors(collate, m.addons, m.registry)
  }

  lemma ReplacedOthers(registry: seq<Provider>, a: Addon)
    requires Managed(a.id)
    ensures Others(Register(Unregister(registry, a.id), a)) == Others(registry)
    ensures OfAddons(Register(Unregister(registry, a.id), a)) == Register(Unregister(OfAddons(registry), a.id), a)
  {
    UnregisterSplits(registry, a.id);
    RegisterSplits(Unregister(registry, a.id), a);
  }

  /** Install, update, enable, disable, timeout, reorder and reload make the registry list
      exactly the enabled addons that offer streams, best first, whatever it listed before. */
  lemma ReconcilingStepMirrors(collate: Collation, m: Manager, op: Op)
    requires WellFormed(m) && Sound(op) && Reconciles(m, op)
    ensures InSync(collate, Step(collate, m, op))
    ensures Others(Step(collate, m, op).registry) == Others(m.registry)
  {
    StepKeepsWellFormed(collate, m, op);
    var after := Step(collate, m, op);
    match op
    case DoUpdate(id, name, body, streams) =>
      var i := Find(m.addons, id);
      var a := after.addons[i];
      assert a in after.addons;
      ReplacedOthers(m.registry, a);
      ReconcileMirrors(collate, after.addons, if a.enabled then Register(Unregister(m.registry, id), a) else m.registry);
    case DoSetTimeout(id, timeout) =>
      var i := Find(m.addons, id);
      var a := after.addons[i];
      assert a in after.addons;
      ReplacedOthers(m.registry, a);
      ReconcileMirrors(collate, after.addons, Register(Unregister(m.registry, id), a));
    case _ =>
      ReconcileMirrors(collate, after.addons, m.registry);
  }

  function OtherThan(id: string): Addon -> bool { (a: Addon) => a.id != id }

  function NotThis(id: string): string -> bool { (x: string) => x != id }

  lemma {:induction false} FilterNone(addons: seq<Addon>, id: string)
    requires forall a <- addons :: a.id != id
    ensures Filter(OtherThan(id), addons) == addons
  {
    if addons != [] {
      assert addons[0] in addons;
      assert forall a <- addons[1..] :: a in addons;
      FilterNone(addons[1..], id);
    }
  }

  /** Removing the addon with some id leaves exactly the others. */
  lemma {:induction false} RemoveIsFilter(addons: seq<Addon>, id: string)
    requires DistinctIds(addons) && Find(addons, id) < |addons|
    ensures RemoveAt(addons, Find(addons, id)) == Filter(OtherThan(id), addons)
  {
    if addons[0].id == id {
      forall a | a in addons[1..] ensures a.id != id {
        var k :| 0 <= k < |addons[1..]| && addons[1..][k] == a;
        assert addons[k + 1] == a;
      }
      FilterNone(addons[1..], id);
    } else {
      RemoveIsFilter(addons[1..], id);
      assert RemoveAt(addons, Find(addons, id)) == [addons[0]] + RemoveAt(addons[1..], Find(addons[1..], id));
    }
  }

  lemma {:induction false} LiveFilters(addons: seq<Addon>, id: string)
    ensures OnlyLive(Filter(OtherThan(id), addons)) == Filter(OtherThan(id), OnlyLive(addons))
  {
    if addons != [] {
      LiveFilters(addons[1..], id);
      var rest := Filter(OtherThan(id), addons[1..]);
      assert OtherThan(id)(addons[0]) ==> Filter(OtherThan(id), addons) == [addons[0]] + rest;
      assert !OtherThan(id)(addons[0]) ==> Filter(OtherThan(id), addons) == rest;
      assert Live(addons[0]) ==> OnlyLive(addons)[1..] == OnlyLive(addons[1..]);
      assert !Live(addons[0]) ==> OnlyLive(addons) == OnlyLive(addons[1..]);
    }
  }

  lemma {:induction false} IdsFilter(addons: seq<Addon>, id: string)
    ensures Ids(Filter(OtherThan(id), addons)) == Filter(NotThis(id), Ids(addons))
  {
    if addons != [] {
      IdsFilter(addons[1..], id);
      assert Ids(addons)[1..] == Ids(addons[1..]);
      if addons[0].id != id {
        assert Filter(OtherThan(id), addons) == [addons[0]] + Filter(OtherThan(id), addons[1..]);
      } else {
        assert Filter(OtherThan(id), addons) == Filter(OtherThan(id), addons[1..]);
      }
    }
  }

  lemma {:induction false} UnregisterFilters(registry: seq<Provider>, id: string)
    ensures ProviderIds(Unregister(registry, id)) == Filter(NotThis(id), ProviderIds(registry))
  {
    if registry != [] {
      UnregisterFilters(registry[1..], id);
      assert ProviderIds(registry)[1..] == ProviderIds(registry[1..]);
      if registry[0].id != id {
        assert Unregister(registry, id) == [registry[0]] + Unregister(registry[1..], id);
      }
    }
  }

  /** Removing an addon keeps the registry in step although it does not reconcile. */
  lemma RemoveMirrors(collate: Collation, m: Manager, id: string)
    requires WellFormed(m) && InSync(collate, m)
    ensures InSync(collate, Remove(m, id))
  {
    var i := Find(m.addons, id);
    if i < |m.addons| {
      assert m.addons[i] in m.addons;
      PriorityIsPreorder(collate);
      RemoveIsFilter(m.addons, id);
      SortFilter(ByPriority(collate), OtherThan(id), m.addons);
      LiveFilters(SortAddons(collate, m.addons), id);
      IdsFilter(StreamEnabled(collate, m.addons), id);
      UnregisterSplits(m.registry, id);
      UnregisterFilters(OfAddons(m.registry), id);
    }
  }

  /** Once in step, the registry stays in step until the playback grants are set. */
  lemma {:induction false} RunKeepsInSync(collate: Collation, m: Manager, ops: seq<Op>)
    requires WellFormed(m) && InSync(collate, m)
    requires forall op <- ops :: Sound(op) && !op.DoGrants?
    ensures WellFormed(Run(collate, m, ops)) && InSync(collate, Run(collate, m, ops))
    decreases |ops|
  {
    if ops != [] {
      var op := ops[0];
      StepKeepsWellFormed(collate, m, op);
      if Reconciles(m, op) {
        ReconcilingStepMirrors(collate, m, op);
      } else if op.DoRemove? {
        RemoveMirrors(collate, m, op.id);
      }
      RunKeepsInSync(collate, Step(collate, m, op), ops[1..]);
    }
  }

  lemma {:induction false} RunKeepsWellFormed(collate: Collation, m: Manager, ops: seq<Op>)
    requires WellFormed(m) && forall op <- ops :: Sound(op)
    ensures WellFormed(Run(collate, m, ops))
    decreases |ops|
  {
    if ops != [] {
      StepKeepsWellFormed(collate, m, ops[0]);
      RunKeepsWellFormed(collate, Step(collate, m, ops[0]), ops[1..]);
    }
  }

  /** The registry mirrors policy: after any mutations, one that reconciles and any further ones
      that do not set the playback grants, the providers of addons are exactly the enabled,
      stream-capable addons with strictly ascending orders. */
  lemma RegistryMirrorsPolicy(collate: Collation, m: Manager, before: seq<Op>, op: Op, after: seq<Op>)
    requires WellFormed(m) && Sound(op)
    requires (forall o <- before :: Sound(o)) && (forall o <- after :: Sound(o) && !o.DoGrants?)
    requires Reconciles(Run(collate, m, before), op)
    ensures var end := Run(collate, Step(collate, Run(collate, m, before), op), after);
            && WellFormed(end) && InSync(collate, end)
            && forall i, j :: 0 <= i < j < |StreamEnabled(collate, end.addons)|
                 ==> StreamEnabled(collate, end.addons)[i].order < StreamEnabled(collate, end.addons)[j].order
  {
    RunKeepsWellFormed(collate, m, before);
    var s := Run(collate, m, before);
    StepKeepsWellFormed(collate, s, op);
    ReconcilingStepMirrors(collate, s, op);
    RunKeepsInSync(collate, Step(collate, s, op), after);
    var end := Run(collate, Step(collate, s, op), after);
    DistinctOrdersNoTie(collate, end.addons);
    OnlyLiveAscends(SortAddons(collate, end.addons));
  }

  lemma {:induction false} OnlyLiveAscends(s: seq<Addon>)
    requires forall i, j :: 0 <= i < j < |s| ==> s[i].order < s[j].order
    ensures forall i, j :: 0 <= i < j < |OnlyLive(s)| ==> OnlyLive(s)[i].order < OnlyLive(s)[j].order
  {
    if s != [] {
      OnlyLiveAscends(s[1..]);
      OnlyLiveMembers(s[1..]);
      forall a | a in OnlyLive(s[1..]) ensures s[0].order < a.order {
        var k :| 0 <= k < |s[1..]| && s[1..][k] == a;
        assert s[k + 1] == a;
      }
    }
  }
}
