/** The addon manager as an object: the list, the revision and the registry change in place. */
module AddonsObject {
  import opened Prelude
  import opened Priority
  import opened FreshId
  import opened Addons
  import opened AddonsRegistry
  import opened AddonsRuns

  class AddonManager {
    const collate: Collation
    var addons: seq<Addon>
    var revision: nat
    var registry: seq<Provider>

    function View(): Manager
      reads this
    {
      Manager(addons, revision, registry)
    }

    ghost predicate Valid()
      reads this
    {
      WellFormed(View())
    }

    /** Load the stored addons and register the live ones in list order. */
    constructor (collate: Collation, stored: seq<Addon>, revision: nat, registry: seq<Provider>)
      requires WellNamed(stored)
      ensures Valid() && this.collate == collate
      ensures View() == Init(collate, stored, revision, registry)
    {
      this.collate := collate;
      this.addons := stored;
      this.revision := revision;
      this.registry := registry;
      new;
      RenumberKeeps(collate, stored);
      NumberByPriority();
      RegisterEach(addons);
    }

    method RegisterProvider(a: Addon)
      modifies this`registry
      ensures registry == Register(old(registry), a)
    {
      if !a.streams { return; }
      if !a.enabled { return; }
      if a.id in ProviderIds(registry) { return; }
      registry := registry + [Build(a)];
    }

    method UnregisterProvider(id: string)
      modifies this`registry
      ensures registry == Unregister(old(registry), id)
    {
      registry := Unregister(registry, id);
    }

    method RegisterAgain(a: Addon)
      modifies this`registry
      ensures registry == Register(Unregister(old(registry), a.id), a)
    {
      UnregisterProvider(a.id);
      RegisterProvider(a);
    }

    method RegisterEach(list: seq<Addon>)
      modifies this`registry
      ensures registry == RegisterAll(old(registry), list)
    {
      var i := 0;
      while i < |list|
        invariant 0 <= i <= |list|
        invariant RegisterAll(registry, list[i..]) == RegisterAll(old(registry), list)
      {
        assert list[i..][1..] == list[i + 1..];
        RegisterProvider(list[i]);
        i := i + 1;
      }
    }

    method UnregisterEach(ids: seq<string>)
      modifies this`registry
      ensures registry == UnregisterAll(old(registry), ids)
    {
      var i := 0;
      while i < |ids|
        invariant 0 <= i <= |ids|
        invariant UnregisterAll(registry, ids[i..]) == UnregisterAll(old(registry), ids)
      {
        assert ids[i..][1..] == ids[i + 1..];
        UnregisterProvider(ids[i]);
        i := i + 1;
      }
    }

    method RemoveStale(desired: seq<string>)
      modifies this`registry
      ensures registry == UnregisterAll(old(registry), Stale(ProviderIds(old(registry)), desired))
    {
      var ids := ProviderIds(registry);
      var i := 0;
      while i < |ids|
        invariant 0 <= i <= |ids|
        invariant UnregisterAll(registry, Stale(ids[i..], desired)) == UnregisterAll(old(registry), Stale(ids, desired))
      {
        assert ids[i..][1..] == ids[i + 1..];
        if ids[i] !in desired && Managed(ids[i]) {
          assert Stale(ids[i..], desired)[1..] == Stale(ids[i + 1..], desired);
          UnregisterProvider(ids[i]);
        } else {
          assert Stale(ids[i..], desired) == Stale(ids[i + 1..], desired);
        }
        i := i + 1;
      }
    }

    method ReconcileRegistry()
      modifies this`registry
      ensures registry == Reconcile(collate, addons, old(registry))
    {
      var ordered := StreamEnabled(collate, addons);
      RemoveStale(Ids(ordered));
      var currentOrder := ProviderIds(OfAddons(registry));
      if currentOrder != Ids(ordered) {
        UnregisterEach(currentOrder);
      }
      RegisterEach(ordered);
    }

    method BumpRevision()
      modifies this`revision
      ensures revision == old(revision) + 1
    {
      revision := revision + 1;
    }

    /** Give every addon its place by priority. */
    method NumberByPriority()
      modifies this`addons
      ensures addons == Renumber(collate, old(addons))
    {
      var sorted := SortAddons(collate, addons);
      var i := 0;
      while i < |addons|
        invariant 0 <= i <= |addons| == |old(addons)|
        invariant forall k :: 0 <= k < i ==> addons[k] == Renumber(collate, old(addons))[k]
        invariant forall k :: i <= k < |addons| ==> addons[k] == old(addons)[k]
      {
        addons := addons[i := addons[i].(order := Position(sorted, addons[i]))];
        i := i + 1;
      }
    }

    method HighestOrder() returns (highest: int)
      ensures highest == MaxOrder(addons)
    {
      highest := -1;
      for i := 0 to |addons|
        invariant highest == MaxOrder(addons[..i])
      {
        assert addons[..i + 1][..i] == addons[..i];
        highest := Max(highest, addons[i].order);
      }
      assert addons[..|addons|] == addons;
    }

    method InstallNew(base: string, name: string, body: int, streams: bool, enable: bool) returns (id: string)
      requires Valid()
      modifies this
      ensures Valid() && View() == Install(collate, old(View()), base, name, body, streams, enable)
      ensures id !in Ids(old(addons)) && id in Ids(addons)
    {
      ghost var before := View();
      FreshIsFree(base, Ids(addons));
      id := UniqueProviderId(base, Ids(addons));
      var highest := HighestOrder();
      var addon := Addon(id, if name != "" then name else id, enable, streams, highest + 1, DEFAULT_TIMEOUT, body);
      addons := addons + [addon];
      assert Ids(addons)[|addons| - 1] == id;
      ReconcileRegistry();
      BumpRevision();
      assert View() == Step(collate, before, DoInstall(base, name, body, streams, enable));
      StepKeepsWellFormed(collate, before, DoInstall(base, name, body, streams, enable));
    }

    method UpdateInstalled(id: string, name: string, body: int, streams: bool) returns (found: bool)
      requires Valid()
      modifies this
      ensures Valid() && View() == Update(collate, old(View()), id, name, body, streams)
      ensures found == (id in Ids(old(addons)))
    {
      ghost var before := View();
      var i := Find(addons, id);
      found := i < |addons|;
      FindIs(addons, id);
      if !found { return; }
      var existing := addons[i];
      if name != "" { existing := existing.(name := name); }
      existing := existing.(body := body, streams := streams);
      addons := addons[i := existing];
      if existing.enabled {
        RegisterAgain(existing);
      }
      ReconcileRegistry();
      BumpRevision();
      assert View() == Step(collate, before, DoUpdate(id, name, body, streams));
      StepKeepsWellFormed(collate, before, DoUpdate(id, name, body, streams));
    }

    method Remove(id: string) returns (removed: bool)
      requires Valid()
      modifies this
      ensures Valid() && View() == Addons.Remove(old(View()), id)
      ensures removed == (id in Ids(old(addons)))
    {
      ghost var before := View();
      var i := Find(addons, id);
      FindIs(addons, id);
      removed := i < |addons|;
      if !removed { return; }
      UnregisterProvider(id);
      addons := addons[..i] + addons[i + 1..];
      BumpRevision();
      assert View() == Step(collate, before, DoRemove(id));
      StepKeepsWellFormed(collate, before, DoRemove(id));
    }

    method SetEnabled(id: string, enabled: bool) returns (found: bool)
      requires Valid()
      modifies this
      ensures Valid() && View() == Addons.SetEnabled(collate, old(View()), id, enabled)
      ensures found == (id in Ids(old(addons)))
    {
      ghost var before := View();
      var i := Find(addons, id);
      FindIs(addons, id);
      found := i < |addons|;
      if !found { return; }
      addons := addons[i := addons[i].(enabled := enabled)];
      ReconcileRegistry();
      BumpRevision();
      assert View() == Step(collate, before, DoSetEnabled(id, enabled));
      StepKeepsWellFormed(collate, before, DoSetEnabled(id, enabled));
    }

    method SetTimeout(id: string, timeoutMs: int) returns (found: bool)
      requires Valid()
      modifies this
      ensures Valid() && View() == Addons.SetTimeout(collate, old(View()), id, timeoutMs)
      ensures found == (id in Ids(old(addons)))
    {
      ghost var before := View();
      var i := Find(addons, id);
      FindIs(addons, id);
      found := i < |addons|;
      if !found { return; }
      addons := addons[i := addons[i].(timeout := Max(1000, Min(120000, timeoutMs)))];
      RegisterAgain(addons[i]);
      ReconcileRegistry();
      BumpRevision();
      assert View() == Step(collate, before, DoSetTimeout(id, timeoutMs));
      StepKeepsWellFormed(collate, before, DoSetTimeout(id, timeoutMs));
    }

    /** The request as a map; a later place of an id overwrites an earlier one. */
    method RankOf(request: seq<string>) returns (rank: map<string, nat>)
      ensures forall id :: id in rank <==> id in request
      ensures forall id <- request :: rank[id] == LastIndex(request, id)
    {
      rank := map[];
      for i := 0 to |request|
        invariant forall id :: id in rank <==> id in request[..i]
        invariant forall id <- rank :: rank[id] == LastIndex(request[..i], id)
      {
        assert request[..i + 1] == request[..i] + [request[i]];
        assert request[..i + 1][..i] == request[..i];
        rank := rank[request[i] := i];
      }
      assert request[..|request|] == request;
    }

    method ApplyWishes(request: seq<string>, rank: map<string, nat>)
      requires forall id :: id in rank <==> id in request
      requires forall id <- request :: rank[id] == LastIndex(request, id)
      modifies this`addons
      ensures addons == Wished(request, old(addons))
    {
      var i := 0;
      while i < |addons|
        invariant 0 <= i <= |addons| == |old(addons)|
        invariant forall k :: 0 <= k < i ==> addons[k] == Wished(request, old(addons))[k]
        invariant forall k :: i <= k < |addons| ==> addons[k] == old(addons)[k]
      {
        var order := if addons[i].id in rank then rank[addons[i].id] else |request| + i;
        addons := addons[i := addons[i].(order := order)];
        i := i + 1;
      }
    }

    method Reorder(request: seq<string>)
      requires Valid()
      modifies this
      ensures Valid() && View() == Addons.Reorder(collate, old(View()), request)
    {
      ghost var before := View();
      var rank := RankOf(request);
      ApplyWishes(request, rank);
      NumberByPriority();
      ReconcileRegistry();
      BumpRevision();
      assert View() == Step(collate, before, DoReorder(request));
      StepKeepsWellFormed(collate, before, DoReorder(request));
    }

    method ReloadFromStorage(stored: seq<Addon>, freshRevision: nat) returns (replaced: bool)
      requires Valid() && WellNamed(stored)
      modifies this
      ensures Valid() && View() == Reload(collate, old(View()), stored, freshRevision)
      ensures replaced == (freshRevision > old(revision))
    {
      ghost var before := View();
      replaced := freshRevision > revision;
      if !replaced { return; }
      addons, revision := stored, freshRevision;
      NumberByPriority();
      ReconcileRegistry();
      assert View() == Step(collate, before, DoReload(stored, freshRevision));
      StepKeepsWellFormed(collate, before, DoReload(stored, freshRevision));
    }

    method SetPlaybackGrants()
      requires Valid()
      modifies this`registry
      ensures Valid() && View() == Addons.SetPlaybackGrants(old(View()))
    {
      var i := 0;
      while i < |addons|
        invariant 0 <= i <= |addons|
        invariant Rebuild(registry, addons[i..]) == Rebuild(old(registry), addons)
      {
        assert addons[i..][1..] == addons[i + 1..];
        if addons[i].enabled {
          RegisterAgain(addons[i]);
        }
        i := i + 1;
      }
    }

    /** What `list` and the waterfall return. */
    method GetStreamEnabled() returns (list: seq<Addon>)
      ensures list == StreamEnabled(collate, addons)
    {
      var sorted := SortAddons(collate, addons);
      list := [];
      for i := 0 to |sorted|
        invariant list + OnlyLive(sorted[i..]) == OnlyLive(sorted)
      {
        assert sorted[i..][1..] == sorted[i + 1..];
        if Live(sorted[i]) { list := list + [sorted[i]]; }
      }
    }
  }

  lemma {:induction false} FindIs(addons: seq<Addon>, id: string)
    ensures Find(addons, id) < |addons| <==> id in Ids(addons)
  {
    HasAddon(addons, id);
    if a :| a in addons && a.id == id {
      var k :| 0 <= k < |addons| && addons[k] == a;
    }
  }
}
