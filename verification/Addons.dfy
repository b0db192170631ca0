/**
 The addon manager: the list of installed addons and the provider registry of the framework,
 which keeps its providers in the order in which they were registered.
 */
module Addons {
  import opened Prelude
  import opened Priority
  import opened FreshId

  /** What a provider was built from. It is fixed when the provider is built. */
  datatype Built = FromAddon(name: string, body: int, timeout: int) | Foreign(tag: int)

  datatype Provider = Provider(id: string, built: Built)

  datatype Manager = Manager(addons: seq<Addon>, revision: nat, registry: seq<Provider>)

  const DEFAULT_TIMEOUT := 20000

  predicate Managed(id: string) {
    ADDON <= id
  }

  predicate Live(a: Addon) {
    a.enabled && a.streams
  }

  function Build(a: Addon): Provider {
    Provider(a.id, FromAddon(a.name, a.body, a.timeout))
  }

  // ---------------------------------------------------------------- the framework's registry

  function ProviderIds(registry: seq<Provider>): seq<string> {
    seq(|registry|, i requires 0 <= i < |registry| => registry[i].id)
  }

  function Unregister(registry: seq<Provider>, id: string): seq<Provider> {
    if registry == [] then []
    else if registry[0].id == id then Unregister(registry[1..], id)
    else [registry[0]] + Unregister(registry[1..], id)
  }

  function UnregisterAll(registry: seq<Provider>, ids: seq<string>): seq<Provider>
    decreases |ids|
  {
    if ids == [] then registry else UnregisterAll(Unregister(registry, ids[0]), ids[1..])
  }

  /** A provider is registered for an addon that is enabled and offers streams, unless its id is
      there already. */
  function Register(registry: seq<Provider>, a: Addon): seq<Provider> {
    if Live(a) && a.id !in ProviderIds(registry) then registry + [Build(a)] else registry
  }

  function RegisterAll(registry: seq<Provider>, addons: seq<Addon>): seq<Provider>
    decreases |addons|
  {
    if addons == [] then registry else RegisterAll(Register(registry, addons[0]), addons[1..])
  }

  /** The providers that belong to addons. */
  function OfAddons(registry: seq<Provider>): seq<Provider> {
    if registry == [] then []
    else (if Managed(registry[0].id) then [registry[0]] else []) + OfAddons(registry[1..])
  }

  /** All the other providers. */
  function Others(registry: seq<Provider>): seq<Provider> {
    if registry == [] then []
    else (if Managed(registry[0].id) then [] else [registry[0]]) + Others(registry[1..])
  }

  // ---------------------------------------------------------------- reconciliation

  function OnlyLive(addons: seq<Addon>): seq<Addon> {
    if addons == [] then []
    else (if Live(addons[0]) then [addons[0]] else []) + OnlyLive(addons[1..])
  }

  /** The addons that are asked for streams, best first. */
  function StreamEnabled(collate: Collation, addons: seq<Addon>): seq<Addon> {
    OnlyLive(SortAddons(collate, addons))
  }

  /** The ids of the registry that no addon of `ordered` wants any more. */
  function Stale(ids: seq<string>, desired: seq<string>): seq<string> {
    if ids == [] then []
    else (if ids[0] !in desired && Managed(ids[0]) then [ids[0]] else []) + Stale(ids[1..], desired)
  }

  function Reconcile(collate: Collation, addons: seq<Addon>, registry: seq<Provider>): seq<Provider> {
    var ordered := StreamEnabled(collate, addons);
    var kept := UnregisterAll(registry, Stale(ProviderIds(registry), Ids(ordered)));
    var current := ProviderIds(OfAddons(kept));
    if current != Ids(ordered) then RegisterAll(UnregisterAll(kept, current), ordered)
    else RegisterAll(kept, ordered)
  }

  // ---------------------------------------------------------------- mutations

  /** Where the addon with this id is, or the length of the list. */
  function Find(addons: seq<Addon>, id: string): (i: nat)
    ensures i <= |addons| && (i < |addons| ==> addons[i].id == id)
    ensures forall k :: 0 <= k < i ==> addons[k].id != id
  {
    if addons == [] || addons[0].id == id then 0 else 1 + Find(addons[1..], id)
  }

  function Reconciled(collate: Collation, m: Manager): Manager {
    m.(registry := Reconcile(collate, m.addons, m.registry), revision := m.revision + 1)
  }

  function MaxOrder(addons: seq<Addon>): int {
    if addons == [] then -1 else Max(MaxOrder(addons[..|addons| - 1]), addons[|addons| - 1].order)
  }

  /** Install an addon that is not installed yet, at the end of the order. */
  function Install(collate: Collation, m: Manager, base: string, name: string, body: int, streams: bool, enable: bool): Manager {
    var id := Fresh(base, Ids(m.addons));
    var addon := Addon(id, if name != "" then name else id, enable, streams, MaxOrder(m.addons) + 1, DEFAULT_TIMEOUT, body);
    Reconciled(collate, m.(addons := m.addons + [addon]))
  }

  /** Install an addon that is installed already: its manifest is replaced in place. */
  function Update(collate: Collation, m: Manager, id: string, name: string, body: int, streams: bool): Manager {
    var i := Find(m.addons, id);
    if i == |m.addons| then m
    else
      var a := m.addons[i].(name := if name != "" then name else m.addons[i].name, body := body, streams := streams);
      var registry := if a.enabled then Register(Unregister(m.registry, id), a) else m.registry;
      Reconciled(collate, m.(addons := m.addons[i := a], registry := registry))
  }

  function Remove(m: Manager, id: string): Manager {
    var i := Find(m.addons, id);
    if i == |m.addons| then m
    else Manager(RemoveAt(m.addons, i), m.revision + 1, Unregister(m.registry, id))
  }

  function SetEnabled(collate: Collation, m: Manager, id: string, enabled: bool): Manager {
    var i := Find(m.addons, id);
    if i == |m.addons| then m
    else Reconciled(collate, m.(addons := m.addons[i := m.addons[i].(enabled := enabled)]))
  }

  /** A provider is built with its timeout, so it is built anew. */
  function SetTimeout(collate: Collation, m: Manager, id: string, timeout: int): Manager {
    var i := Find(m.addons, id);
    if i == |m.addons| then m
    else
      var a := m.addons[i].(timeout := Max(1000, Min(120000, timeout)));
      Reconciled(collate, m.(addons := m.addons[i := a], registry := Register(Unregister(m.registry, id), a)))
  }

  /** The last place at which the request lists the id, or else a place behind the whole request,
      in the order of the stored list. */
  function Wish(request: seq<string>, i: nat, id: string): nat {
    if id in request then LastIndex(request, id) else |request| + i
  }

  function LastIndex(request: seq<string>, id: string): (k: nat)
    requires id in request
    ensures k < |request| && request[k] == id && forall j :: k < j < |request| ==> request[j] != id
  {
    if request[|request| - 1] == id then |request| - 1 else LastIndex(request[..|request| - 1], id)
  }

  function Wished(request: seq<string>, addons: seq<Addon>): seq<Addon> {
    seq(|addons|, i requires 0 <= i < |addons| => addons[i].(order := Wish(request, i, addons[i].id)))
  }

  function Reorder(collate: Collation, m: Manager, request: seq<string>): Manager {
    Reconciled(collate, m.(addons := Renumber(collate, Wished(request, m.addons))))
  }

  /** Take over a newer state that another replica has stored. */
  function Reload(collate: Collation, m: Manager, stored: seq<Addon>, revision: nat): Manager {
    if revision <= m.revision then m
    else
      var addons := Renumber(collate, stored);
      Manager(addons, revision, Reconcile(collate, addons, m.registry))
  }

  /** Start up: providers are registered in the order of the stored list. */
  function Init(collate: Collation, stored: seq<Addon>, revision: nat, registry: seq<Provider>): Manager {
    var addons := Renumber(collate, stored);
    Manager(addons, revision, RegisterAll(registry, addons))
  }

  /** Build every enabled provider anew, in the order of the stored list. */
  function Rebuild(registry: seq<Provider>, addons: seq<Addon>): seq<Provider>
    decreases |addons|
  {
    if addons == [] then registry
    else
      Rebuild(if addons[0].enabled then Register(Unregister(registry, addons[0].id), addons[0]) else registry, addons[1..])
  }

  function SetPlaybackGrants(m: Manager): Manager {
    m.(registry := Rebuild(m.registry, m.addons))
  }

  // ---------------------------------------------------------------- runs

  datatype Op =
    | DoInstall(base: string, name: string, body: int, streams: bool, enable: bool)
    | DoUpdate(id: string, name: string, body: int, streams: bool)
    | DoRemove(id: string)
    | DoSetEnabled(id: string, enabled: bool)
    | DoSetTimeout(id: string, timeout: int)
    | DoReorder(request: seq<string>)
    | DoReload(stored: seq<Addon>, revision: nat)
    | DoGrants

  function Step(collate: Collation, m: Manager, op: Op): Manager {
    match op
    case DoInstall(base, name, body, streams, enable) => Install(collate, m, base, name, body, streams, enable)
    case DoUpdate(id, name, body, streams) => Update(collate, m, id, name, body, streams)
    case DoRemove(id) => Remove(m, id)
    case DoSetEnabled(id, enabled) => SetEnabled(collate, m, id, enabled)
    case DoSetTimeout(id, timeout) => SetTimeout(collate, m, id, timeout)
    case DoReorder(request) => Reorder(collate, m, request)
    case DoReload(stored, revision) => Reload(collate, m, stored, revision)
    case DoGrants => SetPlaybackGrants(m)
  }

  function Run(collate: Collation, m: Manager, ops: seq<Op>): Manager
    decreases |ops|
  {
    if ops == [] then m else Run(collate, Step(collate, m, ops[0]), ops[1..])
  }
}
