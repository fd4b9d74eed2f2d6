/**
 Saving a whole runtime and bringing it back: devices with their entities, the entity
 registry, the state store and the imported links.
*/
module Snapshots {
  import opened Ordering
  import opened Naming
  import opened Wire
  import opened Words

  type DeviceId = string

  const SNAPSHOT_VERSION: nat := 3
  const MAX_ENTITIES_PER_DEVICE: nat := 512

  /** Name, domain and features: derived from the id when a descriptor is made up. */
  datatype Details = FromId(id: EntityId) | Given(content: int)

  datatype Descriptor = Descriptor(entityId: EntityId, deviceId: Option<DeviceId>, details: Details)

  datatype DeviceDescriptor = DeviceDescriptor(deviceId: DeviceId, info: int)

  datatype Device = Device(descriptor: DeviceDescriptor, entities: set<EntityId>)

  /** An imported link; `online` stands for any status but Unavailable. */
  datatype Imported = Imported(deviceId: DeviceId, online: bool, info: int)

  /** `registry` maps an entity to what its actor answers when asked for its state; None is
      an actor that is gone. `linked` is whether there is a device-link manager. */
  datatype Runtime = Runtime(
    devices: map<DeviceId, Device>,
    registry: map<EntityId, Option<State>>,
    descriptors: map<EntityId, Descriptor>,
    store: map<EntityId, State>,
    canonical: map<DeviceId, Imported>,
    restored: map<DeviceId, Imported>,
    linked: bool)

  datatype EntitySnapshot = EntitySnapshot(descriptor: Descriptor, state: State)

  datatype DeviceSnapshot = DeviceSnapshot(
    descriptor: DeviceDescriptor, entities: seq<EntitySnapshot>, link: Option<Imported>)

  datatype Snapshot = Snapshot(version: nat, devices: seq<DeviceSnapshot>, orphans: seq<EntitySnapshot>)

  function Empty(linked: bool): Runtime {
    Runtime(map[], map[], map[], map[], map[], map[], linked)
  }

  // ---------------------------------------------------------------- saving

  /** The entity's state can be had: from the store, or else from its actor. */
  predicate Loads(r: Runtime, e: EntityId) {
    e in r.store || (e in r.registry && r.registry[e].Some?)
  }

  /** Asking for the state fails, and the whole snapshot with it. */
  predicate Silent(r: Runtime, e: EntityId) {
    e !in r.store && e in r.registry && r.registry[e].None?
  }

  function StateOf(r: Runtime, e: EntityId): State
    requires Loads(r, e)
  {
    if e in r.store then r.store[e] else r.registry[e].value
  }

  function DescriptorOf(r: Runtime, e: EntityId, fallback: Option<DeviceId>): Descriptor {
    if e in r.descriptors then r.descriptors[e] else Descriptor(e, fallback, FromId(e))
  }

  function EntryOf(r: Runtime, e: EntityId, fallback: Option<DeviceId>): EntitySnapshot
    requires Loads(r, e)
  {
    EntitySnapshot(DescriptorOf(r, e, fallback), StateOf(r, e))
  }

  function EntriesOf(r: Runtime, ids: seq<EntityId>, fallback: Option<DeviceId>): (entries: seq<EntitySnapshot>)
    requires forall e :: e in ids ==> Loads(r, e)
    ensures |entries| == |ids|
    ensures forall i :: 0 <= i < |ids| ==> entries[i] == EntryOf(r, ids[i], fallback)
  {
    if ids == [] then []
    else EntriesOf(r, ids[..|ids| - 1], fallback) + [EntryOf(r, ids[|ids| - 1], fallback)]
  }

  function KnownEntities(r: Runtime, d: DeviceId): set<EntityId>
    requires d in r.devices
  {
    set e | e in r.devices[d].entities && Loads(r, e)
  }

  ghost function DeviceEntries(r: Runtime, d: DeviceId): seq<EntitySnapshot>
    requires d in r.devices
  {
    var ids := SortSet(KnownEntities(r, d));
    InSortSet(KnownEntities(r, d));
    EntriesOf(r, ids, Some(d))
  }

  lemma InSortSet(s: set<string>)
    ensures forall x :: x in SortSet(s) <==> x in s
  {
    var r := SortSet(s);
    assert forall x :: x in r <==> x in Elems(r);
  }

  /** The links a manager lists: confirmed ones hide restored ones. */
  function LinkOf(r: Runtime, d: DeviceId): Option<Imported> {
    if !r.linked then None
    else if d in r.canonical then Some(r.canonical[d])
    else if d in r.restored then Some(r.restored[d])
    else None
  }

  ghost function SaveDevice(r: Runtime, d: DeviceId): DeviceSnapshot
    requires d in r.devices
  {
    DeviceSnapshot(r.devices[d].descriptor, DeviceEntries(r, d), LinkOf(r, d))
  }

  ghost function SaveDevices(r: Runtime, ids: seq<DeviceId>): (list: seq<DeviceSnapshot>)
    requires forall d :: d in ids ==> d in r.devices
    ensures |list| == |ids|
    ensures forall i :: 0 <= i < |ids| ==> list[i] == SaveDevice(r, ids[i])
  {
    if ids == [] then [] else SaveDevices(r, ids[..|ids| - 1]) + [SaveDevice(r, ids[|ids| - 1])]
  }

  /** The entities of these devices whose state is known. */
  function Covered(r: Runtime, ids: set<DeviceId>): set<EntityId> {
    set d, e | d in ids && d in r.devices && e in KnownEntities(r, d) :: e
  }

  function ListedEntities(r: Runtime): set<EntityId> {
    Covered(r, r.devices.Keys)
  }

  function Orphans(r: Runtime): set<EntityId> {
    set e | e in r.registry.Keys + r.store.Keys && e !in ListedEntities(r) && Loads(r, e)
  }

  ghost function OrphanEntries(r: Runtime): seq<EntitySnapshot> {
    var ids := SortSet(Orphans(r));
    InSortSet(Orphans(r));
    EntriesOf(r, ids, None)
  }

  /** `build_snapshot`, when every actor it has to ask answers. */
  ghost function Build(r: Runtime): Snapshot {
    InSortSet(r.devices.Keys);
    Snapshot(SNAPSHOT_VERSION, SaveDevices(r, SortSet(r.devices.Keys)), OrphanEntries(r))
  }

  predicate Answering(r: Runtime) {
    forall e :: e in r.registry ==> !Silent(r, e)
  }

  // ---------------------------------------------------------------- bringing back

  function AddDevice(r: Runtime, d: DeviceDescriptor): Runtime {
    var entities := if d.deviceId in r.devices then r.devices[d.deviceId].entities else {};
    r.(devices := r.devices[d.deviceId := Device(d, entities)])
  }

  function Register(r: Runtime, x: EntitySnapshot): Runtime {
    var e := x.descriptor.entityId;
    r.(store := r.store[e := x.state], descriptors := r.descriptors[e := x.descriptor],
       registry := r.registry[e := Some(x.state)])
  }

  function AddEntity(r: Runtime, d: DeviceId, x: EntitySnapshot): Runtime
    requires d in r.devices
  {
    var entities := r.devices[d].entities + {x.descriptor.entityId};
    Register(r, x).(devices := r.devices[d := r.devices[d].(entities := entities)])
  }

  function AddEntities(r: Runtime, d: DeviceId, xs: seq<EntitySnapshot>): (s: Runtime)
    requires d in r.devices
    ensures d in s.devices
  {
    if xs == [] then r else AddEntity(AddEntities(r, d, xs[..|xs| - 1]), d, xs[|xs| - 1])
  }

  function Seed(r: Runtime, link: Option<Imported>): Runtime {
    if link.Some? && r.linked
    then r.(restored := r.restored[link.value.deviceId := link.value.(online := false)])
    else r
  }

  function RestoreDevice(r: Runtime, x: DeviceSnapshot): Runtime {
    Seed(AddEntities(AddDevice(r, x.descriptor), x.descriptor.deviceId, x.entities), x.link)
  }

  function RestoreDevices(r: Runtime, xs: seq<DeviceSnapshot>): Runtime {
    if xs == [] then r else RestoreDevice(RestoreDevices(r, xs[..|xs| - 1]), xs[|xs| - 1])
  }

  function RegisterAll(r: Runtime, xs: seq<EntitySnapshot>): Runtime {
    if xs == [] then r else Register(RegisterAll(r, xs[..|xs| - 1]), xs[|xs| - 1])
  }

  function Restore(r: Runtime, s: Snapshot): Runtime {
    RegisterAll(RestoreDevices(r, s.devices), s.orphans)
  }

  /** Every link of the snapshot offline. */
  function Offline(s: Snapshot): Snapshot {
    s.(devices := seq(|s.devices|, i requires 0 <= i < |s.devices| => OfflineDevice(s.devices[i])))
  }

  function OfflineDevice(x: DeviceSnapshot): DeviceSnapshot {
    if x.link.Some? then x.(link := Some(x.link.value.(online := false))) else x
  }

  // ---------------------------------------------------------------- what is kept

  /** Maps are keyed by the ids of what they hold. */
  predicate WellFormed(r: Runtime) {
    && (forall d :: d in r.devices ==> r.devices[d].descriptor.deviceId == d)
    && (forall e :: e in r.descriptors ==> r.descriptors[e].entityId == e)
    && (forall d :: d in r.canonical ==> r.canonical[d].deviceId == d)
    && (forall d :: d in r.restored ==> r.restored[d].deviceId == d)
  }

  // ---------------------------------------------------------------- the round trip

  /** Where the copy stands after entities `ids` of the original were registered. */
  ghost predicate Registered(r: Runtime, before: Runtime, after: Runtime, ids: set<EntityId>) {
    && (forall e :: e in after.store <==> e in before.store || e in ids)
    && (forall e :: e in after.registry <==> e in before.registry || e in ids)
    && (forall e :: e in after.descriptors <==> e in before.descriptors || e in ids)
    && (forall e :: e in ids ==> Loads(r, e) && after.store[e] == StateOf(r, e))
    && (forall e :: e in before.store && e !in ids ==> after.store[e] == before.store[e])
  }

  /** Whose descriptors the copy has. */
  ghost predicate Described(r: Runtime, before: Runtime, after: Runtime, ids: set<EntityId>, f: Option<DeviceId>) {
    && (forall e :: e in ids ==> e in after.descriptors && after.descriptors[e] == DescriptorOf(r, e, f))
    && (forall e :: e in before.descriptors && e !in ids ==>
          e in after.descriptors && after.descriptors[e] == before.descriptors[e])
  }

  lemma RegisterEffect(r: Runtime, start: Runtime, before: Runtime, ids: set<EntityId>, e: EntityId, f: Option<DeviceId>)
    requires WellFormed(r) && Loads(r, e)
    requires Registered(r, start, before, ids) && Described(r, start, before, ids, f)
    ensures var after := Register(before, EntryOf(r, e, f));
      Registered(r, start, after, ids + {e}) && Described(r, start, after, ids + {e}, f)
  {
    hide Loads, StateOf, Registered, Described, WellFormed, DescriptorOf;
    EntryId(r, e, f);
    var x := EntryOf(r, e, f);
    RegisteredMore(r, start, before, ids, e, x);
    DescribedMore(r, start, before, ids, e, x, f);
  }

  lemma RegisteredMore(r: Runtime, start: Runtime, before: Runtime, ids: set<EntityId>, e: EntityId, x: EntitySnapshot)
    requires Registered(r, start, before, ids) && Loads(r, e)
    requires x.descriptor.entityId == e && x.state == StateOf(r, e)
    ensures Registered(r, start, Register(before, x), ids + {e})
  {
    hide Loads, StateOf;
  }

  lemma DescribedMore(r: Runtime, start: Runtime, before: Runtime, ids: set<EntityId>, e: EntityId, x: EntitySnapshot,
                      f: Option<DeviceId>)
    requires Described(r, start, before, ids, f)
    requires x.descriptor.entityId == e && x.descriptor == DescriptorOf(r, e, f)
    ensures Described(r, start, Register(before, x), ids + {e}, f)
  {
    hide DescriptorOf;
  }

  /** Registering entries saved from `r` copies their states and descriptors. */
  lemma {:induction false} RegisterAllEffect(r: Runtime, before: Runtime, ids: seq<EntityId>, f: Option<DeviceId>)
    requires WellFormed(r) && forall e :: e in ids ==> Loads(r, e)
    ensures var after := RegisterAll(before, EntriesOf(r, ids, f));
      && Registered(r, before, after, Elems(ids)) && Described(r, before, after, Elems(ids), f)
      && after == before.(store := after.store, registry := after.registry, descriptors := after.descriptors)
  {
    hide Loads, DescriptorOf, Registered, Described, WellFormed;
    if ids == [] {
      NoneRegistered(r, before, f);
      assert Elems(ids) == {};
    } else {
      var front, last := ids[..|ids| - 1], ids[|ids| - 1];
      assert ids == front + [last];
      assert last in ids;
      RegisterAllEffect(r, before, front, f);
      assert EntriesOf(r, ids, f)[..|ids| - 1] == EntriesOf(r, front, f);
      RegisterEffect(r, before, RegisterAll(before, EntriesOf(r, front, f)), Elems(front), last, f);
      ElemsSnoc(front, last);
    }
  }

  lemma NoneRegistered(r: Runtime, before: Runtime, f: Option<DeviceId>)
    ensures Registered(r, before, before, {}) && Described(r, before, before, {}, f)
  {
  }

  /** Adding entities to a device is registering them, and listing them under it. */
  lemma {:induction false} AddEntitiesEffect(r: Runtime, before: Runtime, d: DeviceId, ids: seq<EntityId>,
                                             f: Option<DeviceId>)
    requires WellFormed(r) && d in before.devices && forall e :: e in ids ==> Loads(r, e)
    ensures var xs := EntriesOf(r, ids, f);
      var device := before.devices[d];
      AddEntities(before, d, xs)
        == RegisterAll(before, xs).(devices := before.devices[d := device.(entities := device.entities + Elems(ids))])
  {
    hide Loads, Register, DescriptorOf, StateOf, AddEntity;
    var xs := EntriesOf(r, ids, f);
    var device := before.devices[d];
    if ids == [] {
      assert device.entities + Elems(ids) == device.entities;
      assert before.devices[d := device] == before.devices;
    } else {
      var front, last := ids[..|ids| - 1], ids[|ids| - 1];
      assert ids == front + [last];
      assert last in ids;
      AddEntitiesEffect(r, before, d, front, f);
      assert xs[..|ids| - 1] == EntriesOf(r, front, f);
      EntryId(r, last, f);
      ElemsSnoc(front, last);
      hide EntriesOf, Elems;
      AddOne(RegisterAll(before, xs[..|ids| - 1]), before.devices, d, Elems(front), xs[|ids| - 1]);
    }
  }

  lemma EntryId(r: Runtime, e: EntityId, f: Option<DeviceId>)
    requires WellFormed(r) && Loads(r, e)
    ensures EntryOf(r, e, f).descriptor.entityId == e
  {
  }

  lemma AddOne(base: Runtime, devices: map<DeviceId, Device>, d: DeviceId, es: set<EntityId>, x: EntitySnapshot)
    requires d in devices
    ensures var device, e := devices[d], x.descriptor.entityId;
      AddEntity(base.(devices := devices[d := device.(entities := device.entities + es)]), d, x)
        == Register(base, x).(devices := devices[d := device.(entities := device.entities + (es + {e}))])
  {
    var device, e := devices[d], x.descriptor.entityId;
    assert device.entities + es + {e} == device.entities + (es + {e});
    var once, twice := device.(entities := device.entities + es), device.(entities := device.entities + (es + {e}));
    PutTwice(devices, d, once, twice);
  }

  // ---------------------------------------------------------------- copies

  /** The copy has exactly these devices, each with the entities whose state was known. */
  ghost predicate SameDevices(r: Runtime, y: Runtime, ids: set<DeviceId>) {
    && (forall d :: d in y.devices <==> d in ids)
    && (forall d :: d in ids ==>
          d in r.devices && y.devices[d] == Device(r.devices[d].descriptor, KnownEntities(r, d)))
  }

  ghost predicate SameLinks(r: Runtime, y: Runtime, ids: set<DeviceId>) {
    && y.canonical == map[] && y.linked == r.linked
    && (forall d :: d in y.restored <==> d in ids && LinkOf(r, d).Some?)
    && (forall d :: d in y.restored ==> y.restored[d] == LinkOf(r, d).value.(online := false))
  }

  /** The copy knows exactly these entities, in the states they had. */
  ghost predicate SameStates(r: Runtime, y: Runtime, es: set<EntityId>) {
    && y.store.Keys == es && y.registry.Keys == es && y.descriptors.Keys == es
    && (forall e :: e in es ==> Loads(r, e) && y.store[e] == StateOf(r, e))
  }

  ghost predicate DescribedBy(r: Runtime, y: Runtime, ids: set<DeviceId>, e: EntityId) {
    exists d :: d in ids && d in r.devices && e in KnownEntities(r, d)
      && e in y.descriptors && y.descriptors[e] == DescriptorOf(r, e, Some(d))
  }

  /** Every entity has the descriptor it was saved with under one of its devices. */
  ghost predicate SomeDescriptors(r: Runtime, y: Runtime, ids: set<DeviceId>) {
    forall e :: e in y.descriptors ==> DescribedBy(r, y, ids, e)
  }

  ghost predicate Copied(r: Runtime, y: Runtime, ids: set<DeviceId>) {
    SameDevices(r, y, ids) && SameLinks(r, y, ids) && SameStates(r, y, Covered(r, ids)) && SomeDescriptors(r, y, ids)
  }

  lemma Rebase(r: Runtime, a: Runtime, b: Runtime, c: Runtime, d: Runtime, ids: set<EntityId>, f: Option<DeviceId>)
    requires Registered(r, a, b, ids) && Described(r, a, b, ids, f)
    requires c == a.(devices := c.devices) && d == b.(devices := d.devices)
    ensures Registered(r, c, d, ids) && Described(r, c, d, ids, f)
  {
  }

  lemma FillDevice(r: Runtime, y: Runtime, d: DeviceId)
    requires WellFormed(r) && d in r.devices && d !in y.devices
    ensures var es, x := KnownEntities(r, d), SaveDevice(r, d);
      var filled := AddEntities(AddDevice(y, x.descriptor), x.descriptor.deviceId, x.entities);
      && Registered(r, y, filled, es) && Described(r, y, filled, es, Some(d))
      && filled.devices == y.devices[d := Device(r.devices[d].descriptor, es)]
      && filled.canonical == y.canonical && filled.restored == y.restored && filled.linked == y.linked
  {
    hide KnownEntities, AddEntities, RegisterAll, Registered, Described, DescriptorOf, Loads, LinkOf, WellFormed;
    assert r.devices[d].descriptor.deviceId == d by { KeyedById(r, d); }
    var ids := SortSet(KnownEntities(r, d));
    InSortSet(KnownEntities(r, d));
    KnownLoad(r, d);
    var xs := EntriesOf(r, ids, Some(d));
    assert SaveDevice(r, d).entities == xs;
    assert Elems(ids) == KnownEntities(r, d);
    hide EntriesOf, SortSet, Elems, DeviceEntries;
    var added := AddDevice(y, r.devices[d].descriptor);
    AddEntitiesEffect(r, added, d, ids, Some(d));
    RegisterAllEffect(r, added, ids, Some(d));
    assert {} + KnownEntities(r, d) == KnownEntities(r, d);
    var device := Device(r.devices[d].descriptor, KnownEntities(r, d));
    PutTwice(y.devices, d, Device(r.devices[d].descriptor, {}), device);
    var after := RegisterAll(added, xs);
    Rebase(r, added, after, y, after.(devices := y.devices[d := device]), KnownEntities(r, d), Some(d));
  }

  lemma KeyedById(r: Runtime, d: DeviceId)
    requires WellFormed(r) && d in r.devices
    ensures r.devices[d].descriptor.deviceId == d
  {
  }

  lemma PutTwice<K, V>(m: map<K, V>, k: K, v: V, w: V)
    ensures m[k := v][k := w] == m[k := w]
  {
  }

  lemma KnownLoad(r: Runtime, d: DeviceId)
    requires d in r.devices
    ensures forall e :: e in KnownEntities(r, d) ==> Loads(r, e)
  {
  }

  lemma CopyDevice(r: Runtime, y: Runtime, ids: set<DeviceId>, d: DeviceId)
    requires WellFormed(r) && d in r.devices && d !in ids && Copied(r, y, ids)
    ensures Copied(r, RestoreDevice(y, SaveDevice(r, d)), ids + {d})
  {
    assert d !in y.devices;
    hide KnownEntities, AddEntities, Registered, Described, SomeDescriptors, SameStates, SameLinks, SameDevices, Covered,
         DeviceEntries, AddDevice;
    FillDevice(r, y, d);
    var x := SaveDevice(r, d);
    var filled := AddEntities(AddDevice(y, x.descriptor), x.descriptor.deviceId, x.entities);
    CopiedStates(r, y, filled, ids, d);
    CopiedDescriptors(r, y, filled, ids, d);
    CopiedDevices(r, y, Seed(filled, LinkOf(r, d)), ids, d);
    CopiedLinks(r, y, filled, ids, d);
    SeededStates(r, filled, LinkOf(r, d), ids + {d});
  }

  lemma SeededStates(r: Runtime, y: Runtime, link: Option<Imported>, ids: set<DeviceId>)
    requires SameStates(r, y, Covered(r, ids)) && SomeDescriptors(r, y, ids)
    ensures SameStates(r, Seed(y, link), Covered(r, ids)) && SomeDescriptors(r, Seed(y, link), ids)
  {
    hide KnownEntities, Loads, StateOf, DescriptorOf, Covered;
    forall e | e in y.descriptors ensures DescribedBy(r, Seed(y, link), ids, e) {
      assert DescribedBy(r, y, ids, e);
    }
  }

  lemma CopiedStates(r: Runtime, y: Runtime, filled: Runtime, ids: set<DeviceId>, d: DeviceId)
    requires d in r.devices && SameStates(r, y, Covered(r, ids))
    requires Registered(r, y, filled, KnownEntities(r, d))
    ensures SameStates(r, filled, Covered(r, ids + {d}))
  {
    hide Loads, StateOf;
    assert Covered(r, ids + {d}) == Covered(r, ids) + KnownEntities(r, d);
  }

  lemma CopiedDescriptors(r: Runtime, y: Runtime, filled: Runtime, ids: set<DeviceId>, d: DeviceId)
    requires d in r.devices && SomeDescriptors(r, y, ids)
    requires Registered(r, y, filled, KnownEntities(r, d)) && Described(r, y, filled, KnownEntities(r, d), Some(d))
    ensures SomeDescriptors(r, filled, ids + {d})
  {
    hide Loads, StateOf, DescriptorOf;
    forall e | e in filled.descriptors ensures DescribedBy(r, filled, ids + {d}, e) {
      if e !in KnownEntities(r, d) {
        assert DescribedBy(r, y, ids, e);
      }
    }
  }

  lemma CopiedDevices(r: Runtime, y: Runtime, z: Runtime, ids: set<DeviceId>, d: DeviceId)
    requires d in r.devices && SameDevices(r, y, ids)
    requires z.devices == y.devices[d := Device(r.devices[d].descriptor, KnownEntities(r, d))]
    ensures SameDevices(r, z, ids + {d})
  {
    hide KnownEntities;
  }

  lemma CopiedLinks(r: Runtime, y: Runtime, filled: Runtime, ids: set<DeviceId>, d: DeviceId)
    requires WellFormed(r) && SameLinks(r, y, ids) && d !in ids
    requires filled.canonical == y.canonical && filled.restored == y.restored && filled.linked == y.linked
    ensures SameLinks(r, Seed(filled, LinkOf(r, d)), ids + {d})
  {
    assert LinkOf(r, d).Some? ==> LinkOf(r, d).value.deviceId == d && r.linked;
    hide LinkOf, WellFormed;
  }

  lemma {:induction false} CopyDevices(r: Runtime, ids: seq<DeviceId>)
    requires WellFormed(r) && Distinct(ids) && forall d :: d in ids ==> d in r.devices
    ensures Copied(r, RestoreDevices(Empty(r.linked), SaveDevices(r, ids)), Elems(ids))
  {
    hide WellFormed, RestoreDevice, SaveDevice, Copied;
    if ids == [] {
      EmptyCopied(r);
      assert Elems(ids) == {};
    } else {
      var front, last := ids[..|ids| - 1], ids[|ids| - 1];
      assert ids == front + [last];
      ElemsSnoc(front, last);
      CopyDevices(r, front);
      assert SaveDevices(r, ids)[..|ids| - 1] == SaveDevices(r, front);
      CopyDevice(r, RestoreDevices(Empty(r.linked), SaveDevices(r, front)), Elems(front), last);
    }
  }

  lemma EmptyCopied(r: Runtime)
    ensures Copied(r, Empty(r.linked), {})
  {
  }

  /** A restored copy of a runtime. */
  ghost predicate Replica(r: Runtime, z: Runtime) {
    && SameDevices(r, z, r.devices.Keys) && SameLinks(r, z, r.devices.Keys)
    && SameStates(r, z, ListedEntities(r) + Orphans(r))
    && (forall e :: e in ListedEntities(r) ==> DescribedBy(r, z, r.devices.Keys, e))
    && (forall e :: e in Orphans(r) ==> e in z.descriptors && z.descriptors[e] == DescriptorOf(r, e, None))
  }

  lemma RestoredIsReplica(r: Runtime)
    requires WellFormed(r)
    ensures Replica(r, Restore(Empty(r.linked), Build(r)))
  {
    hide KnownEntities, Registered, Described, SomeDescriptors, SameStates, SameLinks, SameDevices, SaveDevices, WellFormed,
         Orphans, Loads, DescriptorOf, RegisterAll, RestoreDevices, EntriesOf;
    var ids, orphans := SortSet(r.devices.Keys), SortSet(Orphans(r));
    InSortSet(r.devices.Keys);
    InSortSet(Orphans(r));
    OrphansLoad(r);
    assert Elems(ids) == r.devices.Keys && Elems(orphans) == Orphans(r) && Distinct(ids);
    hide SortSet, Elems, Distinct;
    CopyDevices(r, ids);
    var y := RestoreDevices(Empty(r.linked), SaveDevices(r, ids));
    RegisterAllEffect(r, y, orphans, None);
    AddOrphans(r, y, RegisterAll(y, EntriesOf(r, orphans, None)));
  }

  lemma OrphansLoad(r: Runtime)
    ensures (forall e :: e in Orphans(r) ==> Loads(r, e)) && Orphans(r) !! ListedEntities(r)
  {
    hide KnownEntities;
  }

  lemma AddOrphans(r: Runtime, y: Runtime, z: Runtime)
    requires Copied(r, y, r.devices.Keys)
    requires Registered(r, y, z, Orphans(r)) && Described(r, y, z, Orphans(r), None)
    requires z == y.(store := z.store, registry := z.registry, descriptors := z.descriptors)
    ensures Replica(r, z)
  {
    hide KnownEntities, Loads, DescriptorOf, LinkOf, StateOf, Orphans, SameStates, Registered, Covered;
    OrphansLoad(r);
    OrphanStates(r, y, z, ListedEntities(r), Orphans(r));
    assert forall e :: e in ListedEntities(r) ==> e in y.descriptors by { DescribedKeys(r, y, ListedEntities(r)); }
    forall e | e in ListedEntities(r) ensures DescribedBy(r, z, r.devices.Keys, e) {
      assert DescribedBy(r, y, r.devices.Keys, e);
    }
  }

  lemma DescribedKeys(r: Runtime, y: Runtime, es: set<EntityId>)
    requires SameStates(r, y, es)
    ensures y.descriptors.Keys == es
  {
  }

  lemma OrphanStates(r: Runtime, y: Runtime, z: Runtime, es: set<EntityId>, orphans: set<EntityId>)
    requires SameStates(r, y, es) && Registered(r, y, z, orphans)
    ensures SameStates(r, z, es + orphans)
  {
    hide Loads, StateOf;
  }

  // ---------------------------------------------------------------- the round trip

  /** No entity without a registered descriptor is listed by two devices. */
  ghost predicate NoClash(r: Runtime) {
    forall d1, d2, e :: d1 in r.devices && d2 in r.devices && Clash(r, d1, d2, e) ==> d1 == d2
  }

  /** Both devices list an entity that would have to be described under one of them. */
  predicate Clash(r: Runtime, d1: DeviceId, d2: DeviceId, e: EntityId)
    requires d1 in r.devices && d2 in r.devices
  {
    e in KnownEntities(r, d1) && e in KnownEntities(r, d2) && e !in r.descriptors
  }

  lemma ReplicaSets(r: Runtime, z: Runtime)
    requires Replica(r, z)
    ensures z.devices.Keys == r.devices.Keys
    ensures forall d :: d in r.devices ==>
      z.devices[d].descriptor == r.devices[d].descriptor && KnownEntities(z, d) == KnownEntities(r, d)
    ensures ListedEntities(z) == ListedEntities(r) && Orphans(z) == Orphans(r)
  {
    hide DescribedBy, LinkOf, StateOf, DescriptorOf;
    forall d | d in r.devices ensures KnownEntities(z, d) == KnownEntities(r, d) {
      assert forall e :: e in KnownEntities(r, d) ==> e in ListedEntities(r);
    }
    OrphansLoad(r);
    hide KnownEntities;
    assert ListedEntities(z) == ListedEntities(r);
    assert Orphans(z) == Orphans(r);
  }

  lemma {:induction false} SameEntries(r: Runtime, z: Runtime, ids: seq<EntityId>, f: Option<DeviceId>)
    requires forall e :: e in ids ==> Loads(r, e) && Loads(z, e) && EntryOf(r, e, f) == EntryOf(z, e, f)
    ensures EntriesOf(r, ids, f) == EntriesOf(z, ids, f)
  {
    hide Loads, EntryOf, EntriesOf;
    var xs, ys := EntriesOf(r, ids, f), EntriesOf(z, ids, f);
    forall i | 0 <= i < |ids| ensures xs[i] == ys[i] {
      assert ids[i] in ids;
    }
  }

  lemma ReplicaEntry(r: Runtime, z: Runtime, d: DeviceId, e: EntityId)
    requires Replica(r, z) && d in r.devices && e in KnownEntities(r, d)
    ensures Loads(r, e) && Loads(z, e) && StateOf(z, e) == StateOf(r, e) && e in z.descriptors
    ensures NoClash(r) ==> EntryOf(z, e, Some(d)) == EntryOf(r, e, Some(d))
  {
    hide LinkOf, Orphans;
    assert e in ListedEntities(r);
    hide KnownEntities;
    assert DescribedBy(r, z, r.devices.Keys, e);
    var o :| o in r.devices && e in KnownEntities(r, o) && z.descriptors[e] == DescriptorOf(r, e, Some(o));
    assert e !in r.descriptors ==> Clash(r, d, o, e);
  }

  lemma ReplicaOrphan(r: Runtime, z: Runtime, e: EntityId)
    requires Replica(r, z) && e in Orphans(r)
    ensures Loads(r, e) && Loads(z, e) && EntryOf(z, e, None) == EntryOf(r, e, None)
  {
    hide LinkOf, KnownEntities, ListedEntities;
  }

  lemma ReplicaDevice(r: Runtime, z: Runtime, d: DeviceId)
    requires Replica(r, z) && NoClash(r) && d in r.devices
    ensures d in z.devices && SaveDevice(z, d) == OfflineDevice(SaveDevice(r, d))
  {
    hide KnownEntities, Orphans, Loads, DescriptorOf, EntryOf, EntriesOf;
    ReplicaSets(r, z);
    var ids := SortSet(KnownEntities(r, d));
    InSortSet(KnownEntities(r, d));
    forall e | e in ids ensures Loads(r, e) && Loads(z, e) && EntryOf(r, e, Some(d)) == EntryOf(z, e, Some(d)) {
      ReplicaEntry(r, z, d, e);
    }
    SameEntries(r, z, ids, Some(d));
    assert LinkOf(z, d) == OfflineDevice(SaveDevice(r, d)).link;
  }

  lemma SameDeviceLists(r: Runtime, z: Runtime, ids: seq<DeviceId>)
    requires Replica(r, z) && NoClash(r) && forall d :: d in ids ==> d in r.devices && d in z.devices
    ensures SaveDevices(z, ids) == seq(|ids|, i requires 0 <= i < |ids| => OfflineDevice(SaveDevices(r, ids)[i]))
  {
    hide Replica, NoClash, SaveDevice, OfflineDevice;
    forall i | 0 <= i < |ids| ensures SaveDevice(z, ids[i]) == OfflineDevice(SaveDevice(r, ids[i])) {
      assert ids[i] in ids;
      ReplicaDevice(r, z, ids[i]);
    }
  }

  lemma SameOrphans(r: Runtime, z: Runtime)
    requires Replica(r, z)
    ensures OrphanEntries(z) == OrphanEntries(r)
  {
    hide Replica, Orphans, Loads, EntryOf, EntriesOf, KnownEntities, ListedEntities, Elems, Distinct, Sorted;
    ReplicaSets(r, z);
    var orphans := SortSet(Orphans(r));
    InSortSet(Orphans(r));
    forall e | e in orphans ensures Loads(r, e) && Loads(z, e) && EntryOf(r, e, None) == EntryOf(z, e, None) {
      ReplicaOrphan(r, z, e);
    }
    SameEntries(r, z, orphans, None);
  }

  lemma ReplicaBuildsSame(r: Runtime, z: Runtime)
    requires Replica(r, z) && NoClash(r)
    ensures Build(z) == Offline(Build(r))
  {
    hide Replica, NoClash, SaveDevice, OfflineDevice, OrphanEntries, KnownEntities, ListedEntities, Orphans, Elems, Distinct,
         Sorted;
    ReplicaSets(r, z);
    SameOrphans(r, z);
    InSortSet(r.devices.Keys);
    SameDeviceLists(r, z, SortSet(r.devices.Keys));
  }

  /** With a clash the entity comes back under one of its devices only. */
  lemma ClashIsLost(r: Runtime, z: Runtime, e: EntityId, d1: DeviceId, d2: DeviceId)
    requires Replica(r, z) && d1 in r.devices && d2 in r.devices && d1 != d2 && Clash(r, d1, d2, e)
    ensures Build(z) != Offline(Build(r))
  {
    if Build(z) == Offline(Build(r)) {
      SameUnder(r, z, e, d1);
      SameUnder(r, z, e, d2);
    }
  }

  lemma SameUnder(r: Runtime, z: Runtime, e: EntityId, d: DeviceId)
    requires Replica(r, z) && d in r.devices && e in KnownEntities(r, d) && Build(z) == Offline(Build(r))
    ensures e in z.descriptors && z.descriptors[e] == DescriptorOf(r, e, Some(d))
  {
    hide Replica, KnownEntities, Orphans, Loads, EntriesOf, DescriptorOf, OfflineDevice;
    ReplicaSets(r, z);
    ReplicaEntry(r, z, d, e);
    var ids := SortSet(r.devices.Keys);
    InSortSet(r.devices.Keys);
    var i :| 0 <= i < |ids| && ids[i] == d;
    assert Build(z).devices[i] == SaveDevice(z, d);
    assert Offline(Build(r)).devices[i] == OfflineDevice(SaveDevice(r, d));
    OfflineEntries(SaveDevice(r, d));
    var es := SortSet(KnownEntities(r, d));
    InSortSet(KnownEntities(r, d));
    var j :| 0 <= j < |es| && es[j] == e;
    assert DeviceEntries(z, d)[j] == EntryOf(z, e, Some(d));
    assert DeviceEntries(r, d)[j] == EntryOf(r, e, Some(d));
    HasDescriptor(z, e, Some(d));
  }

  lemma OfflineEntries(x: DeviceSnapshot)
    ensures OfflineDevice(x).entities == x.entities
  {
  }

  lemma HasDescriptor(r: Runtime, e: EntityId, f: Option<DeviceId>)
    requires e in r.descriptors
    ensures DescriptorOf(r, e, f) == r.descriptors[e]
  {
  }

  lemma ReplicaAnswers(r: Runtime, z: Runtime)
    requires Replica(r, z)
    ensures Answering(z)
  {
    hide KnownEntities, ListedEntities, Orphans, LinkOf, DescribedBy, SameDevices, SameLinks, DescriptorOf;
  }

  /** Saving, restoring into an empty runtime and saving again gives the same snapshot but
      for the links, which are offline, exactly if no entity that lacks a registered
      descriptor is listed by two devices. */
  lemma RoundTripIffNoClash(r: Runtime)
    requires WellFormed(r)
    ensures Build(Restore(Empty(r.linked), Build(r))) == Offline(Build(r)) <==> NoClash(r)
    ensures Answering(Restore(Empty(r.linked), Build(r)))
  {
    hide Build, Restore, KnownEntities, Replica, Answering, Offline, WellFormed;
    var z := Restore(Empty(r.linked), Build(r));
    RestoredIsReplica(r);
    ReplicaAnswers(r, z);
    if NoClash(r) {
      ReplicaBuildsSame(r, z);
    } else {
      var d1, d2, e :| d1 in r.devices && d2 in r.devices && Clash(r, d1, d2, e) && d1 != d2;
      ClashIsLost(r, z, e, d1, d2);
    }
  }

  // ---------------------------------------------------------------- what a snapshot holds

  predicate Within(xs: seq<EntitySnapshot>, e: EntityId) {
    exists x :: x in xs && x.descriptor.entityId == e
  }

  predicate InDevices(s: Snapshot, e: EntityId) {
    exists d :: d in s.devices && Within(d.entities, e)
  }

  lemma EntriesHold(r: Runtime, ids: seq<EntityId>, f: Option<DeviceId>, e: EntityId)
    requires WellFormed(r) && forall x :: x in ids ==> Loads(r, x)
    ensures Within(EntriesOf(r, ids, f), e) <==> e in ids
  {
    hide WellFormed, EntriesOf, DescriptorOf, StateOf, Loads;
    var xs := EntriesOf(r, ids, f);
    forall i | 0 <= i < |ids| ensures xs[i].descriptor.entityId == ids[i] {
      assert ids[i] in ids;
      EntryId(r, ids[i], f);
    }
    if e in ids {
      var i :| 0 <= i < |ids| && ids[i] == e;
      assert xs[i] in xs;
    }
  }

  lemma DeviceHolds(r: Runtime, d: DeviceId, e: EntityId)
    requires WellFormed(r) && d in r.devices
    ensures Within(SaveDevice(r, d).entities, e) <==> e in KnownEntities(r, d)
  {
    hide WellFormed, EntriesOf, Loads, Within, KnownEntities;
    InSortSet(KnownEntities(r, d));
    KnownLoad(r, d);
    EntriesHold(r, SortSet(KnownEntities(r, d)), Some(d), e);
  }

  lemma DevicesHold(r: Runtime, e: EntityId)
    requires WellFormed(r)
    ensures InDevices(Build(r), e) <==> e in ListedEntities(r)
  {
    hide WellFormed, EntriesOf, Within, SaveDevice, KnownEntities, Orphans, SaveDevices, Sorted, Distinct, Elems;
    InSortSet(r.devices.Keys);
    SavedHold(r, SortSet(r.devices.Keys), e);
  }

  lemma SavedHold(r: Runtime, ids: seq<DeviceId>, e: EntityId)
    requires WellFormed(r) && forall d :: d in ids ==> d in r.devices
    ensures (exists x :: x in SaveDevices(r, ids) && Within(x.entities, e))
      <==> exists d :: d in ids && d in r.devices && e in KnownEntities(r, d)
  {
    hide WellFormed, Within, SaveDevice, KnownEntities;
    var xs := SaveDevices(r, ids);
    if x :| x in xs && Within(x.entities, e) {
      var i :| 0 <= i < |xs| && xs[i] == x;
      assert ids[i] in ids;
      DeviceHolds(r, ids[i], e);
    }
    if d :| d in ids && d in r.devices && e in KnownEntities(r, d) {
      var i :| 0 <= i < |ids| && ids[i] == d;
      DeviceHolds(r, d, e);
      assert xs[i] in xs;
    }
  }

  /** A snapshot lists exactly the entities whose state is known: under their devices, or
      among the orphans, never both. */
  lemma SnapshotHoldsExactly(r: Runtime, e: EntityId)
    requires WellFormed(r)
    ensures InDevices(Build(r), e) || Within(Build(r).orphans, e) <==> Loads(r, e)
    ensures !(InDevices(Build(r), e) && Within(Build(r).orphans, e))
    ensures InDevices(Build(r), e) <==> e in ListedEntities(r)
  {
    hide WellFormed, EntriesOf, Within, SaveDevice, InDevices;
    InSortSet(Orphans(r));
    OrphansLoad(r);
    EntriesHold(r, SortSet(Orphans(r)), None, e);
    DevicesHold(r, e);
  }

  function Entries(xs: seq<DeviceSnapshot>): nat {
    if xs == [] then 0 else Entries(xs[..|xs| - 1]) + |xs[|xs| - 1].entities|
  }

  /** All the entries a snapshot lists. */
  function Total(s: Snapshot): nat {
    Entries(s.devices) + |s.orphans|
  }

  /** The entries listed for one device. */
  function EntriesFor(xs: seq<DeviceSnapshot>, d: DeviceId): nat {
    if xs == [] then 0
    else
      var last := xs[|xs| - 1];
      EntriesFor(xs[..|xs| - 1], d) + if last.descriptor.deviceId == d then |last.entities| else 0
  }

  lemma {:induction false} AddEntitiesBound(r: Runtime, d: DeviceId, xs: seq<EntitySnapshot>)
    requires d in r.devices
    ensures var s := AddEntities(r, d, xs);
      && |s.registry| <= |r.registry| + |xs|
      && s.devices.Keys == r.devices.Keys
      && |s.devices[d].entities| <= |r.devices[d].entities| + |xs|
      && forall o :: o in r.devices && o != d ==> s.devices[o] == r.devices[o]
  {
    if xs != [] {
      AddEntitiesBound(r, d, xs[..|xs| - 1]);
    }
  }

  lemma {:induction false} RegisterAllBound(r: Runtime, xs: seq<EntitySnapshot>)
    ensures var s := RegisterAll(r, xs); s.devices == r.devices && |s.registry| <= |r.registry| + |xs|
  {
    if xs != [] {
      RegisterAllBound(r, xs[..|xs| - 1]);
    }
  }

  lemma {:induction false} RestoreDevicesBound(linked: bool, xs: seq<DeviceSnapshot>)
    ensures var s := RestoreDevices(Empty(linked), xs);
      && |s.registry| <= Entries(xs) && |s.devices| <= |xs|
      && forall d :: d in s.devices ==> |s.devices[d].entities| <= EntriesFor(xs, d)
  {
    hide AddEntities;
    if xs != [] {
      var front, last := xs[..|xs| - 1], xs[|xs| - 1];
      RestoreDevicesBound(linked, front);
      var before := RestoreDevices(Empty(linked), front);
      var added := AddDevice(before, last.descriptor);
      AddEntitiesBound(added, last.descriptor.deviceId, last.entities);
      var s := AddEntities(added, last.descriptor.deviceId, last.entities);
      assert |s.devices| == |added.devices| by { assert |s.devices.Keys| == |added.devices.Keys|; }
      assert forall d :: d in added.devices && d !in before.devices ==> d == last.descriptor.deviceId;
    }
  }

  // ---------------------------------------------------------------- accepting a snapshot

  datatype Fault = NoFault | BadVersion | TooManyDevices | TooManyEntities | DeviceTooLarge

  function PerDevice(maxEntities: nat): nat {
    if maxEntities < MAX_ENTITIES_PER_DEVICE then maxEntities else MAX_ENTITIES_PER_DEVICE
  }

  predicate Acceptable(s: Snapshot, maxDevices: nat, maxEntities: nat) {
    && (s.version == 2 || s.version == SNAPSHOT_VERSION)
    && |s.devices| <= maxDevices && Total(s) <= maxEntities
    && forall x :: x in s.devices ==> |x.entities| <= PerDevice(maxEntities)
  }

  predicate ListedOnce(xs: seq<DeviceSnapshot>, d: DeviceId) {
    forall i, j :: 0 <= i < j < |xs| && xs[i].descriptor.deviceId == d ==> xs[j].descriptor.deviceId != d
  }

  lemma {:induction false} ListedOnceBound(xs: seq<DeviceSnapshot>, d: DeviceId, cap: nat)
    requires ListedOnce(xs, d) && forall x :: x in xs ==> |x.entities| <= cap
    ensures EntriesFor(xs, d) <= cap
    ensures (forall x :: x in xs ==> x.descriptor.deviceId != d) ==> EntriesFor(xs, d) == 0
  {
    if xs != [] {
      var front := xs[..|xs| - 1];
      assert xs[|xs| - 1] in xs && forall x :: x in front ==> x in xs;
      ListedOnceBound(front, d, cap);
      if xs[|xs| - 1].descriptor.deviceId == d {
        forall x | x in front ensures x.descriptor.deviceId != d {
          var i :| 0 <= i < |front| && front[i] == x;
          assert xs[i] == x;
        }
      }
    }
  }

  function IdsOf(xs: seq<EntitySnapshot>): set<EntityId> {
    set x | x in xs :: x.descriptor.entityId
  }

  /** The ids a snapshot lists under a device, over all its entries for that device. */
  function IdsUnder(xs: seq<DeviceSnapshot>, d: DeviceId): set<EntityId> {
    set x, y | x in xs && x.descriptor.deviceId == d && y in x.entities :: y.descriptor.entityId
  }

  lemma IdsOfSnoc(xs: seq<EntitySnapshot>)
    requires xs != []
    ensures IdsOf(xs) == IdsOf(xs[..|xs| - 1]) + {xs[|xs| - 1].descriptor.entityId}
  {
    var front, last := xs[..|xs| - 1], xs[|xs| - 1];
    assert xs == front + [last];
    assert forall x :: x in xs <==> x in front || x == last;
  }

  lemma IdsUnderSnoc(xs: seq<DeviceSnapshot>, d: DeviceId)
    requires xs != []
    ensures var last := xs[|xs| - 1];
      IdsUnder(xs, d) == IdsUnder(xs[..|xs| - 1], d) + if last.descriptor.deviceId == d then IdsOf(last.entities) else {}
  {
    var front, last := xs[..|xs| - 1], xs[|xs| - 1];
    assert xs == front + [last];
    assert forall x :: x in xs <==> x in front || x == last;
  }

  lemma {:induction false} AddEntitiesLists(r: Runtime, d: DeviceId, xs: seq<EntitySnapshot>)
    requires d in r.devices
    ensures var s := AddEntities(r, d, xs);
      && s.devices.Keys == r.devices.Keys
      && s.devices[d].entities == r.devices[d].entities + IdsOf(xs)
      && forall o :: o in r.devices && o != d ==> s.devices[o] == r.devices[o]
  {
    hide IdsOf;
    if xs == [] {
      assert IdsOf(xs) == {} by { NoIds(); }
    } else {
      AddEntitiesLists(r, d, xs[..|xs| - 1]);
      IdsOfSnoc(xs);
    }
  }

  lemma NoIds()
    ensures IdsOf([]) == {} && forall d :: IdsUnder([], d) == {}
  {
  }

  /** A restored device has exactly the entities listed under it, however many entries of
      the snapshot they are spread over. */
  lemma {:induction false} RestoredLists(linked: bool, xs: seq<DeviceSnapshot>, d: DeviceId)
    ensures var s := RestoreDevices(Empty(linked), xs);
      && (d in s.devices <==> exists x :: x in xs && x.descriptor.deviceId == d)
      && (d in s.devices ==> s.devices[d].entities == IdsUnder(xs, d))
      && (d !in s.devices ==> IdsUnder(xs, d) == {})
  {
    hide AddEntities, IdsOf, IdsUnder;
    NoIds();
    if xs != [] {
      var front, last := xs[..|xs| - 1], xs[|xs| - 1];
      assert xs == front + [last];
      assert last in xs && forall x :: x in xs <==> x in front || x == last;
      RestoredLists(linked, front, d);
      IdsUnderSnoc(xs, d);
      var added := AddDevice(RestoreDevices(Empty(linked), front), last.descriptor);
      AddEntitiesLists(added, last.descriptor.deviceId, last.entities);
    }
  }

  lemma {:induction false} EntriesForAtMost(xs: seq<DeviceSnapshot>, d: DeviceId)
    ensures EntriesFor(xs, d) <= Entries(xs)
  {
    if xs != [] {
      EntriesForAtMost(xs[..|xs| - 1], d);
    }
  }

  /** Restoring an accepted snapshot, whoever wrote it, keeps the limits on devices and
      entities. A device keeps its own limit exactly if no more ids than that are listed
      under it over the whole snapshot; that is so if it is listed once, and if the limit
      on all entities is not above the limit per device. */
  lemma RestoreKeepsLimits(s: Snapshot, linked: bool, maxDevices: nat, maxEntities: nat)
    requires Acceptable(s, maxDevices, maxEntities)
    ensures var z := Restore(Empty(linked), s);
      && |z.devices| <= maxDevices && |z.registry| <= maxEntities
      && forall d :: d in z.devices ==>
           && z.devices[d].entities == IdsUnder(s.devices, d)
           && (ListedOnce(s.devices, d) || maxEntities <= MAX_ENTITIES_PER_DEVICE ==>
                 |z.devices[d].entities| <= PerDevice(maxEntities))
  {
    hide RestoreDevices, RegisterAll, IdsUnder, ListedOnce;
    RestoreDevicesBound(linked, s.devices);
    RegisterAllBound(RestoreDevices(Empty(linked), s.devices), s.orphans);
    var z := Restore(Empty(linked), s);
    forall d | d in z.devices
      ensures z.devices[d].entities == IdsUnder(s.devices, d)
      ensures ListedOnce(s.devices, d) || maxEntities <= MAX_ENTITIES_PER_DEVICE ==>
        |z.devices[d].entities| <= PerDevice(maxEntities)
    {
      RestoredLists(linked, s.devices, d);
      EntriesForAtMost(s.devices, d);
      if ListedOnce(s.devices, d) {
        ListedOnceBound(s.devices, d, PerDevice(maxEntities));
      }
    }
  }

  /** After restoring an accepted snapshot the device has more entities than it may. */
  ghost predicate Overfills(s: Snapshot, d: DeviceId, linked: bool, maxDevices: nat, maxEntities: nat) {
    var z := Restore(Empty(linked), s);
    && Acceptable(s, maxDevices, maxEntities)
    && d in z.devices && |z.devices[d].entities| > PerDevice(maxEntities)
  }

  /** Names that differ in length. */
  function Tag(n: nat): string {
    seq(n, _ => 'x')
  }

  function Tags(n: nat): (tags: set<string>)
    ensures forall t :: t in tags <==> |t| < n && t == Tag(|t|)
    ensures |tags| == n
  {
    if n == 0 then {} else Tags(n - 1) + {Tag(n - 1)}
  }

  function Tagged(from: nat, count: nat): seq<EntitySnapshot> {
    seq(count, i requires 0 <= i < count => EntitySnapshot(Descriptor(Tag(from + i), None, FromId(Tag(from + i))), Unavailable))
  }

  /** One device listed twice, with as many entities as an entry may have and then one more. */
  function Crowded(device: DeviceDescriptor, cap: nat): Snapshot {
    var full := DeviceSnapshot(device, Tagged(0, cap), None);
    var more := DeviceSnapshot(device, Tagged(cap, 1), None);
    Snapshot(SNAPSHOT_VERSION, [full, more], [])
  }

  lemma CrowdedLists(device: DeviceDescriptor, cap: nat)
    ensures Tags(cap + 1) <= IdsUnder(Crowded(device, cap).devices, device.deviceId)
  {
    var xs := Crowded(device, cap).devices;
    forall t | t in Tags(cap + 1) ensures t in IdsUnder(xs, device.deviceId) {
      var x := if |t| < cap then xs[0] else xs[1];
      var i := if |t| < cap then |t| else 0;
      assert x in xs && x.entities[i] in x.entities && x.entities[i].descriptor.entityId == t;
    }
  }

  lemma CrowdedAcceptable(device: DeviceDescriptor, cap: nat, maxDevices: nat, maxEntities: nat)
    requires maxDevices >= 2 && maxEntities > cap >= 1 && PerDevice(maxEntities) == cap
    ensures Acceptable(Crowded(device, cap), maxDevices, maxEntities)
  {
    var xs := Crowded(device, cap).devices;
    assert xs[..1] == [xs[0]] && [xs[0]][..0] == [];
    assert Entries([xs[0]]) == |xs[0].entities|;
  }

  lemma CrowdedOverfills(device: DeviceDescriptor, cap: nat, linked: bool, maxDevices: nat, maxEntities: nat)
    requires maxDevices >= 2 && maxEntities > cap >= 1 && PerDevice(maxEntities) == cap
    ensures Overfills(Crowded(device, cap), device.deviceId, linked, maxDevices, maxEntities)
  {
    hide Tags, IdsUnder, RestoreDevices, RegisterAll, Acceptable, PerDevice, Tagged;
    var s, d := Crowded(device, cap), device.deviceId;
    assert s.devices[0] in s.devices && s.devices[0].descriptor.deviceId == d;
    CrowdedLists(device, cap);
    CrowdedAcceptable(device, cap, maxDevices, maxEntities);
    RestoredLists(linked, s.devices, d);
    RegisterAllBound(RestoreDevices(Empty(linked), s.devices), s.orphans);
    AtLeast(Tags(cap + 1), IdsUnder(s.devices, d));
  }

  lemma AtLeast<T>(a: set<T>, b: set<T>)
    requires a <= b
    ensures |a| <= |b|
  {
    assert b == a + (b - a);
  }

  /** The limit per device can be passed by some accepted snapshot exactly if the limits let
      a device be listed twice and have more entities than one entry may hold. */
  lemma LimitPerDeviceIff(device: DeviceDescriptor, linked: bool, maxDevices: nat, maxEntities: nat)
    ensures (exists s, d :: Overfills(s, d, linked, maxDevices, maxEntities))
      <==> maxDevices >= 2 && maxEntities > MAX_ENTITIES_PER_DEVICE
  {
    hide Overfills;
    if maxDevices >= 2 && maxEntities > MAX_ENTITIES_PER_DEVICE {
      CrowdedOverfills(device, MAX_ENTITIES_PER_DEVICE, linked, maxDevices, maxEntities);
    }
    if s, d :| Overfills(s, d, linked, maxDevices, maxEntities) {
      OverfillsOnlyIf(s, d, linked, maxDevices, maxEntities);
    }
  }

  lemma OverfillsOnlyIf(s: Snapshot, d: DeviceId, linked: bool, maxDevices: nat, maxEntities: nat)
    requires Overfills(s, d, linked, maxDevices, maxEntities)
    ensures maxDevices >= 2 && maxEntities > MAX_ENTITIES_PER_DEVICE
  {
    RestoreKeepsLimits(s, linked, maxDevices, maxEntities);
    if |s.devices| < 2 {
      ShortListsOnce(s.devices, d);
    }
    hide Restore, IdsUnder, Total, ListedOnce;
  }

  lemma ShortListsOnce(xs: seq<DeviceSnapshot>, d: DeviceId)
    requires |xs| < 2
    ensures ListedOnce(xs, d)
  {
  }

  // ---------------------------------------------------------------- how a runtime comes about

  datatype Op =
    | AddsDevice(device: DeviceDescriptor)
    | RemovesDevice(id: DeviceId)
    | AddsEntity(under: DeviceId, entity: EntitySnapshot)
    | Attaches(to: DeviceId, descriptor: Descriptor, actor: Option<State>)
    | RemovesEntity(from: DeviceId, e: EntityId)
    | AddsOrphan(entity: EntitySnapshot)
    | Changes(e: EntityId, state: State)
    | Stops(e: EntityId)
    | Confirms(link: Imported)
    | Drops(id: DeviceId)
    | Seeds(link: Imported)
    | Unseeds(id: DeviceId)

  function AttachEntity(r: Runtime, d: DeviceId, descriptor: Descriptor, actor: Option<State>): Runtime
    requires d in r.devices
  {
    var e := descriptor.entityId;
    r.(descriptors := r.descriptors[e := descriptor], registry := r.registry[e := actor],
       devices := r.devices[d := r.devices[d].(entities := r.devices[d].entities + {e})])
  }

  /** Actors that are stopped put Unavailable in the store as they end. */
  function Ended(r: Runtime, es: set<EntityId>): map<EntityId, State> {
    var live := set e | e in es && e in r.registry && r.registry[e].Some?;
    map e | e in r.store.Keys + live :: if e in live then Unavailable else r.store[e]
  }

  function StopEntities(r: Runtime, es: set<EntityId>): Runtime {
    r.(registry := r.registry - es, descriptors := r.descriptors - es, store := Ended(r, es))
  }

  function RemoveEntity(r: Runtime, d: DeviceId, e: EntityId): Runtime
    requires d in r.devices
  {
    if e !in r.devices[d].entities then r
    else StopEntities(r.(devices := r.devices[d := r.devices[d].(entities := r.devices[d].entities - {e})]), {e})
  }

  function Step(r: Runtime, op: Op): Runtime {
    match op
    case AddsDevice(d) => AddDevice(r, d)
    case RemovesDevice(d) =>
      if d in r.devices then StopEntities(r, r.devices[d].entities).(devices := r.devices - {d}) else r
    case AddsEntity(d, x) => if d in r.devices then AddEntity(r, d, x) else r
    case Attaches(d, descriptor, actor) => if d in r.devices then AttachEntity(r, d, descriptor, actor) else r
    case RemovesEntity(d, e) => if d in r.devices then RemoveEntity(r, d, e) else r
    case AddsOrphan(x) => Register(r, x)
    case Changes(e, s) =>
      if e in r.registry && r.registry[e].Some?
      then r.(registry := r.registry[e := Some(s)], store := r.store[e := s]) else r
    case Stops(e) =>
      if e in r.registry && r.registry[e].Some?
      then r.(registry := r.registry[e := None], store := r.store[e := Unavailable]) else r
    case Confirms(link) =>
      if r.linked
      then r.(canonical := r.canonical[link.deviceId := link], restored := r.restored - {link.deviceId}) else r
    case Drops(d) => if r.linked then r.(canonical := r.canonical - {d}) else r
    case Seeds(link) => if r.linked then r.(restored := r.restored[link.deviceId := link]) else r
    case Unseeds(d) => if r.linked then r.(restored := r.restored - {d}) else r
  }

  /** The registry's two maps go together, and it knows whatever a device lists. */
  ghost predicate Paired(r: Runtime) {
    forall e :: e in r.registry <==> e in r.descriptors
  }

  predicate Covering(r: Runtime) {
    forall d, e :: d in r.devices && e in r.devices[d].entities ==> e in r.registry
  }

  /** What the step takes out of the registry is listed by no other device. */
  predicate Unshared(r: Runtime, op: Op) {
    match op
    case RemovesDevice(d) =>
      d in r.devices ==> forall o :: o in r.devices && o != d ==> r.devices[o].entities !! r.devices[d].entities
    case RemovesEntity(d, e) =>
      d in r.devices && e in r.devices[d].entities ==> forall o :: o in r.devices && o != d ==> e !in r.devices[o].entities
    case _ => true
  }

  lemma StepWellFormed(r: Runtime, op: Op)
    requires WellFormed(r) && Paired(r)
    ensures WellFormed(Step(r, op)) && Paired(Step(r, op))
  {
    hide Ended;
  }

  lemma StepLinked(r: Runtime, op: Op)
    ensures Step(r, op).linked == r.linked
  {
  }

  /** A removal from one device takes the entity out of the registry for all of them: the
      registry keeps covering the devices exactly if nobody else lists what is removed. */
  lemma CoversIffUnshared(r: Runtime, op: Op)
    requires Paired(r) && Covering(r)
    ensures Covering(Step(r, op)) <==> Unshared(r, op)
  {
    hide Ended;
    match op
    case RemovesDevice(d) =>
      if d in r.devices && !Unshared(r, op) {
        var o :| o in r.devices && o != d && !(r.devices[o].entities !! r.devices[d].entities);
        var e :| e in r.devices[o].entities && e in r.devices[d].entities;
        assert o in Step(r, op).devices;
      }
    case RemovesEntity(d, e) =>
      if d in r.devices && e in r.devices[d].entities && !Unshared(r, op) {
        var o :| o in r.devices && o != d && e in r.devices[o].entities;
        assert o in Step(r, op).devices;
      }
    case _ =>
  }

  ghost predicate IsRun(start: Runtime, ops: seq<Op>, end: Runtime)
    decreases |ops|
  {
    if ops == [] then start == end else IsRun(Step(start, ops[0]), ops[1..], end)
  }

  /** No operation of the run takes anything shared out of the registry. */
  predicate AllUnshared(start: Runtime, ops: seq<Op>)
    decreases |ops|
  {
    ops != [] ==> Unshared(start, ops[0]) && AllUnshared(Step(start, ops[0]), ops[1..])
  }

  lemma {:induction false} RunWellFormed(start: Runtime, ops: seq<Op>, end: Runtime)
    requires WellFormed(start) && Paired(start) && IsRun(start, ops, end)
    ensures WellFormed(end) && Paired(end) && end.linked == start.linked
    decreases |ops|
  {
    hide WellFormed, Paired, Step;
    if ops != [] {
      StepWellFormed(start, ops[0]);
      StepLinked(start, ops[0]);
      RunWellFormed(Step(start, ops[0]), ops[1..], end);
    }
  }

  lemma {:induction false} RunCovers(start: Runtime, ops: seq<Op>, end: Runtime)
    requires WellFormed(start) && Paired(start) && Covering(start) && IsRun(start, ops, end) && AllUnshared(start, ops)
    ensures Paired(end) && Covering(end)
    decreases |ops|
  {
    hide WellFormed, Paired, Covering, Unshared, Step;
    if ops != [] {
      StepWellFormed(start, ops[0]);
      CoversIffUnshared(start, ops[0]);
      RunCovers(Step(start, ops[0]), ops[1..], end);
    }
  }

  /** Whatever a runtime has been through, as long as no shared entity was removed, it
      survives a save and a restore. */
  lemma RunsRoundTrip(linked: bool, ops: seq<Op>, r: Runtime)
    requires IsRun(Empty(linked), ops, r) && AllUnshared(Empty(linked), ops)
    ensures Build(Restore(Empty(r.linked), Build(r))) == Offline(Build(r))
  {
    hide Build, Restore, Offline;
    RunWellFormed(Empty(linked), ops, r);
    RunCovers(Empty(linked), ops, r);
    RoundTripIffNoClash(r);
  }

  lemma RunFrom(start: Runtime, op: Op, ops: seq<Op>, end: Runtime)
    requires IsRun(Step(start, op), ops, end)
    ensures IsRun(start, [op] + ops, end)
  {
    assert ([op] + ops)[1..] == ops;
  }

  /** Three devices share an entity, and one of them removes it. */
  function SharedRemoval(d1: DeviceDescriptor, d2: DeviceDescriptor, d3: DeviceDescriptor, x: EntitySnapshot): seq<Op> {
    [AddsDevice(d1), AddsDevice(d2), AddsDevice(d3), AddsEntity(d1.deviceId, x),
     Attaches(d2.deviceId, x.descriptor, Some(x.state)), Attaches(d3.deviceId, x.descriptor, Some(x.state)),
     RemovesEntity(d1.deviceId, x.descriptor.entityId)]
  }

  lemma ThreeDevices(linked: bool, d1: DeviceDescriptor, d2: DeviceDescriptor, d3: DeviceDescriptor)
    requires d1.deviceId != d2.deviceId && d1.deviceId != d3.deviceId && d2.deviceId != d3.deviceId
    ensures Step(Step(Step(Empty(linked), AddsDevice(d1)), AddsDevice(d2)), AddsDevice(d3))
      == Empty(linked).(devices := map[d1.deviceId := Device(d1, {}), d2.deviceId := Device(d2, {}),
                                       d3.deviceId := Device(d3, {})])
  {
  }

  lemma AddedToAll(r: Runtime, d1: DeviceId, d2: DeviceId, d3: DeviceId, x: EntitySnapshot)
    requires r.devices.Keys == {d1, d2, d3}
    ensures var e := x.descriptor.entityId;
      var n := Step(Step(Step(r, AddsEntity(d1, x)), Attaches(d2, x.descriptor, Some(x.state))),
                    Attaches(d3, x.descriptor, Some(x.state)));
      && n.devices.Keys == {d1, d2, d3} && e in n.store
      && e in n.devices[d1].entities && e in n.devices[d2].entities && e in n.devices[d3].entities
  {
  }

  /** Seven steps are a run. */
  lemma SevenSteps(start: Runtime, ops: seq<Op>) returns (six: Runtime, r: Runtime)
    requires |ops| == 7
    ensures six == Step(Step(Step(Step(Step(Step(start, ops[0]), ops[1]), ops[2]), ops[3]), ops[4]), ops[5])
    ensures r == Step(six, ops[6]) && IsRun(start, ops, r)
  {
    hide Step;
    var one := Step(start, ops[0]);
    var two := Step(one, ops[1]);
    var three := Step(two, ops[2]);
    var four := Step(three, ops[3]);
    var five := Step(four, ops[4]);
    six := Step(five, ops[5]);
    r := Step(six, ops[6]);
    assert forall k :: 0 <= k < 7 ==> ops[k..] == [ops[k]] + ops[k + 1..];
    assert ops[7..] == [] && ops[0..] == ops;
    assert IsRun(r, [], r);
    hide IsRun;
    RunFrom(six, ops[6], ops[7..], r);
    RunFrom(five, ops[5], ops[6..], r);
    RunFrom(four, ops[4], ops[5..], r);
    RunFrom(three, ops[3], ops[4..], r);
    RunFrom(two, ops[2], ops[3..], r);
    RunFrom(one, ops[1], ops[2..], r);
    RunFrom(start, ops[0], ops[1..], r);
  }

  /** A clash can arise: on that run the two devices left both list the entity and nothing
      says under which it is described, so the runtime does not survive a save and a
      restore. */
  lemma ClashReachable(linked: bool, d1: DeviceDescriptor, d2: DeviceDescriptor, d3: DeviceDescriptor, x: EntitySnapshot)
    returns (r: Runtime)
    requires d1.deviceId != d2.deviceId && d1.deviceId != d3.deviceId && d2.deviceId != d3.deviceId
    ensures IsRun(Empty(linked), SharedRemoval(d1, d2, d3, x), r)
    ensures d2.deviceId in r.devices && d3.deviceId in r.devices
    ensures Clash(r, d2.deviceId, d3.deviceId, x.descriptor.entityId)
    ensures Build(Restore(Empty(r.linked), Build(r))) != Offline(Build(r))
  {
    hide Step, IsRun, WellFormed, Paired, Build, Restore, Offline, KnownEntities, Empty, RemoveEntity;
    var ops, e := SharedRemoval(d1, d2, d3, x), x.descriptor.entityId;
    var six;
    six, r := SevenSteps(Empty(linked), ops);
    SharedByThree(linked, d1, d2, d3, x, six);
    EmptyWellFormed(linked);
    RunWellFormed(Empty(linked), ops, r);
    RemovedFromOne(six, d1.deviceId, e);
    RoundTripIffNoClash(r);
    assert Clash(r, d2.deviceId, d3.deviceId, e);
  }

  lemma EmptyWellFormed(linked: bool)
    ensures WellFormed(Empty(linked)) && Paired(Empty(linked))
  {
  }

  lemma SharedByThree(linked: bool, d1: DeviceDescriptor, d2: DeviceDescriptor, d3: DeviceDescriptor, x: EntitySnapshot,
                      six: Runtime)
    requires d1.deviceId != d2.deviceId && d1.deviceId != d3.deviceId && d2.deviceId != d3.deviceId
    requires var ops := SharedRemoval(d1, d2, d3, x);
      six == Step(Step(Step(Step(Step(Step(Empty(linked), ops[0]), ops[1]), ops[2]), ops[3]), ops[4]), ops[5])
    ensures var e := x.descriptor.entityId;
      && six.devices.Keys == {d1.deviceId, d2.deviceId, d3.deviceId} && e in six.store
      && e in six.devices[d1.deviceId].entities && e in six.devices[d2.deviceId].entities
      && e in six.devices[d3.deviceId].entities
  {
    hide Step;
    ThreeDevices(linked, d1, d2, d3);
    var three := Step(Step(Step(Empty(linked), AddsDevice(d1)), AddsDevice(d2)), AddsDevice(d3));
    assert three.devices.Keys == {d1.deviceId, d2.deviceId, d3.deviceId};
    AddedToAll(three, d1.deviceId, d2.deviceId, d3.deviceId, x);
  }

  lemma RemovedFromOne(r: Runtime, d: DeviceId, e: EntityId)
    requires d in r.devices && e in r.devices[d].entities && e in r.store
    ensures var n := Step(r, RemovesEntity(d, e));
      && e !in n.descriptors && n.devices.Keys == r.devices.Keys
      && forall o :: o in r.devices && o != d && e in r.devices[o].entities ==> e in KnownEntities(n, o)
  {
  }

  /** An entity that was removed comes back as an orphan, since the store still knows it. */
  lemma RemovedComesBack(r: Runtime, d: DeviceId, e: EntityId)
    requires WellFormed(r) && Paired(r) && d in r.devices && e in r.devices[d].entities
    requires Unshared(r, RemovesEntity(d, e))
    ensures var gone := Step(r, RemovesEntity(d, e));
      var z := Restore(Empty(gone.linked), Build(gone));
      && e !in gone.registry
      && (e in z.registry <==> Loads(r, e)) && (e in z.registry ==> e in Orphans(gone))
  {
    hide Build, Restore, WellFormed;
    var gone := Step(r, RemovesEntity(d, e));
    StepWellFormed(r, RemovesEntity(d, e));
    assert e !in ListedEntities(gone);
    assert Loads(r, e) <==> e in gone.store;
    hide Step, Unshared, Paired, KnownEntities, ListedEntities;
    RestoredIsReplica(gone);
    ReplicaKnows(gone, Restore(Empty(gone.linked), Build(gone)), e);
  }

  lemma ReplicaKnows(r: Runtime, z: Runtime, e: EntityId)
    requires Replica(r, z)
    ensures e in z.registry <==> e in ListedEntities(r) || e in Orphans(r)
  {
    hide KnownEntities, ListedEntities, Orphans, SameDevices, SameLinks, DescriptorOf, DescribedBy;
  }

  // ---------------------------------------------------------------- the code

  function KnownOnly(r: Runtime, ids: seq<EntityId>): (known: seq<EntityId>)
    ensures forall e :: e in known ==> e in ids && Loads(r, e)
  {
    if ids == [] then []
    else
      var front, last := KnownOnly(r, ids[..|ids| - 1]), ids[|ids| - 1];
      if Loads(r, last) then front + [last] else front
  }

  lemma {:induction false} KnownOnlyKeeps(r: Runtime, ids: seq<EntityId>)
    requires Sorted(ids) && Distinct(ids)
    ensures Sorted(KnownOnly(r, ids)) && Distinct(KnownOnly(r, ids))
    ensures forall e :: e in KnownOnly(r, ids) <==> e in ids && Loads(r, e)
  {
    hide Loads, Le;
    if ids != [] {
      var front, last := ids[..|ids| - 1], ids[|ids| - 1];
      assert ids == front + [last];
      KnownOnlyKeeps(r, front);
      assert last !in front;
      forall e | e in KnownOnly(r, front) ensures Le(e, last) {
        var i :| 0 <= i < |front| && front[i] == e;
        assert ids[i] == e;
      }
    }
  }

  /** Sorting and then leaving out what is not known is sorting what is known. */
  lemma KnownOnlySorted(r: Runtime, es: set<EntityId>)
    ensures KnownOnly(r, SortSet(es)) == SortSet(set e | e in es && Loads(r, e))
  {
    hide Loads;
    var known := set e | e in es && Loads(r, e);
    InSortSet(es);
    InSortSet(known);
    KnownOnlyKeeps(r, SortSet(es));
    assert Elems(KnownOnly(r, SortSet(es))) == Elems(SortSet(known));
    SortedSetUnique(KnownOnly(r, SortSet(es)), SortSet(known));
  }

  datatype Loaded<+T> = Failed | Missing | Found(value: T)

  /** The entity registry: actors and descriptors, in two maps. */
  class EntityRegistry {
    var inner: map<EntityId, Option<State>>
    var descriptors: map<EntityId, Descriptor>

    constructor ()
      ensures inner == map[] && descriptors == map[]
    {
      inner, descriptors := map[], map[];
    }

    method Register(id: EntityId, actor: Option<State>)
      modifies this`inner
      ensures inner == old(inner)[id := actor]
    {
      inner := inner[id := actor];
    }

    method RegisterDescriptor(descriptor: Descriptor)
      modifies this`descriptors
      ensures descriptors == old(descriptors)[descriptor.entityId := descriptor]
    {
      descriptors := descriptors[descriptor.entityId := descriptor];
    }

    method Remove(id: EntityId)
      modifies this
      ensures inner == old(inner) - {id} && descriptors == old(descriptors) - {id}
    {
      inner := inner - {id};
      descriptors := descriptors - {id};
    }
  }

  class HaRuntime {
    const registry: EntityRegistry
    const linked: bool
    const maxDevices: nat
    const maxEntities: nat
    var devices: map<DeviceId, Device>
    var store: map<EntityId, State>
    var canonical: map<DeviceId, Imported>
    var restored: map<DeviceId, Imported>

    ghost function View(): Runtime
      reads this, registry
    {
      Runtime(devices, registry.inner, registry.descriptors, store, canonical, restored, linked)
    }

    constructor (linked: bool, maxDevices: nat, maxEntities: nat)
      ensures View() == Empty(linked) && fresh(registry)
      ensures this.maxDevices == maxDevices && this.maxEntities == maxEntities
    {
      registry := new EntityRegistry();
      this.linked, this.maxDevices, this.maxEntities := linked, maxDevices, maxEntities;
      devices, store, canonical, restored := map[], map[], map[], map[];
    }

    method AddDeviceMsg(descriptor: DeviceDescriptor)
      modifies this`devices
      ensures View() == AddDevice(old(View()), descriptor)
    {
      var d := descriptor.deviceId;
      if d in devices {
        devices := devices[d := devices[d].(descriptor := descriptor)];
      } else {
        devices := devices[d := Device(descriptor, {})];
      }
    }

    method AddEntityMsg(d: DeviceId, x: EntitySnapshot)
      requires d in devices
      modifies this`devices, this`store, registry
      ensures View() == AddEntity(old(View()), d, x)
    {
      var e := x.descriptor.entityId;
      store := store[e := x.state];
      registry.RegisterDescriptor(x.descriptor);
      registry.Register(e, Some(x.state));
      devices := devices[d := devices[d].(entities := devices[d].entities + {e})];
    }

    method AttachEntityMsg(d: DeviceId, descriptor: Descriptor, actor: Option<State>)
      requires d in devices
      modifies this`devices, registry
      ensures View() == AttachEntity(old(View()), d, descriptor, actor)
    {
      registry.RegisterDescriptor(descriptor);
      registry.Register(descriptor.entityId, actor);
      devices := devices[d := devices[d].(entities := devices[d].entities + {descriptor.entityId})];
    }

    method RemoveEntityMsg(d: DeviceId, e: EntityId)
      requires d in devices
      modifies this`devices, this`store, registry
      ensures View() == RemoveEntity(old(View()), d, e)
    {
      if e !in devices[d].entities {
        return;
      }
      ghost var before := View();
      devices := devices[d := devices[d].(entities := devices[d].entities - {e})];
      if e in registry.inner && registry.inner[e].Some? {
        store := store[e := Unavailable];
      }
      assert store == Ended(before, {e});
      registry.Remove(e);
    }

    method LoadEntityState(e: EntityId) returns (s: Loaded<State>)
      ensures s.Failed? <==> Silent(View(), e)
      ensures s.Found? <==> Loads(View(), e)
      ensures s.Found? ==> s.value == StateOf(View(), e)
    {
      if e in store {
        return Found(store[e]);
      }
      if e in registry.inner {
        var answer := registry.inner[e];
        return if answer.Some? then Found(answer.value) else Failed;
      }
      return Missing;
    }

    method SnapshotEntity(e: EntityId, fallback: Option<DeviceId>) returns (x: Loaded<EntitySnapshot>)
      ensures x.Failed? <==> Silent(View(), e)
      ensures x.Found? <==> Loads(View(), e)
      ensures x.Found? ==> x.value == EntryOf(View(), e, fallback)
    {
      var s := LoadEntityState(e);
      if s.Failed? {
        return Failed;
      }
      if s.Missing? {
        return Missing;
      }
      var descriptor := if e in registry.descriptors then registry.descriptors[e]
                        else Descriptor(e, fallback, FromId(e));
      return Found(EntitySnapshot(descriptor, s.value));
    }

    /** The entries for a sorted list of ids, or nothing if an actor that is asked is gone. */
    method SnapshotEntities(ids: seq<EntityId>, fallback: Option<DeviceId>)
      returns (ok: bool, entries: seq<EntitySnapshot>, known: set<EntityId>)
      ensures ok <==> forall e :: e in ids ==> !Silent(View(), e)
      ensures ok ==> entries == EntriesOf(View(), KnownOnly(View(), ids), fallback)
      ensures ok ==> known == Elems(KnownOnly(View(), ids))
    {
      hide Loads, Silent, EntryOf;
      entries, known, ok := [], {}, true;
      for i := 0 to |ids|
        invariant ok && forall e :: e in ids[..i] ==> !Silent(View(), e)
        invariant entries == EntriesOf(View(), KnownOnly(View(), ids[..i]), fallback)
        invariant known == Elems(KnownOnly(View(), ids[..i]))
      {
        assert ids[..i + 1] == ids[..i] + [ids[i]] && ids[..i + 1][..i] == ids[..i];
        ghost var before := KnownOnly(View(), ids[..i]);
        var x := SnapshotEntity(ids[i], fallback);
        if x.Failed? {
          assert ids[i] in ids;
          return false, [], {};
        }
        if x.Found? {
          known := known + {ids[i]};
          entries := entries + [x.value];
          ElemsSnoc(before, ids[i]);
          assert (before + [ids[i]])[..|before|] == before;
        }
      }
      assert ids[..|ids|] == ids;
    }

    /** The entries of a device; one that has gone meanwhile has none. */
    method SnapshotDeviceEntities(d: DeviceId, seen: set<EntityId>)
      returns (ok: bool, entries: seq<EntitySnapshot>, nowSeen: set<EntityId>)
      ensures d !in devices ==> ok && entries == [] && nowSeen == seen
      ensures d in devices ==> (ok <==> forall e :: e in devices[d].entities ==> !Silent(View(), e))
      ensures d in devices && ok ==> entries == DeviceEntries(View(), d) && nowSeen == seen + KnownEntities(View(), d)
    {
      hide Loads, Silent, EntriesOf, Sorted, Distinct;
      if d !in devices {
        return true, [], seen;
      }
      var ids := SortedNames(devices[d].entities);
      InSortSet(devices[d].entities);
      KnownOnlySorted(View(), devices[d].entities);
      var known;
      ok, entries, known := SnapshotEntities(ids, Some(d));
      nowSeen := seen + known;
    }

    method SnapshotOrphanEntities(seen: set<EntityId>) returns (ok: bool, entries: seq<EntitySnapshot>)
      requires seen == ListedEntities(View()) && forall e :: e in seen ==> !Silent(View(), e)
      ensures ok <==> Answering(View())
      ensures ok ==> entries == OrphanEntries(View())
    {
      hide EntriesOf, Sorted, Distinct, Covered;
      var all := registry.inner.Keys + store.Keys;
      var rest := set e | e in all && e !in seen;
      var ids := SortedNames(rest);
      InSortSet(rest);
      KnownOnlySorted(View(), rest);
      assert (set e | e in rest && Loads(View(), e)) == Orphans(View());
      var known;
      ok, entries, known := SnapshotEntities(ids, None);
      assert ok <==> forall e :: e in rest ==> !Silent(View(), e);
      assert forall e :: Silent(View(), e) ==> e in all;
    }

    method SnapshotDevice(d: DeviceId, seen: set<EntityId>) returns (x: Option<DeviceSnapshot>, nowSeen: set<EntityId>)
      requires d in devices
      ensures x.Some? <==> forall e :: e in devices[d].entities ==> !Silent(View(), e)
      ensures x.Some? ==> x.value == SaveDevice(View(), d) && nowSeen == seen + KnownEntities(View(), d)
    {
      hide DeviceEntries, KnownEntities, Silent;
      var ok, entries;
      ok, entries, nowSeen := SnapshotDeviceEntities(d, seen);
      if !ok {
        return None, {};
      }
      var link := if !linked then None
                  else if d in canonical then Some(canonical[d])
                  else if d in restored then Some(restored[d]) else None;
      x := Some(DeviceSnapshot(devices[d].descriptor, entries, link));
    }

    /** Saves the runtime; it fails exactly if an actor that has to be asked is gone. */
    method BuildSnapshot() returns (s: Option<Snapshot>)
      requires WellFormed(View())
      ensures s.Some? <==> Answering(View())
      ensures s.Some? ==> s.value == Build(View())
    {
      hide SaveDevice, KnownEntities, OrphanEntries, Sorted, Distinct, WellFormed;
      var ids := SortedNames(devices.Keys);
      InSortSet(devices.Keys);
      assert Elems(ids) == devices.Keys;
      var seen: set<EntityId>, list: seq<DeviceSnapshot> := {}, [];
      assert Covered(View(), Elems(ids[..0])) == {};
      for i := 0 to |ids|
        invariant list == SaveDevices(View(), ids[..i])
        invariant seen == Covered(View(), Elems(ids[..i]))
        invariant forall e :: e in seen ==> !Silent(View(), e)
      {
        var d := ids[i];
        assert ids[..i + 1] == ids[..i] + [d] && ids[..i + 1][..i] == ids[..i];
        CoveredMore(View(), ids[..i], d);
        KnownSpeak(View(), d);
        var x, nowSeen := SnapshotDevice(d, seen);
        if x.None? {
          return None;
        }
        seen := nowSeen;
        list := list + [x.value];
      }
      assert ids[..|ids|] == ids;
      hide Covered, Elems;
      var ok, orphans := SnapshotOrphanEntities(seen);
      if !ok {
        return None;
      }
      return Some(Snapshot(SNAPSHOT_VERSION, list, orphans));
    }

    method RestoreOrphanEntity(x: EntitySnapshot)
      modifies this`store, registry
      ensures View() == Register(old(View()), x)
    {
      store := store[x.descriptor.entityId := x.state];
      registry.Register(x.descriptor.entityId, Some(x.state));
      registry.RegisterDescriptor(x.descriptor);
    }

    method RestoreOneDevice(x: DeviceSnapshot)
      modifies this`devices, this`store, this`restored, registry
      ensures View() == RestoreDevice(old(View()), x)
    {
      AddDeviceMsg(x.descriptor);
      ghost var added := View();
      var d := x.descriptor.deviceId;
      for i := 0 to |x.entities|
        invariant d in devices
        invariant View() == AddEntities(added, d, x.entities[..i])
      {
        assert x.entities[..i + 1][..i] == x.entities[..i];
        AddEntityMsg(d, x.entities[i]);
      }
      assert x.entities[..|x.entities|] == x.entities;
      if x.link.Some? && linked {
        var link := x.link.value.(online := false);
        restored := restored[link.deviceId := link];
      }
    }

    /** Restores a snapshot and counts what it restored: every entry listed. */
    method RestoreStructured(s: Snapshot) returns (count: nat)
      modifies this`devices, this`store, this`restored, registry
      ensures View() == Restore(old(View()), s) && count == Total(s)
    {
      hide RestoreDevice, Register;
      count := 0;
      for i := 0 to |s.devices|
        invariant View() == RestoreDevices(old(View()), s.devices[..i])
        invariant count == Entries(s.devices[..i])
      {
        assert s.devices[..i + 1][..i] == s.devices[..i];
        RestoreOneDevice(s.devices[i]);
        count := count + |s.devices[i].entities|;
      }
      assert s.devices[..|s.devices|] == s.devices;
      ghost var base := View();
      for i := 0 to |s.orphans|
        invariant View() == RegisterAll(base, s.orphans[..i])
        invariant count == Entries(s.devices) + i
      {
        assert s.orphans[..i + 1][..i] == s.orphans[..i];
        RestoreOrphanEntity(s.orphans[i]);
        count := count + 1;
      }
      assert s.orphans[..|s.orphans|] == s.orphans;
    }

    method ValidateSnapshot(s: Snapshot) returns (fault: Fault)
      ensures fault.NoFault? <==> Acceptable(s, maxDevices, maxEntities)
      ensures fault.BadVersion? <==> s.version != 2 && s.version != 3
      ensures fault.TooManyDevices? <==> !fault.BadVersion? && |s.devices| > maxDevices
      ensures fault.TooManyEntities? <==>
        !fault.BadVersion? && !fault.TooManyDevices? && Total(s) > maxEntities
    {
      if s.version != 2 && s.version != SNAPSHOT_VERSION {
        return BadVersion;
      }
      if |s.devices| > maxDevices {
        return TooManyDevices;
      }
      var total := 0;
      for i := 0 to |s.devices|
        invariant total == Entries(s.devices[..i])
      {
        assert s.devices[..i + 1][..i] == s.devices[..i];
        total := total + |s.devices[i].entities|;
      }
      assert s.devices[..|s.devices|] == s.devices;
      if total + |s.orphans| > maxEntities {
        return TooManyEntities;
      }
      for i := 0 to |s.devices|
        invariant forall k :: 0 <= k < i ==> |s.devices[k].entities| <= PerDevice(maxEntities)
      {
        if |s.devices[i].entities| > PerDevice(maxEntities) {
          assert s.devices[i] in s.devices;
          return DeviceTooLarge;
        }
      }
      return NoFault;
    }
  }

  lemma CoveredMore(r: Runtime, ids: seq<DeviceId>, d: DeviceId)
    requires d in r.devices
    ensures Covered(r, Elems(ids + [d])) == Covered(r, Elems(ids)) + KnownEntities(r, d)
  {
    hide KnownEntities;
    ElemsSnoc(ids, d);
  }

  lemma KnownSpeak(r: Runtime, d: DeviceId)
    requires d in r.devices
    ensures forall e :: e in KnownEntities(r, d) ==> !Silent(r, e)
    ensures (exists e :: e in r.devices[d].entities && Silent(r, e)) ==> !Answering(r)
  {
  }
}
