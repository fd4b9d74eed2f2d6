/**
 What is in a snapshot and what a restored runtime holds, told entry by entry from the
 runtime that was saved, or from the snapshot that was read.
*/
module Contents {
  import opened Ordering
  import opened Naming
  import opened Wire
  import opened Words
  import opened Snapshots

  // ---------------------------------------------------------------- saved entries

  /** The entry has the entity's stored state, and the one its actor answers with if nothing
      is stored; and the descriptor the registry has, or else one made up from the id, under
      this owner. */
  predicate SavedAs(r: Runtime, e: EntityId, owner: Option<DeviceId>, x: EntitySnapshot) {
    && x.descriptor == (if e in r.descriptors then r.descriptors[e] else Descriptor(e, owner, FromId(e)))
    && (if e in r.store then x.state == r.store[e] else e in r.registry && r.registry[e] == Some(x.state))
  }

  lemma SavedAsEntry(r: Runtime, e: EntityId, owner: Option<DeviceId>)
    requires Loads(r, e)
    ensures SavedAs(r, e, owner, EntryOf(r, e, owner))
    ensures forall x :: SavedAs(r, e, owner, x) ==> x == EntryOf(r, e, owner)
  {
  }

  lemma SavedAsLoads(r: Runtime, e: EntityId, owner: Option<DeviceId>, x: EntitySnapshot)
    requires SavedAs(r, e, owner, x)
    ensures Loads(r, e)
  {
  }

  lemma EntriesSaved(r: Runtime, ids: seq<EntityId>, owner: Option<DeviceId>, x: EntitySnapshot)
    requires forall e :: e in ids ==> Loads(r, e)
    ensures x in EntriesOf(r, ids, owner) <==> exists e :: e in ids && SavedAs(r, e, owner, x)
  {
    hide Loads, EntryOf, SavedAs, EntriesOf;
    var xs := EntriesOf(r, ids, owner);
    if x in xs {
      var i :| 0 <= i < |xs| && xs[i] == x;
      assert ids[i] in ids;
      SavedAsEntry(r, ids[i], owner);
    }
    if e :| e in ids && SavedAs(r, e, owner, x) {
      var i :| 0 <= i < |ids| && ids[i] == e;
      SavedAsEntry(r, e, owner);
      assert xs[i] == x;
    }
  }

  /** A snapshot has one entry for each device, in the order of their ids. */
  lemma OneEntryPerDevice(r: Runtime)
    requires WellFormed(r)
    ensures var s := Build(r);
      && s.version == 3 && |s.devices| == |r.devices|
      && forall i :: 0 <= i < |s.devices| ==> s.devices[i].descriptor.deviceId == SortSet(r.devices.Keys)[i]
  {
    hide SaveDevices, OrphanEntries, DeviceEntries, LinkOf, Sorted, Distinct, WellFormed;
    var ids := SortSet(r.devices.Keys);
    InSortSet(r.devices.Keys);
    assert |r.devices| == |r.devices.Keys|;
    forall i | 0 <= i < |ids| ensures SaveDevice(r, ids[i]).descriptor.deviceId == ids[i] {
      assert ids[i] in ids;
      KeyedById(r, ids[i]);
    }
  }

  lemma SavedDevice(r: Runtime, x: DeviceSnapshot) returns (d: DeviceId)
    requires WellFormed(r) && x in Build(r).devices
    ensures d in r.devices && x == SaveDevice(r, d) && x.descriptor.deviceId == d
  {
    hide OrphanEntries, Sorted, Distinct, Elems, DeviceEntries, LinkOf, WellFormed;
    var ids := SortSet(r.devices.Keys);
    InSortSet(r.devices.Keys);
    var i :| 0 <= i < |ids| && Build(r).devices[i] == x;
    assert ids[i] in ids;
    d := ids[i];
    KeyedById(r, d);
  }

  lemma DeviceEntriesSaved(r: Runtime, d: DeviceId, y: EntitySnapshot)
    requires d in r.devices
    ensures y in DeviceEntries(r, d) <==> exists e :: e in r.devices[d].entities && SavedAs(r, e, Some(d), y)
  {
    hide Sorted, Distinct, SavedAs, Loads, EntriesOf, Elems;
    var es := SortSet(KnownEntities(r, d));
    InSortSet(KnownEntities(r, d));
    KnownLoad(r, d);
    EntriesSaved(r, es, Some(d), y);
    if e :| e in r.devices[d].entities && SavedAs(r, e, Some(d), y) {
      SavedAsLoads(r, e, Some(d), y);
      assert e in es;
    }
  }

  lemma DeviceEntriesInOrder(r: Runtime, d: DeviceId)
    requires WellFormed(r) && d in r.devices
    ensures var es, xs := SortSet(KnownEntities(r, d)), DeviceEntries(r, d);
      |xs| == |es| && forall i :: 0 <= i < |es| ==> xs[i].descriptor.entityId == es[i]
  {
    hide Sorted, Distinct, Loads, EntryOf, WellFormed, Elems;
    var es := SortSet(KnownEntities(r, d));
    InSortSet(KnownEntities(r, d));
    KnownLoad(r, d);
    forall j | 0 <= j < |es| ensures DeviceEntries(r, d)[j].descriptor.entityId == es[j] {
      assert es[j] in es;
      EntryId(r, es[j], Some(d));
    }
  }

  /** The entry of a device has its descriptor, an entry for each of its entities with a known
      state and no others, in the order of their ids, and the link the manager would list:
      the confirmed one, and only without one the restored one. */
  lemma DeviceEntrySays(r: Runtime, x: DeviceSnapshot)
    requires WellFormed(r) && x in Build(r).devices
    ensures var d := x.descriptor.deviceId;
      && d in r.devices && x.descriptor == r.devices[d].descriptor
      && (forall y :: y in x.entities <==> exists e :: e in r.devices[d].entities && SavedAs(r, e, Some(d), y))
      && (forall i, j :: 0 <= i < j < |x.entities| ==>
            Le(x.entities[i].descriptor.entityId, x.entities[j].descriptor.entityId)
            && x.entities[i].descriptor.entityId != x.entities[j].descriptor.entityId)
      && x.link == (if !r.linked then None
                    else if d in r.canonical then Some(r.canonical[d])
                    else if d in r.restored then Some(r.restored[d]) else None)
  {
    hide Build, SavedAs, DeviceEntries, WellFormed, Le, KnownEntities;
    var d := SavedDevice(r, x);
    forall y ensures y in x.entities <==> exists e :: e in r.devices[d].entities && SavedAs(r, e, Some(d), y) {
      DeviceEntriesSaved(r, d, y);
    }
    DeviceEntriesInOrder(r, d);
    var es := SortSet(KnownEntities(r, d));
    assert Sorted(es) && Distinct(es);
    assert |es| == |x.entities|;
  }

  lemma UnlistedIff(r: Runtime, e: EntityId)
    requires Loads(r, e)
    ensures e in ListedEntities(r) <==> exists d :: d in r.devices && e in r.devices[d].entities
  {
    hide Loads;
    if d :| d in r.devices && e in r.devices[d].entities {
      assert e in KnownEntities(r, d);
    }
  }

  /** What is left: every other entity of the registry or the store with a known state. */
  lemma OrphanEntriesSay(r: Runtime, y: EntitySnapshot)
    ensures y in Build(r).orphans <==>
      exists e :: (forall d :: d in r.devices ==> e !in r.devices[d].entities) && SavedAs(r, e, None, y)
  {
    hide SaveDevices, Sorted, Distinct, SavedAs, EntriesOf, Elems, ListedEntities;
    var es := SortSet(Orphans(r));
    InSortSet(Orphans(r));
    OrphansLoad(r);
    EntriesSaved(r, es, None, y);
    forall e | SavedAs(r, e, None, y)
      ensures e in es <==> forall d :: d in r.devices ==> e !in r.devices[d].entities
    {
      SavedAsLoads(r, e, None, y);
      UnlistedIff(r, e);
    }
  }

  /** A save fails exactly if it would otherwise lose a registered entity. */
  lemma FailsRatherThanLoses(r: Runtime)
    requires WellFormed(r)
    ensures Answering(r)
      <==> forall e :: e in r.registry ==> InDevices(Build(r), e) || Snapshots.Within(Build(r).orphans, e)
  {
    hide Build, InDevices, Snapshots.Within, WellFormed;
    forall e | e in r.registry
      ensures !Silent(r, e) <==> InDevices(Build(r), e) || Snapshots.Within(Build(r).orphans, e)
    {
      SnapshotHoldsExactly(r, e);
    }
  }

  // ---------------------------------------------------------------- restoring any snapshot

  /** The entries in the order in which they are restored. */
  function DeviceEntriesOf(xs: seq<DeviceSnapshot>): seq<EntitySnapshot> {
    if xs == [] then [] else DeviceEntriesOf(xs[..|xs| - 1]) + xs[|xs| - 1].entities
  }

  function AllEntries(s: Snapshot): seq<EntitySnapshot> {
    DeviceEntriesOf(s.devices) + s.orphans
  }

  /** The last entry for an entity. */
  function LastEntry(xs: seq<EntitySnapshot>, e: EntityId): Option<EntitySnapshot> {
    if xs == [] then None
    else if xs[|xs| - 1].descriptor.entityId == e then Some(xs[|xs| - 1])
    else LastEntry(xs[..|xs| - 1], e)
  }

  predicate SameEntities(r: Runtime, s: Runtime) {
    r.store == s.store && r.registry == s.registry && r.descriptors == s.descriptors
  }

  lemma {:induction false} RegisterAllConcat(r: Runtime, xs: seq<EntitySnapshot>, ys: seq<EntitySnapshot>)
    ensures RegisterAll(r, xs + ys) == RegisterAll(RegisterAll(r, xs), ys)
  {
    hide Register;
    if ys == [] {
      assert xs + ys == xs;
    } else {
      assert (xs + ys)[..|xs + ys| - 1] == xs + ys[..|ys| - 1];
      RegisterAllConcat(r, xs, ys[..|ys| - 1]);
    }
  }

  lemma {:induction false} RegisterAllAlike(r: Runtime, s: Runtime, xs: seq<EntitySnapshot>)
    requires SameEntities(r, s)
    ensures SameEntities(RegisterAll(r, xs), RegisterAll(s, xs))
  {
    if xs != [] {
      RegisterAllAlike(r, s, xs[..|xs| - 1]);
    }
  }

  lemma {:induction false} AddEntitiesRegisters(r: Runtime, d: DeviceId, xs: seq<EntitySnapshot>)
    requires d in r.devices
    ensures SameEntities(AddEntities(r, d, xs), RegisterAll(r, xs))
  {
    if xs != [] {
      AddEntitiesRegisters(r, d, xs[..|xs| - 1]);
    }
  }

  lemma {:induction false} RestoreDevicesRegisters(r: Runtime, xs: seq<DeviceSnapshot>)
    ensures SameEntities(RestoreDevices(r, xs), RegisterAll(r, DeviceEntriesOf(xs)))
  {
    hide RegisterAll, AddEntities;
    if xs == [] {
      NothingRegistered(r);
    } else {
      var front, last := xs[..|xs| - 1], xs[|xs| - 1];
      RestoreDevicesRegisters(r, front);
      var before := RestoreDevices(r, front);
      var added := AddDevice(before, last.descriptor);
      AddEntitiesRegisters(added, last.descriptor.deviceId, last.entities);
      RegisterAllAlike(added, RegisterAll(r, DeviceEntriesOf(front)), last.entities);
      RegisterAllConcat(r, DeviceEntriesOf(front), last.entities);
    }
  }

  lemma NothingRegistered(r: Runtime)
    ensures RegisterAll(r, []) == r
  {
  }

  lemma {:induction false} RegisterAllKeepsLast(r: Runtime, xs: seq<EntitySnapshot>, e: EntityId)
    requires r.store == map[] && r.registry == map[] && r.descriptors == map[]
    ensures var z := RegisterAll(r, xs);
      match LastEntry(xs, e)
      case None => e !in z.store && e !in z.registry && e !in z.descriptors
      case Some(x) =>
        && e in z.store && z.store[e] == x.state
        && e in z.registry && z.registry[e] == Some(x.state)
        && e in z.descriptors && z.descriptors[e] == x.descriptor
  {
    if xs != [] {
      RegisterAllKeepsLast(r, xs[..|xs| - 1], e);
    }
  }

  /** Whoever wrote the snapshot: an entity is in the restored runtime exactly if some entry is
      for it, and the last such entry is what the store, its actor and the registry have. */
  lemma LastEntryIsRestored(s: Snapshot, linked: bool, e: EntityId)
    ensures var z := Restore(Empty(linked), s);
      match LastEntry(AllEntries(s), e)
      case None => e !in z.store && e !in z.registry && e !in z.descriptors
      case Some(x) =>
        && e in z.store && z.store[e] == x.state
        && e in z.registry && z.registry[e] == Some(x.state)
        && e in z.descriptors && z.descriptors[e] == x.descriptor
  {
    hide RegisterAll, RestoreDevices, DeviceEntriesOf, LastEntry;
    RestoreDevicesRegisters(Empty(linked), s.devices);
    RegisterAllAlike(RestoreDevices(Empty(linked), s.devices), RegisterAll(Empty(linked), DeviceEntriesOf(s.devices)), s.orphans);
    RegisterAllConcat(Empty(linked), DeviceEntriesOf(s.devices), s.orphans);
    RegisterAllKeepsLast(Empty(linked), AllEntries(s), e);
  }

  /** The last entry of a device, and the last link listed for a device. */
  function LastDescriptor(xs: seq<DeviceSnapshot>, d: DeviceId): Option<DeviceDescriptor> {
    if xs == [] then None
    else if xs[|xs| - 1].descriptor.deviceId == d then Some(xs[|xs| - 1].descriptor)
    else LastDescriptor(xs[..|xs| - 1], d)
  }

  function LastLink(xs: seq<DeviceSnapshot>, d: DeviceId): Option<Imported> {
    if xs == [] then None
    else if xs[|xs| - 1].link.Some? && xs[|xs| - 1].link.value.deviceId == d then xs[|xs| - 1].link
    else LastLink(xs[..|xs| - 1], d)
  }

  lemma {:induction false} RestoredDevices(linked: bool, xs: seq<DeviceSnapshot>, d: DeviceId)
    ensures var z := RestoreDevices(Empty(linked), xs);
      && z.canonical == map[] && z.linked == linked
      && (if d in z.devices then Some(z.devices[d].descriptor) else None) == LastDescriptor(xs, d)
      && (if d in z.restored then Some(z.restored[d]) else None)
         == (if linked && LastLink(xs, d).Some? then Some(LastLink(xs, d).value.(online := false)) else None)
  {
    hide AddEntities;
    if xs != [] {
      var front, last := xs[..|xs| - 1], xs[|xs| - 1];
      RestoredDevices(linked, front, d);
      var added := AddDevice(RestoreDevices(Empty(linked), front), last.descriptor);
      AddEntitiesFrame(added, last.descriptor.deviceId, last.entities);
    }
  }

  lemma {:induction false} AddEntitiesFrame(r: Runtime, d: DeviceId, xs: seq<EntitySnapshot>)
    requires d in r.devices
    ensures var s := AddEntities(r, d, xs);
      && s.devices.Keys == r.devices.Keys
      && (forall o :: o in r.devices ==> s.devices[o].descriptor == r.devices[o].descriptor)
      && s.canonical == r.canonical && s.restored == r.restored && s.linked == r.linked
  {
    if xs != [] {
      AddEntitiesFrame(r, d, xs[..|xs| - 1]);
    }
  }

  lemma {:induction false} RegisterAllFrame(r: Runtime, xs: seq<EntitySnapshot>)
    ensures var s := RegisterAll(r, xs);
      s == r.(store := s.store, registry := s.registry, descriptors := s.descriptors)
  {
    if xs != [] {
      RegisterAllFrame(r, xs[..|xs| - 1]);
    }
  }

  /** A restored runtime has the devices of the snapshot with the entities listed under them,
      and remembers every link as restored and offline, provided there is a link manager. */
  lemma DevicesAreRestored(s: Snapshot, linked: bool, d: DeviceId)
    ensures var z := Restore(Empty(linked), s);
      && (if d in z.devices then Some(z.devices[d].descriptor) else None) == LastDescriptor(s.devices, d)
      && (d in z.devices ==> z.devices[d].entities == IdsUnder(s.devices, d))
      && z.canonical == map[] && z.linked == linked
      && (if d in z.restored then Some(z.restored[d]) else None)
         == (if linked && LastLink(s.devices, d).Some? then Some(LastLink(s.devices, d).value.(online := false)) else None)
  {
    hide RestoreDevices, RegisterAll, IdsUnder;
    RestoredDevices(linked, s.devices, d);
    RestoredLists(linked, s.devices, d);
    RegisterAllFrame(RestoreDevices(Empty(linked), s.devices), s.orphans);
  }

  // ---------------------------------------------------------------- what a copy has

  /** A saved and restored runtime has the stored state of every entity that had one, and the
      state its actor answered with of every other, both in its store and in its actor; and
      the links the manager listed, the confirmed before the restored, all offline. */
  lemma CopyHasStatesAndLinks(r: Runtime, e: EntityId, d: DeviceId)
    requires WellFormed(r)
    ensures var z := Restore(Empty(r.linked), Build(r));
      && (e in z.store <==> e in z.registry)
      && (e in z.store ==> z.registry[e] == Some(z.store[e]))
      && (e in r.store ==> e in z.store && z.store[e] == r.store[e])
      && (e !in r.store ==>
            (e in z.store <==> e in r.registry && r.registry[e].Some?)
            && (e in z.store ==> r.registry[e] == Some(z.store[e])))
      && (d in z.restored <==> r.linked && d in r.devices && (d in r.canonical || d in r.restored))
      && (d in z.restored ==>
            z.restored[d] == (if d in r.canonical then r.canonical[d] else r.restored[d]).(online := false))
  {
    hide Build, Restore, KnownEntities, DescribedBy, WellFormed, LastEntry, AllEntries, Empty;
    var z := Restore(Empty(r.linked), Build(r));
    RestoredIsReplica(r);
    LastEntryIsRestored(Build(r), r.linked, e);
    ReplicaStates(r, z, e);
    ReplicaLinks(r, z, d);
  }

  lemma ReplicaStates(r: Runtime, z: Runtime, e: EntityId)
    requires Replica(r, z)
    ensures e in z.store <==> Loads(r, e)
    ensures e in z.store ==> z.store[e] == if e in r.store then r.store[e] else r.registry[e].value
  {
    hide SameDevices, SameLinks, DescribedBy;
    OrphansLoad(r);
    if Loads(r, e) {
      assert e in ListedEntities(r) || e in Orphans(r);
    }
    assert e in ListedEntities(r) ==> Loads(r, e);
  }

  lemma ReplicaLinks(r: Runtime, z: Runtime, d: DeviceId)
    requires Replica(r, z)
    ensures d in z.restored <==> r.linked && d in r.devices && (d in r.canonical || d in r.restored)
    ensures d in z.restored ==>
      z.restored[d] == (if d in r.canonical then r.canonical[d] else r.restored[d]).(online := false)
  {
    hide SameDevices, SameStates, DescribedBy, Orphans, ListedEntities;
  }

  // ---------------------------------------------------------------- what happens to a state

  /** What a save would record of an entity: what is stored, or else what its actor says. */
  function Known(r: Runtime, e: EntityId): Option<State> {
    if e in r.store then Some(r.store[e]) else if e in r.registry then r.registry[e] else None
  }

  /** Its actor is there and answers. */
  predicate Live(r: Runtime, e: EntityId) {
    e in r.registry && r.registry[e].Some?
  }

  /** The operation stops the entity's actor. */
  predicate StopsActor(r: Runtime, op: Op, e: EntityId) {
    Live(r, e) && match op
                  case RemovesDevice(d) => d in r.devices && e in r.devices[d].entities
                  case RemovesEntity(d, x) => x == e && d in r.devices && e in r.devices[d].entities
                  case Stops(x) => x == e
                  case _ => false
  }

  /** After an operation a save records of an entity the state it was given; what a new actor
      says, if nothing is stored; Unavailable if its actor was stopped; and else what it would
      have recorded before. */
  lemma KnownAfter(r: Runtime, op: Op, e: EntityId)
    ensures Known(Step(r, op), e) ==
      match op
      case AddsEntity(d, x) => if d in r.devices && x.descriptor.entityId == e then Some(x.state) else Known(r, e)
      case AddsOrphan(x) => if x.descriptor.entityId == e then Some(x.state) else Known(r, e)
      case Attaches(d, descriptor, actor) =>
        if d in r.devices && descriptor.entityId == e && e !in r.store then actor else Known(r, e)
      case Changes(x, s) => if x == e && Live(r, e) then Some(s) else Known(r, e)
      case _ => if StopsActor(r, op, e) then Some(Unavailable) else Known(r, e)
  {
    hide Ended;
    match op
    case RemovesDevice(_) => KnownAfterRemoval(r, op, e);
    case RemovesEntity(_, _) => KnownAfterRemoval(r, op, e);
    case _ =>
  }

  lemma KnownAfterRemoval(r: Runtime, op: Op, e: EntityId)
    requires op.RemovesDevice? || op.RemovesEntity?
    ensures Known(Step(r, op), e) == if StopsActor(r, op, e) then Some(Unavailable) else Known(r, e)
  {
    hide Ended;
    match op
    case RemovesDevice(d) =>
      if d in r.devices {
        EndedState(r, r.devices[d].entities, e);
      }
    case RemovesEntity(d, x) =>
      if d in r.devices {
        EndedState(r.(devices := r.devices[d := r.devices[d].(entities := r.devices[d].entities - {x})]), {x}, e);
      }
  }

  lemma EndedState(r: Runtime, es: set<EntityId>, e: EntityId)
    ensures var stopped := e in es && Live(r, e);
      && (e in Ended(r, es) <==> stopped || e in r.store)
      && (e in Ended(r, es) ==> Ended(r, es)[e] == if stopped then Unavailable else r.store[e])
  {
  }

  /** Whatever is stored of an entity is what its actor says. */
  predicate Consistent(r: Runtime) {
    forall e :: e in r.store && Live(r, e) ==> r.registry[e] == Some(r.store[e])
  }

  /** Then it makes no difference that a save asks the store first. Only an actor that is
      attached to an entity of which something else is stored changes that. */
  lemma StaysConsistentIff(r: Runtime, op: Op)
    requires Consistent(r)
    ensures Consistent(Step(r, op))
      <==> !(&& op.Attaches? && op.to in r.devices && op.actor.Some?
             && op.descriptor.entityId in r.store && r.store[op.descriptor.entityId] != op.actor.value)
  {
    match op
    case RemovesDevice(d) =>
      if d in r.devices {
        EndedConsistent(r, r, r.devices[d].entities);
      }
    case RemovesEntity(d, x) =>
      if d in r.devices {
        EndedConsistent(r, r.(devices := r.devices[d := r.devices[d].(entities := r.devices[d].entities - {x})]), {x});
      }
    case Attaches(d, descriptor, actor) =>
      if d in r.devices && actor.Some? && descriptor.entityId in r.store && r.store[descriptor.entityId] != actor.value {
        assert Live(Step(r, op), descriptor.entityId);
      }
    case _ =>
  }

  lemma EndedConsistent(r: Runtime, s: Runtime, es: set<EntityId>)
    requires Consistent(r) && SameEntities(r, s)
    ensures Consistent(StopEntities(s, es))
  {
    hide Ended;
    var n := StopEntities(s, es);
    forall e | e in n.store && Live(n, e) ensures n.registry[e] == Some(n.store[e]) {
      EndedState(s, es, e);
    }
  }

  // ---------------------------------------------------------------- what happens to a link

  /** The link a save would record of a device. */
  function Linked(r: Runtime, d: DeviceId): Option<Imported> {
    if d in r.canonical then Some(r.canonical[d])
    else if d in r.restored then Some(r.restored[d])
    else None
  }

  /** With a link manager, a save records of a device the link that was confirmed last; none,
      once that is dropped, until it is restored or confirmed again. */
  lemma LinkAfter(r: Runtime, op: Op, d: DeviceId)
    requires r.linked
    ensures Linked(Step(r, op), d) ==
      match op
      case Confirms(link) => if link.deviceId == d then Some(link) else Linked(r, d)
      case Drops(x) => if x == d then (if d in r.restored then Some(r.restored[d]) else None) else Linked(r, d)
      case Seeds(link) => if link.deviceId == d && d !in r.canonical then Some(link) else Linked(r, d)
      case Unseeds(x) => if x == d && d !in r.canonical then None else Linked(r, d)
      case _ => Linked(r, d)
    ensures op.Confirms? ==> Linked(Step(Step(r, op), Drops(op.link.deviceId)), op.link.deviceId) == None
  {
    hide Ended;
  }
}
