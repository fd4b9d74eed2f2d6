/**
 Both ends of one connection, joined by two FIFO channels that lose nothing: the
 handshake as a two-party protocol, and the addressing it sets up.

 Deliveries happen in any order the channels allow. In between, the client may ping and
 send commands once it is active, and entities on the server may appear, vanish and
 change. A close at any moment is a run that ends there.
*/
module Link {
  import opened Ordering
  import opened Naming
  import opened Wire
  import opened Words
  import S = Session
  import C = Connection

  datatype Link = Link(
    client: S.Client,
    server: C.Server,
    toServer: seq<Frame>,
    toClient: seq<Frame>,
    delivered: nat,                             // record: deliveries until the server is subscribed
    start: S.Client,                            // record: the client as it connected
    served: map<EntityId, Option<State>>,       // record: the server's entities when it listed them
    listed: seq<Meta>,                          // record: the list it sent
    added: bool)                                // record: whether the device could be registered

  datatype Event =
    | ToServer(found: Option<EntityId>)
    | ToClient(added: bool, now: nat)
    | Ping(at: nat)
    | Send(id: EntityId, desired: State)
    | Update(id: EntityId, state: State)
    | ServerChange(registry: map<EntityId, Option<State>>, store: map<EntityId, State>)

  /** A session about to connect, with the maps of any earlier connections, and a server
      that has accepted the connection. */
  predicate CanConnect(client: S.Client, server: C.Server) {
    && S.Enabled(client, S.Connect(true))
    && server.phase == C.AwaitingHello && !server.stopped
  }

  /** The link after the session's own step: what that wrote is on its way. */
  function Connected(client: S.Client, server: C.Server): Link
    requires CanConnect(client, server)
  {
    var o := S.Handle(client, S.Connect(true));
    Link(o.client, server, o.written, [], 0, o.client, map[], [], false)
  }

  /** A change of an entity is reported by the watcher that the subscription started. */
  function Reported(s: C.Server, id: EntityId, state: State): seq<Frame> {
    if id in s.watched then C.OnStateUpdate(s, id, state).written else []
  }

  predicate Enabled(l: Link, e: Event) {
    match e
    case ToServer(found) =>
      l.toServer != [] && (l.toServer[0].Command? ==> C.FoundBy(l.server.registry, l.toServer[0].key, found))
    case ToClient(_, _) => l.toClient != []
    case Ping(now) => l.client.fsm == S.Active && !S.TimedOut(l.client, now)
    case _ => true
  }

  function Count(l: Link): nat {
    if l.server.phase == C.Serving(true) then l.delivered else l.delivered + 1
  }

  ghost function Step(l: Link, e: Event): Link
    requires Enabled(l, e)
  {
    match e
    case ToServer(found) =>
      var f := l.toServer[0];
      var o := C.OnFrame(l.server, f, found);
      var moved := l.(server := o.server, toServer := l.toServer[1..], toClient := l.toClient + o.written,
                      delivered := Count(l));
      if f == ListEntitiesRequest
      then moved.(served := l.server.registry, listed := C.EntityList(l.server.registry))
      else moved
    case ToClient(added, now) =>
      var f := l.toClient[0];
      var o := S.OnInbound(l.client, f, added, now);
      var moved := l.(client := o.client, toClient := l.toClient[1..], toServer := l.toServer + o.written,
                      delivered := Count(l));
      if f == ListEntitiesDone then moved.(added := added) else moved
    case Ping(now) =>
      var o := S.OnPingTick(l.client, now);
      l.(client := o.client, toServer := l.toServer + o.written)
    case Send(id, desired) => l.(toServer := l.toServer + S.CommandFor(l.client, id, desired).1)
    case Update(id, state) =>
      l.(server := l.server.(registry := l.server.registry[id := Some(state)], store := l.server.store[id := state]),
         toClient := l.toClient + Reported(l.server, id, state))
    case ServerChange(registry, store) => l.(server := l.server.(registry := registry, store := store))
  }

  ghost predicate IsRun(start: Link, events: seq<Event>, end: Link)
    decreases |events|
  {
    if events == [] then start == end
    else Enabled(start, events[0]) && IsRun(Step(start, events[0]), events[1..], end)
  }

  // ---------------------------------------------------------------- the legal configurations

  /** Two clients that agree on whom they know under which key. */
  predicate SameMaps(c: S.Client, d: S.Client) {
    && c.slug == d.slug && c.maxEntities == d.maxEntities && c.deviceKnown == d.deviceKnown
    && c.keyToEntity == d.keyToEntity && c.entityToKey == d.entityToKey
    && c.refs == d.refs && c.registry == d.registry
  }

  /** What a client sends besides the handshake. */
  predicate Chatter(frames: seq<Frame>) {
    forall f :: f in frames ==> f == PingRequest || f.Command?
  }

  predicate Pushes(frames: seq<Frame>) {
    forall f :: f in frames ==> f == PingResponse || f.StateFrame?
  }

  /** The client's maps are those of the client as it connected, after importing what the
      server listed. */
  ghost predicate IsImport(client: S.Client, start: S.Client, served: map<EntityId, Option<State>>, listed: seq<Meta>,
                           added: bool) {
    listed == C.EntityList(served) && SameMaps(client, S.Finalize(start, listed, added))
  }

  ghost predicate Imported(l: Link) {
    IsImport(l.client, l.start, l.served, l.listed, l.added)
  }

  /** Every configuration a connection can be in, and how many deliveries lead to it. */
  ghost predicate Legal(l: Link) {
    && !l.server.stopped && !l.client.stopped
    && match l.client.fsm
       case Handshake(AwaitHello) =>
         && SameMaps(l.client, l.start)
         && (|| (l.server.phase == C.AwaitingHello && l.toServer == [HelloRequest] && l.toClient == [] && l.delivered == 0)
             || (l.server.phase == C.Serving(false) && l.toServer == [] && l.toClient == [HelloResponse] && l.delivered == 1))
       case Handshake(AwaitDeviceInfo) =>
         && SameMaps(l.client, l.start)
         && l.server.phase == C.Serving(false)
         && (|| (l.toServer == [DeviceInfoRequest] && l.toClient == [] && l.delivered == 2)
             || (l.toServer == [] && l.toClient == [DeviceInfoResponse(Info(false))] && l.delivered == 3))
       case Handshake(Collecting(got)) =>
         && SameMaps(l.client, l.start)
         && l.server.phase == C.Serving(false)
         && (|| (l.toServer == [ListEntitiesRequest] && l.toClient == [] && got == [] && l.delivered == 4)
             || (&& l.toServer == [] && |got| <= |l.listed| && got == l.listed[..|got|]
                 && l.listed == C.EntityList(l.served)
                 && l.toClient == C.AsFrames(l.listed[|got|..]) + [ListEntitiesDone]
                 && l.delivered == 5 + |got|))
       case Active =>
         && Imported(l)
         && (|| (&& l.server.phase == C.Serving(false)
                 && l.toServer != [] && l.toServer[0] == SubscribeStates && Chatter(l.toServer[1..])
                 && l.toClient == [] && l.delivered == 6 + |l.listed|)
             || (&& l.server.phase == C.Serving(true) && Chatter(l.toServer) && Pushes(l.toClient)
                 && l.delivered == 7 + |l.listed|))
       case _ => false
  }

  lemma {:induction false} ImportedAlike(c: S.Client, d: S.Client, list: seq<Meta>)
    requires SameMaps(c, d)
    ensures SameMaps(S.ImportAll(c, list), S.ImportAll(d, list))
  {
    hide S.LocalOf;
    if list != [] {
      ImportedAlike(c, d, list[..|list| - 1]);
    }
  }

  /** What an import leaves in the maps. */
  function ImportMaps(c: S.Client, list: seq<Meta>, added: bool): S.Client {
    if !c.deviceKnown && !added then c
    else if list == [] || !S.WithinCaps(c, list) then c.(deviceKnown := true)
    else S.ImportAll(c.(deviceKnown := true), list)
  }

  lemma FinalizeMaps(c: S.Client, list: seq<Meta>, added: bool)
    ensures SameMaps(S.Finalize(c, list, added), ImportMaps(c, list, added))
  {
    hide S.ImportAll, S.Post, S.WithinCaps, S.LocalIds;
    S.ImportAllFrame(c.(deviceKnown := true), list);
  }

  lemma FinalizeAlike(c: S.Client, d: S.Client, list: seq<Meta>, added: bool)
    requires SameMaps(c, d)
    ensures SameMaps(S.Finalize(c, list, added), S.Finalize(d, list, added))
  {
    FinalizeMaps(c, list, added);
    FinalizeMaps(d, list, added);
    S.NeededFrame(c, d, list);
    ImportedAlike(c.(deviceKnown := true), d.(deviceKnown := true), list);
    hide S.Finalize, S.ImportAll, S.Needed;
  }

  lemma PushesAreFrames(store: map<EntityId, State>, ids: seq<EntityId>)
    ensures Pushes(C.InitialStates(store, ids))
  {
  }

  lemma ListRequestDelivery(l: Link, found: Option<EntityId>)
    requires Legal(l) && Enabled(l, ToServer(found)) && l.client.fsm == S.Handshake(S.Collecting([]))
    ensures Legal(Step(l, ToServer(found)))
  {
    hide C.EntityList, C.FoundBy, C.InitialStates, SameMaps, Imported, C.AsFrames;
    var list := C.EntityList(l.server.registry);
    assert list[0..] == list && list[..0] == [];
    assert [] + (C.AsFrames(list) + [ListEntitiesDone]) == C.AsFrames(list) + [ListEntitiesDone];
  }

  lemma ActiveServerDelivery(l: Link, found: Option<EntityId>)
    requires Legal(l) && Enabled(l, ToServer(found)) && l.client.fsm == S.Active
    ensures Legal(Step(l, ToServer(found)))
  {
    hide C.EntityList, C.InitialStates, C.FoundBy, IsImport, C.AsFrames;
    assert l.toServer[0] in l.toServer;
    if l.toServer[0] == SubscribeStates {
      PushesAreFrames(l.server.store, SortSet(l.server.registry.Keys));
    }
  }

  lemma ServerDelivery(l: Link, found: Option<EntityId>)
    requires Legal(l) && Enabled(l, ToServer(found))
    ensures Legal(Step(l, ToServer(found)))
  {
    hide C.EntityList, C.InitialStates, C.FoundBy, SameMaps, S.Finalize, C.AsFrames, Imported;
    match l.client.fsm
    case Handshake(Collecting(_)) => ListRequestDelivery(l, found);
    case Active => ActiveServerDelivery(l, found);
    case _ =>
  }

  lemma ListingDelivery(l: Link, got: seq<Meta>, added: bool, now: nat)
    requires Legal(l) && Enabled(l, ToClient(added, now))
    requires l.client.fsm == S.Handshake(S.Collecting(got)) && |got| < |l.listed|
    ensures Legal(Step(l, ToClient(added, now)))
  {
    hide C.EntityList, S.Finalize, SameMaps, Imported;
    assert l.toClient[0] == ListEntity(Some(l.listed[|got|]));
    assert got + [l.listed[|got|]] == l.listed[..|got| + 1];
    assert l.toClient[1..] == C.AsFrames(l.listed[|got| + 1..]) + [ListEntitiesDone];
    var heard := l.client.(lastActivity := Some(now));
    var next := heard.(fsm := S.Handshake(S.Collecting(got + [l.listed[|got|]])));
    assert SameMaps(next, l.start) by { MapsOnly(l.client, next, l.start); }
  }

  lemma MapsOnly(c: S.Client, d: S.Client, e: S.Client)
    requires SameMaps(c, e) && SameMaps(c, d)
    ensures SameMaps(d, e)
  {
  }

  lemma DoneDelivery(l: Link, added: bool, now: nat)
    requires Legal(l) && Enabled(l, ToClient(added, now))
    requires l.client.fsm == S.Handshake(S.Collecting(l.listed))
    ensures Legal(Step(l, ToClient(added, now)))
  {
    hide C.EntityList, S.Finalize;
    assert C.AsFrames(l.listed[|l.listed|..]) == [];
    var heard := l.client.(lastActivity := Some(now));
    FinalizeAlike(heard, l.start, l.listed, added);
    S.FinalizeFrame(heard, l.listed, added);
  }

  lemma ClientDelivery(l: Link, added: bool, now: nat)
    requires Legal(l) && Enabled(l, ToClient(added, now))
    ensures Legal(Step(l, ToClient(added, now)))
  {
    hide C.EntityList, S.Finalize, S.Ingest, C.AsFrames;
    assert l.toClient[0] in l.toClient;
    var f, heard := l.toClient[0], l.client.(lastActivity := Some(now));
    match l.client.fsm
    case Handshake(Collecting(got)) =>
      if |got| == |l.listed| {
        assert got == l.listed;
        DoneDelivery(l, added, now);
      } else {
        ListingDelivery(l, got, added, now);
      }
    case Active =>
      if f.StateFrame? {
        S.IngestFrame(heard, f.key, f.state);
      }
    case _ =>
  }

  lemma OtherStep(l: Link, e: Event)
    requires Legal(l) && Enabled(l, e) && !e.ToServer? && !e.ToClient?
    ensures Legal(Step(l, e))
  {
    hide C.EntityList, S.Finalize, SameMaps, C.AsFrames;
  }

  lemma StepLegal(l: Link, e: Event)
    requires Legal(l) && Enabled(l, e)
    ensures Legal(Step(l, e))
  {
    hide Legal, Step, Enabled;
    match e
    case ToServer(found) => ServerDelivery(l, found);
    case ToClient(added, now) => ClientDelivery(l, added, now);
    case _ => OtherStep(l, e);
  }

  lemma {:induction false} RunLegal(start: Link, events: seq<Event>, end: Link)
    requires Legal(start) && IsRun(start, events, end)
    ensures Legal(end)
    decreases |events|
  {
    hide Legal, Step;
    if events != [] {
      StepLegal(start, events[0]);
      RunLegal(Step(start, events[0]), events[1..], end);
    }
  }

  /** Connecting sends Hello, with which the handshake starts, and changes nothing of what
      the client knows from earlier connections. */
  lemma ConnectedIsLegal(client: S.Client, server: C.Server)
    requires CanConnect(client, server)
    ensures var l := Connected(client, server);
      && Legal(l) && l.toServer == [HelloRequest] && l.toClient == [] && l.server == server
      && SameMaps(l.start, client) && l.client.firmware == client.firmware && l.client == l.start
      && l.client.readers == client.readers + 1
  {
  }

  /** Every state a connection can reach, whatever happens besides, is one of the legal
      configurations; the server never sees a frame before Hello, so it never hangs up. */
  lemma EveryReachableStateIsLegal(client: S.Client, server: C.Server, events: seq<Event>, end: Link)
    requires CanConnect(client, server) && IsRun(Connected(client, server), events, end)
    ensures Legal(end) && !end.server.stopped
    ensures end.server.phase == C.AwaitingHello ==> end.toServer == [HelloRequest]
  {
    ConnectedIsLegal(client, server);
    RunLegal(Connected(client, server), events, end);
    hide Connected, IsRun;
  }

  ghost predicate Subscribed(l: Link) {
    l.server.phase == C.Serving(true)
  }

  /** Until the server is subscribed exactly one of the channels has a frame in it, so the
      handshake never stalls and never has a choice. */
  lemma NeverStuck(l: Link)
    requires Legal(l) && !Subscribed(l)
    ensures l.toServer == [] <==> l.toClient != []
  {
  }

  /** When the server is subscribed the client is active, the handshake has taken exactly
      as many deliveries as there are listed entities and seven more, and the client has
      imported exactly the server's list. */
  lemma HandshakeTakesSevenMore(l: Link)
    requires Legal(l)
    ensures Subscribed(l) ==> l.client.fsm == S.Active && l.delivered == |l.listed| + 7 && Imported(l)
    ensures !Subscribed(l) && l.delivered >= 5 ==> l.delivered < |l.listed| + 7
    ensures l.client.fsm == S.Active && !Subscribed(l) ==> l.delivered == |l.listed| + 6
  {
  }

  function Deliveries(events: seq<Event>): nat {
    if events == [] then 0
    else (if events[0].ToServer? || events[0].ToClient? then 1 else 0) + Deliveries(events[1..])
  }

  lemma DeliveryAdvances(l: Link, e: Event)
    requires !Subscribed(l) && Enabled(l, e)
    ensures Step(l, e).delivered == l.delivered + Deliveries([e])
  {
    hide Enabled, C.OnFrame, C.OnStateUpdate, C.EntityList, S.OnInbound, S.CommandFor;
  }

  lemma SubscribedStays(l: Link, e: Event)
    requires Legal(l) && Subscribed(l) && Enabled(l, e)
    ensures Subscribed(Step(l, e))
  {
    hide C.InitialStates, C.EntityList, Imported, S.OnInbound, S.CommandFor, C.FoundBy;
    if e.ToServer? {
      assert l.toServer[0] in l.toServer;
    }
  }

  lemma {:induction false} UntilSubscribed(start: Link, events: seq<Event>, end: Link)
    requires Legal(start) && IsRun(start, events, end) && !Subscribed(end)
    ensures !Subscribed(start) && end.delivered == start.delivered + Deliveries(events)
    decreases |events|
  {
    hide Legal, Step, Enabled;
    if events != [] {
      var next := Step(start, events[0]);
      StepLegal(start, events[0]);
      UntilSubscribed(next, events[1..], end);
      if Subscribed(start) {
        SubscribedStays(start, events[0]);
      }
      DeliveryAdvances(start, events[0]);
    }
  }

  /** The length of a handshake: on every run, whatever else happens in between, the step
      that subscribes the server is delivery number n + 7 for a list of n entities, and by
      then the client is active and has imported exactly the server's list. */
  lemma HandshakeLength(client: S.Client, server: C.Server, events: seq<Event>, last: Link, e: Event)
    requires CanConnect(client, server) && IsRun(Connected(client, server), events, last)
    requires Enabled(last, e) && !Subscribed(last) && Subscribed(Step(last, e))
    ensures var end := Step(last, e);
      && Deliveries(events) + Deliveries([e]) == |end.listed| + 7
      && end.client.fsm == S.Active && Imported(end)
  {
    hide Step, Enabled, Imported, Connected;
    ConnectedIsLegal(client, server);
    RunLegal(Connected(client, server), events, last);
    UntilSubscribed(Connected(client, server), events, last);
    DeliveryAdvances(last, e);
    StepLegal(last, e);
  }

  /** Told from the run alone: the server is subscribed exactly once that many deliveries
      have been made. */
  lemma SubscribedIffDelivered(client: S.Client, server: C.Server, events: seq<Event>, end: Link)
    requires CanConnect(client, server) && IsRun(Connected(client, server), events, end)
    ensures Subscribed(end) <==> Deliveries(events) >= |end.listed| + 7
  {
    hide Imported, Connected;
    var start := Connected(client, server);
    ConnectedIsLegal(client, server);
    RunLegal(start, events, end);
    if Subscribed(end) {
      AtLeastDelivered(start, events, end);
    } else {
      UntilSubscribed(start, events, end);
    }
  }

  lemma {:induction false} AtLeastDelivered(start: Link, events: seq<Event>, end: Link)
    requires Legal(start) && IsRun(start, events, end)
    ensures end.delivered <= start.delivered + Deliveries(events)
    decreases |events|
  {
    hide Legal, Step, Enabled, Subscribed;
    if events != [] {
      StepLegal(start, events[0]);
      DeliveredMore(start, events[0]);
      AtLeastDelivered(Step(start, events[0]), events[1..], end);
    }
  }

  lemma DeliveredMore(l: Link, e: Event)
    requires Enabled(l, e)
    ensures Step(l, e).delivered <= l.delivered + Deliveries([e])
  {
    hide Enabled, C.OnFrame, C.OnStateUpdate, C.EntityList, S.OnInbound, S.CommandFor;
  }

  // ---------------------------------------------------------------- addressing

  lemma SameObject(slug: string, m: Meta, n: Meta)
    requires S.LocalOf(slug, m) == S.LocalOf(slug, n)
    ensures m.objectId == n.objectId
  {
    MakeIdInjective(DomainOf(m.kind), LocalName(slug, m.objectId), DomainOf(n.kind), LocalName(slug, n.objectId));
    assert LocalName(slug, m.objectId)[|slug| + 2..] == m.objectId;
    assert LocalName(slug, n.objectId)[|slug| + 2..] == n.objectId;
  }

  /** Two listed entities with different keys have different object ids, hence different
      local ids on the client. */
  lemma DistinctKeysDistinctIds(slug: string, registry: map<EntityId, Option<State>>, a: EntityId, b: EntityId)
    requires a in registry && b in registry && C.ListFrame(a, registry[a]).Some? && C.ListFrame(b, registry[b]).Some?
    requires EntityKey(a) != EntityKey(b)
    ensures S.LocalOf(slug, C.ListFrame(a, registry[a]).value) != S.LocalOf(slug, C.ListFrame(b, registry[b]).value)
  {
    var m, n := C.ListFrame(a, registry[a]).value, C.ListFrame(b, registry[b]).value;
    if S.LocalOf(slug, m) == S.LocalOf(slug, n) {
      SameObject(slug, m, n);
    }
  }

  /** The listed entry of an entity: where it stands, and that nothing else has its key or
      its local id. */
  lemma ListedOnce(slug: string, registry: map<EntityId, Option<State>>, id: EntityId) returns (i: nat)
    requires C.DistinctServerKeys(registry)
    requires id in registry && C.ListFrame(id, registry[id]).Some?
    ensures var list := C.EntityList(registry);
      && i < |list| && list[i] == C.ListFrame(id, registry[id]).value
      && (forall j :: 0 <= j < |list| && j != i ==>
            list[j].key != list[i].key && S.LocalOf(slug, list[j]) != S.LocalOf(slug, list[i]))
  {
    hide C.ListFrame, S.LocalOf;
    var ids, list := SortSet(registry.Keys), C.EntityList(registry);
    assert id in Elems(ids);
    assert forall x :: x in ids ==> x in Elems(ids);
    var m := C.ListFrame(id, registry[id]).value;
    C.ListedExactly(registry, ids, m);
    i :| 0 <= i < |list| && list[i] == m;
    C.ListedKeysDistinct(registry, ids);
    forall j | 0 <= j < |list| && j != i
      ensures list[j].key != list[i].key && S.LocalOf(slug, list[j]) != S.LocalOf(slug, list[i])
    {
      C.ListedExactly(registry, ids, list[j]);
      var other :| other in ids && C.ListFrame(other, registry[other]) == Some(list[j]);
      ListFrameKey(registry, other);
      ListFrameKey(registry, id);
      DistinctKeysDistinctIds(slug, registry, id, other);
    }
  }

  lemma ListFrameKey(registry: map<EntityId, Option<State>>, id: EntityId)
    requires id in registry && C.ListFrame(id, registry[id]).Some?
    ensures C.ListFrame(id, registry[id]).value.key == EntityKey(id)
  {
  }

  /** The import went through: the device is registered and the list was within the caps. */
  predicate Accepted(l: Link) {
    (l.start.deviceKnown || l.added) && l.listed != [] && S.WithinCaps(l.start, l.listed)
  }

  /** After an accepted handshake, whatever the client knew from earlier connections, the
      server's key for a listed entity and the client's id for it name each other. */
  lemma KeysAgree(l: Link, id: EntityId)
    requires Legal(l) && l.client.fsm == S.Active && Accepted(l)
    requires C.DistinctServerKeys(l.served) && id in l.served && C.ListFrame(id, l.served[id]).Some?
    ensures var local := S.LocalOf(l.start.slug, C.ListFrame(id, l.served[id]).value);
      && EntityKey(id) in l.client.keyToEntity && l.client.keyToEntity[EntityKey(id)] == local
      && local in l.client.entityToKey && l.client.entityToKey[local] == EntityKey(id)
      && local in l.client.refs
  {
    hide C.ListFrame, S.LocalOf, C.EntityList;
    var i := ListedOnce(l.start.slug, l.served, id);
    ListFrameKey(l.served, id);
    var known := l.start.(deviceKnown := true);
    S.ImportedKey(known, l.listed, i);
    S.ImportedId(known, l.listed, i);
    S.ImportedRefs(known, l.listed);
    S.ImportAllFrame(known, l.listed);
    assert l.listed[i] in l.listed;
    assert S.LocalOf(l.start.slug, l.listed[i]) in S.LocalIds(l.start.slug, l.listed);
    FinalizedMaps(l);
  }

  lemma FinalizedMaps(l: Link)
    requires Accepted(l) && Imported(l)
    ensures SameMaps(l.client, S.ImportAll(l.start.(deviceKnown := true), l.listed))
  {
    hide C.EntityList, S.ImportAll, S.Finalize, S.WithinCaps;
    FinalizeMaps(l.start, l.listed, l.added);
  }

  /** A state the server pushes for a listed entity is filed under, and sent to, exactly
      the local entity that was imported from it. */
  lemma PushLandsOnItsEntity(l: Link, id: EntityId, state: State)
    requires Legal(l) && l.client.fsm == S.Active && Accepted(l)
    requires C.DistinctServerKeys(l.served) && id in l.served && C.ListFrame(id, l.served[id]).Some?
    requires C.StateFrameFor(id, state) != []
    ensures var local := S.LocalOf(l.start.slug, C.ListFrame(id, l.served[id]).value);
      var f := C.StateFrameFor(id, state)[0];
      S.Ingest(l.client, f.key, f.state) == l.client.(
        firmware := l.client.firmware[local := state], mail := S.Post(l.client.mail, {local}, state))
  {
    hide Legal;
    KeysAgree(l, id);
  }

  /** A command sent for that local entity carries the server's key for the original, and
      as long as the server's keys are distinct and the original is registered, a scan of
      the registry finds the original and nothing else. */
  lemma CommandReachesItsEntity(l: Link, id: EntityId, desired: State,
                                later: map<EntityId, Option<State>>, found: Option<EntityId>)
    requires Legal(l) && l.client.fsm == S.Active && Accepted(l)
    requires C.DistinctServerKeys(l.served) && id in l.served && C.ListFrame(id, l.served[id]).Some?
    requires desired.Value? && Commandable(desired.kind)
    requires C.DistinctServerKeys(later) && id in later
    ensures var local := S.LocalOf(l.start.slug, C.ListFrame(id, l.served[id]).value);
      var sent := S.CommandFor(l.client, local, desired).1;
      && sent == [Command(EntityKey(id), desired)]
      && (C.FoundBy(later, sent[0].key, found) ==> found == Some(id))
  {
    hide Legal;
    KeysAgree(l, id);
  }
}
