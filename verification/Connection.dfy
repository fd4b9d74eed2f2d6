/**
 The server end of a device link: one connection of the Native API server, the entity
 list it sends and the way it resolves the key in a command.
*/
module Connection {
  import opened Ordering
  import opened Naming
  import opened Wire
  import opened Words

  datatype Phase = AwaitingHello | Serving(subscribed: bool) | Disconnecting

  /** `registry` is what each entity actor answers when asked for its state (None: it is
      gone), `store` the state store, `calls` the service calls made so far. */
  datatype Server = Server(
    phase: Phase,
    registry: map<EntityId, Option<State>>,
    store: map<EntityId, State>,
    watched: seq<EntityId>,
    calls: seq<(EntityId, State)>,
    stopped: bool)

  /** The list-entities message for an entity, if its state has one. */
  function ListFrame(id: EntityId, s: Option<State>): Option<Meta> {
    if s.Some? && s.value.Value? && Listed(s.value.kind)
    then Some(Meta(EntityKey(id), ObjectId(id), s.value.kind))
    else None
  }

  function ListFrames(registry: map<EntityId, Option<State>>, ids: seq<EntityId>): seq<Meta>
    requires forall id :: id in ids ==> id in registry
  {
    if ids == [] then []
    else
      var front := ListFrames(registry, ids[..|ids| - 1]);
      var last := ids[|ids| - 1];
      var m := ListFrame(last, registry[last]);
      if m.Some? then front + [m.value] else front
  }

  /** `build_entity_list`: the listable entities in name order. */
  ghost function EntityList(registry: map<EntityId, Option<State>>): seq<Meta> {
    var ids := SortSet(registry.Keys);
    assert forall id :: id in ids ==> id in Elems(ids);
    ListFrames(registry, ids)
  }

  lemma SortedAreRegistered(registry: map<EntityId, Option<State>>)
    ensures forall id :: id in SortSet(registry.Keys) ==> id in registry
  {
    var ids := SortSet(registry.Keys);
    assert forall id :: id in ids ==> id in Elems(ids);
  }

  function StateFrameFor(id: EntityId, s: State): seq<Frame> {
    if s.Value? && Listed(s.kind) then [StateFrame(EntityKey(id), Some(s))] else []
  }

  /** The pushes that answer a subscription. */
  function InitialStates(store: map<EntityId, State>, ids: seq<EntityId>): seq<Frame> {
    if ids == [] then []
    else
      var front, last := InitialStates(store, ids[..|ids| - 1]), ids[|ids| - 1];
      front + if last in store then StateFrameFor(last, store[last]) else []
  }

  /** What a scan of the registry for a key may answer: any entity that has it. */
  predicate FoundBy(registry: map<EntityId, Option<State>>, key: u32, found: Option<EntityId>) {
    match found
    case Some(id) => id in registry && EntityKey(id) == key
    case None => forall id :: id in registry ==> EntityKey(id) != key
  }

  datatype Outcome = Outcome(server: Server, written: seq<Frame>)

  function AsFrames(list: seq<Meta>): seq<Frame> {
    seq(|list|, i requires 0 <= i < |list| => ListEntity(Some(list[i])))
  }

  /** `handle_frame`; `found` is what a key scan answers if the frame is a command. */
  ghost function OnFrame(s: Server, f: Frame, found: Option<EntityId>): Outcome {
    match s.phase
    case AwaitingHello =>
      if f == HelloRequest then Outcome(s.(phase := Serving(false)), [HelloResponse])
      else Outcome(s.(stopped := true), [])
    case Serving(_) =>
      (match f
       case PingRequest => Outcome(s, [PingResponse])
       case DeviceInfoRequest => Outcome(s, [DeviceInfoResponse(Info(false))])
       case ListEntitiesRequest => Outcome(s, AsFrames(EntityList(s.registry)) + [ListEntitiesDone])
       case SubscribeStates =>
         var ids := SortSet(s.registry.Keys);
         Outcome(s.(phase := Serving(true), watched := s.watched + ids), InitialStates(s.store, ids))
       case DisconnectRequest => Outcome(s.(phase := Disconnecting, stopped := true), [DisconnectResponse])
       case Command(_, desired) =>
         Outcome(if found.Some? then s.(calls := s.calls + [(found.value, desired)]) else s, [])
       case _ => Outcome(s, []))
    case Disconnecting => Outcome(s, [])
  }

  /** A watcher reports a change. */
  function OnStateUpdate(s: Server, id: EntityId, state: State): Outcome {
    Outcome(s, if s.phase == Serving(true) then StateFrameFor(id, state) else [])
  }

  // ---------------------------------------------------------------- keys

  predicate DistinctServerKeys(registry: map<EntityId, Option<State>>) {
    forall a, b :: a in registry && b in registry && EntityKey(a) == EntityKey(b) ==> a == b
  }

  /** A key scan is sure to find an entity exactly when no other has its key. */
  lemma ScanIsSureIffKeyUnique(registry: map<EntityId, Option<State>>, id: EntityId)
    requires id in registry
    ensures (forall found :: FoundBy(registry, EntityKey(id), found) ==> found == Some(id))
      <==> (forall other :: other in registry && EntityKey(other) == EntityKey(id) ==> other == id)
  {
    if other :| other in registry && EntityKey(other) == EntityKey(id) && other != id {
      assert FoundBy(registry, EntityKey(id), Some(other));
    }
  }

  /** A frame makes a service call exactly if it is a command, the connection is being
      served and some registered entity has the key; the call is then for such an entity and
      asks for what the command says. Nothing else makes one. */
  lemma CallsIff(s: Server, f: Frame, found: Option<EntityId>)
    requires f.Command? ==> FoundBy(s.registry, f.key, found)
    ensures var calls := OnFrame(s, f, found).server.calls;
      if s.phase.Serving? && f.Command? && exists id :: id in s.registry && EntityKey(id) == f.key
      then exists id :: id in s.registry && EntityKey(id) == f.key && calls == s.calls + [(id, f.desired)]
      else calls == s.calls
  {
    hide EntityList, InitialStates, SortSet, EntityKey;
  }

  /** With distinct keys the entity is the one whose key the command has. */
  lemma CommandIsCalled(s: Server, id: EntityId, desired: State, found: Option<EntityId>)
    requires s.phase.Serving? && DistinctServerKeys(s.registry) && id in s.registry
    requires FoundBy(s.registry, EntityKey(id), found)
    ensures var o := OnFrame(s, Command(EntityKey(id), desired), found);
      o.server == s.(calls := s.calls + [(id, desired)]) && o.written == []
  {
    hide EntityKey;
  }

  /** The frames of a connection one after the other, until the server hangs up; `found` is
      what the key scans answer. */
  ghost function Serve(s: Server, frames: seq<Frame>, found: seq<Option<EntityId>>): Server
    requires |found| == |frames|
    decreases |frames|
  {
    if frames == [] || s.stopped then s
    else Serve(OnFrame(s, frames[0], found[0]).server, frames[1..], found[1..])
  }

  /** A server hangs up exactly on clients that do not begin with Hello or ask to disconnect. */
  lemma HangsUpIff(s: Server, frames: seq<Frame>, found: seq<Option<EntityId>>)
    requires s.phase.AwaitingHello? && !s.stopped && |found| == |frames|
    ensures Serve(s, frames, found).stopped
      <==> frames != [] && (frames[0] != HelloRequest || DisconnectRequest in frames)
  {
    if frames != [] {
      assert frames == [frames[0]] + frames[1..];
      if frames[0] == HelloRequest {
        ServingHangsUpIff(s.(phase := Serving(false)), frames[1..], found[1..]);
      }
    }
  }

  lemma {:induction false} ServingHangsUpIff(s: Server, frames: seq<Frame>, found: seq<Option<EntityId>>)
    requires s.phase.Serving? && !s.stopped && |found| == |frames|
    ensures Serve(s, frames, found).stopped <==> DisconnectRequest in frames
    decreases |frames|
  {
    hide EntityList, InitialStates, SortSet, AsFrames;
    if frames != [] {
      assert frames == [frames[0]] + frames[1..];
      if frames[0] != DisconnectRequest {
        ServingHangsUpIff(OnFrame(s, frames[0], found[0]).server, frames[1..], found[1..]);
      }
    }
  }

  /** An entity is listed exactly if its state could be pushed; an entity that is gone is
      not. Its entry has its key, its object id and the kind of its state. */
  lemma ListedIffPushable(id: EntityId, s: State)
    ensures ListFrame(id, None) == None
    ensures ListFrame(id, Some(s)).Some? <==> StateFrameFor(id, s) != []
    ensures StateFrameFor(id, s) != [] ==>
      s.Value? && ListFrame(id, Some(s)) == Some(Meta(EntityKey(id), ObjectId(id), s.kind))
      && StateFrameFor(id, s) == [StateFrame(EntityKey(id), Some(s))]
  {
    hide EntityKey;
  }

  /** The server says goodbye exactly to whom it serves and who asks to disconnect. */
  lemma FarewellIff(s: Server, f: Frame, found: Option<EntityId>)
    ensures DisconnectResponse in OnFrame(s, f, found).written <==> s.phase.Serving? && f == DisconnectRequest
  {
    InitialAreStates(s.store, SortSet(s.registry.Keys));
    hide EntityList, InitialStates, SortSet;
  }

  lemma {:induction false} InitialAreStates(store: map<EntityId, State>, ids: seq<EntityId>)
    ensures forall f :: f in InitialStates(store, ids) ==> f.StateFrame?
  {
    hide EntityKey;
    if ids != [] {
      InitialAreStates(store, ids[..|ids| - 1]);
    }
  }

  /** Every listed entry is that of a registered entity, and every listable one has its. */
  lemma {:induction false} ListedExactly(registry: map<EntityId, Option<State>>, ids: seq<EntityId>, m: Meta)
    requires forall id :: id in ids ==> id in registry
    ensures m in ListFrames(registry, ids) <==> exists id :: id in ids && ListFrame(id, registry[id]) == Some(m)
  {
    hide ListFrame;
    if ids != [] {
      var front, last := ids[..|ids| - 1], ids[|ids| - 1];
      assert ids == front + [last];
      ListedExactly(registry, front, m);
      SnocExists(registry, front, last, m);
    }
  }

  lemma SnocExists(registry: map<EntityId, Option<State>>, front: seq<EntityId>, last: EntityId, m: Meta)
    requires last in registry && forall id :: id in front ==> id in registry
    ensures (exists id :: id in front + [last] && id in registry && ListFrame(id, registry[id]) == Some(m))
      <==> (exists id :: id in front && ListFrame(id, registry[id]) == Some(m)) || ListFrame(last, registry[last]) == Some(m)
  {
    hide ListFrame;
    assert last in front + [last];
    assert forall id :: id in front + [last] <==> id in front || id == last;
  }

  lemma {:induction false} ListedKeysDistinct(registry: map<EntityId, Option<State>>, ids: seq<EntityId>)
    requires (forall id :: id in ids ==> id in registry) && Distinct(ids) && DistinctServerKeys(registry)
    ensures var list := ListFrames(registry, ids);
      forall i, j :: 0 <= i < j < |list| ==> list[i].key != list[j].key
  {
    if ids != [] {
      var front, last := ids[..|ids| - 1], ids[|ids| - 1];
      ListedKeysDistinct(registry, front);
      var list := ListFrames(registry, front);
      var m := ListFrame(last, registry[last]);
      if m.Some? {
        forall i | 0 <= i < |list| ensures list[i].key != m.value.key {
          ListedExactly(registry, front, list[i]);
          var id :| id in front && ListFrame(id, registry[id]) == Some(list[i]);
          assert id in ids && last in ids;
          assert id != last by {
            var k :| 0 <= k < |front| && front[k] == id;
            assert ids[k] == id;
          }
        }
        assert ListFrames(registry, ids) == list + [m.value];
      }
    }
  }

  // ---------------------------------------------------------------- the code

  class ServerConnection {
    var phase: Phase
    var registry: map<EntityId, Option<State>>
    var store: map<EntityId, State>
    var watched: seq<EntityId>
    var calls: seq<(EntityId, State)>
    var stopped: bool
    var written: seq<Frame>

    function View(): Server
      reads this
    {
      Server(phase, registry, store, watched, calls, stopped)
    }

    constructor (registry: map<EntityId, Option<State>>, store: map<EntityId, State>)
      ensures View() == Server(AwaitingHello, registry, store, [], [], false) && written == []
    {
      phase, this.registry, this.store, watched := AwaitingHello, registry, store, [];
      calls, stopped, written := [], false, [];
    }

    method BuildEntityList() returns (list: seq<Meta>)
      ensures list == EntityList(registry)
    {
      hide ListFrame, Elems, Sorted, Distinct;
      SortedAreRegistered(registry);
      var ids := SortedNames(registry.Keys);
      list := [];
      for i := 0 to |ids|
        invariant list == ListFrames(registry, ids[..i])
      {
        assert ids[..i + 1][..i] == ids[..i];
        var m := ListFrame(ids[i], registry[ids[i]]);
        if m.Some? {
          list := list + [m.value];
        }
      }
      assert ids[..|ids|] == ids;
    }

    /** Scans the registry, in whatever order the map yields the ids. */
    method FindEntityId(key: u32) returns (found: Option<EntityId>)
      ensures FoundBy(registry, key, found)
    {
      var todo := registry.Keys;
      while todo != {}
        invariant todo <= registry.Keys
        invariant forall id :: id in registry && id !in todo ==> EntityKey(id) != key
      {
        var id :| id in todo;
        if EntityKey(id) == key {
          return Some(id);
        }
        todo := todo - {id};
      }
      return None;
    }

    method Subscribe()
      modifies this
      ensures var ids := SortSet(old(registry).Keys);
        && View() == old(View()).(phase := Serving(true), watched := old(watched) + ids)
        && written == old(written) + InitialStates(old(store), ids)
    {
      hide StateFrameFor, Sorted, Distinct, Elems, SortSet;
      phase := Serving(true);
      var ids := SortedNames(registry.Keys);
      for i := 0 to |ids|
        invariant phase == Serving(true) && watched == old(watched) + ids[..i]
        invariant registry == old(registry) && store == old(store) && calls == old(calls) && stopped == old(stopped)
        invariant written == old(written) + InitialStates(store, ids[..i])
      {
        assert ids[..i + 1][..i] == ids[..i];
        var id := ids[i];
        if id in store {
          written := written + StateFrameFor(id, store[id]);
        }
        watched := watched + [id];
        assert ids[..i + 1] == ids[..i] + [id];
      }
      assert ids[..|ids|] == ids;
    }

    method SendList()
      modifies this`written
      ensures written == old(written) + AsFrames(EntityList(registry)) + [ListEntitiesDone]
    {
      hide EntityList;
      var list := BuildEntityList();
      ghost var frames := AsFrames(list);
      for i := 0 to |list|
        invariant written == old(written) + frames[..i]
      {
        assert frames[..i + 1] == frames[..i] + [ListEntity(Some(list[i]))];
        written := written + [ListEntity(Some(list[i]))];
      }
      assert frames[..|list|] == frames;
      written := written + [ListEntitiesDone];
    }

    method HandleFrame(f: Frame) returns (ghost found: Option<EntityId>)
      modifies this
      ensures f.Command? && old(phase).Serving? ==> FoundBy(old(registry), f.key, found)
      ensures var o := OnFrame(old(View()), f, found);
        View() == o.server && written == old(written) + o.written
    {
      hide EntityList, InitialStates, SortSet, FoundBy;
      found := None;
      match phase {
      case AwaitingHello =>
        if f == HelloRequest {
          written := written + [HelloResponse];
          phase := Serving(false);
        } else {
          stopped := true;
        }
      case Serving(_) =>
        match f {
        case PingRequest => written := written + [PingResponse];
        case DeviceInfoRequest => written := written + [DeviceInfoResponse(Info(false))];
        case ListEntitiesRequest => SendList();
        case SubscribeStates => Subscribe();
        case DisconnectRequest =>
          written := written + [DisconnectResponse];
          phase, stopped := Disconnecting, true;
        case Command(key, desired) =>
          var answer := FindEntityId(key);
          found := answer;
          if answer.Some? {
            calls := calls + [(answer.value, desired)];
          }
        case _ =>
        }
      case Disconnecting =>
      }
    }

    method HandleStateUpdate(id: EntityId, state: State)
      modifies this`written
      ensures written == old(written) + OnStateUpdate(View(), id, state).written
    {
      if phase == Serving(true) {
        written := written + StateFrameFor(id, state);
      }
    }
  }
}
