/**
 What travels over a link besides the handshake: commands that become service calls on the
 other end, and pings that are answered.
*/
module Traffic {
  import opened Ordering
  import opened Naming
  import opened Wire
  import opened Words
  import S = Session
  import C = Connection
  import L = Link

  // ---------------------------------------------------------------- order

  /** How many of the events are deliveries to the server. */
  function ServerDeliveries(events: seq<L.Event>): nat {
    if events == [] then 0
    else (if events[0].ToServer? then 1 else 0) + ServerDeliveries(events[1..])
  }

  lemma StepQueues(l: L.Link, e: L.Event) returns (more: seq<Frame>)
    requires L.Enabled(l, e)
    ensures L.Step(l, e).toServer == (if e.ToServer? then l.toServer[1..] else l.toServer) + more
    ensures !e.ToServer? ==> L.Step(l, e).server.calls == l.server.calls
  {
    hide C.OnFrame, C.OnStateUpdate, C.EntityList, S.OnInbound, S.CommandFor, S.OnPingTick;
    more := match e
      case ToClient(added, now) => S.OnInbound(l.client, l.toClient[0], added, now).written
      case Ping(now) => S.OnPingTick(l.client, now).written
      case Send(id, desired) => S.CommandFor(l.client, id, desired).1
      case _ => [];
  }

  lemma ServerStep(l: L.Link, found: Option<EntityId>)
    requires L.Enabled(l, L.ToServer(found))
    ensures var o := C.OnFrame(l.server, l.toServer[0], found);
      var next := L.Step(l, L.ToServer(found));
      && next.server == o.server && next.client == l.client
      && next.toServer == l.toServer[1..] && next.toClient == l.toClient + o.written
  {
    hide C.OnFrame, C.EntityList;
  }

  lemma ClientStep(l: L.Link, added: bool, now: nat)
    requires L.Enabled(l, L.ToClient(added, now))
    ensures var o := S.OnInbound(l.client, l.toClient[0], added, now);
      var next := L.Step(l, L.ToClient(added, now));
      && next.client == o.client && next.server == l.server
      && next.toClient == l.toClient[1..] && next.toServer == l.toServer + o.written
  {
    hide S.OnInbound;
  }

  /** What is on its way to the server is delivered in order, none of it lost. */
  lemma {:induction false} FirstInFirstOut(start: L.Link, events: seq<L.Event>, end: L.Link) returns (more: seq<Frame>)
    requires L.IsRun(start, events, end) && ServerDeliveries(events) <= |start.toServer|
    ensures end.toServer == start.toServer[ServerDeliveries(events)..] + more
    decreases |events|
  {
    hide L.Step, L.Enabled;
    if events == [] {
      more := [];
    } else {
      var next, k := L.Step(start, events[0]), ServerDeliveries(events[1..]);
      var written := StepQueues(start, events[0]);
      var rest := FirstInFirstOut(next, events[1..], end);
      var kept := if events[0].ToServer? then start.toServer[1..] else start.toServer;
      assert next.toServer[k..] == kept[k..] + written;
      more := written + rest;
    }
  }

  // ---------------------------------------------------------------- commands

  /** A command sent for the local entity that was imported from `id` is carried out: when
      all that was on its way before it has been delivered, the next delivery calls the
      service for `id` with what was asked for, if the server still has `id` and keys are
      distinct there, whatever else happens on the link in between. */
  lemma CommandIsCarriedOut(start: L.Link, id: EntityId, desired: State,
                            events: seq<L.Event>, last: L.Link, found: Option<EntityId>)
    requires L.Legal(start) && start.client.fsm == S.Active && L.Accepted(start)
    requires C.DistinctServerKeys(start.served) && id in start.served && C.ListFrame(id, start.served[id]).Some?
    requires desired.Value? && Commandable(desired.kind)
    requires var local := S.LocalOf(start.start.slug, C.ListFrame(id, start.served[id]).value);
      L.IsRun(L.Step(start, L.Send(local, desired)), events, last)
    requires ServerDeliveries(events) == |start.toServer|
    requires C.DistinctServerKeys(last.server.registry) && id in last.server.registry
    requires L.Enabled(last, L.ToServer(found))
    ensures L.Step(last, L.ToServer(found)).server.calls == last.server.calls + [(id, desired)]
  {
    hide L.Legal, L.Accepted, C.ListFrame, EntityKey, S.LocalOf, C.DistinctServerKeys;
    var local := S.LocalOf(start.start.slug, C.ListFrame(id, start.served[id]).value);
    L.KeysAgree(start, id);
    var frame := Command(EntityKey(id), desired);
    assert S.CommandFor(start.client, local, desired).1 == [frame];
    var sent := L.Step(start, L.Send(local, desired));
    assert sent.toServer == start.toServer + [frame];
    L.StepLegal(start, L.Send(local, desired));
    L.RunLegal(sent, events, last);
    var more := FirstInFirstOut(sent, events, last);
    assert last.toServer[0] == frame;
    CommandFindsServing(last);
    DeliveredCall(last, id, desired, found);
  }

  lemma CommandFindsServing(l: L.Link)
    requires L.Legal(l) && l.toServer != [] && l.toServer[0].Command?
    ensures l.server.phase.Serving?
  {
    hide L.Imported, C.EntityList;
  }

  lemma DeliveredCall(l: L.Link, id: EntityId, desired: State, found: Option<EntityId>)
    requires L.Enabled(l, L.ToServer(found)) && l.toServer[0] == Command(EntityKey(id), desired)
    requires l.server.phase.Serving? && C.DistinctServerKeys(l.server.registry) && id in l.server.registry
    ensures L.Step(l, L.ToServer(found)).server.calls == l.server.calls + [(id, desired)]
  {
    C.CommandIsCalled(l.server, id, desired, found);
    hide EntityKey, C.OnFrame, C.EntityList;
  }

  /** The commands among some frames. */
  function Commands(frames: seq<Frame>): seq<(u32, State)> {
    if frames == [] then []
    else (if frames[0].Command? then [(frames[0].key, frames[0].desired)] else []) + Commands(frames[1..])
  }

  /** The service calls by the key of the entity they are for. */
  function Keyed(calls: seq<(EntityId, State)>): seq<(u32, State)> {
    if calls == [] then [] else [(EntityKey(calls[0].0), calls[0].1)] + Keyed(calls[1..])
  }

  /** What a client's entities ask for in the course of a run, by the keys they were
      imported under; the maps of a client that is active stay as they are. */
  function Asked(c: S.Client, events: seq<L.Event>): seq<(u32, State)> {
    if events == [] then []
    else
      var e := events[0];
      (if e.Send? && e.id in c.entityToKey && e.desired.Value? && Commandable(e.desired.kind)
       then [(c.entityToKey[e.id], e.desired)] else [])
      + Asked(c, events[1..])
  }

  /** Every key in a command that is delivered is still that of some entity. */
  ghost predicate AllFound(start: L.Link, events: seq<L.Event>)
    decreases |events|
  {
    events != [] && L.Enabled(start, events[0]) ==>
      && (events[0].ToServer? && start.toServer[0].Command? ==> events[0].found.Some?)
      && AllFound(L.Step(start, events[0]), events[1..])
  }

  lemma {:induction false} CommandsConcat(a: seq<Frame>, b: seq<Frame>)
    ensures Commands(a + b) == Commands(a) + Commands(b)
  {
    if a == [] {
      assert a + b == b;
    } else {
      CommandsConcat(a[1..], b);
      assert (a + b)[0] == a[0] && (a + b)[1..] == a[1..] + b;
      var first := if a[0].Command? then [(a[0].key, a[0].desired)] else [];
      assert first + (Commands(a[1..]) + Commands(b)) == (first + Commands(a[1..])) + Commands(b);
    }
  }

  lemma {:induction false} KeyedConcat(a: seq<(EntityId, State)>, b: seq<(EntityId, State)>)
    ensures Keyed(a + b) == Keyed(a) + Keyed(b)
  {
    hide EntityKey;
    if a == [] {
      assert a + b == b;
    } else {
      assert (a + b)[1..] == a[1..] + b;
      KeyedConcat(a[1..], b);
    }
  }

  /** On every run of an active client, whatever else happens, each command the entities
      send is called exactly once and in the order they were sent: the calls made and the
      commands still on their way are those at the start and then those asked for. */
  lemma {:induction false} CallsAreCommandsInOrder(start: L.Link, events: seq<L.Event>, end: L.Link)
    requires L.Legal(start) && start.client.fsm == S.Active
    requires L.IsRun(start, events, end) && AllFound(start, events)
    ensures Keyed(end.server.calls) + Commands(end.toServer)
      == Keyed(start.server.calls) + Commands(start.toServer) + Asked(start.client, events)
    decreases |events|
  {
    hide L.Legal, L.Step, L.Enabled, Keyed, Commands, Asked;
    if events == [] {
      NothingAsked(start.client);
    } else {
      var e, next := events[0], L.Step(start, events[0]);
      L.StepLegal(start, e);
      StaysActive(start, e);
      StepCalls(start, e);
      CallsAreCommandsInOrder(next, events[1..], end);
      SameAsked(start.client, next.client, events[1..]);
      AskedFirst(start.client, events);
    }
  }

  lemma NothingAsked(c: S.Client)
    ensures Asked(c, []) == []
  {
  }

  lemma AskedFirst(c: S.Client, events: seq<L.Event>)
    requires events != []
    ensures Asked(c, events) == Asked(c, [events[0]]) + Asked(c, events[1..])
  {
    assert [events[0]][1..] == [];
  }

  lemma {:induction false} SameAsked(c: S.Client, d: S.Client, events: seq<L.Event>)
    requires c.entityToKey == d.entityToKey
    ensures Asked(c, events) == Asked(d, events)
  {
    if events != [] {
      SameAsked(c, d, events[1..]);
    }
  }

  lemma StaysActive(l: L.Link, e: L.Event)
    requires L.Legal(l) && l.client.fsm == S.Active && L.Enabled(l, e)
    ensures var d := L.Step(l, e).client; d.fsm == S.Active && d.entityToKey == l.client.entityToKey
  {
    hide L.Legal, C.OnFrame, C.EntityList, C.OnStateUpdate, S.CommandFor, S.OnInbound;
    if e.ToClient? {
      ClientStep(l, e.added, e.now);
      ActiveKeeps(l.client, l.toClient[0], e.added, e.now);
      hide L.Step;
    }
  }

  lemma ActiveKeeps(c: S.Client, f: Frame, added: bool, now: nat)
    requires c.fsm == S.Active
    ensures var d := S.OnInbound(c, f, added, now).client; d.fsm == S.Active && d.entityToKey == c.entityToKey
  {
  }

  lemma StepCalls(l: L.Link, e: L.Event)
    requires L.Legal(l) && l.client.fsm == S.Active && L.Enabled(l, e)
    requires e.ToServer? && l.toServer[0].Command? ==> e.found.Some?
    ensures var next := L.Step(l, e);
      Keyed(next.server.calls) + Commands(next.toServer)
      == Keyed(l.server.calls) + Commands(l.toServer) + Asked(l.client, [e])
  {
    hide L.Legal, EntityKey, L.Step, Keyed, Commands;
    assert [e][1..] == [];
    match e
    case ToServer(found) => ServerStepCalls(l, found);
    case ToClient(added, now) =>
      ClientStep(l, added, now);
      ActiveAnswers(l.client, l.toClient[0], added, now);
      CommandsConcat(l.toServer, S.OnInbound(l.client, l.toClient[0], added, now).written);
      hide S.OnInbound;
    case _ => OtherStepCalls(l, e);
  }

  lemma OtherStepCalls(l: L.Link, e: L.Event)
    requires l.client.fsm == S.Active && L.Enabled(l, e) && !e.ToServer? && !e.ToClient?
    ensures var next := L.Step(l, e);
      && next.server.calls == l.server.calls
      && Commands(next.toServer) == Commands(l.toServer) + Asked(l.client, [e])
  {
    hide C.EntityList, EntityKey;
    assert [e][1..] == [];
    match e
    case Ping(now) =>
      CommandsConcat(l.toServer, [PingRequest]);
      assert Commands([PingRequest]) == [];
    case Send(id, desired) =>
      CommandsConcat(l.toServer, S.CommandFor(l.client, id, desired).1);
    case _ =>
  }

  lemma ActiveAnswers(c: S.Client, f: Frame, added: bool, now: nat)
    requires c.fsm == S.Active
    ensures Commands(S.OnInbound(c, f, added, now).written) == []
  {
  }

  lemma ServerStepCalls(l: L.Link, found: Option<EntityId>)
    requires L.Legal(l) && l.client.fsm == S.Active && L.Enabled(l, L.ToServer(found))
    requires l.toServer[0].Command? ==> found.Some?
    ensures var next := L.Step(l, L.ToServer(found));
      Keyed(next.server.calls) + Commands(next.toServer) == Keyed(l.server.calls) + Commands(l.toServer)
  {
    hide L.Legal, EntityKey, L.Step, Keyed, C.OnFrame;
    var f := l.toServer[0];
    ServerStep(l, found);
    if f.Command? {
      CommandFindsServing(l);
      CalledKey(l.server, f, found);
    } else {
      C.CallsIff(l.server, f, found);
    }
  }

  lemma CalledKey(s: C.Server, f: Frame, found: Option<EntityId>)
    requires s.phase.Serving? && f.Command? && C.FoundBy(s.registry, f.key, found) && found.Some?
    ensures Keyed(C.OnFrame(s, f, found).server.calls) == Keyed(s.calls) + [(f.key, f.desired)]
  {
    hide EntityKey;
    KeyedConcat(s.calls, [(found.value, f.desired)]);
  }

  // ---------------------------------------------------------------- watchers

  lemma StepWatches(l: L.Link, e: L.Event)
    requires L.Legal(l) && L.Subscribed(l) && L.Enabled(l, e)
    ensures L.Step(l, e).server.watched == l.server.watched
  {
    hide C.EntityList, C.OnStateUpdate, S.OnInbound, S.CommandFor, S.OnPingTick, C.InitialStates, L.Imported;
    if e.ToServer? {
      ServerStep(l, e.found);
      assert l.toServer[0] in l.toServer;
      hide L.Step;
    }
  }

  /** An entity that was not registered when the client subscribed is never pushed to it,
      however long the connection lasts and whatever becomes of the entity. */
  lemma {:induction false} AddedLaterIsNeverPushed(start: L.Link, events: seq<L.Event>, end: L.Link, id: EntityId, s: State)
    requires L.Legal(start) && L.Subscribed(start) && id !in start.server.watched
    requires L.IsRun(start, events, end)
    ensures L.Step(end, L.Update(id, s)).toClient == end.toClient
    decreases |events|
  {
    hide L.Legal, L.Enabled, L.Subscribed;
    if events == [] {
      hide C.OnStateUpdate;
    } else {
      hide L.Step;
      L.StepLegal(start, events[0]);
      L.SubscribedStays(start, events[0]);
      StepWatches(start, events[0]);
      AddedLaterIsNeverPushed(L.Step(start, events[0]), events[1..], end, id, s);
    }
  }

  /** The watched are those registered when the subscription arrived. */
  lemma WatchedFromSubscription(s: C.Server, f: Frame, found: Option<EntityId>, id: EntityId)
    requires s.watched == [] && s.phase == C.Serving(false)
    ensures var t := C.OnFrame(s, f, found).server;
      id in t.watched <==> t.phase == C.Serving(true) && id in s.registry
  {
    hide C.EntityList, C.InitialStates, C.AsFrames, Elems, Sorted, Distinct;
    if f == SubscribeStates {
      assert C.OnFrame(s, f, found).server.watched == [] + SortSet(s.registry.Keys);
      SortedMembers(s.registry.Keys, id);
      hide C.OnFrame, SortSet;
    } else {
      assert C.OnFrame(s, f, found).server.watched == [];
    }
  }

  lemma SortedMembers(names: set<string>, id: string)
    ensures id in SortSet(names) <==> id in names
  {
    assert id in SortSet(names) <==> id in Elems(SortSet(names));
  }

  // ---------------------------------------------------------------- pings

  function Count(frames: seq<Frame>, f: Frame): nat {
    multiset(frames)[f]
  }

  /** Pings on their way and answers on their way back. */
  function Echoes(l: L.Link): nat {
    Count(l.toServer, PingRequest) + Count(l.toClient, PingResponse)
  }

  function Pings(events: seq<L.Event>): nat {
    if events == [] then 0 else (if events[0].Ping? then 1 else 0) + Pings(events[1..])
  }

  /** How many of the frames delivered to the client on a run are answers to pings. */
  ghost function Heard(start: L.Link, events: seq<L.Event>): nat
    decreases |events|
  {
    if events == [] || !L.Enabled(start, events[0]) then 0
    else
      (if events[0].ToClient? && start.toClient[0] == PingResponse then 1 else 0)
      + Heard(L.Step(start, events[0]), events[1..])
  }

  lemma NoEcho(frames: seq<Frame>, f: Frame)
    requires f !in frames
    ensures Count(frames, f) == 0
  {
  }

  lemma ServerEchoes(s: C.Server, f: Frame, found: Option<EntityId>)
    requires s.phase.Serving? || f == HelloRequest
    ensures Count(C.OnFrame(s, f, found).written, PingResponse) == if f == PingRequest && s.phase.Serving? then 1 else 0
  {
    C.InitialAreStates(s.store, SortSet(s.registry.Keys));
    hide C.EntityList, C.InitialStates, SortSet, EntityKey;
    if f == PingRequest && s.phase.Serving? {
      assert C.OnFrame(s, f, found).written == [PingResponse];
    } else {
      assert PingResponse !in C.OnFrame(s, f, found).written;
    }
  }

  lemma StepEchoes(l: L.Link, e: L.Event)
    requires L.Legal(l) && L.Enabled(l, e)
    ensures Echoes(L.Step(l, e)) + Heard(l, [e]) == Echoes(l) + Pings([e])
  {
    hide L.Legal, Count;
    match e
    case ToServer(found) => ServerStepEchoes(l, found);
    case ToClient(added, now) => ClientStepEchoes(l, added, now);
    case _ => OtherStepEchoes(l, e);
  }

  lemma ServerStepEchoes(l: L.Link, found: Option<EntityId>)
    requires L.Legal(l) && L.Enabled(l, L.ToServer(found))
    ensures Echoes(L.Step(l, L.ToServer(found))) == Echoes(l)
  {
    hide Count, C.OnFrame, C.EntityList, L.Step, L.Imported;
    var f := l.toServer[0];
    ServerStep(l, found);
    assert l.server.phase.Serving? || f == HelloRequest;
    hide L.Legal;
    ServerEchoes(l.server, f, found);
    CountTail(l.toServer, PingRequest);
    CountConcat(l.toClient, C.OnFrame(l.server, f, found).written, PingResponse);
  }

  lemma ClientStepEchoes(l: L.Link, added: bool, now: nat)
    requires L.Legal(l) && L.Enabled(l, L.ToClient(added, now))
    ensures Echoes(L.Step(l, L.ToClient(added, now))) + Heard(l, [L.ToClient(added, now)]) == Echoes(l)
  {
    hide L.Legal, Count, S.OnInbound, L.Step;
    var f := l.toClient[0];
    var written := S.OnInbound(l.client, f, added, now).written;
    ClientStep(l, added, now);
    NoPings(l);
    ClientSendsNoPings(l.client, f, added, now);
    NoEcho(written, PingRequest);
    CountTail(l.toClient, PingResponse);
    CountConcat(l.toServer, written, PingRequest);
    assert [L.ToClient(added, now)][1..] == [];
  }

  lemma ClientSendsNoPings(c: S.Client, f: Frame, added: bool, now: nat)
    ensures PingRequest !in S.OnInbound(c, f, added, now).written
  {
    hide S.Finalize, S.Ingest, S.PostStop;
  }

  lemma NoPings(l: L.Link)
    requires L.Legal(l)
    ensures PingRequest !in l.toClient
  {
    hide L.Imported, C.EntityList;
  }

  lemma OtherStepEchoes(l: L.Link, e: L.Event)
    requires L.Legal(l) && L.Enabled(l, e) && !e.ToServer? && !e.ToClient?
    ensures Echoes(L.Step(l, e)) == Echoes(l) + Pings([e])
  {
    hide L.Legal, Count, EntityKey;
    assert [e][1..] == [];
    match e
    case Ping(now) =>
      CountConcat(l.toServer, [PingRequest], PingRequest);
      OnePing();
    case Send(id, desired) =>
      var sent := S.CommandFor(l.client, id, desired).1;
      NoEcho(sent, PingRequest);
      CountConcat(l.toServer, sent, PingRequest);
    case Update(id, state) =>
      var reported := L.Reported(l.server, id, state);
      NoEcho(reported, PingResponse);
      CountConcat(l.toClient, reported, PingResponse);
    case _ =>
  }

  lemma OnePing()
    ensures Count([PingRequest], PingRequest) == 1
  {
  }

  lemma CountConcat(a: seq<Frame>, b: seq<Frame>, f: Frame)
    ensures Count(a + b, f) == Count(a, f) + Count(b, f)
  {
  }

  lemma CountTail(a: seq<Frame>, f: Frame)
    requires a != []
    ensures Count(a, f) == Count(a[1..], f) + if a[0] == f then 1 else 0
  {
    assert a == [a[0]] + a[1..];
  }

  /** On every run of a connection every ping is answered, and nothing else is: the pings
      sent are those on their way, their answers on the way back, and the answers heard. */
  lemma {:induction false} PingsAreAnswered(start: L.Link, events: seq<L.Event>, end: L.Link)
    requires L.Legal(start) && L.IsRun(start, events, end)
    ensures Echoes(end) + Heard(start, events) == Echoes(start) + Pings(events)
    decreases |events|
  {
    hide L.Legal, L.Step, L.Enabled, Echoes;
    if events != [] {
      L.StepLegal(start, events[0]);
      StepEchoes(start, events[0]);
      assert [events[0]][1..] == [];
      PingsAreAnswered(L.Step(start, events[0]), events[1..], end);
    }
  }
}
