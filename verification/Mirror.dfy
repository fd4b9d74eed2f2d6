/**
 What a subscription is for: the client's record of the firmware's states mirrors the
 server's state store. Once nothing is on its way, an entity's record is what the store has
 exactly if the store's state has a frame; a state without one, Unavailable above all, is
 never pushed, and the client keeps the state before it.
*/
module Mirror {
  import opened Ordering
  import opened Naming
  import opened Wire
  import opened Words
  import S = Session
  import C = Connection
  import L = Link

  /** A link, and a record of the last state the server pushed under each key. */
  datatype Watched = Watched(link: L.Link, pushed: map<u32, State>)

  predicate IsPush(f: Frame, k: u32) {
    f.StateFrame? && f.key == k && f.state.Some?
  }

  function Recorded(pushed: map<u32, State>, frames: seq<Frame>): map<u32, State> {
    if frames == [] then pushed
    else
      var front, last := Recorded(pushed, frames[..|frames| - 1]), frames[|frames| - 1];
      if last.StateFrame? && last.state.Some? then front[last.key := last.state.value] else front
  }

  /** The last state on its way for a key. */
  function LastFor(frames: seq<Frame>, k: u32): Option<State> {
    if frames == [] then None
    else if IsPush(frames[|frames| - 1], k) then frames[|frames| - 1].state
    else LastFor(frames[..|frames| - 1], k)
  }

  /** What the server writes in a step. */
  ghost function Writes(l: L.Link, e: L.Event): seq<Frame>
    requires L.Enabled(l, e)
  {
    match e
    case ToServer(found) => C.OnFrame(l.server, l.toServer[0], found).written
    case Update(id, state) => L.Reported(l.server, id, state)
    case _ => []
  }

  ghost function Step(w: Watched, e: L.Event): Watched
    requires L.Enabled(w.link, e)
  {
    Watched(L.Step(w.link, e), Recorded(w.pushed, Writes(w.link, e)))
  }

  // ---------------------------------------------------------------- frames on their way

  lemma {:induction false} RecordedIs(pushed: map<u32, State>, frames: seq<Frame>, k: u32)
    ensures var r := Recorded(pushed, frames);
      match LastFor(frames, k)
      case Some(s) => k in r && r[k] == s
      case None => (k in r <==> k in pushed) && (k in r ==> r[k] == pushed[k])
  {
    if frames != [] {
      RecordedIs(pushed, frames[..|frames| - 1], k);
    }
  }

  lemma {:induction false} LastForConcat(a: seq<Frame>, b: seq<Frame>, k: u32)
    ensures LastFor(a + b, k) == if LastFor(b, k).Some? then LastFor(b, k) else LastFor(a, k)
  {
    if b == [] {
      assert a + b == a;
    } else {
      assert (a + b)[..|a + b| - 1] == a + b[..|b| - 1];
      LastForConcat(a, b[..|b| - 1], k);
    }
  }

  lemma LastForTail(frames: seq<Frame>, k: u32)
    requires frames != []
    ensures LastFor(frames, k) ==
      if LastFor(frames[1..], k).Some? then LastFor(frames[1..], k)
      else if IsPush(frames[0], k) then frames[0].state else None
  {
    assert frames == [frames[0]] + frames[1..];
    LastForConcat([frames[0]], frames[1..], k);
    assert [frames[0]][..0] == [];
  }

  predicate NoStates(frames: seq<Frame>) {
    forall f :: f in frames ==> !f.StateFrame?
  }

  lemma {:induction false} NothingRecorded(pushed: map<u32, State>, frames: seq<Frame>)
    requires NoStates(frames)
    ensures Recorded(pushed, frames) == pushed
  {
    if frames != [] {
      assert frames[|frames| - 1] in frames;
      NothingRecorded(pushed, frames[..|frames| - 1]);
    }
  }

  // ---------------------------------------------------------------- the mirror

  /** The key, and no other, names an entity of the client. */
  ghost predicate Sole(c: S.Client, k: u32) {
    && k in c.keyToEntity && c.keyToEntity[k] in c.refs
    && forall other :: other in c.keyToEntity && c.keyToEntity[other] == c.keyToEntity[k] ==> other == k
  }

  /** Under a key what was pushed last is the last on its way, or has arrived. */
  ghost predicate Mirrors(c: S.Client, toClient: seq<Frame>, pushed: map<u32, State>, k: u32)
    requires k in pushed && k in c.keyToEntity
  {
    match LastFor(toClient, k)
    case Some(s) => s == pushed[k]
    case None => c.keyToEntity[k] in c.firmware && c.firmware[c.keyToEntity[k]] == pushed[k]
  }

  ghost predicate AllMirror(c: S.Client, toClient: seq<Frame>, pushed: map<u32, State>) {
    forall k :: k in pushed && Sole(c, k) ==> Mirrors(c, toClient, pushed, k)
  }

  ghost predicate Inv(w: Watched) {
    && L.Legal(w.link)
    && if L.Subscribed(w.link) then AllMirror(w.link.client, w.link.toClient, w.pushed) else w.pushed == map[]
  }

  lemma WrittenMirrors(c: S.Client, toClient: seq<Frame>, pushed: map<u32, State>, written: seq<Frame>)
    requires AllMirror(c, toClient, pushed)
    ensures AllMirror(c, toClient + written, Recorded(pushed, written))
  {
    hide LastFor, Recorded;
    forall k | k in Recorded(pushed, written) && Sole(c, k)
      ensures Mirrors(c, toClient + written, Recorded(pushed, written), k)
    {
      RecordedIs(pushed, written, k);
      LastForConcat(toClient, written, k);
      if LastFor(written, k).None? {
        assert Mirrors(c, toClient, pushed, k);
      }
    }
  }

  lemma IngestedMirrors(c: S.Client, toClient: seq<Frame>, pushed: map<u32, State>, added: bool, now: nat)
    requires AllMirror(c, toClient, pushed) && toClient != []
    requires c.fsm == S.Active
    ensures AllMirror(S.OnInbound(c, toClient[0], added, now).client, toClient[1..], pushed)
  {
    hide LastFor, S.OnInbound;
    var f, d := toClient[0], S.OnInbound(c, toClient[0], added, now).client;
    IngestedMaps(c, f, added, now);
    forall k | k in pushed && Sole(d, k) ensures Mirrors(d, toClient[1..], pushed, k) {
      assert Sole(c, k);
      assert Mirrors(c, toClient, pushed, k);
      LastForTail(toClient, k);
    }
  }

  lemma IngestedMaps(c: S.Client, f: Frame, added: bool, now: nat)
    requires c.fsm == S.Active
    ensures var d := S.OnInbound(c, f, added, now).client;
      && d.fsm == S.Active && d.keyToEntity == c.keyToEntity && d.refs == c.refs
      && d.firmware == (if f.StateFrame? && f.state.Some? && f.key in c.keyToEntity && c.keyToEntity[f.key] in c.refs
                        then c.firmware[c.keyToEntity[f.key] := f.state.value] else c.firmware)
  {
  }

  lemma PlainAnswers(s: C.Server, f: Frame, found: Option<EntityId>)
    requires s.phase == C.AwaitingHello || (s.phase.Serving? && f != SubscribeStates)
    ensures NoStates(C.OnFrame(s, f, found).written)
  {
  }

  lemma ToServerInv(w: Watched, found: Option<EntityId>)
    requires Inv(w) && L.Enabled(w.link, L.ToServer(found))
    ensures Inv(Step(w, L.ToServer(found)))
  {
    var l, e := w.link, L.ToServer(found);
    L.StepLegal(l, e);
    ServerPhases(l, found);
    var next, written := L.Step(l, e), Writes(l, e);
    assert next.client == l.client && next.toClient == l.toClient + written by {
      hide L.Legal, C.OnFrame;
    }
    hide L.Legal, L.Step, Recorded, Mirrors, Sole, C.OnFrame;
    if L.Subscribed(next) {
      WrittenMirrors(l.client, l.toClient, w.pushed, written);
    } else {
      PlainAnswers(l.server, l.toServer[0], found);
      NothingRecorded(w.pushed, written);
    }
  }

  lemma ServerPhases(l: L.Link, found: Option<EntityId>)
    requires L.Legal(l) && L.Enabled(l, L.ToServer(found))
    ensures var next := L.Step(l, L.ToServer(found));
      && (L.Subscribed(l) ==> L.Subscribed(next))
      && (!L.Subscribed(next) ==> l.server.phase == C.AwaitingHello || (l.server.phase.Serving? && l.toServer[0] != SubscribeStates))
  {
    hide L.IsImport, C.InitialStates, C.EntityList, C.AsFrames, C.FoundBy;
    ServerKeeps(l, found);
    assert l.toServer[0] in l.toServer;
  }

  lemma ToClientInv(w: Watched, added: bool, now: nat)
    requires Inv(w) && L.Enabled(w.link, L.ToClient(added, now))
    ensures Inv(Step(w, L.ToClient(added, now)))
  {
    var l, e := w.link, L.ToClient(added, now);
    L.StepLegal(l, e);
    ClientStep(l, added, now);
    if L.Subscribed(l) {
      SubscribedActive(l);
      IngestedMirrors(l.client, l.toClient, w.pushed, added, now);
    }
    hide L.Legal, L.Step, AllMirror, S.OnInbound;
  }

  lemma ClientStep(l: L.Link, added: bool, now: nat)
    requires L.Enabled(l, L.ToClient(added, now))
    ensures var next := L.Step(l, L.ToClient(added, now));
      && next.server == l.server && next.toClient == l.toClient[1..]
      && next.client == S.OnInbound(l.client, l.toClient[0], added, now).client
  {
    hide S.OnInbound;
  }

  lemma SubscribedActive(l: L.Link)
    requires L.Legal(l) && L.Subscribed(l)
    ensures l.client.fsm == S.Active
  {
    hide L.IsImport;
  }

  lemma OtherInv(w: Watched, e: L.Event)
    requires Inv(w) && L.Enabled(w.link, e) && !e.ToServer? && !e.ToClient?
    ensures Inv(Step(w, e))
  {
    L.StepLegal(w.link, e);
    hide L.Legal, AllMirror, Recorded, S.CommandFor;
    var l := w.link;
    match e
    case Update(id, state) =>
      if L.Subscribed(l) {
        WrittenMirrors(l.client, l.toClient, w.pushed, Writes(l, e));
      } else {
        assert Writes(l, e) == [];
        NothingRecorded(w.pushed, []);
      }
    case _ => NothingRecorded(w.pushed, []);
  }

  lemma StepInv(w: Watched, e: L.Event)
    requires Inv(w) && L.Enabled(w.link, e)
    ensures Inv(Step(w, e))
  {
    hide Inv, Step, L.Enabled;
    match e
    case ToServer(found) => ToServerInv(w, found);
    case ToClient(added, now) => ToClientInv(w, added, now);
    case _ => OtherInv(w, e);
  }

  // ---------------------------------------------------------------- the server's store

  /** The store has a state for the entity that can be pushed. */
  predicate Shown(s: C.Server, id: EntityId) {
    id in s.store && C.StateFrameFor(id, s.store[id]) != []
  }

  /** The last push under an entity's key is what the store has. */
  ghost predicate Truthful(s: C.Server, pushed: map<u32, State>) {
    forall id :: id in s.registry && Shown(s, id) ==> EntityKey(id) in pushed && pushed[EntityKey(id)] == s.store[id]
  }

  /** From the subscription on, what changes on the server is reported by a watcher of a
      registered entity. */
  ghost predicate IsReported(l: L.Link, e: L.Event) {
    L.Subscribed(l) ==> !e.ServerChange? && (e.Update? ==> e.id in l.server.registry)
  }

  ghost predicate IsReportedRun(start: Watched, events: seq<L.Event>, end: Watched)
    decreases |events|
  {
    if events == [] then start == end
    else
      && L.Enabled(start.link, events[0]) && IsReported(start.link, events[0])
      && IsReportedRun(Step(start, events[0]), events[1..], end)
  }

  /** Every registered entity has a watcher, and the store what was pushed last. */
  ghost predicate Honest(w: Watched) {
    L.Subscribed(w.link) ==>
      && AllWatched(w.link.server)
      && (C.DistinctServerKeys(w.link.server.registry) ==> Truthful(w.link.server, w.pushed))
  }

  ghost predicate AllWatched(s: C.Server) {
    forall id :: id in s.registry ==> id in s.watched
  }

  lemma {:induction false} InitialPushes(store: map<EntityId, State>, ids: seq<EntityId>, id: EntityId)
    requires id in ids && id in store && C.StateFrameFor(id, store[id]) != []
    requires forall other :: other in ids && EntityKey(other) == EntityKey(id) ==> other == id
    ensures LastFor(C.InitialStates(store, ids), EntityKey(id)) == Some(store[id])
  {
    hide EntityKey, C.StateFrameFor, LastFor;
    var front, last := ids[..|ids| - 1], ids[|ids| - 1];
    assert ids == front + [last];
    assert last in ids;
    var pushed := if last in store then C.StateFrameFor(last, store[last]) else [];
    assert C.InitialStates(store, ids) == C.InitialStates(store, front) + pushed;
    LastForConcat(C.InitialStates(store, front), pushed, EntityKey(id));
    if last in store {
      LastForPush(last, store[last], EntityKey(id));
    } else {
      NothingFor(EntityKey(id));
    }
    if last != id {
      InitialPushes(store, front, id);
    }
  }

  lemma NothingFor(k: u32)
    ensures LastFor([], k) == None
  {
  }

  lemma LastForPush(id: EntityId, s: State, k: u32)
    ensures LastFor(C.StateFrameFor(id, s), k) == if C.StateFrameFor(id, s) != [] && EntityKey(id) == k then Some(s) else None
  {
    hide EntityKey;
    var f := StateFrame(EntityKey(id), Some(s));
    assert [f][..0] == [];
  }

  lemma SubscribeHonest(s: C.Server, pushed: map<u32, State>)
    requires C.DistinctServerKeys(s.registry)
    ensures Truthful(s, Recorded(pushed, C.InitialStates(s.store, SortSet(s.registry.Keys))))
  {
    hide LastFor, Recorded, EntityKey, C.StateFrameFor;
    var ids := SortSet(s.registry.Keys);
    C.SortedAreRegistered(s.registry);
    forall id | id in s.registry && Shown(s, id)
      ensures var r := Recorded(pushed, C.InitialStates(s.store, ids));
        EntityKey(id) in r && r[EntityKey(id)] == s.store[id]
    {
      assert id in Elems(ids);
      InitialPushes(s.store, ids, id);
      RecordedIs(pushed, C.InitialStates(s.store, ids), EntityKey(id));
    }
  }

  lemma UpdateHonest(s: C.Server, pushed: map<u32, State>, id: EntityId, state: State)
    requires Truthful(s, pushed) && C.DistinctServerKeys(s.registry) && id in s.registry
    ensures Truthful(s.(registry := s.registry[id := Some(state)], store := s.store[id := state]),
                     Recorded(pushed, C.StateFrameFor(id, state)))
  {
    hide LastFor, Recorded, EntityKey, C.StateFrameFor;
    var r := Recorded(pushed, C.StateFrameFor(id, state));
    var t := s.(registry := s.registry[id := Some(state)], store := s.store[id := state]);
    forall other | other in t.registry && Shown(t, other)
      ensures EntityKey(other) in r && r[EntityKey(other)] == t.store[other]
    {
      LastForPush(id, state, EntityKey(other));
      RecordedIs(pushed, C.StateFrameFor(id, state), EntityKey(other));
      if other != id {
        assert Shown(s, other);
      }
    }
  }

  lemma StepHonest(w: Watched, e: L.Event)
    requires Inv(w) && Honest(w) && L.Enabled(w.link, e) && IsReported(w.link, e)
    ensures Honest(Step(w, e))
  {
    var l := w.link;
    match e
    case ToServer(found) => ServerHonest(w, found);
    case ToClient(added, now) =>
      ClientStep(l, added, now);
      NothingRecorded(w.pushed, []);
      hide L.Step, L.Legal, Truthful;
    case Update(id, state) =>
      hide L.Legal, C.StateFrameFor, Recorded;
      if L.Subscribed(l) && C.DistinctServerKeys(l.server.registry) {
        UpdateHonest(l.server, w.pushed, id, state);
      }
    case _ =>
      NothingRecorded(w.pushed, []);
      hide L.Legal, S.CommandFor, Truthful;
  }

  lemma ServerHonest(w: Watched, found: Option<EntityId>)
    requires Inv(w) && Honest(w) && L.Enabled(w.link, L.ToServer(found))
    ensures Honest(Step(w, L.ToServer(found)))
  {
    var l := w.link;
    ServerKeeps(l, found);
    ServerWatches(w, found);
    var next, written := L.Step(l, L.ToServer(found)), Writes(l, L.ToServer(found));
    hide AllWatched;
    if L.Subscribed(l) {
      PlainAnswers(l.server, l.toServer[0], found);
      NothingRecorded(w.pushed, written);
      SameTruth(l.server, next.server, w.pushed);
    } else if L.Subscribed(next) && C.DistinctServerKeys(next.server.registry) {
      SubscribeHonest(l.server, w.pushed);
      SameTruth(l.server, next.server, Recorded(w.pushed, written));
    }
    hide L.Legal, L.Step, Truthful, Recorded, C.OnFrame;
  }

  lemma ServerWatches(w: Watched, found: Option<EntityId>)
    requires Inv(w) && Honest(w) && L.Enabled(w.link, L.ToServer(found))
    ensures var next := L.Step(w.link, L.ToServer(found)); L.Subscribed(next) ==> AllWatched(next.server)
  {
    var s, f := w.link.server, w.link.toServer[0];
    FrameWatches(s, f, found);
    ServerKeeps(w.link, found);
    hide L.Legal, C.OnFrame, Truthful, C.EntityList, C.InitialStates, C.FoundBy;
  }

  /** A subscription watches every registered entity, and no watcher is ever dropped. */
  lemma FrameWatches(s: C.Server, f: Frame, found: Option<EntityId>)
    ensures var t := C.OnFrame(s, f, found).server;
      && (s.phase != C.Serving(true) && t.phase == C.Serving(true) ==> AllWatched(t))
      && (forall id :: id in s.watched ==> id in t.watched)
  {
    hide C.EntityList, C.AsFrames, C.InitialStates, SortSet;
    if s.phase.Serving? && f == SubscribeStates {
      forall id | id in s.registry ensures id in SortSet(s.registry.Keys) {
        assert id in Elems(SortSet(s.registry.Keys));
      }
    }
  }

  lemma SameTruth(s: C.Server, t: C.Server, pushed: map<u32, State>)
    requires s.registry == t.registry && s.store == t.store
    ensures Truthful(s, pushed) == Truthful(t, pushed)
  {
    assert forall id :: Shown(s, id) == Shown(t, id);
  }

  lemma ServerKeeps(l: L.Link, found: Option<EntityId>)
    requires L.Legal(l) && L.Enabled(l, L.ToServer(found))
    ensures var next := L.Step(l, L.ToServer(found));
      && next.server.registry == l.server.registry && next.server.store == l.server.store
      && (L.Subscribed(l) ==> L.Subscribed(next) && l.toServer[0] != SubscribeStates)
      && (!L.Subscribed(l) && L.Subscribed(next) ==>
            Writes(l, L.ToServer(found)) == C.InitialStates(l.server.store, SortSet(l.server.registry.Keys)))
  {
    var f := l.toServer[0];
    assert f in l.toServer;
    if L.Subscribed(l) {
      OnlyChatter(l);
    }
    FrameKeeps(l.server, f, found);
    hide C.OnFrame, L.Legal, C.EntityList, C.FoundBy, C.InitialStates;
  }

  lemma FrameKeeps(s: C.Server, f: Frame, found: Option<EntityId>)
    ensures var o := C.OnFrame(s, f, found);
      && o.server.registry == s.registry && o.server.store == s.store
      && (s.phase == C.Serving(true) && f != DisconnectRequest ==> o.server.phase == C.Serving(true))
      && (s.phase != C.Serving(true) && o.server.phase == C.Serving(true) ==>
            o.written == C.InitialStates(s.store, SortSet(s.registry.Keys)))
  {
    hide C.EntityList, C.AsFrames, C.InitialStates, SortSet;
  }

  lemma OnlyChatter(l: L.Link)
    requires L.Legal(l) && L.Subscribed(l)
    ensures L.Chatter(l.toServer)
  {
    hide L.IsImport;
  }

  lemma {:induction false} RunInv(start: Watched, events: seq<L.Event>, end: Watched)
    requires Inv(start) && Honest(start) && IsReportedRun(start, events, end)
    ensures Inv(end) && Honest(end)
    decreases |events|
  {
    hide Inv, Honest, Step, IsReported;
    if events != [] {
      StepInv(start, events[0]);
      StepHonest(start, events[0]);
      RunInv(Step(start, events[0]), events[1..], end);
    }
  }

  // ---------------------------------------------------------------- what is never pushed

  /** A state that has a frame. */
  predicate Pushable(s: State) {
    s.Value? && Listed(s.kind)
  }

  ghost predicate AllPushable(record: map<EntityId, State>) {
    forall e :: e in record ==> Pushable(record[e])
  }

  ghost predicate PushableFrames(frames: seq<Frame>) {
    forall f :: f in frames && f.StateFrame? ==> f.state.Some? && Pushable(f.state.value)
  }

  /** Only states that have a frame are on their way or on record. */
  ghost predicate Plain(l: L.Link) {
    PushableFrames(l.toClient) && AllPushable(l.client.firmware)
  }

  lemma {:induction false} InitialArePushable(store: map<EntityId, State>, ids: seq<EntityId>)
    ensures PushableFrames(C.InitialStates(store, ids))
  {
    hide EntityKey;
    if ids != [] {
      InitialArePushable(store, ids[..|ids| - 1]);
    }
  }

  lemma WrittenArePushable(l: L.Link, e: L.Event)
    requires L.Enabled(l, e)
    ensures PushableFrames(Writes(l, e))
  {
    hide C.InitialStates, SortSet, EntityKey, C.OnFrame;
    InitialArePushable(l.server.store, SortSet(l.server.registry.Keys));
    if e.ToServer? {
      AnswersArePushable(l.server, l.toServer[0], e.found);
    }
  }

  lemma AnswersArePushable(s: C.Server, f: Frame, found: Option<EntityId>)
    ensures PushableFrames(C.OnFrame(s, f, found).written)
  {
    if s.phase.Serving? && f == SubscribeStates {
      InitialArePushable(s.store, SortSet(s.registry.Keys));
    } else if !s.phase.Disconnecting? {
      PlainAnswers(s, f, found);
    }
    hide C.InitialStates, C.EntityList, SortSet, Pushable;
  }

  lemma InboundKeepsPushable(c: S.Client, f: Frame, added: bool, now: nat)
    requires AllPushable(c.firmware) && PushableFrames([f])
    ensures AllPushable(S.OnInbound(c, f, added, now).client.firmware)
  {
    assert f in [f];
    var heard := c.(lastActivity := Some(now));
    match c.fsm
    case Handshake(phase) =>
      HandshakeForgets(heard, phase, f, added, now);
      hide S.OnHandshake, Pushable;
    case Active =>
      IngestedMaps(c, f, added, now);
      hide S.OnInbound, Pushable;
    case _ => hide Pushable;
  }

  lemma HandshakeForgets(c: S.Client, phase: S.Phase, f: Frame, added: bool, now: nat)
    ensures var d := S.OnHandshake(c, phase, f, added, now).client;
      forall e :: e in d.firmware ==> e in c.firmware && d.firmware[e] == c.firmware[e]
  {
    hide S.Post, S.Finalize;
    if phase.Collecting? {
      FinalizeForgets(c, phase.entities, added);
    }
  }

  /** An import puts nothing on record. */
  lemma FinalizeForgets(c: S.Client, list: seq<Meta>, added: bool)
    ensures var d := S.Finalize(c, list, added);
      forall e :: e in d.firmware ==> e in c.firmware && d.firmware[e] == c.firmware[e]
  {
    hide S.WithinCaps, S.Post, S.Disappeared, S.ImportAll;
    S.ImportAllFrame(c.(deviceKnown := true), list);
  }

  lemma StepPlain(l: L.Link, e: L.Event)
    requires Plain(l) && L.Enabled(l, e)
    ensures Plain(L.Step(l, e))
  {
    hide AllPushable, C.OnFrame, C.OnStateUpdate, C.EntityList, S.OnInbound, S.CommandFor, Pushable;
    WrittenArePushable(l, e);
    match e
    case ToClient(added, now) =>
      ClientStep(l, added, now);
      assert l.toClient[0] in l.toClient;
      InboundKeepsPushable(l.client, l.toClient[0], added, now);
    case _ => assert L.Step(l, e).toClient == l.toClient + Writes(l, e);
  }

  lemma {:induction false} RunPlain(start: Watched, events: seq<L.Event>, end: Watched)
    requires Plain(start.link) && IsReportedRun(start, events, end)
    ensures Plain(end.link)
    decreases |events|
  {
    hide Plain, L.Step, Recorded, L.Enabled, IsReported;
    if events != [] {
      StepPlain(start.link, events[0]);
      RunPlain(Step(start, events[0]), events[1..], end);
    }
  }

  /** The client's record of a listed entity is what the server's store has. */
  ghost predicate Agree(l: L.Link, id: EntityId)
    requires id in l.served && C.ListFrame(id, l.served[id]).Some?
  {
    var local := S.LocalOf(l.start.slug, C.ListFrame(id, l.served[id]).value);
    && id in l.server.store && local in l.client.firmware && l.client.firmware[local] == l.server.store[id]
  }

  /** The entity was listed, is registered, has a key of its own on the server, and nothing
      is on its way any more. */
  ghost predicate Settled(l: L.Link, id: EntityId) {
    && L.Subscribed(l) && l.toClient == [] && L.Accepted(l)
    && C.DistinctServerKeys(l.served) && C.DistinctServerKeys(l.server.registry)
    && id in l.served && C.ListFrame(id, l.served[id]).Some?
    && id in l.server.registry
  }

  /** A key of its own on the client: all its keys were hashed, as this server's are, or this
      one is the only one that names the entity. */
  ghost predicate OneKey(client: S.Client, l: L.Link, id: EntityId) {
    Hashed(client) || Sole(l.client, EntityKey(id))
  }

  /** On every run whose changes are reported, of a client with nothing on record that could
      not have been pushed: once nothing is on its way, the record of a listed entity is what
      the store has if and only if the store's state has a frame. */
  lemma DrainedClientMirrorsStore(client: S.Client, server: C.Server, events: seq<L.Event>, w: Watched, id: EntityId)
    requires L.CanConnect(client, server) && AllPushable(client.firmware)
    requires IsReportedRun(Watched(L.Connected(client, server), map[]), events, w)
    requires Settled(w.link, id) && OneKey(client, w.link, id)
    ensures Agree(w.link, id) <==> Shown(w.link.server, id)
  {
    hide EntityKey, C.ListFrame, S.LocalOf, C.DistinctServerKeys, L.Accepted, Sole, C.StateFrameFor, Plain, Hashed;
    var start := Watched(L.Connected(client, server), map[]);
    L.ConnectedIsLegal(client, server);
    RunInv(start, events, w);
    assert Hashed(client) ==> Hashed(start.link.start) by {
      if Hashed(client) {
        SameHashed(start.link.start, client);
      }
    }
    assert Plain(start.link) by { FreshIsPlain(client, server); }
    hide L.Connected;
    RunPlain(start, events, w);
    SubscribedActive(w.link);
    L.KeysAgree(w.link, id);
    StartStays(start, events, w);
    assert Sole(w.link.client, EntityKey(id)) by {
      if Hashed(client) {
        HashedIsSole(w.link, id);
      }
    }
    if Shown(w.link.server, id) {
      assert Mirrors(w.link.client, [], w.pushed, EntityKey(id));
    }
    if Agree(w.link, id) {
      OnRecordIsShown(w.link, id);
    }
  }

  lemma FreshIsPlain(client: S.Client, server: C.Server)
    requires L.CanConnect(client, server) && AllPushable(client.firmware)
    ensures Plain(L.Connected(client, server))
  {
    L.ConnectedIsLegal(client, server);
  }

  lemma OnRecordIsShown(l: L.Link, id: EntityId)
    requires id in l.served && C.ListFrame(id, l.served[id]).Some? && Agree(l, id) && Plain(l)
    ensures Shown(l.server, id)
  {
    hide EntityKey, C.ListFrame, S.LocalOf;
  }

  lemma {:induction false} ReportedSnoc(start: Watched, events: seq<L.Event>, w: Watched, e: L.Event)
    requires IsReportedRun(start, events, w) && L.Enabled(w.link, e) && IsReported(w.link, e)
    ensures IsReportedRun(start, events + [e], Step(w, e))
    decreases |events|
  {
    hide Step, IsReported, L.Enabled;
    if events == [] {
      assert [e][1..] == [];
      assert IsReportedRun(Step(w, e), [], Step(w, e));
    } else {
      assert (events + [e])[1..] == events[1..] + [e];
      ReportedSnoc(Step(start, events[0]), events[1..], w, e);
    }
  }

  /** The failing case can follow any settled state that mirrors the store: the entity
      becomes unavailable, which is reported, and the settled client goes on showing the
      state before. */
  lemma UnavailableLeavesTheOldState(client: S.Client, server: C.Server, events: seq<L.Event>, w: Watched, id: EntityId)
    returns (later: Watched)
    requires L.CanConnect(client, server) && AllPushable(client.firmware)
    requires IsReportedRun(Watched(L.Connected(client, server), map[]), events, w)
    requires Settled(w.link, id) && OneKey(client, w.link, id) && Agree(w.link, id)
    ensures IsReportedRun(Watched(L.Connected(client, server), map[]), events + [L.Update(id, Unavailable)], later)
    ensures Settled(later.link, id) && OneKey(client, later.link, id) && !Agree(later.link, id)
    ensures later.link.client == w.link.client && later.link.server.store == w.link.server.store[id := Unavailable]
  {
    var e := L.Update(id, Unavailable);
    later := Step(w, e);
    assert later.link.client == w.link.client && later.link.toClient == [] by {
      hide Settled, Agree;
      assert Writes(w.link, e) == [];
    }
    assert IsReported(w.link, e);
    ReportedSnoc(Watched(L.Connected(client, server), map[]), events, w, e);
    StillSettled(w.link, id, L.Step(w.link, e));
    DrainedClientMirrorsStore(client, server, events + [e], later, id);
    hide Settled, Agree, IsReportedRun;
  }

  lemma StillSettled(l: L.Link, id: EntityId, n: L.Link)
    requires Settled(l, id) && n == l.(server := n.server)
    requires n.server.phase == l.server.phase && n.server.registry.Keys == l.server.registry.Keys
    ensures Settled(n, id)
  {
    hide EntityKey, C.ListFrame, Sole, S.WithinCaps;
    assert forall x :: x in n.server.registry <==> x in l.server.registry;
  }

  /** A listed entity is left with one key exactly if every key that named it before the
      import is listed again, whoever it belongs to now. A key that is dropped keeps naming
      it, so whatever is pushed under that key later overwrites its record. */
  lemma SoleIff(c: S.Client, list: seq<Meta>, i: nat)
    requires S.DistinctKeys(list) && S.DistinctLocalIds(c.slug, list) && i < |list|
    ensures Sole(S.ImportAll(c, list), list[i].key)
      <==> forall former :: former in c.keyToEntity && c.keyToEntity[former] == S.LocalOf(c.slug, list[i]) ==> Mentions(list, former)
  {
    hide S.LocalOf, S.ImportAll;
    var d, local := S.ImportAll(c, list), S.LocalOf(c.slug, list[i]);
    assert list[i] in list;
    assert local in S.LocalIds(c.slug, list);
    S.ImportedKey(c, list, i);
    S.ImportedRefs(c, list);
    if key :| key in c.keyToEntity && c.keyToEntity[key] == local && !Mentions(list, key) {
      S.UnmentionedKey(c, list, key);
      assert key != list[i].key;
    } else {
      forall other | other in d.keyToEntity && d.keyToEntity[other] == local ensures other == list[i].key {
        if Mentions(list, other) {
          var j :| 0 <= j < |list| && list[j].key == other;
          S.ImportedKey(c, list, j);
        } else {
          S.UnmentionedKey(c, list, other);
        }
      }
    }
  }

  predicate Mentions(list: seq<Meta>, k: u32) {
    exists m :: m in list && m.key == k
  }

  // ---------------------------------------------------------------- hashed keys

  /** A key is the hash of the object id in the local id it names. */
  ghost predicate IsHashOf(slug: string, k: u32, local: EntityId) {
    exists m: Meta :: S.LocalOf(slug, m) == local && m.key == k && k == Fnv(Utf8(m.objectId))
  }

  ghost predicate Hashed(c: S.Client) {
    forall k :: k in c.keyToEntity ==> IsHashOf(c.slug, k, c.keyToEntity[k])
  }

  ghost predicate HashedList(list: seq<Meta>) {
    forall m :: m in list ==> m.key == Fnv(Utf8(m.objectId))
  }

  lemma {:induction false} ServerListsHashed(registry: map<EntityId, Option<State>>, ids: seq<EntityId>)
    requires forall id :: id in ids ==> id in registry
    ensures HashedList(C.ListFrames(registry, ids))
  {
    hide Fnv, Utf8, ObjectId;
    if ids != [] {
      ServerListsHashed(registry, ids[..|ids| - 1]);
    }
  }

  lemma {:induction false} ImportKeepsHashed(c: S.Client, list: seq<Meta>)
    requires Hashed(c) && HashedList(list)
    ensures Hashed(S.ImportAll(c, list))
  {
    hide Fnv, Utf8, S.LocalOf;
    if list != [] {
      var front, last := list[..|list| - 1], list[|list| - 1];
      assert last in list;
      ImportKeepsHashed(c, front);
      S.ImportAllFrame(c, front);
      var before, after := S.ImportAll(c, front), S.ImportAll(c, list);
      forall k | k in after.keyToEntity ensures IsHashOf(c.slug, k, after.keyToEntity[k]) {
        if k == last.key {
          assert S.LocalOf(c.slug, last) == after.keyToEntity[k];
        } else {
          assert IsHashOf(c.slug, k, before.keyToEntity[k]);
        }
      }
    }
  }

  lemma SameHashed(c: S.Client, d: S.Client)
    requires c.slug == d.slug && c.keyToEntity == d.keyToEntity && Hashed(d)
    ensures Hashed(c)
  {
    hide IsHashOf;
  }

  /** A connection to this server, wherever it stands, leaves all keys hashed. */
  lemma LegalKeepsHashed(l: L.Link)
    requires L.Legal(l) && Hashed(l.start)
    ensures Hashed(l.client)
  {
    hide IsHashOf, C.EntityList, S.Finalize, S.ImportAll, S.WithinCaps, Fnv, Utf8;
    if l.client.fsm == S.Active {
      var known := l.start.(deviceKnown := true);
      assert HashedList(l.listed) by { EntityListHashed(l.served); }
      L.FinalizeMaps(l.start, l.listed, l.added);
      SameHashed(known, l.start);
      ImportKeepsHashed(known, l.listed);
      SameHashed(l.client, L.ImportMaps(l.start, l.listed, l.added));
    } else {
      SameHashed(l.client, l.start);
    }
  }

  lemma EntityListHashed(registry: map<EntityId, Option<State>>)
    ensures HashedList(C.EntityList(registry))
  {
    C.SortedAreRegistered(registry);
    ServerListsHashed(registry, SortSet(registry.Keys));
  }

  lemma {:induction false} StartStays(start: Watched, events: seq<L.Event>, end: Watched)
    requires IsReportedRun(start, events, end)
    ensures end.link.start == start.link.start
    decreases |events|
  {
    hide L.Step, L.Enabled, IsReported, Recorded;
    if events != [] {
      StepKeepsStart(start.link, events[0]);
      StartStays(Step(start, events[0]), events[1..], end);
    }
  }

  lemma StepKeepsStart(l: L.Link, e: L.Event)
    requires L.Enabled(l, e)
    ensures L.Step(l, e).start == l.start
  {
    hide C.OnFrame, C.OnStateUpdate, C.EntityList, S.OnInbound, S.CommandFor;
  }

  /** On every run of a connection a client whose keys are hashed, as those of a client with
      no keys are, keeps them so: whatever connections to such servers it has behind it. */
  lemma EveryConnectionKeepsHashed(client: S.Client, server: C.Server, events: seq<L.Event>, w: Watched)
    requires L.CanConnect(client, server) && Hashed(client)
    requires IsReportedRun(Watched(L.Connected(client, server), map[]), events, w)
    ensures Hashed(w.link.client)
  {
    hide Hashed;
    var start := Watched(L.Connected(client, server), map[]);
    L.ConnectedIsLegal(client, server);
    RunInv(start, events, w);
    StartStays(start, events, w);
    SameHashed(start.link.start, client);
    LegalKeepsHashed(w.link);
  }

  /** With hashed keys no entity has two, so none is ever overwritten under an old one. */
  lemma HashedIsSole(l: L.Link, id: EntityId)
    requires L.Legal(l) && l.client.fsm == S.Active && L.Accepted(l) && Hashed(l.start)
    requires C.DistinctServerKeys(l.served) && id in l.served && C.ListFrame(id, l.served[id]).Some?
    ensures Sole(l.client, EntityKey(id))
  {
    hide Fnv, Utf8, C.ListFrame, EntityKey, C.DistinctServerKeys;
    L.KeysAgree(l, id);
    LegalKeepsHashed(l);
    var c, k := l.client, EntityKey(id);
    forall other | other in c.keyToEntity && c.keyToEntity[other] == c.keyToEntity[k] ensures other == k {
      OneHash(c.slug, k, other, c.keyToEntity[k]);
    }
  }

  lemma OneHash(slug: string, j: u32, k: u32, local: EntityId)
    requires IsHashOf(slug, j, local) && IsHashOf(slug, k, local)
    ensures j == k
  {
    hide Fnv, Utf8, S.LocalOf;
    var m: Meta :| S.LocalOf(slug, m) == local && m.key == j && j == Fnv(Utf8(m.objectId));
    var n: Meta :| S.LocalOf(slug, n) == local && n.key == k && k == Fnv(Utf8(n.objectId));
    L.SameObject(slug, m, n);
  }
}
