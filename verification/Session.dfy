/**
 The client end of a device link: the session that connects, shakes hands, imports the
 entities a device lists, ingests pushed states and reconnects when the link is lost.
*/
module Session {
  import opened Naming
  import opened Wire
  import opened Words

  const MAX_ENTITIES_PER_DEVICE: nat := 512
  const INACTIVITY_TIMEOUT: nat := 30

  datatype Phase = AwaitHello | AwaitDeviceInfo | Collecting(entities: seq<Meta>)

  datatype Fsm = Idle | Handshake(phase: Phase) | Active | Reconnecting | Stopped

  /** The session as a value. `pending` counts Connect and Reconnect messages that are on
      their way, sleeping timers included; `readers` counts reader tasks whose end has not
      been handled. `mail` is what has been sent to each entity. */
  datatype Client = Client(
    slug: string,
    maxEntities: nat,
    fsm: Fsm,
    deviceKnown: bool,
    keyToEntity: map<u32, EntityId>,
    entityToKey: map<EntityId, u32>,
    refs: set<EntityId>,
    registry: set<EntityId>,
    firmware: map<EntityId, State>,
    mail: map<EntityId, seq<State>>,
    attempts: nat,
    lastActivity: Option<nat>,
    pending: nat,
    readers: nat,
    stopped: bool)

  // ---------------------------------------------------------------- what each handler does

  function MailOf(mail: map<EntityId, seq<State>>, id: EntityId): seq<State> {
    if id in mail then mail[id] else []
  }

  /** One more message for each of the ids. */
  function Post(mail: map<EntityId, seq<State>>, ids: set<EntityId>, s: State): map<EntityId, seq<State>> {
    map id | id in mail.Keys + ids :: if id in ids then MailOf(mail, id) + [s] else mail[id]
  }

  function MarkUnavailable(c: Client): Client {
    c.(firmware := c.firmware - c.refs, mail := Post(c.mail, c.refs, Unavailable))
  }

  function BackoffDelay(attempt: nat): (seconds: nat) {
    if attempt == 0 then 1 else if attempt == 1 then 2 else if attempt == 2 then 4
    else if attempt == 3 then 8 else if attempt == 4 then 16 else 30
  }

  function ScheduleReconnect(c: Client): Client {
    c.(attempts := c.attempts + 1, fsm := Reconnecting, pending := c.pending + 1)
  }

  function Lose(c: Client): Client {
    ScheduleReconnect(MarkUnavailable(c))
  }

  function LocalOf(slug: string, m: Meta): EntityId {
    LocalId(slug, DomainOf(m.kind), m.objectId)
  }

  function Import(c: Client, m: Meta): Client {
    var id := LocalOf(c.slug, m);
    c.(keyToEntity := c.keyToEntity[m.key := id],
       entityToKey := c.entityToKey[id := m.key],
       refs := c.refs + {id},
       registry := if id in c.refs then c.registry else c.registry + {id})
  }

  function ImportAll(c: Client, list: seq<Meta>): Client {
    if list == [] then c else Import(ImportAll(c, list[..|list| - 1]), list[|list| - 1])
  }

  function LocalIds(slug: string, list: seq<Meta>): set<EntityId> {
    set m | m in list :: LocalOf(slug, m)
  }

  /** How many listed entities have no actor yet, repeats counted twice. */
  function Needed(c: Client, list: seq<Meta>): nat {
    if list == [] then 0
    else
      var id := LocalOf(c.slug, list[|list| - 1]);
      Needed(c, list[..|list| - 1]) + if id !in c.refs && id !in c.registry then 1 else 0
  }

  function PerDeviceLimit(c: Client): nat {
    if c.maxEntities < MAX_ENTITIES_PER_DEVICE then c.maxEntities else MAX_ENTITIES_PER_DEVICE
  }

  predicate WithinCaps(c: Client, list: seq<Meta>) {
    && |list| <= PerDeviceLimit(c)
    && |c.registry| + Needed(c, list) <= c.maxEntities
  }

  /** The import is refused for its size. */
  predicate Rejected(c: Client, list: seq<Meta>, added: bool) {
    (c.deviceKnown || added) && list != [] && !WithinCaps(c, list)
  }

  /** Entities of an earlier connection that are not in the list any more. */
  function Disappeared(c: Client, list: seq<Meta>): set<EntityId> {
    c.refs - LocalIds(c.slug, list)
  }

  /** `finalize_entities`; `added` is whether the device manager could register the device. */
  function Finalize(c: Client, list: seq<Meta>, added: bool): Client {
    if !c.deviceKnown && !added then c
    else
      var known := c.(deviceKnown := true);
      if list == [] then known
      else if !WithinCaps(c, list) then Lose(known)
      else
        var gone := Disappeared(c, list);
        ImportAll(known, list).(firmware := c.firmware - gone, mail := Post(c.mail, gone, Unavailable))
  }

  function Ingest(c: Client, key: u32, s: Option<State>): Client {
    if s.None? || key !in c.keyToEntity || c.keyToEntity[key] !in c.refs then c
    else
      var id := c.keyToEntity[key];
      c.(firmware := c.firmware[id := s.value], mail := Post(c.mail, {id}, s.value))
  }

  function PostStop(c: Client): Client {
    MarkUnavailable(c).(fsm := Stopped, stopped := true)
  }

  /** The state after a message, and the frames written to the connection. */
  datatype Outcome = Outcome(client: Client, written: seq<Frame>)

  function OnHandshake(c: Client, phase: Phase, f: Frame, added: bool, now: nat): Outcome {
    match phase
    case AwaitHello =>
      if f == HelloResponse
      then Outcome(c.(fsm := Handshake(AwaitDeviceInfo)), [DeviceInfoRequest])
      else Outcome(c, [])
    case AwaitDeviceInfo =>
      if !f.DeviceInfoResponse? then Outcome(c, [])
      else if f.info.Undecodable? then Outcome(ScheduleReconnect(c), [])
      else if f.info.usesPassword then Outcome(PostStop(c), [])
      else Outcome(c.(fsm := Handshake(Collecting([]))), [ListEntitiesRequest])
    case Collecting(entities) =>
      if f == ListEntitiesDone then
        // the outcome of the import is not looked at: the session goes on to Active
        Outcome(Finalize(c, entities, added).(fsm := Active, attempts := 0, lastActivity := Some(now)),
                [SubscribeStates])
      else if f.ListEntity? && f.meta.Some? then
        Outcome(c.(fsm := Handshake(Collecting(entities + [f.meta.value]))), [])
      else Outcome(c, [])
  }

  function OnInbound(c: Client, f: Frame, added: bool, now: nat): Outcome {
    var heard := c.(lastActivity := Some(now));
    match c.fsm
    case Handshake(phase) => OnHandshake(heard, phase, f, added, now)
    case Active =>
      if f.StateFrame? then Outcome(Ingest(heard, f.key, f.state), [])
      else if f == PingRequest then Outcome(heard, [PingResponse])
      else Outcome(heard, [])
    case _ => Outcome(heard, [])
  }

  function OnConnect(c: Client, connected: bool): Outcome
    requires c.pending > 0
  {
    var taken := c.(pending := c.pending - 1);
    if connected
    then Outcome(taken.(fsm := Handshake(AwaitHello), readers := c.readers + 1), [HelloRequest])
    else Outcome(ScheduleReconnect(taken), [])
  }

  function OnReaderEnd(c: Client): Outcome
    requires c.readers > 0
  {
    Outcome(Lose(c.(readers := c.readers - 1)), [])
  }

  predicate TimedOut(c: Client, now: nat) {
    c.fsm == Active && c.lastActivity.Some? && now >= c.lastActivity.value + INACTIVITY_TIMEOUT
  }

  function OnPingTick(c: Client, now: nat): Outcome {
    if c.fsm != Active then Outcome(c, [])
    else if TimedOut(c, now) then Outcome(Lose(c), [])
    else Outcome(c, [PingRequest])
  }

  datatype SendError = EntityNotFound | CommandNotSupported | SessionNotActive | NoError

  /** `send_command_to_firmware`: the frame to write, or why there is none. */
  function CommandFor(c: Client, id: EntityId, s: State): (SendError, seq<Frame>) {
    if id !in c.entityToKey then (EntityNotFound, [])
    else if s.Unavailable? || !Commandable(s.kind) then (CommandNotSupported, [])
    else if c.fsm != Active then (SessionNotActive, [])
    else (NoError, [Command(c.entityToKey[id], s)])
  }

  // ---------------------------------------------------------------- runs

  datatype Event =
    | Connect(connected: bool)
    | Inbound(frame: Frame, added: bool, now: nat)
    | ReaderEnd(malformed: bool)
    | PingTick(at: nat)
    | SendCommand(id: EntityId, state: State)
    | Stop

  /** Frames and ends come from reader tasks; a stopped actor handles nothing. */
  predicate Enabled(c: Client, e: Event) {
    && !c.stopped
    && match e
       case Connect(_) => c.pending > 0
       case Inbound(_, _, _) => c.readers > 0
       case ReaderEnd(_) => c.readers > 0
       case _ => true
  }

  function Handle(c: Client, e: Event): Outcome
    requires Enabled(c, e)
  {
    match e
    case Connect(connected) => OnConnect(c, connected)
    case Inbound(f, added, now) => OnInbound(c, f, added, now)
    case ReaderEnd(_) => OnReaderEnd(c)
    case PingTick(now) => OnPingTick(c, now)
    case SendCommand(id, s) => Outcome(c, CommandFor(c, id, s).1)
    case Stop => Outcome(PostStop(MarkUnavailable(c)), [])
  }

  ghost predicate IsRun(start: Client, events: seq<Event>, end: Client)
    decreases |events|
  {
    if events == [] then start == end
    else Enabled(start, events[0]) && IsRun(Handle(start, events[0]).client, events[1..], end)
  }

  function Fresh(slug: string, maxEntities: nat, registry: set<EntityId>): Client {
    Client(slug, maxEntities, Idle, false, map[], map[], {}, registry, map[], map[], 0, None, 1, 0, false)
  }

  // ---------------------------------------------------------------- reconnecting

  function Tokens(c: Client): nat {
    c.pending + c.readers
  }

  predicate Connected(c: Client) {
    c.fsm.Handshake? || c.fsm == Active
  }

  /** The three places that ask for a reconnect without giving up the reader they have. */
  predicate Leaks(c: Client, e: Event) {
    match e
    case Inbound(f, added, _) =>
      (match c.fsm
       case Handshake(phase) => HandshakeLeak(c, phase, f, added)
       case _ => false)
    case PingTick(now) => TimedOut(c, now)
    case _ => false
  }

  function LeakCount(start: Client, events: seq<Event>): nat
    decreases |events|
  {
    if events == [] || !Enabled(start, events[0]) then 0
    else (if Leaks(start, events[0]) then 1 else 0) + LeakCount(Handle(start, events[0]).client, events[1..])
  }

  lemma {:induction false} ImportAllFrame(c: Client, list: seq<Meta>)
    ensures var d := ImportAll(c, list);
      d == c.(keyToEntity := d.keyToEntity, entityToKey := d.entityToKey, refs := d.refs, registry := d.registry)
  {
    if list != [] {
      ImportAllFrame(c, list[..|list| - 1]);
    }
  }

  lemma FinalizeFrame(c: Client, list: seq<Meta>, added: bool)
    ensures var d := Finalize(c, list, added);
      && d.pending == c.pending + (if Rejected(c, list, added) then 1 else 0)
      && d.readers == c.readers && d.stopped == c.stopped
      && (d.fsm == if Rejected(c, list, added) then Reconnecting else c.fsm)
      && d.slug == c.slug && d.maxEntities == c.maxEntities
  {
    hide WithinCaps, Post, Disappeared, Import;
    ImportAllFrame(c.(deviceKnown := true), list);
  }

  /** A handshake frame asks for a reconnect in two cases only, and never ends the reader. */
  predicate HandshakeLeak(c: Client, phase: Phase, f: Frame, added: bool) {
    match phase
    case AwaitHello => false
    case AwaitDeviceInfo => f == DeviceInfoResponse(Undecodable)
    case Collecting(list) => f == ListEntitiesDone && Rejected(c, list, added)
  }

  lemma HandshakeCounts(c: Client, phase: Phase, f: Frame, added: bool, now: nat)
    requires c.fsm == Handshake(phase)
    ensures var d := OnHandshake(c, phase, f, added, now).client;
      && d.readers == c.readers
      && d.pending == c.pending + (if HandshakeLeak(c, phase, f, added) then 1 else 0)
      && (d.stopped || d.stopped == c.stopped)
      && (d.stopped || Connected(d) || (d.fsm == Reconnecting && HandshakeLeak(c, phase, f, added)))
  {
    hide Finalize, Rejected, MarkUnavailable, PostStop;
    match phase
    case AwaitHello =>
    case AwaitDeviceInfo => PostStopCounts(c);
    case Collecting(list) => FinalizeFrame(c, list, added);
  }

  lemma PostStopCounts(c: Client)
    ensures var d := PostStop(c); d.pending == c.pending && d.readers == c.readers && d.stopped
    ensures var d := MarkUnavailable(c); d == c.(firmware := d.firmware, mail := d.mail)
  {
  }

  lemma InboundCounts(c: Client, f: Frame, added: bool, now: nat)
    ensures var d := OnInbound(c, f, added, now).client;
      var leak := Leaks(c, Inbound(f, added, now));
      && d.readers == c.readers
      && d.pending == c.pending + (if leak then 1 else 0)
      && (d.stopped || d.stopped == c.stopped)
      && (d.stopped || (Connected(d) == Connected(c)) || (d.fsm == Reconnecting && leak))
  {
    hide OnHandshake, Rejected, Ingest;
    var heard := c.(lastActivity := Some(now));
    match c.fsm
    case Handshake(phase) =>
      HandshakeCounts(heard, phase, f, added, now);
      if phase.Collecting? {
        RejectedFrame(heard, c, phase.entities, added);
      }
    case Active =>
      if f.StateFrame? {
        IngestFrame(heard, f.key, f.state);
      }
    case _ =>
  }

  lemma StepTokens(c: Client, e: Event)
    requires Enabled(c, e)
    ensures Tokens(Handle(c, e).client) == Tokens(c) + if Leaks(c, e) then 1 else 0
  {
    hide OnInbound, MarkUnavailable, CommandFor, OnHandshake, Ingest, Rejected;
    match e
    case Inbound(f, added, now) => InboundCounts(c, f, added, now);
    case ReaderEnd(_) => PostStopCounts(c.(readers := c.readers - 1));
    case Stop =>
      PostStopCounts(c);
      PostStopCounts(MarkUnavailable(c));
    case _ => PostStopCounts(c);
  }

  lemma IngestFrame(c: Client, key: u32, s: Option<State>)
    ensures var d := Ingest(c, key, s);
      d == c.(firmware := d.firmware, mail := d.mail)
  {
  }

  lemma RejectedFrame(c: Client, d: Client, list: seq<Meta>, added: bool)
    requires c == d.(lastActivity := c.lastActivity)
    ensures Rejected(c, list, added) == Rejected(d, list, added)
    ensures WithinCaps(c, list) == WithinCaps(d, list)
  {
    NeededFrame(c, d, list);
  }

  lemma {:induction false} NeededFrame(c: Client, d: Client, list: seq<Meta>)
    requires c.refs == d.refs && c.registry == d.registry && c.slug == d.slug
    ensures Needed(c, list) == Needed(d, list)
  {
    if list != [] {
      NeededFrame(c, d, list[..|list| - 1]);
    }
  }

  /** Over every run of a session: the reconnects on their way and the live readers add up
      to one plus the number of times a reconnect was asked for while keeping the reader. */
  lemma {:induction false} TokensAreConserved(start: Client, events: seq<Event>, end: Client)
    requires IsRun(start, events, end)
    ensures Tokens(end) == Tokens(start) + LeakCount(start, events)
    decreases |events|
  {
    if events != [] {
      StepTokens(start, events[0]);
      TokensAreConserved(Handle(start, events[0]).client, events[1..], end);
    }
  }

  /** A connected session has a reader, a waiting one has a reconnect on its way. */
  predicate Alive(c: Client) {
    c.stopped || (Tokens(c) >= 1 && (Connected(c) ==> c.readers >= 1) && (!Connected(c) ==> c.pending >= 1))
  }

  lemma StepAlive(c: Client, e: Event)
    requires Alive(c) && Enabled(c, e)
    ensures Alive(Handle(c, e).client)
  {
    hide OnInbound, MarkUnavailable, CommandFor, OnHandshake, Ingest, Rejected;
    match e
    case Inbound(f, added, now) => InboundCounts(c, f, added, now);
    case ReaderEnd(_) => PostStopCounts(c.(readers := c.readers - 1));
    case Stop =>
      PostStopCounts(c);
      PostStopCounts(MarkUnavailable(c));
    case _ => PostStopCounts(c);
  }

  lemma {:induction false} RunAlive(start: Client, events: seq<Event>, end: Client)
    requires Alive(start) && IsRun(start, events, end)
    ensures Alive(end)
    decreases |events|
  {
    if events != [] {
      StepAlive(start, events[0]);
      RunAlive(Handle(start, events[0]).client, events[1..], end);
    }
  }

  /** On a run without leaks there is exactly one token in every state that is not
      stopped, and it is the reader exactly when the session is connected. */
  lemma ExactlyOneToken(slug: string, max: nat, registry: set<EntityId>, events: seq<Event>, end: Client)
    requires IsRun(Fresh(slug, max, registry), events, end) && !end.stopped
    ensures LeakCount(Fresh(slug, max, registry), events) == 0 <==> end.pending + end.readers == 1
    ensures LeakCount(Fresh(slug, max, registry), events) == 0 ==>
      (Connected(end) <==> end.readers == 1) && (!Connected(end) <==> end.pending == 1)
  {
    TokensAreConserved(Fresh(slug, max, registry), events, end);
    RunAlive(Fresh(slug, max, registry), events, end);
  }

  /** A reader's end carries no mark of the connection it belonged to. After a device info
      that does not decode and a reconnect, the new connection is up and the reader of the
      old one is still there; when that one ends, the new connection is torn down, and its
      reader is left behind. */
  lemma StaleReaderTearsDown(c: Client) returns (events: seq<Event>, up: Client, end: Client)
    requires !c.stopped && c.readers > 0 && c.fsm == Handshake(AwaitDeviceInfo)
    ensures IsRun(c, events, up) && up.fsm == Handshake(AwaitHello) && up.readers == c.readers + 1
    ensures forall malformed :: Enabled(up, ReaderEnd(malformed)) && Handle(up, ReaderEnd(malformed)).client == end
    ensures end.fsm == Reconnecting && end.readers == c.readers
  {
    var bad, again := Inbound(DeviceInfoResponse(Undecodable), true, 0), Connect(true);
    var waiting := ScheduleReconnect(c.(lastActivity := Some(0)));
    up := OnConnect(waiting, true).client;
    events := [bad, again];
    assert Handle(c, bad).client == waiting;
    end := OnReaderEnd(up).client;
    hide OnInbound, ScheduleReconnect, OnReaderEnd;
    assert events[1..] == [again] && [again][1..] == [];
    assert IsRun(up, [], up);
    assert IsRun(waiting, [again], up);
  }

  /** A list over the caps makes the session Active all the same, with nothing imported
      and a reconnect on its way. */
  lemma RejectedStillActive(c: Client, list: seq<Meta>, added: bool, now: nat)
    requires c.fsm == Handshake(Collecting(list)) && (c.deviceKnown || added) && list != []
    ensures var d := OnInbound(c, ListEntitiesDone, added, now).client;
      && d.fsm == Active
      && (d.pending == c.pending + 1 <==> !WithinCaps(c, list))
      && (!WithinCaps(c, list) ==>
            d.keyToEntity == c.keyToEntity && d.entityToKey == c.entityToKey
            && d.refs == c.refs && d.registry == c.registry)
  {
    hide WithinCaps, Post, Disappeared, Import;
    var heard := c.(lastActivity := Some(now));
    FinalizeFrame(heard, list, added);
    RejectedFrame(heard, c, list, added);
  }

  lemma BackoffGrowsToThirty(a: nat, b: nat)
    requires a <= b
    ensures 1 <= BackoffDelay(a) <= BackoffDelay(b) <= 30
    ensures BackoffDelay(a) == 30 <==> a >= 5
  {
  }

  // ---------------------------------------------------------------- what entities hear

  /** The last thing sent to an entity: what the firmware last said of it as far as the
      session knows, and else that it is unavailable, or nothing yet. */
  predicate Hears(c: Client, id: EntityId) {
    var mail := MailOf(c.mail, id);
    if id in c.firmware
    then id in c.refs && mail != [] && mail[|mail| - 1] == c.firmware[id]
    else mail == [] || mail[|mail| - 1] == Unavailable
  }

  ghost predicate AllHear(c: Client) {
    forall id :: Hears(c, id)
  }

  lemma WithdrawnHear(c: Client, ids: set<EntityId>)
    requires AllHear(c)
    ensures AllHear(c.(firmware := c.firmware - ids, mail := Post(c.mail, ids, Unavailable)))
  {
    var d := c.(firmware := c.firmware - ids, mail := Post(c.mail, ids, Unavailable));
    forall id ensures Hears(d, id) {
      assert Hears(c, id);
    }
  }

  /** Only the recorded values, the mail and the session's entities matter. */
  lemma SameHear(c: Client, d: Client)
    requires AllHear(c) && d.firmware == c.firmware && d.mail == c.mail && c.refs <= d.refs
    ensures AllHear(d)
  {
    forall id ensures Hears(d, id) {
      assert Hears(c, id);
    }
  }

  lemma IngestHears(c: Client, key: u32, s: Option<State>)
    requires AllHear(c)
    ensures AllHear(Ingest(c, key, s))
  {
    var d := Ingest(c, key, s);
    forall id ensures Hears(d, id) {
      assert Hears(c, id);
    }
  }

  lemma FinalizeHears(c: Client, list: seq<Meta>, added: bool)
    requires AllHear(c)
    ensures AllHear(Finalize(c, list, added))
  {
    hide AllHear, Post, WithinCaps, Needed, LocalIds;
    var known := c.(deviceKnown := true);
    SameHear(c, known);
    if (c.deviceKnown || added) && list != [] {
      if WithinCaps(c, list) {
        var gone := Disappeared(c, list);
        WithdrawnHear(known, gone);
        ImportAllFrame(known, list);
        ImportedRefs(known, list);
        SameHear(known.(firmware := c.firmware - gone, mail := Post(c.mail, gone, Unavailable)), Finalize(c, list, added));
      } else {
        LoseHears(known);
      }
    }
  }

  lemma LoseHears(c: Client)
    requires AllHear(c)
    ensures AllHear(MarkUnavailable(c)) && AllHear(Lose(c)) && AllHear(PostStop(c)) && AllHear(ScheduleReconnect(c))
  {
    hide AllHear, Post;
    WithdrawnHear(c, c.refs);
    SameHear(MarkUnavailable(c), Lose(c));
    SameHear(MarkUnavailable(c), PostStop(c));
    SameHear(c, ScheduleReconnect(c));
  }

  lemma HandshakeHears(c: Client, phase: Phase, f: Frame, added: bool, now: nat)
    requires AllHear(c)
    ensures AllHear(OnHandshake(c, phase, f, added, now).client)
  {
    hide AllHear, Finalize, PostStop, ScheduleReconnect;
    LoseHears(c);
    match phase
    case Collecting(list) =>
      FinalizeHears(c, list, added);
      var d := Finalize(c, list, added);
      SameHear(d, d.(fsm := Active, attempts := 0, lastActivity := Some(now)));
      SameHear(c, OnHandshake(c, phase, ListEntity(None), added, now).client);
      if f.ListEntity? && f.meta.Some? {
        SameHear(c, c.(fsm := Handshake(Collecting(list + [f.meta.value]))));
      }
    case _ =>
      SameHear(c, c.(fsm := Handshake(AwaitDeviceInfo)));
      SameHear(c, c.(fsm := Handshake(Collecting([]))));
  }

  lemma StepHears(c: Client, e: Event)
    requires AllHear(c) && Enabled(c, e)
    ensures AllHear(Handle(c, e).client)
  {
    hide AllHear, OnHandshake, Ingest, MarkUnavailable, ScheduleReconnect, CommandFor, Lose, PostStop;
    LoseHears(c);
    match e
    case Connect(connected) =>
      var taken := c.(pending := c.pending - 1);
      SameHear(c, taken);
      LoseHears(taken);
      SameHear(c, taken.(fsm := Handshake(AwaitHello), readers := c.readers + 1));
    case Inbound(f, added, now) =>
      var heard := c.(lastActivity := Some(now));
      SameHear(c, heard);
      if c.fsm.Handshake? {
        HandshakeHears(heard, c.fsm.phase, f, added, now);
      } else if c.fsm.Active? && f.StateFrame? {
        IngestHears(heard, f.key, f.state);
      }
    case ReaderEnd(_) =>
      SameHear(c, c.(readers := c.readers - 1));
      LoseHears(c.(readers := c.readers - 1));
    case Stop => LoseHears(MarkUnavailable(c));
    case _ =>
  }

  /** Over every run, whatever is lost or refused on the way: the last thing any entity was
      sent is the firmware's last word on it, and where there is none, that it is
      unavailable. */
  lemma {:induction false} EntitiesHearTheLastWord(start: Client, events: seq<Event>, end: Client)
    requires AllHear(start) && IsRun(start, events, end)
    ensures AllHear(end)
    decreases |events|
  {
    hide AllHear, Handle;
    if events != [] {
      StepHears(start, events[0]);
      EntitiesHearTheLastWord(Handle(start, events[0]).client, events[1..], end);
    }
  }

  /** Nothing is on record from the firmware unless the session is active. */
  predicate SilentWhenDown(c: Client) {
    c.fsm != Active ==> c.firmware == map[]
  }

  lemma WithdrawsAll(c: Client)
    requires AllHear(c)
    ensures MarkUnavailable(c).firmware == map[]
  {
    forall id | id in c.firmware ensures id in c.refs {
      assert Hears(c, id);
    }
  }

  /** The only message that can change that is a Connect that finds a value on record: it
      gives up the connection that is up without withdrawing anything. */
  lemma StepSilentIff(c: Client, e: Event)
    requires AllHear(c) && SilentWhenDown(c) && Enabled(c, e)
    ensures SilentWhenDown(Handle(c, e).client) <==> !(e.Connect? && c.firmware != map[])
  {
    hide AllHear, Ingest, CommandFor, Finalize, Post;
    match e
    case Inbound(f, added, now) =>
      var heard := c.(lastActivity := Some(now));
      match c.fsm {
      case Handshake(phase) => HandshakeSilent(heard, phase, f, added, now);
      case Active => IngestFrame(heard, if f.StateFrame? then f.key else 0, if f.StateFrame? then f.state else None);
      case _ =>
      }
    case ReaderEnd(_) =>
      var left := c.(readers := c.readers - 1);
      SameHear(c, left);
      WithdrawsAll(left);
    case PingTick(_) =>
      WithdrawsAll(c);
    case Stop =>
      WithdrawsAll(c);
    case _ =>
  }

  /** That can happen: the list of a known device is refused, the session is Active all the
      same and takes a push, and the reconnect it asked for arrives. */
  lemma ValuesSurviveReconnect(c: Client, list: seq<Meta>, k: u32, s: State) returns (events: seq<Event>, end: Client)
    requires !c.stopped && c.readers > 0 && c.fsm == Handshake(Collecting(list)) && Rejected(c, list, true)
    requires k in c.keyToEntity && c.keyToEntity[k] in c.refs
    ensures IsRun(c, events, end) && end.fsm == Handshake(AwaitHello)
    ensures c.keyToEntity[k] in end.firmware && end.firmware[c.keyToEntity[k]] == s
  {
    events := [Inbound(ListEntitiesDone, true, 0), Inbound(StateFrame(k, Some(s)), true, 0), Connect(true)];
    var active := Handle(c, events[0]).client;
    RefusedStaysKnown(c, list);
    var pushed := Handle(active, events[1]).client;
    assert pushed.fsm == Active && pushed.pending > 0 && !pushed.stopped && pushed.firmware[c.keyToEntity[k]] == s by {
      hide OnHandshake, Rejected;
    }
    end := Handle(pushed, events[2]).client;
    assert events[1..] == [events[1], events[2]] && events[1..][1..] == [events[2]] && [events[2]][1..] == [];
    assert IsRun(end, [], end);
    hide Handle;
    assert IsRun(pushed, [events[2]], end);
    assert IsRun(active, events[1..], end);
  }

  lemma RefusedStaysKnown(c: Client, list: seq<Meta>)
    requires !c.stopped && c.fsm == Handshake(Collecting(list)) && Rejected(c, list, true)
    ensures var d := OnInbound(c, ListEntitiesDone, true, 0).client;
      && d.fsm == Active && d.pending > 0 && !d.stopped && d.readers == c.readers
      && d.keyToEntity == c.keyToEntity && d.refs == c.refs
  {
    hide WithinCaps, Post;
    RejectedFrame(c.(lastActivity := Some(0)), c, list, true);
  }

  lemma HandshakeSilent(c: Client, phase: Phase, f: Frame, added: bool, now: nat)
    requires c.firmware == map[]
    ensures SilentWhenDown(OnHandshake(c, phase, f, added, now).client)
  {
    hide Finalize;
    if phase.AwaitDeviceInfo? {
      assert c.firmware - c.refs == map[];
    }
  }

  /** On every run without leaks the firmware's values are forgotten, and so every entity
      was last told that it is unavailable, whenever the session is not active. */
  lemma {:induction false} SilentRun(slug: string, max: nat, registry: set<EntityId>, events: seq<Event>, end: Client)
    requires IsRun(Fresh(slug, max, registry), events, end) && LeakCount(Fresh(slug, max, registry), events) == 0
    ensures end.fsm != Active && !end.stopped ==> end.firmware == map[]
    ensures AllHear(end)
  {
    var start := Fresh(slug, max, registry);
    EntitiesHearTheLastWord(start, events, end);
    SilentFrom(start, events, end);
  }

  lemma {:induction false} SilentFrom(start: Client, events: seq<Event>, end: Client)
    requires AllHear(start) && SilentWhenDown(start) && Alive(start) && (start.stopped || Tokens(start) == 1)
    requires IsRun(start, events, end) && LeakCount(start, events) == 0
    ensures end.stopped || SilentWhenDown(end)
    decreases |events|
  {
    hide AllHear, Handle, Leaks, Connected;
    if events != [] {
      var e := events[0];
      ConnectsWhenDown(start, e);
      StepHears(start, e);
      StepAlive(start, e);
      StepTokens(start, e);
      StepSilentIff(start, e);
      SilentFrom(Handle(start, e).client, events[1..], end);
    }
  }

  lemma ConnectsWhenDown(c: Client, e: Event)
    requires Alive(c) && Tokens(c) == 1 && Enabled(c, e)
    ensures e.Connect? ==> c.fsm != Active
  {
  }

  // ---------------------------------------------------------------- importing

  lemma {:induction false} ImportedRefs(c: Client, list: seq<Meta>)
    ensures var d := ImportAll(c, list);
      && d.refs == c.refs + LocalIds(c.slug, list)
      && d.registry == c.registry + (LocalIds(c.slug, list) - c.refs)
      && d.entityToKey.Keys == c.entityToKey.Keys + LocalIds(c.slug, list)
  {
    hide LocalOf;
    if list != [] {
      var front, last := list[..|list| - 1], list[|list| - 1];
      ImportedRefs(c, front);
      ImportAllFrame(c, front);
      LocalIdsSnoc(c.slug, list);
      hide LocalIds, ImportAll;
    }
  }

  lemma LocalIdsSnoc(slug: string, list: seq<Meta>)
    requires list != []
    ensures LocalIds(slug, list) == LocalIds(slug, list[..|list| - 1]) + {LocalOf(slug, list[|list| - 1])}
  {
    hide LocalOf;
    var front, last := list[..|list| - 1], list[|list| - 1];
    assert list == front + [last];
  }

  lemma OneMoreRegistered(c: Client, m: Meta)
    ensures var id := LocalOf(c.slug, m);
      |Import(c, m).registry| <= |c.registry| + if id !in c.refs && id !in c.registry then 1 else 0
  {
    hide LocalOf;
    var id := LocalOf(c.slug, m);
    if id in c.registry {
      assert c.registry + {id} == c.registry;
    } else {
      assert |c.registry + {id}| == |c.registry| + 1;
    }
  }

  lemma {:induction false} NeededCovers(c: Client, list: seq<Meta>)
    ensures |ImportAll(c, list).registry| <= |c.registry| + Needed(c, list)
  {
    hide LocalOf;
    if list != [] {
      var front, last := list[..|list| - 1], list[|list| - 1];
      NeededCovers(c, front);
      ImportedRefs(c, front);
      ImportAllFrame(c, front);
      OneMoreRegistered(ImportAll(c, front), last);
      hide ImportAll, LocalIds, Import;
    }
  }

  /** Importing never takes the registry past its limit, and a list that is refused
      changes no map and registers nothing. */
  lemma FinalizeKeepsLimit(c: Client, list: seq<Meta>, added: bool)
    ensures var d := Finalize(c, list, added);
      && (|d.registry| <= c.maxEntities || d.registry == c.registry)
      && (!WithinCaps(c, list) ==>
            d.registry == c.registry && d.refs == c.refs
            && d.keyToEntity == c.keyToEntity && d.entityToKey == c.entityToKey)
    ensures |list| > MAX_ENTITIES_PER_DEVICE || |list| > c.maxEntities ==> !WithinCaps(c, list)
  {
    hide LocalIds, ImportAll, Post;
    var known := c.(deviceKnown := true);
    NeededCovers(known, list);
    NeededFrame(c, known, list);
    ImportAllFrame(known, list);
  }

  predicate DistinctKeys(list: seq<Meta>) {
    forall i, j :: 0 <= i < j < |list| ==> list[i].key != list[j].key
  }

  predicate DistinctLocalIds(slug: string, list: seq<Meta>) {
    forall i, j :: 0 <= i < j < |list| ==> LocalOf(slug, list[i]) != LocalOf(slug, list[j])
  }

  /** From an entity to its key and back. */
  predicate Returns(c: Client, id: EntityId) {
    && id in c.entityToKey
    && c.entityToKey[id] in c.keyToEntity
    && c.keyToEntity[c.entityToKey[id]] == id
  }

  /** A key belongs to the entity that was listed last with it. */
  lemma {:induction false} ImportedKey(c: Client, list: seq<Meta>, i: nat)
    requires i < |list| && forall j :: i < j < |list| ==> list[j].key != list[i].key
    ensures var d := ImportAll(c, list);
      list[i].key in d.keyToEntity && d.keyToEntity[list[i].key] == LocalOf(c.slug, list[i])
  {
    hide LocalOf;
    var front := list[..|list| - 1];
    ImportAllFrame(c, front);
    if i < |list| - 1 {
      ImportedKey(c, front, i);
    }
  }

  /** An entity has the key it was listed with last. */
  lemma {:induction false} ImportedId(c: Client, list: seq<Meta>, i: nat)
    requires i < |list| && forall j :: i < j < |list| ==> LocalOf(c.slug, list[j]) != LocalOf(c.slug, list[i])
    ensures var d := ImportAll(c, list);
      LocalOf(c.slug, list[i]) in d.entityToKey && d.entityToKey[LocalOf(c.slug, list[i])] == list[i].key
  {
    hide LocalOf;
    var front := list[..|list| - 1];
    ImportAllFrame(c, front);
    if i < |list| - 1 {
      ImportedId(c, front, i);
    }
  }

  lemma {:induction false} UnmentionedKey(c: Client, list: seq<Meta>, k: u32)
    requires forall m :: m in list ==> m.key != k
    ensures var d := ImportAll(c, list);
      && (k in d.keyToEntity <==> k in c.keyToEntity)
      && (k in c.keyToEntity ==> d.keyToEntity[k] == c.keyToEntity[k])
  {
    hide LocalOf;
    if list != [] {
      assert list[|list| - 1] in list;
      UnmentionedKey(c, list[..|list| - 1], k);
    }
  }

  lemma {:induction false} UnmentionedId(c: Client, list: seq<Meta>, id: EntityId)
    requires id !in LocalIds(c.slug, list)
    ensures var d := ImportAll(c, list);
      && (id in d.entityToKey <==> id in c.entityToKey)
      && (id in c.entityToKey ==> d.entityToKey[id] == c.entityToKey[id])
  {
    hide LocalOf;
    if list != [] {
      LocalIdsSnoc(c.slug, list);
      ImportAllFrame(c, list[..|list| - 1]);
      UnmentionedId(c, list[..|list| - 1], id);
    }
  }

  /** The last mention of an id in a list. */
  lemma {:induction false} LastMention(slug: string, list: seq<Meta>, id: EntityId) returns (i: nat)
    requires id in LocalIds(slug, list)
    ensures i < |list| && LocalOf(slug, list[i]) == id
    ensures forall j :: i < j < |list| ==> LocalOf(slug, list[j]) != id
  {
    var last := |list| - 1;
    if LocalOf(slug, list[last]) == id {
      i := last;
    } else {
      var front := list[..last];
      assert list == front + [list[last]];
      i := LastMention(slug, front, id);
      assert forall j :: 0 <= j < |front| ==> front[j] == list[j];
    }
  }

  /** After an accepted list whose keys are distinct, every listed entity is found again
      through its key, even if its key, or the owner of its key, was another before. */
  lemma ImportedReturn(c: Client, list: seq<Meta>, id: EntityId)
    requires DistinctKeys(list) && id in LocalIds(c.slug, list)
    ensures Returns(ImportAll(c, list), id)
  {
    var i := LastMention(c.slug, list, id);
    ImportedId(c, list, i);
    ImportedKey(c, list, i);
  }

  /** For a list of different entities that is the exact condition: all of them are found
      again if and only if no two share a key. */
  lemma ReturnIffDistinctKeys(c: Client, list: seq<Meta>)
    requires DistinctLocalIds(c.slug, list)
    ensures DistinctKeys(list) <==> forall id :: id in LocalIds(c.slug, list) ==> Returns(ImportAll(c, list), id)
  {
    if DistinctKeys(list) {
      forall id | id in LocalIds(c.slug, list) ensures Returns(ImportAll(c, list), id) {
        ImportedReturn(c, list, id);
      }
    } else {
      var i, j := LastPair(list);
      ImportedId(c, list, i);
      ImportedKey(c, list, j);
      assert list[i] in list;
      assert LocalOf(c.slug, list[i]) in LocalIds(c.slug, list);
      assert !Returns(ImportAll(c, list), LocalOf(c.slug, list[i]));
    }
  }

  /** Two mentions of one key, the later one its last. */
  lemma {:induction false} LastPair(list: seq<Meta>) returns (i: nat, j: nat)
    requires !DistinctKeys(list)
    ensures i < j < |list| && list[i].key == list[j].key
    ensures forall k :: j < k < |list| ==> list[k].key != list[j].key
  {
    var a, b :| 0 <= a < b < |list| && list[a].key == list[b].key;
    i := a;
    j := LastKey(list, list[b].key, b);
  }

  /** An entity that is listed no more keeps its old key. It is still found through it
      exactly when no listed entity has taken the key over; otherwise a command for the
      vanished entity goes out under a key that now belongs to another. */
  lemma VanishedReturnsIffKeyUnused(c: Client, list: seq<Meta>, id: EntityId)
    requires Returns(c, id) && id !in LocalIds(c.slug, list)
    ensures var d := ImportAll(c, list);
      && id in d.entityToKey && d.entityToKey[id] == c.entityToKey[id]
      && (Returns(d, id) <==> forall m :: m in list ==> m.key != c.entityToKey[id])
  {
    hide LocalOf;
    UnmentionedId(c, list, id);
    var k := c.entityToKey[id];
    if m :| m in list && m.key == k {
      var a :| 0 <= a < |list| && list[a] == m;
      var i := LastKey(list, k, a);
      ImportedKey(c, list, i);
      assert list[i] in list;
      assert LocalOf(c.slug, list[i]) in LocalIds(c.slug, list);
    } else {
      UnmentionedKey(c, list, k);
    }
  }

  lemma {:induction false} LastKey(list: seq<Meta>, k: u32, a: nat) returns (i: nat)
    requires a < |list| && list[a].key == k
    ensures a <= i < |list| && list[i].key == k && forall j :: i < j < |list| ==> list[j].key != k
    decreases |list| - a
  {
    if j :| a < j < |list| && list[j].key == k {
      i := LastKey(list, k, j);
    } else {
      i := a;
    }
  }

  // ---------------------------------------------------------------- the code

  class DeviceSession {
    const slug: string
    const maxEntities: nat
    var fsm: Fsm
    var deviceKnown: bool
    var keyToEntity: map<u32, EntityId>
    var entityToKey: map<EntityId, u32>
    var refs: set<EntityId>
    var registry: set<EntityId>
    var firmware: map<EntityId, State>
    var mail: map<EntityId, seq<State>>
    var attempts: nat
    var lastActivity: Option<nat>
    var pending: nat
    var readers: nat
    var stopped: bool
    var written: seq<Frame>

    function View(): Client
      reads this
    {
      Client(slug, maxEntities, fsm, deviceKnown, keyToEntity, entityToKey, refs, registry, firmware, mail,
             attempts, lastActivity, pending, readers, stopped)
    }

    constructor (slug: string, maxEntities: nat, registry: set<EntityId>)
      ensures View() == Fresh(slug, maxEntities, registry) && written == []
    {
      this.slug, this.maxEntities, this.registry := slug, maxEntities, registry;
      fsm, deviceKnown, stopped := Idle, false, false;
      keyToEntity, entityToKey, refs, firmware, mail := map[], map[], {}, map[], map[];
      attempts, lastActivity, pending, readers, written := 0, None, 1, 0, [];
    }

    /** Tells a set of entities, in whatever order the map yields them, that they are
        unavailable, and forgets what the firmware last said of them. */
    method Withdraw(ids: set<EntityId>)
      modifies this`firmware, this`mail
      ensures firmware == old(firmware) - ids && mail == Post(old(mail), ids, Unavailable)
    {
      var todo := ids;
      assert mail == Post(mail, ids - todo, Unavailable);
      while todo != {}
        invariant todo <= ids
        invariant firmware == old(firmware) - (ids - todo)
        invariant mail == Post(old(mail), ids - todo, Unavailable)
      {
        var id :| id in todo;
        firmware := firmware - {id};
        mail := mail[id := MailOf(mail, id) + [Unavailable]];
        todo := todo - {id};
      }
    }

    method MarkEntitiesUnavailable()
      modifies this`firmware, this`mail
      ensures View() == MarkUnavailable(old(View()))
    {
      Withdraw(refs);
    }

    method StartReconnectTimer()
      modifies this`fsm, this`attempts, this`pending
      ensures View() == ScheduleReconnect(old(View()))
    {
      attempts := attempts + 1;
      fsm := Reconnecting;
      pending := pending + 1;
    }

    method LoseConnection()
      modifies this
      ensures View() == Lose(old(View())) && written == old(written)
    {
      MarkEntitiesUnavailable();
      StartReconnectTimer();
    }

    method Terminate()
      modifies this
      ensures View() == PostStop(old(View())) && written == old(written)
    {
      MarkEntitiesUnavailable();
      fsm, stopped := Stopped, true;
    }

    method CountNeeded(list: seq<Meta>) returns (needed: nat)
      ensures needed == Needed(View(), list)
    {
      needed := 0;
      for i := 0 to |list|
        invariant needed == Needed(View(), list[..i])
      {
        assert list[..i + 1][..i] == list[..i];
        var id := LocalOf(slug, list[i]);
        if id !in refs && id !in registry {
          needed := needed + 1;
        }
      }
      assert list[..|list|] == list;
    }

    method ImportList(list: seq<Meta>) returns (listed: set<EntityId>)
      modifies this`keyToEntity, this`entityToKey, this`refs, this`registry
      ensures View() == ImportAll(old(View()), list)
      ensures listed == LocalIds(slug, list)
    {
      hide LocalOf, LocalIds;
      listed := {};
      EmptyLocalIds(slug);
      for i := 0 to |list|
        invariant View() == ImportAll(old(View()), list[..i])
        invariant listed == LocalIds(slug, list[..i])
      {
        assert list[..i + 1][..i] == list[..i];
        LocalIdsSnoc(slug, list[..i + 1]);
        var m := list[i];
        var id := LocalOf(slug, m);
        listed := listed + {id};
        keyToEntity := keyToEntity[m.key := id];
        entityToKey := entityToKey[id := m.key];
        if id !in refs {
          if id !in registry {
            registry := registry + {id};
          }
          refs := refs + {id};
        }
        ImportIsAsCoded(ImportAll(old(View()), list[..i]), m);
      }
      assert list[..|list|] == list;
    }

    /** The two caps: the per-device one, and the registry's with what is needed. */
    method CheckCaps(list: seq<Meta>) returns (ok: bool)
      ensures ok == WithinCaps(View(), list)
    {
      hide Needed;
      var limit := if maxEntities < MAX_ENTITIES_PER_DEVICE then maxEntities else MAX_ENTITIES_PER_DEVICE;
      if |list| > limit {
        return false;
      }
      var needed := CountNeeded(list);
      return |registry| + needed <= maxEntities;
    }

    method FinalizeEntities(list: seq<Meta>, added: bool)
      modifies this
      ensures View() == Finalize(old(View()), list, added) && written == old(written)
    {
      hide LocalIds, ImportAll, WithinCaps, Post, LocalOf, Lose;
      if !deviceKnown {
        if !added {
          return;
        }
        deviceKnown := true;
      }
      if |list| == 0 {
        return;
      }
      KnownSameCaps(old(View()), list);
      var ok := CheckCaps(list);
      if !ok {
        LoseConnection();
        return;
      }
      ghost var before := View();
      ImportAllFrame(before, list);
      ImportedRefs(before, list);
      var listed := ImportList(list);
      assert refs - listed == before.refs - listed;
      Withdraw(refs - listed);
    }

    method IngestState(key: u32, s: Option<State>)
      modifies this`firmware, this`mail
      ensures View() == Ingest(old(View()), key, s)
    {
      if s.None? || key !in keyToEntity {
        return;
      }
      var id := keyToEntity[key];
      if id !in refs {
        return;
      }
      firmware := firmware[id := s.value];
      mail := mail[id := MailOf(mail, id) + [s.value]];
      assert mail == Post(old(mail), {id}, s.value);
    }

    /** The frame writer and the phase have been taken out of the session, so whatever the
        import does to `fsm` in the meantime is overwritten by the caller. */
    method HandleHandshake(phase: Phase, f: Frame, added: bool, now: nat) returns (next: Fsm)
      modifies this
      ensures var o := OnHandshake(old(View()).(fsm := Handshake(phase)), phase, f, added, now);
        View().(fsm := next) == o.client && written == old(written) + o.written
    {
      hide Finalize, Post;
      match phase {
      case AwaitHello =>
        if f == HelloResponse {
          written := written + [DeviceInfoRequest];
          return Handshake(AwaitDeviceInfo);
        }
      case AwaitDeviceInfo =>
        if f.DeviceInfoResponse? {
          if f.info.Undecodable? {
            StartReconnectTimer();
            return Reconnecting;
          }
          if f.info.usesPassword {
            Terminate();
            return Stopped;
          }
          written := written + [ListEntitiesRequest];
          return Handshake(Collecting([]));
        }
      case Collecting(entities) =>
        if f == ListEntitiesDone {
          ghost var before := View();
          FinalizeEntities(entities, added);
          FinalizeIgnoresFsm(before, before.(fsm := Handshake(phase)), entities, added);
          written := written + [SubscribeStates];
          attempts, lastActivity := 0, Some(now);
          return Active;
        } else if f.ListEntity? && f.meta.Some? {
          return Handshake(Collecting(entities + [f.meta.value]));
        }
      }
      return Handshake(phase);
    }

    method HandleInbound(f: Frame, added: bool, now: nat)
      modifies this
      ensures var o := OnInbound(old(View()), f, added, now);
        View() == o.client && written == old(written) + o.written
    {
      hide OnHandshake, Ingest;
      lastActivity := Some(now);
      var taken := fsm;
      fsm := Stopped;
      match taken
      case Handshake(phase) =>
        var next := HandleHandshake(phase, f, added, now);
        fsm := next;
      case Active =>
        fsm := Active;
        if f.StateFrame? {
          IngestState(f.key, f.state);
        } else if f == PingRequest {
          written := written + [PingResponse];
        }
      case _ =>
        fsm := taken;
    }

    /** One message of the session actor. */
    method HandleMessage(e: Event)
      requires Enabled(View(), e)
      modifies this
      ensures var o := Handle(old(View()), e);
        View() == o.client && written == old(written) + o.written
    {
      hide OnInbound, MarkUnavailable, PostStop;
      match e
      case Connect(connected) =>
        pending := pending - 1;
        if connected {
          readers := readers + 1;
          written := written + [HelloRequest];
          fsm := Handshake(AwaitHello);
        } else {
          StartReconnectTimer();
        }
      case Inbound(f, added, now) =>
        HandleInbound(f, added, now);
      case ReaderEnd(_) =>
        readers := readers - 1;
        LoseConnection();
      case PingTick(now) =>
        if fsm == Active {
          if lastActivity.Some? && now >= lastActivity.value + INACTIVITY_TIMEOUT {
            LoseConnection();
          } else {
            written := written + [PingRequest];
          }
        }
      case SendCommand(id, state) =>
        if id in entityToKey && state.Value? && Commandable(state.kind) && fsm == Active {
          written := written + [Command(entityToKey[id], state)];
        }
      case Stop =>
        MarkEntitiesUnavailable();
        Terminate();
    }
  }

  lemma KnownSameCaps(c: Client, list: seq<Meta>)
    ensures WithinCaps(c.(deviceKnown := true), list) == WithinCaps(c, list)
  {
    NeededFrame(c, c.(deviceKnown := true), list);
  }

  lemma EmptyLocalIds(slug: string)
    ensures LocalIds(slug, []) == {}
  {
  }

  lemma ImportIsAsCoded(c: Client, m: Meta)
    ensures var id := LocalOf(c.slug, m);
      Import(c, m) == c.(
        keyToEntity := c.keyToEntity[m.key := id],
        entityToKey := c.entityToKey[id := m.key],
        refs := c.refs + {id},
        registry := if id in c.refs then c.registry else c.registry + {id})
  {
  }

  /** The import reads everything but the state of the connection. */
  lemma FinalizeIgnoresFsm(c: Client, d: Client, list: seq<Meta>, added: bool)
    requires d == c.(fsm := d.fsm)
    ensures Finalize(d, list, added).(fsm := Active) == Finalize(c, list, added).(fsm := Active)
  {
    hide Post, ImportAll, Disappeared;
    assert WithinCaps(c, list) == WithinCaps(d, list) by {
      NeededFrame(c, d, list);
    }
    assert Disappeared(c, list) == Disappeared(d, list) by { DisappearedSame(c, d, list); }
    hide WithinCaps;
    ImportedSame(c.(deviceKnown := true), d.(deviceKnown := true), list);
    ImportAllFrame(c.(deviceKnown := true), list);
  }

  lemma DisappearedSame(c: Client, d: Client, list: seq<Meta>)
    requires c.refs == d.refs && c.slug == d.slug
    ensures Disappeared(c, list) == Disappeared(d, list)
  {
  }

  lemma {:induction false} ImportedSame(c: Client, d: Client, list: seq<Meta>)
    requires d == c.(fsm := d.fsm)
    ensures ImportAll(d, list) == ImportAll(c, list).(fsm := d.fsm)
  {
    hide LocalOf;
    if list != [] {
      ImportedSame(c, d, list[..|list| - 1]);
    }
  }
}
