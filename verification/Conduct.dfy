/**
 How a session conducts itself over time: when it gives a connection up, when it ends, what
 it answers and refuses, and what its entities hear when it loses them.
*/
module Conduct {
  import opened Naming
  import opened Wire
  import opened Words
  import opened Session

  function After(start: Client, events: seq<Event>): Option<Client> {
    if events == [] then Some(start)
    else
      var before := After(start, events[..|events| - 1]);
      if before.Some? && Enabled(before.value, events[|events| - 1])
      then Some(Handle(before.value, events[|events| - 1]).client) else None
  }

  lemma {:induction false} RunIsAfter(start: Client, events: seq<Event>, end: Client)
    requires IsRun(start, events, end)
    ensures After(start, events) == Some(end)
    decreases |events|
  {
    hide Handle, Enabled;
    if events != [] {
      RunIsAfter(Handle(start, events[0]).client, events[1..], end);
      AfterFirst(start, events);
    }
  }

  lemma {:induction false} AfterFirst(start: Client, events: seq<Event>)
    requires events != [] && Enabled(start, events[0])
    ensures After(start, events) == After(Handle(start, events[0]).client, events[1..])
  {
    hide Handle, Enabled;
    if |events| > 1 {
      var front := events[..|events| - 1];
      AfterFirst(start, front);
      assert front[1..] == events[1..][..|events| - 2];
    } else {
      assert events[..0] == [] && events[1..] == [];
    }
  }

  /** The client before the last message of a run. */
  lemma RunSnoc(start: Client, events: seq<Event>, end: Client) returns (c: Client)
    requires After(start, events) == Some(end) && events != []
    ensures After(start, events[..|events| - 1]) == Some(c)
    ensures Enabled(c, events[|events| - 1]) && Handle(c, events[|events| - 1]).client == end
  {
    c := After(start, events[..|events| - 1]).value;
  }

  // ---------------------------------------------------------------- what messages leave alone

  lemma PostStopKeeps(c: Client)
    ensures var d := MarkUnavailable(c); d == c.(firmware := d.firmware, mail := d.mail)
    ensures var d := PostStop(c); d == c.(firmware := d.firmware, mail := d.mail, fsm := Stopped, stopped := true)
  {
  }

  /** The device asks for a password. */
  predicate EndsIt(c: Client, e: Event) {
    e.Inbound? && c.fsm == Handshake(AwaitDeviceInfo) && e.frame == DeviceInfoResponse(Info(true))
  }

  /** The handshake is through, whatever became of the list. */
  predicate Completes(c: Client, e: Event) {
    e.Inbound? && c.fsm.Handshake? && c.fsm.phase.Collecting? && e.frame == ListEntitiesDone
  }

  /** How many reconnects a message asks for. */
  function Asks(c: Client, e: Event): int
    requires Enabled(c, e)
  {
    Handle(c, e).client.pending - c.pending + if e.Connect? then 1 else 0
  }

  /** All that a message other than the end of the list can change besides the connection: what
      is on record, what is sent, and the counts. */
  lemma StepFrame(c: Client, e: Event)
    requires Enabled(c, e) && !Completes(c, e)
    ensures var d := Handle(c, e).client;
      && d == c.(fsm := d.fsm, attempts := d.attempts, lastActivity := d.lastActivity, firmware := d.firmware,
                 mail := d.mail, pending := d.pending, readers := d.readers, stopped := d.stopped)
      && d.lastActivity == (if e.Inbound? then Some(e.now) else c.lastActivity)
      && 0 <= Asks(c, e) <= 1 && d.attempts == c.attempts + Asks(c, e)
      && (d.stopped <==> e.Stop? || EndsIt(c, e))
      && (d.fsm == Active ==> c.fsm == Active)
  {
    hide MarkUnavailable, Ingest, Finalize, CommandFor, Post;
    match e
    case Inbound(f, added, now) => InboundFrame(c, f, added, now);
    case ReaderEnd(_) => PostStopKeeps(c.(readers := c.readers - 1));
    case Stop =>
      PostStopKeeps(c);
      PostStopKeeps(MarkUnavailable(c));
    case PingTick(_) => PostStopKeeps(c);
    case _ =>
  }

  lemma InboundFrame(c: Client, f: Frame, added: bool, now: nat)
    requires Enabled(c, Inbound(f, added, now)) && !Completes(c, Inbound(f, added, now))
    ensures var d := OnInbound(c, f, added, now).client;
      && d == c.(fsm := d.fsm, attempts := d.attempts, lastActivity := Some(now), firmware := d.firmware,
                 mail := d.mail, pending := d.pending, stopped := d.stopped)
      && 0 <= d.pending - c.pending <= 1 && d.attempts == c.attempts + d.pending - c.pending
      && (d.stopped <==> EndsIt(c, Inbound(f, added, now)))
      && (d.fsm == Active ==> c.fsm == Active)
  {
    hide OnHandshake, Ingest;
    var heard := c.(lastActivity := Some(now));
    match c.fsm
    case Handshake(phase) => HandshakeFrame(heard, phase, f, added, now);
    case Active =>
      if f.StateFrame? {
        IngestFrame(heard, f.key, f.state);
      }
    case _ =>
  }

  lemma HandshakeFrame(c: Client, phase: Phase, f: Frame, added: bool, now: nat)
    requires !c.stopped && c.fsm == Handshake(phase) && !(phase.Collecting? && f == ListEntitiesDone)
    ensures var d := OnHandshake(c, phase, f, added, now).client;
      && d == c.(fsm := d.fsm, attempts := d.attempts, firmware := d.firmware, mail := d.mail, pending := d.pending,
                 stopped := d.stopped)
      && 0 <= d.pending - c.pending <= 1 && d.attempts == c.attempts + d.pending - c.pending
      && (d.stopped <==> phase.AwaitDeviceInfo? && f == DeviceInfoResponse(Info(true)))
      && d.fsm != Active
  {
    hide MarkUnavailable, Finalize, PostStop;
    match phase
    case AwaitDeviceInfo =>
      PostStopKeeps(c);
      if f == DeviceInfoResponse(Undecodable) {
        assert OnHandshake(c, phase, f, added, now).client == ScheduleReconnect(c);
      }
    case _ =>
  }

  /** The end of the list leaves the rest to the import. */
  lemma CompletedStep(c: Client, e: Event)
    requires Enabled(c, e) && Completes(c, e)
    ensures var heard := c.(lastActivity := Some(e.now));
      var list := c.fsm.phase.entities;
      && Handle(c, e).client
         == Finalize(heard, list, e.added).(fsm := Active, attempts := 0, lastActivity := Some(e.now))
      && 0 <= Asks(c, e) <= 1 && !Handle(c, e).client.stopped
  {
    hide Finalize;
    FinalizeFrame(c.(lastActivity := Some(e.now)), c.fsm.phase.entities, e.added);
  }

  // ---------------------------------------------------------------- silence

  /** When the firmware was last heard of, whatever it said. */
  function LastHeard(events: seq<Event>): Option<nat> {
    if events == [] then None
    else if events[|events| - 1].Inbound? then Some(events[|events| - 1].now)
    else LastHeard(events[..|events| - 1])
  }

  lemma StepActivity(c: Client, e: Event)
    requires Enabled(c, e)
    ensures Handle(c, e).client.lastActivity == if e.Inbound? then Some(e.now) else c.lastActivity
    ensures Handle(c, e).client.fsm == Active ==> c.fsm == Active || e.Inbound?
  {
    hide Handle;
    if Completes(c, e) {
      CompletedStep(c, e);
      hide Finalize;
    } else {
      StepFrame(c, e);
    }
  }

  lemma {:induction false} ActivityIsLastHeard(slug: string, max: nat, registry: set<EntityId>, events: seq<Event>, c: Client)
    requires After(Fresh(slug, max, registry), events) == Some(c)
    ensures c.lastActivity == LastHeard(events)
    ensures c.fsm == Active ==> LastHeard(events).Some?
  {
    hide Handle, Enabled;
    if events != [] {
      var before := RunSnoc(Fresh(slug, max, registry), events, c);
      ActivityIsLastHeard(slug, max, registry, events[..|events| - 1], before);
      StepActivity(before, events[|events| - 1]);
    }
  }

  /** On every run: a tick of the ping timer gives an active connection up if nothing at all
      was heard for 30 seconds, and else sends a ping and changes nothing; unless the session
      is active it does nothing whatever. */
  lemma GivesUpOnSilence(slug: string, max: nat, registry: set<EntityId>, events: seq<Event>, c: Client, now: nat)
    requires IsRun(Fresh(slug, max, registry), events, c) && !c.stopped
    ensures var o := Handle(c, PingTick(now));
      && (c.fsm == Active ==>
            LastHeard(events).Some?
            && (if now >= LastHeard(events).value + 30
                then o.client.fsm == Reconnecting && o.client.pending == c.pending + 1 && o.written == []
                else o.client == c && o.written == [PingRequest]))
      && (c.fsm != Active ==> o.client == c && o.written == [])
  {
    hide Fresh, MarkUnavailable, LastHeard, After;
    RunIsAfter(Fresh(slug, max, registry), events, c);
    ActivityIsLastHeard(slug, max, registry, events, c);
    PostStopCounts(c);
  }

  // ---------------------------------------------------------------- the end

  /** A session ends exactly when it is told to, or when the device asks for a password. */
  lemma EndsIff(c: Client, e: Event)
    requires Enabled(c, e)
    ensures Handle(c, e).client.stopped
      <==> || e.Stop?
           || (e.Inbound? && c.fsm == Handshake(AwaitDeviceInfo) && e.frame == DeviceInfoResponse(Info(true)))
  {
    hide Handle;
    if Completes(c, e) {
      CompletedStep(c, e);
      hide Finalize;
    } else {
      StepFrame(c, e);
    }
  }

  // ---------------------------------------------------------------- trying again

  lemma StepAttempts(c: Client, e: Event)
    requires Enabled(c, e)
    ensures 0 <= Asks(c, e) <= 1
    ensures Handle(c, e).client.attempts == if Completes(c, e) then 0 else c.attempts + Asks(c, e)
  {
    hide Handle;
    if Completes(c, e) {
      CompletedStep(c, e);
      hide Finalize;
    } else {
      StepFrame(c, e);
    }
  }

  /** The reconnects asked for since a handshake was last through. */
  function Failures(start: Client, events: seq<Event>): nat
    requires After(start, events).Some?
  {
    if events == [] then 0
    else
      var c, e := After(start, events[..|events| - 1]).value, events[|events| - 1];
      StepAttempts(c, e);
      if Completes(c, e) then 0 else Failures(start, events[..|events| - 1]) + Asks(c, e)
  }

  /** On every run the delay before the next attempt is one second doubled for each reconnect
      asked for since a handshake was last through, and never more than 30 seconds. */
  lemma DelayDoubles(slug: string, max: nat, registry: set<EntityId>, events: seq<Event>, c: Client)
    requires IsRun(Fresh(slug, max, registry), events, c)
    ensures After(Fresh(slug, max, registry), events) == Some(c)
    ensures BackoffDelay(c.attempts) == Least(Doubled(Failures(Fresh(slug, max, registry), events)), 30)
  {
    hide Fresh, Failures, After, BackoffDelay;
    RunIsAfter(Fresh(slug, max, registry), events, c);
    AttemptsAreFailures(slug, max, registry, events, c);
    Doubling(c.attempts);
  }

  function Doubled(n: nat): nat {
    if n == 0 then 1 else 2 * Doubled(n - 1)
  }

  function Least(a: nat, b: nat): nat {
    if a < b then a else b
  }

  lemma {:induction false} Doubling(n: nat)
    ensures BackoffDelay(n) == Least(Doubled(n), 30)
    ensures n >= 5 ==> Doubled(n) >= 30
  {
    if n > 5 {
      Doubling(n - 1);
    } else {
      assert Doubled(2) == 4 && Doubled(3) == 8 && Doubled(4) == 16 && Doubled(5) == 32;
    }
  }

  lemma {:induction false} AttemptsAreFailures(slug: string, max: nat, registry: set<EntityId>, events: seq<Event>, c: Client)
    requires After(Fresh(slug, max, registry), events) == Some(c)
    ensures c.attempts == Failures(Fresh(slug, max, registry), events)
  {
    hide Handle, Enabled, Completes;
    if events != [] {
      var before := RunSnoc(Fresh(slug, max, registry), events, c);
      AttemptsAreFailures(slug, max, registry, events[..|events| - 1], before);
      StepAttempts(before, events[|events| - 1]);
    }
  }

  // ---------------------------------------------------------------- registering the device

  /** The device manager took the device at the end of some handshake. */
  function WasAdded(start: Client, events: seq<Event>): bool {
    if events == [] then false
    else
      var c, e := After(start, events[..|events| - 1]), events[|events| - 1];
      (c.Some? && Completes(c.value, e) && e.added) || WasAdded(start, events[..|events| - 1])
  }

  lemma StepKnown(c: Client, e: Event)
    requires Enabled(c, e)
    ensures Handle(c, e).client.deviceKnown <==> c.deviceKnown || (Completes(c, e) && e.added)
  {
    hide Handle, Finalize;
    if Completes(c, e) {
      CompletedStep(c, e);
      FinalizeKnows(c.(lastActivity := Some(e.now)), c.fsm.phase.entities, e.added);
    } else {
      StepFrame(c, e);
    }
  }

  lemma FinalizeKnows(c: Client, list: seq<Meta>, added: bool)
    ensures Finalize(c, list, added).deviceKnown <==> c.deviceKnown || added
  {
    hide WithinCaps, Post, Disappeared, ImportAll;
    ImportAllFrame(c.(deviceKnown := true), list);
  }

  /** On every run entities are imported only once the device manager has taken the device,
      and the session asks it again at every handshake until it has. */
  lemma {:induction false} KnownIffAdded(slug: string, max: nat, registry: set<EntityId>, events: seq<Event>, c: Client)
    requires After(Fresh(slug, max, registry), events) == Some(c)
    ensures c.deviceKnown <==> WasAdded(Fresh(slug, max, registry), events)
    ensures !c.deviceKnown ==> c.refs == {} && c.entityToKey == map[] && c.keyToEntity == map[] && c.registry == registry
    ensures c.refs == c.entityToKey.Keys && c.slug == slug && c.maxEntities == max
  {
    hide Handle, Enabled, Completes;
    if events != [] {
      var before := RunSnoc(Fresh(slug, max, registry), events, c);
      KnownIffAdded(slug, max, registry, events[..|events| - 1], before);
      StepKnown(before, events[|events| - 1]);
      StepMaps(before, events[|events| - 1]);
    }
  }

  lemma StepMaps(c: Client, e: Event)
    requires Enabled(c, e)
    ensures var d := Handle(c, e).client;
      && d.slug == c.slug && d.maxEntities == c.maxEntities
      && (c.refs == c.entityToKey.Keys ==> d.refs == d.entityToKey.Keys)
      && (!d.deviceKnown ==>
            d.refs == c.refs && d.entityToKey == c.entityToKey && d.keyToEntity == c.keyToEntity && d.registry == c.registry)
  {
    hide Handle, Finalize;
    if Completes(c, e) {
      CompletedStep(c, e);
      FinalizeMaps(c.(lastActivity := Some(e.now)), c.fsm.phase.entities, e.added);
    } else {
      StepFrame(c, e);
    }
  }

  lemma FinalizeMaps(c: Client, list: seq<Meta>, added: bool)
    ensures var d := Finalize(c, list, added);
      && d.slug == c.slug && d.maxEntities == c.maxEntities
      && (c.refs == c.entityToKey.Keys ==> d.refs == d.entityToKey.Keys)
      && (!d.deviceKnown ==> d == c)
  {
    hide WithinCaps, Post, Disappeared, ImportAll, LocalIds;
    ImportAllFrame(c.(deviceKnown := true), list);
    ImportedRefs(c.(deviceKnown := true), list);
  }

  // ---------------------------------------------------------------- commands

  /** On every run a command is refused with the first reason that applies: the session never
      imported the entity; the value is one no command can carry; the session is not active.
      Else, and only else, it is written, under the key the entity was imported with last. */
  lemma CommandRefusals(slug: string, max: nat, registry: set<EntityId>, events: seq<Event>, c: Client, id: EntityId, s: State)
    requires IsRun(Fresh(slug, max, registry), events, c) && !c.stopped
    ensures var o, r := Handle(c, SendCommand(id, s)), CommandFor(c, id, s);
      && o.client == c && o.written == r.1
      && (r.0 == EntityNotFound <==> id !in c.refs)
      && (r.0 == CommandNotSupported <==> id in c.refs && !(s.Value? && Commandable(s.kind)))
      && (r.0 == SessionNotActive <==> id in c.refs && s.Value? && Commandable(s.kind) && c.fsm != Active)
      && (r.0 == NoError <==> r.1 != [])
      && (r.1 != [] ==> r.1 == [Command(c.entityToKey[id], s)])
  {
    RunIsAfter(Fresh(slug, max, registry), events, c);
    KnownIffAdded(slug, max, registry, events, c);
    hide Fresh, After, WasAdded, IsRun;
  }

  /** Of the kinds that have messages at all, buttons can be pressed but are never listed and
      have no state; sensors are listed and cannot be commanded; all others do both. */
  lemma KindsOf(k: Kind)
    ensures Commandable(k) && !Listed(k) <==> k == Button
    ensures Listed(k) && !Commandable(k) <==> k == Sensor || k == BinarySensor || k == TextSensor
    ensures !Listed(k) && !Commandable(k) <==> k == OtherKind
  {
  }

  /** Entities of different kinds never share a domain. */
  lemma DomainsDistinct(j: Kind, k: Kind)
    ensures DomainOf(j) == DomainOf(k) ==> j == k
  {
  }

  /** Two listed entities share a local id exactly if they are of one kind and have one object
      id, whatever their keys. */
  lemma SharedLocalIff(slug: string, m: Meta, n: Meta)
    ensures LocalOf(slug, m) == LocalOf(slug, n) <==> m.kind == n.kind && m.objectId == n.objectId
  {
    if LocalOf(slug, m) == LocalOf(slug, n) {
      MakeIdInjective(DomainOf(m.kind), LocalName(slug, m.objectId), DomainOf(n.kind), LocalName(slug, n.objectId));
      DomainsDistinct(m.kind, n.kind);
      assert LocalName(slug, m.objectId)[|slug| + 2..] == m.objectId;
      assert LocalName(slug, n.objectId)[|slug| + 2..] == n.objectId;
    }
  }

  // ---------------------------------------------------------------- answers

  /** An active session answers pings, and writes nothing else to what it receives. */
  lemma AnswersPings(c: Client, f: Frame, added: bool, now: nat)
    requires Enabled(c, Inbound(f, added, now)) && c.fsm == Active
    ensures Handle(c, Inbound(f, added, now)).written == if f == PingRequest then [PingResponse] else []
    ensures !f.StateFrame? ==> Handle(c, Inbound(f, added, now)).client == c.(lastActivity := Some(now))
  {
  }

  // ---------------------------------------------------------------- what entities are told

  /** What an entity is sent by a message. */
  predicate IsSent(c: Client, d: Client, id: EntityId, told: seq<State>) {
    MailOf(d.mail, id) == MailOf(c.mail, id) + told
  }

  /** Losing the connection tells each entity of the session, and nobody else, once that it is
      unavailable; being told to stop tells them twice. Nothing is on record of them then. */
  lemma LossIsTold(c: Client, e: Event, id: EntityId)
    requires Enabled(c, e) && (e.Stop? || e.ReaderEnd? || (e.PingTick? && TimedOut(c, e.at)) || EndsIt(c, e))
    ensures var d := Handle(c, e).client;
      && IsSent(c, d, id, if id !in c.refs then [] else if e.Stop? then [Unavailable, Unavailable] else [Unavailable])
      && (id in d.firmware <==> id in c.firmware && id !in c.refs)
  {
  }

  /** A finished list that is refused is such a loss. One that is taken tells those entities
      that are not listed any more, and only those, that they are unavailable, and keeps on
      record what is known of the others. */
  lemma ListIsTold(c: Client, list: seq<Meta>, added: bool, now: nat, id: EntityId)
    requires c.fsm == Handshake(Collecting(list)) && (c.deviceKnown || added) && list != []
    ensures var d := OnInbound(c, ListEntitiesDone, added, now).client;
      var lost := id in c.refs && (!WithinCaps(c, list) || forall m :: m in list ==> LocalOf(c.slug, m) != id);
      && IsSent(c, d, id, if lost then [Unavailable] else [])
      && (id in d.firmware <==> id in c.firmware && !lost)
      && (id in d.firmware ==> d.firmware[id] == c.firmware[id])
  {
    hide WithinCaps, LocalOf, Post, Finalize;
    var heard := c.(lastActivity := Some(now));
    var lost := if WithinCaps(c, list) then Disappeared(c, list) else c.refs;
    RejectedFrame(heard, c, list, added);
    FinalizeTells(heard, list, added);
    Posted(c.mail, lost, id);
    assert id in lost <==> id in c.refs && (!WithinCaps(c, list) || forall m :: m in list ==> LocalOf(c.slug, m) != id);
    hide Disappeared, LocalIds;
  }

  lemma FinalizeTells(c: Client, list: seq<Meta>, added: bool)
    requires (c.deviceKnown || added) && list != []
    ensures var d, lost := Finalize(c, list, added), if WithinCaps(c, list) then Disappeared(c, list) else c.refs;
      d.firmware == c.firmware - lost && d.mail == Post(c.mail, lost, Unavailable)
  {
    hide WithinCaps, LocalIds, ImportAll, Post;
    ImportAllFrame(c.(deviceKnown := true), list);
  }

  lemma Posted(mail: map<EntityId, seq<State>>, ids: set<EntityId>, id: EntityId)
    ensures MailOf(Post(mail, ids, Unavailable), id) == MailOf(mail, id) + if id in ids then [Unavailable] else []
  {
  }

  /** The places in the list whose entity has no actor yet, on this session or any other. */
  function NewPlaces(c: Client, list: seq<Meta>): set<nat> {
    set i: nat | i < |list| && LocalOf(c.slug, list[i]) !in c.refs && LocalOf(c.slug, list[i]) !in c.registry
  }

  lemma {:induction false} NeededIsNewPlaces(c: Client, list: seq<Meta>)
    ensures Needed(c, list) == |NewPlaces(c, list)|
  {
    hide LocalOf;
    if list != [] {
      var front, last := list[..|list| - 1], LocalOf(c.slug, list[|list| - 1]);
      NeededIsNewPlaces(c, front);
      if last !in c.refs && last !in c.registry {
        assert NewPlaces(c, list) == NewPlaces(c, front) + {|list| - 1};
      } else {
        assert NewPlaces(c, list) == NewPlaces(c, front);
      }
    } else {
      assert NewPlaces(c, list) == {};
    }
  }

  /** A list of a device that is registered is refused exactly if it is longer than 512 or than
      the limit on entities, or if with its places for new entities the registry would go
      past that limit. */
  lemma RefusedIff(c: Client, list: seq<Meta>, added: bool)
    requires (c.deviceKnown || added) && list != []
    ensures Rejected(c, list, added)
      <==> |list| > 512 || |list| > c.maxEntities || |c.registry| + |NewPlaces(c, list)| > c.maxEntities
  {
    NeededIsNewPlaces(c, list);
    hide NewPlaces, Needed;
  }
}
