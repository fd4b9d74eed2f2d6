/**
 What the device-link manager knows, told from what happened: its records, announcements
 and security settings as functions of the messages it has handled.
*/
module History {
  import opened Words
  import opened Manager

  /** The manager after some messages. */
  function After(start: Manager, events: seq<Event>): Manager {
    if events == [] then start else Step(After(start, events[..|events| - 1]), events[|events| - 1])
  }

  lemma {:induction false} RunIsAfter(start: Manager, events: seq<Event>, end: Manager)
    requires IsRun(start, events, end)
    ensures end == After(start, events)
    decreases |events|
  {
    hide Step;
    if events != [] {
      RunIsAfter(Step(start, events[0]), events[1..], end);
      AfterFirst(start, events);
    }
  }

  lemma {:induction false} AfterFirst(start: Manager, events: seq<Event>)
    requires events != []
    ensures After(start, events) == After(Step(start, events[0]), events[1..])
  {
    hide Step;
    if |events| > 1 {
      var front := events[..|events| - 1];
      AfterFirst(start, front);
      assert front[1..] == events[1..][..|events| - 2];
    } else {
      assert events[..0] == [];
    }
  }

  // ---------------------------------------------------------------- the record of an identity

  /** A status message reaches the identity its sender was resolved to, and if there is none
      the identity of the same name, provided it is on record. */
  predicate Reaches(m: Manager, e: Event, x: DeviceId) {
    && e.StatusChanged? && x in m.canonical
    && (if e.p in m.toCanonical then m.toCanonical[e.p] == x else e.p == x)
  }

  /** The identity comes on record: a session of a device on record resolves to it. */
  predicate Founds(m: Manager, e: Event, x: DeviceId) {
    e.Resolved? && e.c == x && x !in m.canonical && e.p in m.discovered
  }

  /** It goes off record: on Stop, or when its device is withdrawn while not active. */
  predicate Loses(m: Manager, e: Event, x: DeviceId) {
    e.Stop? || (e.Removed? && e.p in m.toCanonical && m.toCanonical[e.p] == x && !IsActive(m, e.p))
  }

  /** The last status message for the identity since it came on record; Handshaking with no
      entities if there was none. */
  function LastReport(start: Manager, events: seq<Event>, x: DeviceId): (Status, nat) {
    if events == [] then (Handshaking, 0)
    else
      var m, e := After(start, events[..|events| - 1]), events[|events| - 1];
      if Reaches(m, e, x) then (e.status, e.entities)
      else if Founds(m, e, x) then (Handshaking, 0)
      else LastReport(start, events[..|events| - 1], x)
  }

  /** Whether the identity is on record, and with which announcement, security and info it
      came on record last. */
  function Founding(start: Manager, events: seq<Event>, x: DeviceId): Option<(DiscoveredDevice, bool, int)> {
    if events == [] then None
    else
      var m, e := After(start, events[..|events| - 1]), events[|events| - 1];
      if Founds(m, e, x) then Some((m.discovered[e.p], e.p in m.security && m.security[e.p].Noise?, e.info))
      else if Loses(m, e, x) then None
      else Founding(start, events[..|events| - 1], x)
  }

  lemma RecordStep(m: Manager, e: Event, x: DeviceId)
    ensures var n := Step(m, e);
      && (x in n.canonical <==> Founds(m, e, x) || (x in m.canonical && !Loses(m, e, x)))
      && (Founds(m, e, x) ==>
            n.canonical[x] == ConnectedDevice(x, m.discovered[e.p], Handshaking, 0, e.p in m.security && m.security[e.p].Noise?, e.info))
      && (x in n.canonical && x in m.canonical ==>
            n.canonical[x] == if Reaches(m, e, x) then m.canonical[x].(status := e.status, entities := e.entities) else m.canonical[x])
  {
    hide IsActive, OnAnnounced, OnCheck, OnRemoved, OnResolved, OnStatus, Numbers, Evicted, Aged;
    match e
    case Announced(d, now) => AnnouncedFrame(m, d, now);
    case CheckStaleness(now) => CheckFrame(m, now);
    case Removed(p) => RemovedRecords(m, p);
    case Resolved(p, c, info) => ResolvedRecord(m, p, c, info);
    case StatusChanged(p, status, entities) => ReportedRecord(m, p, status, entities);
    case _ =>
  }

  lemma ResolvedRecord(m: Manager, p: DeviceId, c: DeviceId, info: int)
    ensures OnResolved(m, p, c, info).canonical ==
      if c in m.canonical || p !in m.discovered then m.canonical
      else m.canonical[c := ConnectedDevice(c, m.discovered[p], Handshaking, 0, p in m.security && m.security[p].Noise?, info)]
  {
  }

  lemma ReportedRecord(m: Manager, p: DeviceId, status: Status, entities: nat)
    ensures var n, x := OnStatus(m, p, status, entities), if p in m.toCanonical then m.toCanonical[p] else p;
      && (x in m.canonical ==>
            n.canonical == m.canonical[x := m.canonical[x].(status := status, entities := entities)])
      && (x !in m.canonical ==> n.canonical == m.canonical)
  {
    var x := if p in m.toCanonical then m.toCanonical[p] else p;
    if x in m.canonical {
      assert OnStatus(m, p, status, entities).canonical == m.canonical[x := m.canonical[x].(status := status, entities := entities)];
    } else {
      assert OnStatus(m, p, status, entities) == m;
    }
  }

  /** After any sequence of messages an identity is on record exactly if it has come on
      record and not gone off since, and the record says what the session said when it was
      resolved and, for status and entities, what the last status message for it said. */
  lemma {:induction false} RecordIsLastReport(maxDevices: nat, connectionsPerDevice: nat, events: seq<Event>, x: DeviceId)
    ensures var start := New(maxDevices, connectionsPerDevice);
      var m, founding, report := After(start, events), Founding(start, events, x), LastReport(start, events, x);
      && (x in m.canonical <==> founding.Some?)
      && (founding.Some? ==>
            m.canonical[x] == ConnectedDevice(x, founding.value.0, report.0, report.1, founding.value.1, founding.value.2))
  {
    hide Step, Reaches, Founds, Loses;
    if events != [] {
      var start, front := New(maxDevices, connectionsPerDevice), events[..|events| - 1];
      RecordIsLastReport(maxDevices, connectionsPerDevice, front, x);
      RecordStep(After(start, front), events[|events| - 1], x);
      Exclusive(After(start, front), events[|events| - 1], x);
    }
  }

  lemma Exclusive(m: Manager, e: Event, x: DeviceId)
    ensures Founds(m, e, x) ==> !Reaches(m, e, x) && !Loses(m, e, x) && x !in m.canonical
    ensures Reaches(m, e, x) ==> !Loses(m, e, x)
  {
  }

  /** Whoever asks, by the identity or by the id the device has on the network, is told the
      last status message and nothing older. */
  lemma AskedIsToldLastReport(maxDevices: nat, connectionsPerDevice: nat, events: seq<Event>, m: Manager,
                              id: DeviceId, x: DeviceId, r: Answer)
    requires IsRun(New(maxDevices, connectionsPerDevice), events, m) && x in m.canonical
    requires id == x || (id !in m.canonical && id in m.toCanonical && m.toCanonical[id] == x)
    requires Answers(m, id, r)
    ensures r.Live? && r.device.deviceId == x
    ensures (r.device.status, r.device.entities) == LastReport(New(maxDevices, connectionsPerDevice), events, x)
  {
    hide New, LastReport, After, Founding;
    RunIsAfter(New(maxDevices, connectionsPerDevice), events, m);
    RecordIsLastReport(maxDevices, connectionsPerDevice, events, x);
  }

  /** An id that is not that of a confirmed device is answered with the announcement of the
      device that has it on the network, and only without one with a restored device that has
      it as identity or had it on the network; it is unknown exactly if nobody has it at all. */
  lemma UnconfirmedAnswer(m: Manager, id: DeviceId, r: Answer)
    requires Inv(m) && Answers(m, id, r)
    requires id !in m.canonical && (id in m.toCanonical ==> m.toCanonical[id] !in m.canonical)
    ensures r.Seen? <==> id in m.discovered
    ensures r.Seen? ==> r.found == m.discovered[id]
    ensures r.Kept? ==> r.device in m.restored.Values && (r.device.deviceId == id || r.device.discovered.deviceId == id)
    ensures r.Nothing? <==>
      id !in m.discovered && forall d :: d in m.restored.Values ==> d.deviceId != id && d.discovered.deviceId != id
    ensures !r.Live?
  {
    hide Accounted, Identities, Within;
    forall c | c in m.restored ensures m.restored[c] in m.restored.Values && m.restored[c].deviceId == c {
    }
  }

  /** Told without the history: a status message that reaches an identity is what everyone who
      asks is answered for as long as nothing else is said of it. */
  lemma {:induction false} ReportStands(m: Manager, e: Event, after: seq<Event>, end: Manager, x: DeviceId, r: Answer)
    requires Reaches(m, e, x) && IsRun(Step(m, e), after, end) && Unreported(Step(m, e), after, x)
    requires Answers(end, x, r)
    ensures r.Live? && r.device == m.canonical[x].(status := e.status, entities := e.entities)
  {
    hide Step, IsRun;
    RecordStep(m, e, x);
    Exclusive(m, e, x);
    RecordStands(Step(m, e), after, end, x);
  }

  /** The identity stays on record and nothing is said of it. */
  predicate Unreported(start: Manager, events: seq<Event>, x: DeviceId)
    decreases |events|
  {
    events != [] ==>
      && !Reaches(start, events[0], x) && !Loses(start, events[0], x)
      && Unreported(Step(start, events[0]), events[1..], x)
  }

  lemma {:induction false} RecordStands(start: Manager, events: seq<Event>, end: Manager, x: DeviceId)
    requires x in start.canonical && IsRun(start, events, end) && Unreported(start, events, x)
    ensures x in end.canonical && end.canonical[x] == start.canonical[x]
    decreases |events|
  {
    hide Step, Loses, Reaches, Founds;
    if events != [] {
      RecordStep(start, events[0], x);
      RecordStands(Step(start, events[0]), events[1..], end, x);
    }
  }

  /** A withdrawn device stays exactly if the last status message for its identity was that it
      is active: its identity, its session and its place in the list of devices alike. */
  lemma WithdrawnStaysIffActive(maxDevices: nat, connectionsPerDevice: nat, events: seq<Event>, m: Manager, p: DeviceId)
    requires IsRun(New(maxDevices, connectionsPerDevice), events, m)
    requires p in m.toCanonical && m.toCanonical[p] in m.canonical
    ensures var x, n := m.toCanonical[p], Step(m, Removed(p));
      var active := LastReport(New(maxDevices, connectionsPerDevice), events, x).0 == Active;
      && (x in n.canonical <==> active) && (p in n.toCanonical <==> active) && (p in n.discovered <==> active)
      && (p in m.sessions ==> (p in n.sessions <==> active))
  {
    hide New, LastReport, After, Founding, Inv;
    RunIsAfter(New(maxDevices, connectionsPerDevice), events, m);
    RecordIsLastReport(maxDevices, connectionsPerDevice, events, m.toCanonical[p]);
    NewInv(maxDevices, connectionsPerDevice);
    RunInv(New(maxDevices, connectionsPerDevice), events, m);
    ResolvedOnRecord(m, p);
    Withdrawn(m, p);
  }

  lemma Withdrawn(m: Manager, p: DeviceId)
    requires p in m.toCanonical && m.toCanonical[p] in m.canonical && p in m.discovered
    ensures var x, n, active := m.toCanonical[p], Step(m, Removed(p)), IsActive(m, p);
      && (x in n.canonical <==> active) && (p in n.toCanonical <==> active) && (p in n.discovered <==> active)
      && (p in m.sessions ==> (p in n.sessions <==> active))
  {
  }

  // ---------------------------------------------------------------- what is on the network

  /** How a record in the list of devices comes, goes and is refreshed. */
  lemma SightingStep(m: Manager, e: Event, p: DeviceId)
    requires Inv(m)
    ensures var n := Step(m, e);
      var announced := e.Announced? && e.found.deviceId == p;
      && (p !in m.discovered ==> (p in n.discovered <==> announced && |m.discovered| < 256))
      && (p !in m.discovered && p in n.discovered ==> n.discovered[p] == e.found)
      && (p in m.discovered && announced ==>
            p in n.discovered && n.discovered[p] == m.discovered[p].(lastSeen := e.at, stale := false))
      && (p in m.discovered && !announced ==>
            && (p !in n.discovered <==>
                  (e == Removed(p) && !IsActive(m, p))
                  || (e.CheckStaleness? && p !in m.toCanonical && Silent(e.now, m.discovered[p].lastSeen, 600)))
            && (p in n.discovered ==>
                  n.discovered[p] == m.discovered[p].(stale := m.discovered[p].stale || Marks(e, p, m.discovered[p].lastSeen))))
  {
    hide Inv, IsActive, Numbers, OnAnnounced, OnCheck, OnRemoved, OnResolved, OnStatus;
    match e
    case Announced(d, now) => AnnouncedSighting(m, d, now);
    case CheckStaleness(now) => CheckedSighting(m, now, p);
    case Resolved(k, c, info) => ResolvedFrame(m, k, c, info);
    case StatusChanged(k, status, entities) => StatusFrame(m, k, status, entities);
    case Removed(k) => RemovedSighting(m, k);
    case _ =>
  }

  lemma AnnouncedSighting(m: Manager, d: DiscoveredDevice, now: nat)
    ensures OnAnnounced(m, d, now).discovered ==
      if d.deviceId in m.discovered
      then m.discovered[d.deviceId := m.discovered[d.deviceId].(lastSeen := now, stale := false)]
      else if |m.discovered| < 256 then m.discovered[d.deviceId := d] else m.discovered
  {
    hide Spawn;
    SpawnFrame(m, d.deviceId);
  }

  /** Not heard of for that long, or heard of in the future. */
  predicate Silent(now: nat, lastSeen: nat, seconds: nat) {
    now < lastSeen || now >= lastSeen + seconds
  }

  /** What marks a device as stale: it is withdrawn, or found silent for a minute and a half. */
  predicate Marks(e: Event, p: DeviceId, lastSeen: nat) {
    e == Removed(p) || (e.CheckStaleness? && Silent(e.now, lastSeen, 90))
  }

  lemma CheckedSighting(m: Manager, now: nat, p: DeviceId)
    requires Inv(m)
    ensures var n := OnCheck(m, now);
      && (p !in m.discovered ==> p !in n.discovered)
      && (p in m.discovered ==>
            && (p !in n.discovered <==> p !in m.toCanonical && Silent(now, m.discovered[p].lastSeen, 600))
            && (p in n.discovered ==>
                  n.discovered[p] == m.discovered[p].(stale := m.discovered[p].stale || Silent(now, m.discovered[p].lastSeen, 90))))
  {
    hide Accounted, Identities, Numbers;
  }

  lemma RemovedSighting(m: Manager, k: DeviceId)
    ensures OnRemoved(m, k).discovered ==
      if !IsActive(m, k) then m.discovered - {k}
      else if k in m.discovered then m.discovered[k := m.discovered[k].(stale := true)] else m.discovered
  {
    hide IsActive, Numbers;
  }

  /** As long as a device stays on record and is not announced again, its record stays what it
      is, and it counts as stale once it was withdrawn, or found silent for 90 seconds. */
  lemma {:induction false} StaleIff(start: Manager, events: seq<Event>, end: Manager, p: DeviceId)
    requires Inv(start) && IsRun(start, events, end) && StaysOnRecord(start, events, p)
    requires forall e :: e in events && e.Announced? ==> e.found.deviceId != p
    ensures p in end.discovered && end.discovered[p] == start.discovered[p].(
      stale := start.discovered[p].stale || exists e :: e in events && Marks(e, p, start.discovered[p].lastSeen))
    decreases |events|
  {
    hide Inv, Step, Marks;
    if events != [] {
      assert events == [events[0]] + events[1..];
      StepInv(start, events[0]);
      SightingStep(start, events[0], p);
      StaleIff(Step(start, events[0]), events[1..], end, p);
    }
  }

  // ---------------------------------------------------------------- security

  /** What was last configured for a device. */
  function LastConfig(events: seq<Event>, p: DeviceId): Security {
    if events == [] then Cleartext
    else
      var e := events[|events| - 1];
      if e.SetSecurity? && e.id == p then e.config else LastConfig(events[..|events| - 1], p)
  }

  lemma SecurityStep(m: Manager, e: Event)
    ensures Step(m, e).security == if e.SetSecurity? then m.security[e.id := e.config] else m.security
    ensures Step(m, e).maxDevices == m.maxDevices && Step(m, e).connectionsPerDevice == m.connectionsPerDevice
  {
    hide IsActive, OnAnnounced, OnCheck, OnRemoved, OnStatus, OnStop, Numbers, Evicted, Aged, OnResolved;
    match e
    case Announced(d, now) => AnnouncedFrame(m, d, now);
    case CheckStaleness(now) => CheckFrame(m, now);
    case Removed(p) => RemovedSettings(m, p);
    case Stop => StopSettings(m);
    case Resolved(p, c, info) => ResolvedSettings(m, p, c, info);
    case StatusChanged(p, status, entities) => StatusFrame(m, p, status, entities);
    case _ =>
  }

  lemma RemovedSettings(m: Manager, p: DeviceId)
    ensures var n := OnRemoved(m, p);
      n.security == m.security && n.maxDevices == m.maxDevices && n.connectionsPerDevice == m.connectionsPerDevice
  {
    hide IsActive, Numbers, Forget, StopAll;
    var base := m.(discovered := m.discovered - {p});
    ForgetSettings(base, p);
    StopAllFrame(Forget(base, p), {p});
  }

  lemma ForgetSettings(m: Manager, p: DeviceId)
    ensures var n := Forget(m, p);
      n.security == m.security && n.maxDevices == m.maxDevices && n.connectionsPerDevice == m.connectionsPerDevice
  {
  }

  lemma StopSettings(m: Manager)
    ensures var n := OnStop(m);
      n.security == m.security && n.maxDevices == m.maxDevices && n.connectionsPerDevice == m.connectionsPerDevice
  {
    hide Numbers;
  }

  lemma ResolvedSettings(m: Manager, p: DeviceId, c: DeviceId, info: int)
    ensures var n := OnResolved(m, p, c, info);
      n.security == m.security && n.maxDevices == m.maxDevices && n.connectionsPerDevice == m.connectionsPerDevice
  {
  }

  lemma {:induction false} SecurityIsLastConfig(maxDevices: nat, connectionsPerDevice: nat, events: seq<Event>, p: DeviceId)
    ensures var m := After(New(maxDevices, connectionsPerDevice), events);
      && (if p in m.security then m.security[p] else Cleartext) == LastConfig(events, p)
      && m.maxDevices == maxDevices && m.connectionsPerDevice == connectionsPerDevice
  {
    hide Step;
    if events != [] {
      var front := events[..|events| - 1];
      SecurityIsLastConfig(maxDevices, connectionsPerDevice, front, p);
      SecurityStep(After(New(maxDevices, connectionsPerDevice), front), events[|events| - 1]);
    }
  }

  /** After any sequence of messages: the next one spawns a session exactly if it announces a
      device that is new and there is room, one actor more than there have been, with the
      security that was configured last, in clear text if none was. */
  lemma SpawnsAsConfigured(maxDevices: nat, connectionsPerDevice: nat, events: seq<Event>, m: Manager, e: Event, p: DeviceId)
    requires IsRun(New(maxDevices, connectionsPerDevice), events, m) && p !in m.sessions
    ensures p in Step(m, e).sessions <==>
      && e.Announced? && e.found.deviceId == p && p !in m.discovered && |m.discovered| < 256
      && connectionsPerDevice > 0 && |m.sessions| < maxDevices && |m.sessions| < 128
    ensures p in Step(m, e).sessions ==>
      Step(m, e).sessions[p] == Session(m.spawned, LastConfig(events, p)) && Step(m, e).spawned == m.spawned + 1
  {
    hide New, After, LastConfig, Step, IsActive, Evicted, Aged, Numbers;
    RunIsAfter(New(maxDevices, connectionsPerDevice), events, m);
    SecurityIsLastConfig(maxDevices, connectionsPerDevice, events, p);
    SessionGainedIff(m, e, p);
    if p in Step(m, e).sessions {
      GainedSession(m, e.found, e.at);
    }
  }

  lemma GainedSession(m: Manager, d: DiscoveredDevice, now: nat)
    requires d.deviceId !in m.discovered && |m.discovered| < 256 && CanSpawn(m, d.deviceId)
    ensures var p, n := d.deviceId, Step(m, Announced(d, now));
      p in n.sessions && n.spawned == m.spawned + 1
      && n.sessions[p] == Session(m.spawned, if p in m.security then m.security[p] else Cleartext)
  {
  }

  // ---------------------------------------------------------------- restored devices

  /** The last device restored under an identity that no session has resolved to since. */
  function LastSeed(events: seq<Event>, x: DeviceId): Option<ConnectedDevice> {
    if events == [] then None
    else
      var e := events[|events| - 1];
      if e.Seed? && e.device.deviceId == x then Some(e.device)
      else if e.Stop? || (e.Resolved? && e.c == x) then None
      else LastSeed(events[..|events| - 1], x)
  }

  lemma RestoredStep(m: Manager, e: Event)
    ensures Step(m, e).restored ==
      match e
      case Seed(device) => m.restored[device.deviceId := device]
      case Resolved(_, c, _) => m.restored - {c}
      case Stop => map[]
      case _ => m.restored
  {
    hide IsActive, OnAnnounced, OnCheck, OnRemoved, OnStatus, Numbers, Evicted, Aged, OnResolved;
    match e
    case Announced(d, now) => AnnouncedFrame(m, d, now);
    case CheckStaleness(now) => CheckFrame(m, now);
    case Removed(p) => RemovedRecords(m, p);
    case Resolved(p, c, info) => ResolvedRecords(m, p, c, info);
    case StatusChanged(p, status, entities) => StatusFrame(m, p, status, entities);
    case _ =>
  }

  lemma {:induction false} RestoredIsLastSeed(maxDevices: nat, connectionsPerDevice: nat, events: seq<Event>, x: DeviceId)
    ensures var m := After(New(maxDevices, connectionsPerDevice), events);
      LastSeed(events, x) == if x in m.restored then Some(m.restored[x]) else None
  {
    hide Step;
    if events != [] {
      var front := events[..|events| - 1];
      RestoredIsLastSeed(maxDevices, connectionsPerDevice, front, x);
      RestoredStep(After(New(maxDevices, connectionsPerDevice), front), events[|events| - 1]);
    }
  }
}
