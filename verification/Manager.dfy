/**
 The device-link manager: the records of devices seen on the network, the identities
 confirmed by their sessions, the sessions themselves, and how an id is resolved.
*/
module Manager {
  import opened Words

  datatype DeviceId = DeviceId(text: string)

  const MAX_DISCOVERED: nat := 256
  const MAX_ACTIVE_SESSIONS: nat := 128
  const STALE_SECS: nat := 90
  const STALE_EVICTION_SECS: nat := 600

  /** `info` stands for the fields nothing here decides on: names, address, versions. */
  datatype DiscoveredDevice = DiscoveredDevice(deviceId: DeviceId, lastSeen: nat, stale: bool, info: int)

  datatype Status = Discovered | Connecting | Handshaking | Active | Backoff | UnsupportedAuth | Unavailable

  datatype Security = Cleartext | Noise(psk: int)

  datatype ConnectedDevice = ConnectedDevice(
    deviceId: DeviceId, discovered: DiscoveredDevice, status: Status, entities: nat, noise: bool, info: int)

  /** A session actor, numbered in the order the actors were spawned. */
  datatype Session = Session(number: nat, security: Security)

  /** `told` and `spawned` are records: the session actors that were sent a stop, and how
      many there have been. */
  datatype Manager = Manager(
    maxDevices: nat,
    connectionsPerDevice: nat,
    discovered: map<DeviceId, DiscoveredDevice>,
    canonical: map<DeviceId, ConnectedDevice>,
    toCanonical: map<DeviceId, DeviceId>,
    toProvisional: map<DeviceId, DeviceId>,
    restored: map<DeviceId, ConnectedDevice>,
    sessions: map<DeviceId, Session>,
    security: map<DeviceId, Security>,
    told: set<nat>,
    spawned: nat,
    stopped: bool)

  function New(maxDevices: nat, connectionsPerDevice: nat): Manager {
    Manager(maxDevices, connectionsPerDevice, map[], map[], map[], map[], map[], map[], map[], {}, 0, false)
  }

  datatype Event =
    | SetSecurity(id: DeviceId, config: Security)
    | Seed(device: ConnectedDevice)
    | Announced(found: DiscoveredDevice, at: nat)
    | Removed(p: DeviceId)
    | Resolved(p: DeviceId, c: DeviceId, info: int)
    | StatusChanged(p: DeviceId, status: Status, entities: nat)
    | CheckStaleness(now: nat)
    | Stop

  // ---------------------------------------------------------------- what each message does

  function SessionCap(m: Manager): nat {
    if m.maxDevices < MAX_ACTIVE_SESSIONS then m.maxDevices else MAX_ACTIVE_SESSIONS
  }

  function SecurityOf(m: Manager, p: DeviceId): Security {
    if p in m.security then m.security[p] else Cleartext
  }

  predicate CanSpawn(m: Manager, p: DeviceId) {
    p !in m.sessions && m.connectionsPerDevice != 0 && |m.sessions| < SessionCap(m)
  }

  function Spawn(m: Manager, p: DeviceId): Manager {
    if !CanSpawn(m, p) then m
    else m.(sessions := m.sessions[p := Session(m.spawned, SecurityOf(m, p))], spawned := m.spawned + 1)
  }

  function Numbers(sessions: map<DeviceId, Session>, ids: set<DeviceId>): set<nat> {
    set id | id in ids && id in sessions :: sessions[id].number
  }

  /** Takes the sessions of these ids out of the map, each with a stop sent to it. */
  function StopAll(m: Manager, ids: set<DeviceId>): Manager {
    m.(sessions := m.sessions - ids, told := m.told + Numbers(m.sessions, ids))
  }

  function OnAnnounced(m: Manager, d: DiscoveredDevice, now: nat): Manager {
    if d.deviceId in m.discovered then
      m.(discovered := m.discovered[d.deviceId := m.discovered[d.deviceId].(lastSeen := now, stale := false)])
    else if |m.discovered| >= MAX_DISCOVERED then m
    else
      var n := Spawn(m, d.deviceId);
      n.(discovered := n.discovered[d.deviceId := d])
  }

  predicate IsActive(m: Manager, p: DeviceId) {
    && p in m.toCanonical && m.toCanonical[p] in m.canonical
    && m.canonical[m.toCanonical[p]].status == Active
  }

  function Forget(m: Manager, p: DeviceId): Manager {
    if p !in m.toCanonical then m
    else
      var c := m.toCanonical[p];
      m.(toCanonical := m.toCanonical - {p}, toProvisional := m.toProvisional - {c}, canonical := m.canonical - {c})
  }

  function OnRemoved(m: Manager, p: DeviceId): Manager {
    if IsActive(m, p) then
      if p in m.discovered then m.(discovered := m.discovered[p := m.discovered[p].(stale := true)]) else m
    else StopAll(Forget(m.(discovered := m.discovered - {p}), p), {p})
  }

  function Tell(m: Manager, p: DeviceId): Manager {
    if p in m.sessions then m.(told := m.told + {m.sessions[p].number}) else m
  }

  function OnResolved(m: Manager, p: DeviceId, c: DeviceId, info: int): Manager {
    var n := m.(restored := m.restored - {c});
    if c in m.canonical then Tell(n, p)
    else if p !in m.discovered then n
    else
      var record := ConnectedDevice(c, m.discovered[p], Handshaking, 0, SecurityOf(m, p).Noise?, info);
      n.(canonical := m.canonical[c := record], toCanonical := m.toCanonical[p := c],
         toProvisional := m.toProvisional[c := p])
  }

  function OnStatus(m: Manager, p: DeviceId, status: Status, entities: nat): Manager {
    var c := if p in m.toCanonical then m.toCanonical[p] else p;
    if c in m.canonical
    then m.(canonical := m.canonical[c := m.canonical[c].(status := status, entities := entities)])
    else m
  }

  /** The time since `then_`; a clock that went back counts as for ever. */
  predicate Elapsed(now: nat, since: nat, atLeast: nat) {
    now < since || now - since >= atLeast
  }

  function Aged(discovered: map<DeviceId, DiscoveredDevice>, now: nat): map<DeviceId, DiscoveredDevice> {
    map id | id in discovered :: Age(discovered[id], now)
  }

  function Age(d: DiscoveredDevice, now: nat): DiscoveredDevice {
    if Elapsed(now, d.lastSeen, STALE_SECS) then d.(stale := true) else d
  }

  predicate Evictable(m: Manager, d: DiscoveredDevice, now: nat) {
    d.stale && Elapsed(now, d.lastSeen, STALE_EVICTION_SECS) && d.deviceId !in m.toCanonical
  }

  function Evicted(m: Manager, now: nat): set<DeviceId> {
    set id | id in m.discovered && Evictable(m, m.discovered[id], now)
  }

  function Evict(m: Manager, ids: set<DeviceId>): Manager {
    StopAll(m.(discovered := m.discovered - ids), ids)
  }

  function OnCheck(m: Manager, now: nat): Manager {
    var n := m.(discovered := Aged(m.discovered, now));
    Evict(n, Evicted(n, now))
  }

  function OnStop(m: Manager): Manager {
    StopAll(m, m.sessions.Keys).(canonical := map[], restored := map[], toCanonical := map[], toProvisional := map[],
                                 stopped := true)
  }

  function Step(m: Manager, e: Event): Manager {
    match e
    case SetSecurity(id, config) => m.(security := m.security[id := config])
    case Seed(device) => m.(restored := m.restored[device.deviceId := device])
    case Announced(d, now) => OnAnnounced(m, d, now)
    case Removed(p) => OnRemoved(m, p)
    case Resolved(p, c, info) => OnResolved(m, p, c, info)
    case StatusChanged(p, status, entities) => OnStatus(m, p, status, entities)
    case CheckStaleness(now) => OnCheck(m, now)
    case Stop => OnStop(m)
  }

  /** A stopped manager handles nothing. */
  ghost predicate IsRun(start: Manager, events: seq<Event>, end: Manager)
    decreases |events|
  {
    if events == [] then start == end
    else !start.stopped && IsRun(Step(start, events[0]), events[1..], end)
  }

  // ---------------------------------------------------------------- what every message keeps

  ghost predicate Identities(canonical: map<DeviceId, ConnectedDevice>, toCanonical: map<DeviceId, DeviceId>,
                             toProvisional: map<DeviceId, DeviceId>) {
    && (forall p :: p in toCanonical ==> toCanonical[p] in toProvisional && toProvisional[toCanonical[p]] == p)
    && (forall c :: c in canonical <==> c in toProvisional)
    && (forall c :: c in canonical ==> canonical[c].deviceId == c && canonical[c].discovered.deviceId == toProvisional[c])
  }

  ghost predicate Filed(discovered: map<DeviceId, DiscoveredDevice>, restored: map<DeviceId, ConnectedDevice>) {
    && (forall p :: p in discovered ==> discovered[p].deviceId == p)
    && (forall c :: c in restored ==> restored[c].deviceId == c)
  }

  ghost predicate Within(discovered: set<DeviceId>, sessions: set<DeviceId>, resolved: set<DeviceId>, cap: nat) {
    && sessions <= discovered && resolved <= discovered
    && |discovered| <= MAX_DISCOVERED && |sessions| <= cap
  }

  ghost predicate Records(m: Manager) {
    && Filed(m.discovered, m.restored)
    && Within(m.discovered.Keys, m.sessions.Keys, m.toCanonical.Keys, SessionCap(m))
  }

  ghost predicate Runs(sessions: map<DeviceId, Session>, n: nat) {
    exists p :: p in sessions && sessions[p].number == n
  }

  /** Every session actor there has ever been is in the map, once, or was sent a stop. */
  ghost predicate Accounted(sessions: map<DeviceId, Session>, told: set<nat>, spawned: nat) {
    && (forall p :: p in sessions ==> sessions[p].number < spawned)
    && (forall p, q :: p in sessions && q in sessions && sessions[p].number == sessions[q].number ==> p == q)
    && (forall n :: n in told ==> n < spawned)
    && (forall n: nat :: n < spawned ==> n in told || Runs(sessions, n))
  }

  ghost predicate Inv(m: Manager) {
    Identities(m.canonical, m.toCanonical, m.toProvisional) && Records(m) && Accounted(m.sessions, m.told, m.spawned)
  }

  lemma TakenAccounted(sessions: map<DeviceId, Session>, told: set<nat>, spawned: nat, ids: set<DeviceId>)
    requires Accounted(sessions, told, spawned)
    ensures Accounted(sessions - ids, told + Numbers(sessions, ids), spawned)
  {
    hide Runs;
    var left, toldNow := sessions - ids, told + Numbers(sessions, ids);
    forall k: nat | k < spawned ensures k in toldNow || Runs(left, k) {
      if k !in told {
        StillRuns(sessions, ids, k);
      }
    }
  }

  lemma StillRuns(sessions: map<DeviceId, Session>, ids: set<DeviceId>, k: nat)
    requires Runs(sessions, k)
    ensures k in Numbers(sessions, ids) || Runs(sessions - ids, k)
  {
    var p :| p in sessions && sessions[p].number == k;
    if p !in ids {
      assert p in sessions - ids;
    }
  }

  lemma StopAllFrame(m: Manager, ids: set<DeviceId>)
    ensures var n := StopAll(m, ids);
      && n == m.(sessions := m.sessions - ids, told := m.told + Numbers(m.sessions, ids))
      && n.sessions.Keys == m.sessions.Keys - ids && |n.sessions| <= |m.sessions|
  {
    var n := StopAll(m, ids);
    assert n.sessions.Keys == m.sessions.Keys - ids;
    assert |n.sessions.Keys| <= |m.sessions.Keys|;
  }

  lemma SpawnedAccounted(sessions: map<DeviceId, Session>, told: set<nat>, spawned: nat, p: DeviceId, s: Session)
    requires Accounted(sessions, told, spawned) && p !in sessions && s.number == spawned
    ensures Accounted(sessions[p := s], told, spawned + 1)
  {
    hide Runs;
    var now := sessions[p := s];
    forall k: nat | k < spawned + 1 ensures k in told || Runs(now, k) {
      if k !in told {
        RunsOn(sessions, p, s, k);
      }
    }
  }

  lemma RunsOn(sessions: map<DeviceId, Session>, p: DeviceId, s: Session, k: nat)
    requires p !in sessions && (Runs(sessions, k) || k == s.number)
    ensures Runs(sessions[p := s], k)
  {
    var now := sessions[p := s];
    if k == s.number {
      assert p in now;
    } else {
      var q :| q in sessions && sessions[q].number == k;
      assert q in now;
    }
  }

  lemma InvOf(n: Manager)
    requires Filed(n.discovered, n.restored) && Identities(n.canonical, n.toCanonical, n.toProvisional)
    requires Within(n.discovered.Keys, n.sessions.Keys, n.toCanonical.Keys, SessionCap(n))
    requires Accounted(n.sessions, n.told, n.spawned)
    ensures Inv(n)
  {
  }

  lemma SpawnInv(m: Manager, p: DeviceId)
    requires Inv(m) && p !in m.discovered && |m.discovered| < MAX_DISCOVERED
    ensures var n := Spawn(m, p);
      && Within(m.discovered.Keys + {p}, n.sessions.Keys, m.toCanonical.Keys, SessionCap(m))
      && Accounted(n.sessions, n.told, n.spawned)
      && n == m.(sessions := n.sessions, spawned := n.spawned)
  {
    hide Accounted, Identities, SecurityOf, Within, Filed;
    OneMore(m.discovered.Keys, m.sessions.Keys, m.toCanonical.Keys, SessionCap(m), p);
    if CanSpawn(m, p) {
      var s := Session(m.spawned, SecurityOf(m, p));
      assert m.sessions[p := s].Keys == m.sessions.Keys + {p};
      SpawnedAccounted(m.sessions, m.told, m.spawned, p, s);
    }
  }

  lemma AnnouncedInv(m: Manager, d: DiscoveredDevice, now: nat)
    requires Inv(m)
    ensures Inv(OnAnnounced(m, d, now))
  {
    hide Inv, Spawn;
    var p := d.deviceId;
    if p in m.discovered {
      RefiledInv(m, m.discovered[p].(lastSeen := now, stale := false), p);
    } else if |m.discovered| < MAX_DISCOVERED {
      EnrolledInv(m, d);
    }
  }

  /** A record may be marked; it stays filed under its own id. */
  lemma RefiledInv(m: Manager, marked: DiscoveredDevice, p: DeviceId)
    requires Inv(m) && p in m.discovered && marked.deviceId == m.discovered[p].deviceId
    ensures Inv(m.(discovered := m.discovered[p := marked]))
  {
    hide Accounted, Identities, Within, Filed;
    FiledUnder(m.discovered, m.restored, p);
    Refile(m.discovered, m.restored, marked);
    assert m.discovered[p := marked].Keys == m.discovered.Keys;
    InvOf(m.(discovered := m.discovered[p := marked]));
  }

  lemma EnrolledInv(m: Manager, d: DiscoveredDevice)
    requires Inv(m) && d.deviceId !in m.discovered && |m.discovered| < MAX_DISCOVERED
    ensures var n := Spawn(m, d.deviceId); Inv(n.(discovered := n.discovered[d.deviceId := d]))
  {
    hide Accounted, Identities, Within, Filed, Spawn, SessionCap;
    var p := d.deviceId;
    var n := Spawn(m, p);
    SpawnInv(m, p);
    Refile(m.discovered, m.restored, d);
    assert m.discovered[p := d].Keys == m.discovered.Keys + {p};
    SameCap(m, n.(discovered := n.discovered[p := d]));
    InvOf(n.(discovered := n.discovered[p := d]));
  }

  lemma SameCap(m: Manager, n: Manager)
    requires m.maxDevices == n.maxDevices
    ensures SessionCap(m) == SessionCap(n)
  {
  }

  lemma FiledLess(discovered: map<DeviceId, DiscoveredDevice>, restored: map<DeviceId, ConnectedDevice>, ids: set<DeviceId>)
    requires Filed(discovered, restored)
    ensures Filed(discovered - ids, restored) && Filed(discovered, restored - ids)
    ensures (discovered - ids).Keys == discovered.Keys - ids
  {
  }

  lemma FiledUnder(discovered: map<DeviceId, DiscoveredDevice>, restored: map<DeviceId, ConnectedDevice>, p: DeviceId)
    requires Filed(discovered, restored) && p in discovered
    ensures discovered[p].deviceId == p
  {
  }

  lemma Refile(discovered: map<DeviceId, DiscoveredDevice>, restored: map<DeviceId, ConnectedDevice>, d: DiscoveredDevice)
    requires Filed(discovered, restored)
    ensures Filed(discovered[d.deviceId := d], restored)
  {
  }

  lemma OneMore(discovered: set<DeviceId>, sessions: set<DeviceId>, resolved: set<DeviceId>, cap: nat, p: DeviceId)
    requires Within(discovered, sessions, resolved, cap) && |discovered| < MAX_DISCOVERED
    ensures Within(discovered + {p}, sessions, resolved, cap)
    ensures |sessions| < cap ==> Within(discovered + {p}, sessions + {p}, resolved, cap)
  {
  }

  lemma Fewer(discovered: set<DeviceId>, sessions: set<DeviceId>, resolved: set<DeviceId>, cap: nat, ids: set<DeviceId>)
    requires Within(discovered, sessions, resolved, cap)
    ensures Within(discovered - ids, sessions - ids, resolved - ids, cap)
  {
    assert |discovered - ids| <= |discovered|;
    assert |sessions - ids| <= |sessions|;
  }

  lemma ForgetIdentities(m: Manager, p: DeviceId)
    requires Identities(m.canonical, m.toCanonical, m.toProvisional)
    ensures var n := Forget(m, p);
      && Identities(n.canonical, n.toCanonical, n.toProvisional) && n.toCanonical.Keys == m.toCanonical.Keys - {p}
      && n == m.(canonical := n.canonical, toCanonical := n.toCanonical, toProvisional := n.toProvisional)
  {
    var n := Forget(m, p);
    if p in m.toCanonical {
      assert n.canonical.Keys == m.canonical.Keys - {m.toCanonical[p]};
      assert n.toProvisional.Keys == m.toProvisional.Keys - {m.toCanonical[p]};
    }
  }

  lemma RemovedInv(m: Manager, p: DeviceId)
    requires Inv(m)
    ensures Inv(OnRemoved(m, p))
  {
    hide Accounted, Identities, StopAll, Within, Filed, Forget, IsActive;
    if IsActive(m, p) {
      if p in m.discovered {
        RefiledInv(m, m.discovered[p].(stale := true), p);
      }
    } else {
      var base := m.(discovered := m.discovered - {p});
      ForgetIdentities(base, p);
      FiledLess(m.discovered, m.restored, {p});
      TakenInv(m, Forget(base, p), {p});
    }
  }

  /** Taking some records out, with their sessions. */
  lemma TakenInv(m: Manager, left: Manager, ids: set<DeviceId>)
    requires Inv(m) && Identities(left.canonical, left.toCanonical, left.toProvisional)
    requires left == m.(discovered := left.discovered, canonical := left.canonical,
                        toCanonical := left.toCanonical, toProvisional := left.toProvisional)
    requires left.discovered.Keys == m.discovered.Keys - ids && left.toCanonical.Keys == m.toCanonical.Keys - ids
    requires Filed(left.discovered, left.restored)
    ensures Inv(StopAll(left, ids))
  {
    hide Accounted, Identities, StopAll, Within, Filed;
    Fewer(m.discovered.Keys, m.sessions.Keys, m.toCanonical.Keys, SessionCap(m), ids);
    StopAllFrame(left, ids);
    TakenAccounted(m.sessions, m.told, m.spawned, ids);
    InvOf(StopAll(left, ids));
  }

  lemma ToldMore(sessions: map<DeviceId, Session>, told: set<nat>, spawned: nat, p: DeviceId)
    requires Accounted(sessions, told, spawned) && p in sessions
    ensures Accounted(sessions, told + {sessions[p].number}, spawned)
  {
    hide Runs;
  }

  lemma ResolvedIdentities(canonical: map<DeviceId, ConnectedDevice>, toCanonical: map<DeviceId, DeviceId>,
                           toProvisional: map<DeviceId, DeviceId>, p: DeviceId, record: ConnectedDevice)
    requires Identities(canonical, toCanonical, toProvisional)
    requires record.deviceId !in canonical && record.discovered.deviceId == p
    ensures var c := record.deviceId;
      Identities(canonical[c := record], toCanonical[p := c], toProvisional[c := p])
  {
  }

  lemma ResolvedInv(m: Manager, p: DeviceId, c: DeviceId, info: int)
    requires Inv(m)
    ensures Inv(OnResolved(m, p, c, info))
  {
    hide Accounted, SecurityOf, Identities, Filed, Within;
    FiledLess(m.discovered, m.restored, {c});
    var n := m.(restored := m.restored - {c});
    InvOf(n);
    if c in m.canonical {
      if p in m.sessions {
        ToldMore(m.sessions, m.told, m.spawned, p);
        InvOf(Tell(n, p));
      }
    } else if p in m.discovered {
      OwnedInv(n, p, ConnectedDevice(c, m.discovered[p], Handshaking, 0, SecurityOf(m, p).Noise?, info));
    }
  }

  lemma OwnedInv(m: Manager, p: DeviceId, record: ConnectedDevice)
    requires Inv(m) && p in m.discovered && record.deviceId !in m.canonical && record.discovered == m.discovered[p]
    ensures var c := record.deviceId;
      Inv(m.(canonical := m.canonical[c := record], toCanonical := m.toCanonical[p := c],
             toProvisional := m.toProvisional[c := p]))
  {
    hide Accounted, Identities, Filed, Within, SessionCap;
    var c := record.deviceId;
    FiledUnder(m.discovered, m.restored, p);
    assert m.toCanonical[p := c].Keys == m.toCanonical.Keys + {p};
    OneResolved(m.discovered.Keys, m.sessions.Keys, m.toCanonical.Keys, SessionCap(m), p);
    ResolvedIdentities(m.canonical, m.toCanonical, m.toProvisional, p, record);
    var n := m.(canonical := m.canonical[c := record], toCanonical := m.toCanonical[p := c],
                toProvisional := m.toProvisional[c := p]);
    SameCap(m, n);
    InvOf(n);
  }

  lemma OneResolved(discovered: set<DeviceId>, sessions: set<DeviceId>, resolved: set<DeviceId>, cap: nat, p: DeviceId)
    requires Within(discovered, sessions, resolved, cap) && p in discovered
    ensures Within(discovered, sessions, resolved + {p}, cap)
  {
  }

  lemma StatusInv(m: Manager, p: DeviceId, status: Status, entities: nat)
    requires Inv(m)
    ensures Inv(OnStatus(m, p, status, entities))
  {
    hide Accounted, Identities, Filed, Within, SessionCap;
    var n := OnStatus(m, p, status, entities);
    StatusFrame(m, p, status, entities);
    SameCap(m, n);
    UpdatedIdentities(m, p, status, entities);
    InvOf(n);
  }

  lemma UpdatedIdentities(m: Manager, p: DeviceId, status: Status, entities: nat)
    requires Identities(m.canonical, m.toCanonical, m.toProvisional)
    ensures var n := OnStatus(m, p, status, entities); Identities(n.canonical, n.toCanonical, n.toProvisional)
  {
  }

  lemma AgedFiled(m: Manager, now: nat)
    requires Inv(m)
    ensures var aged := m.(discovered := Aged(m.discovered, now));
      && Filed(aged.discovered, m.restored) && aged.discovered.Keys == m.discovered.Keys
      && Evicted(aged, now) !! m.toCanonical.Keys
  {
    hide Accounted, Identities, Within, Elapsed;
  }

  lemma CheckInv(m: Manager, now: nat)
    requires Inv(m)
    ensures Inv(OnCheck(m, now))
  {
    hide Accounted, Identities, StopAll, Within, Filed, Aged, Evicted;
    AgedFiled(m, now);
    var aged := m.(discovered := Aged(m.discovered, now));
    var ids := Evicted(aged, now);
    FiledLess(aged.discovered, m.restored, ids);
    assert m.toCanonical.Keys - ids == m.toCanonical.Keys;
    TakenInv(m, aged.(discovered := aged.discovered - ids), ids);
  }

  lemma StopInv(m: Manager)
    requires Inv(m)
    ensures Inv(OnStop(m))
  {
    hide Accounted, Numbers;
    StopAllFrame(m, m.sessions.Keys);
    TakenAccounted(m.sessions, m.told, m.spawned, m.sessions.Keys);
  }

  lemma StepInv(m: Manager, e: Event)
    requires Inv(m)
    ensures Inv(Step(m, e))
  {
    hide Accounted, Identities, OnAnnounced, OnRemoved, OnResolved, OnStatus, OnCheck, OnStop;
    match e
    case Announced(d, now) => AnnouncedInv(m, d, now);
    case Removed(p) => RemovedInv(m, p);
    case Resolved(p, c, info) => ResolvedInv(m, p, c, info);
    case StatusChanged(p, status, entities) => StatusInv(m, p, status, entities);
    case CheckStaleness(now) => CheckInv(m, now);
    case Stop => StopInv(m);
    case _ =>
  }

  lemma NewInv(maxDevices: nat, connectionsPerDevice: nat)
    ensures Inv(New(maxDevices, connectionsPerDevice))
  {
  }

  lemma {:induction false} RunInv(start: Manager, events: seq<Event>, end: Manager)
    requires Inv(start) && IsRun(start, events, end)
    ensures Inv(end)
    decreases |events|
  {
    hide Inv, Step;
    if events != [] {
      StepInv(start, events[0]);
      RunInv(Step(start, events[0]), events[1..], end);
    }
  }

  /** Over every sequence of messages the maps fit together and stay within their bounds. */
  lemma MapsStayConsistent(maxDevices: nat, connectionsPerDevice: nat, events: seq<Event>, m: Manager)
    requires IsRun(New(maxDevices, connectionsPerDevice), events, m)
    ensures Inv(m)
    ensures forall p :: p in m.toCanonical ==>
      var c := m.toCanonical[p]; c in m.toProvisional && m.toProvisional[c] == p && c in m.canonical
    ensures m.canonical.Keys == m.toProvisional.Keys
    ensures m.sessions.Keys <= m.discovered.Keys && m.toCanonical.Keys <= m.discovered.Keys
    ensures |m.discovered| <= MAX_DISCOVERED && |m.sessions| <= SessionCap(m)
    ensures forall n: nat :: n < m.spawned ==> n in m.told || Runs(m.sessions, n)
  {
    NewInv(maxDevices, connectionsPerDevice);
    RunInv(New(maxDevices, connectionsPerDevice), events, m);
  }

  // ---------------------------------------------------------------- who answers to an id

  datatype Answer =
    | Live(device: ConnectedDevice)
    | Seen(found: DiscoveredDevice)
    | Kept(device: ConnectedDevice)
    | Nothing

  /** What `GetStatus` may answer: one id can be that of several restored records. */
  ghost predicate Answers(m: Manager, id: DeviceId, r: Answer) {
    if id in m.canonical then r == Live(m.canonical[id])
    else if id in m.toCanonical && m.toCanonical[id] in m.canonical then r == Live(m.canonical[m.toCanonical[id]])
    else if id in m.discovered then r == Seen(m.discovered[id])
    else if id in m.restored then r == Kept(m.restored[id])
    else match r
         case Kept(device) =>
           device.deviceId in m.restored && m.restored[device.deviceId] == device && device.discovered.deviceId == id
         case Nothing => forall c :: c in m.restored ==> m.restored[c].discovered.deviceId != id
         case _ => false
  }

  /** What the sender of a command hears. */
  datatype Reply = Accepted | SessionNotActive | Refused(error: int)

  /** The id a command is routed by. */
  function Route(m: Manager, id: DeviceId): DeviceId {
    if id in m.toProvisional then m.toProvisional[id] else id
  }

  /** A status that is not merely restored is that of the device whose session a command
      for the same id goes to, and an id a session answers to has such a status. */
  lemma StatusAndCommandAgree(m: Manager, id: DeviceId, r: Answer)
    requires Inv(m) && Answers(m, id, r)
    ensures r.Live? ==> r.device.discovered.deviceId == Route(m, id)
    ensures r.Seen? ==> r.found.deviceId == Route(m, id)
    ensures Route(m, id) in m.sessions ==> r.Live? || r.Seen?
  {
    hide Accounted;
  }

  // ---------------------------------------------------------------- duplicates

  /** Another session than that of `p` owns the identity. */
  predicate OwnedByOther(m: Manager, p: DeviceId, c: DeviceId) {
    c in m.toProvisional && m.toProvisional[c] != p
  }

  /** A session is told to stop when it resolves to a known identity, which is meant for
      redundant sessions; it is not one if the session owns the identity itself. */
  lemma StopsOnlyRedundantIff(m: Manager, p: DeviceId, c: DeviceId, info: int)
    requires Inv(m) && p in m.sessions && m.sessions[p].number !in m.told
    ensures var n := Step(m, Resolved(p, c, info));
      && (m.sessions[p].number in n.told <==> c in m.canonical)
      && n.sessions == m.sessions
      && ((m.sessions[p].number in n.told ==> OwnedByOther(m, p, c))
          <==> !(c in m.toProvisional && m.toProvisional[c] == p))
  {
    hide Accounted;
  }

  /** An identity whose owner has since taken on another. */
  predicate Orphan(m: Manager, c: DeviceId) {
    c in m.toProvisional && !(m.toProvisional[c] in m.toCanonical && m.toCanonical[m.toProvisional[c]] == c)
  }

  /** The two identity maps are inverse except where a session that has an identity
      resolves to a new one: that, and nothing else, leaves its old identity orphaned. */
  lemma OrphanedExactly(m: Manager, e: Event, x: DeviceId)
    requires Inv(m) && !Orphan(m, x)
    ensures Orphan(Step(m, e), x)
      <==> e.Resolved? && e.c !in m.canonical && e.p in m.toCanonical && m.toCanonical[e.p] == x
  {
    hide Accounted, Within, Filed, Step, IsActive;
    IdentityFrame(m, e);
    if e.Resolved? && e.p in m.toCanonical {
      ResolvedOnRecord(m, e.p);
    }
  }

  lemma ResolvedOnRecord(m: Manager, p: DeviceId)
    requires Inv(m) && p in m.toCanonical
    ensures p in m.discovered
  {
  }

  lemma OrphanStays(m: Manager, e: Event, x: DeviceId)
    requires Inv(m) && Orphan(m, x) && !e.Stop?
    ensures Orphan(Step(m, e), x)
  {
    hide Accounted, Records, Step, IsActive;
    IdentityFrame(m, e);
  }

  /** What a message does to the identity maps. */
  lemma IdentityFrame(m: Manager, e: Event)
    ensures var n := Step(m, e);
      match e
      case Removed(p) =>
        var f := if IsActive(m, p) then m else Forget(m, p);
        n.toCanonical == f.toCanonical && n.toProvisional == f.toProvisional
      case Resolved(p, c, _) =>
        if c in m.canonical || p !in m.discovered
        then n.toCanonical == m.toCanonical && n.toProvisional == m.toProvisional
        else n.toCanonical == m.toCanonical[p := c] && n.toProvisional == m.toProvisional[c := p]
      case Stop => n.toCanonical == map[] && n.toProvisional == map[]
      case _ => n.toCanonical == m.toCanonical && n.toProvisional == m.toProvisional
  {
    hide CanSpawn, Aged, Evicted, IsActive, Forget, Numbers, OnAnnounced, OnCheck, OnRemoved, OnResolved, OnStatus;
    match e
    case Announced(d, now) => AnnouncedFrame(m, d, now);
    case CheckStaleness(now) => CheckFrame(m, now);
    case Removed(p) => RemovedFrame(m, p);
    case Resolved(p, c, info) => ResolvedFrame(m, p, c, info);
    case StatusChanged(p, status, entities) => StatusFrame(m, p, status, entities);
    case _ =>
  }

  lemma AnnouncedFrame(m: Manager, d: DiscoveredDevice, now: nat)
    ensures var n := OnAnnounced(m, d, now);
      && n == m.(discovered := n.discovered, sessions := n.sessions, spawned := n.spawned)
      && n.sessions == (if d.deviceId !in m.discovered && |m.discovered| < MAX_DISCOVERED
                        then Spawn(m, d.deviceId).sessions else m.sessions)
  {
    hide Spawn;
    SpawnFrame(m, d.deviceId);
    var n, p := OnAnnounced(m, d, now), d.deviceId;
    if p in m.discovered {
      assert n == m.(discovered := n.discovered);
    } else if |m.discovered| < MAX_DISCOVERED {
      assert n == Spawn(m, p).(discovered := n.discovered);
    }
  }

  lemma SpawnFrame(m: Manager, p: DeviceId)
    ensures var n := Spawn(m, p); n == m.(sessions := n.sessions, spawned := n.spawned)
  {
    hide CanSpawn, SecurityOf;
  }

  lemma CheckFrame(m: Manager, now: nat)
    ensures var n, ids := OnCheck(m, now), Evicted(m.(discovered := Aged(m.discovered, now)), now);
      && n == m.(discovered := n.discovered, sessions := m.sessions - ids, told := m.told + Numbers(m.sessions, ids))
  {
    hide Aged, Evicted, Numbers;
  }

  lemma RemovedFrame(m: Manager, p: DeviceId)
    ensures var n, f := OnRemoved(m, p), if IsActive(m, p) then m else Forget(m, p);
      var ids := if IsActive(m, p) then {} else {p};
      && n.toCanonical == f.toCanonical && n.toProvisional == f.toProvisional
      && n.sessions == m.sessions - ids && n.told >= m.told + Numbers(m.sessions, ids)
  {
    hide IsActive, Forget, StopAll;
    if IsActive(m, p) {
      assert m.sessions - {} == m.sessions && Numbers(m.sessions, {}) == {};
    } else {
      hide Numbers;
      ForgetFrame(m, m.discovered - {p}, p);
      StopAllFrame(Forget(m.(discovered := m.discovered - {p}), p), {p});
    }
  }

  lemma ForgetFrame(m: Manager, discovered: map<DeviceId, DiscoveredDevice>, p: DeviceId)
    ensures var n, f := Forget(m.(discovered := discovered), p), Forget(m, p);
      && n.toCanonical == f.toCanonical && n.toProvisional == f.toProvisional
      && n.sessions == m.sessions && n.told == m.told && n.restored == m.restored
      && n.canonical == if p in m.toCanonical then m.canonical - {m.toCanonical[p]} else m.canonical
  {
  }

  lemma ResolvedFrame(m: Manager, p: DeviceId, c: DeviceId, info: int)
    ensures var n := OnResolved(m, p, c, info);
      && n.sessions == m.sessions && n.discovered == m.discovered && n.stopped == m.stopped
      && (c !in m.canonical ==> n.told == m.told)
      && (if c in m.canonical || p !in m.discovered
          then n.toCanonical == m.toCanonical && n.toProvisional == m.toProvisional
          else n.toCanonical == m.toCanonical[p := c] && n.toProvisional == m.toProvisional[c := p])
  {
    hide SecurityOf, Tell;
    TellFrame(m.(restored := m.restored - {c}), p);
  }

  lemma StatusFrame(m: Manager, p: DeviceId, status: Status, entities: nat)
    ensures var n := OnStatus(m, p, status, entities); n == m.(canonical := n.canonical)
  {
  }

  lemma FirstAnnounced(maxDevices: nat, connectionsPerDevice: nat, d: DiscoveredDevice, now: nat)
    ensures var n := OnAnnounced(New(maxDevices, connectionsPerDevice), d, now);
      && !New(maxDevices, connectionsPerDevice).stopped && !n.stopped && n.discovered == map[d.deviceId := d]
      && n.canonical == map[] && n.toCanonical == map[] && n.toProvisional == map[] && n.told == {}
      && (maxDevices > 0 && connectionsPerDevice > 0 ==> n.sessions == map[d.deviceId := Session(0, Cleartext)])
  {
  }

  /** Three messages lead to an orphan: a device is announced and its session resolves to one
      identity and then to another. */
  lemma OrphanReachable(maxDevices: nat, connectionsPerDevice: nat, d: DiscoveredDevice, now: nat,
                        c1: DeviceId, c2: DeviceId, info: int) returns (m: Manager)
    requires c1 != c2
    ensures var events := [Announced(d, now), Resolved(d.deviceId, c1, info), Resolved(d.deviceId, c2, info)];
      IsRun(New(maxDevices, connectionsPerDevice), events, m)
    ensures Inv(m) && Orphan(m, c1) && !Orphan(m, c2)
  {
    var start, p := New(maxDevices, connectionsPerDevice), d.deviceId;
    var events := [Announced(d, now), Resolved(p, c1, info), Resolved(p, c2, info)];
    hide OnAnnounced, OnResolved, New;
    FirstAnnounced(maxDevices, connectionsPerDevice, d, now);
    var one := Step(start, events[0]);
    var two := Step(one, events[1]);
    ResolvedFrame(one, p, c1, info);
    ResolvedRecords(one, p, c1, info);
    assert two.canonical.Keys == {c1};
    m := Step(two, events[2]);
    ResolvedFrame(two, p, c2, info);
    assert events[1..] == [events[1], events[2]] && events[1..][1..] == [events[2]] && [events[2]][1..] == [];
    assert m.toCanonical[p] == c2 && m.toProvisional[c1] == p && m.toProvisional[c2] == p;
    hide Step, Inv;
    assert IsRun(m, [], m);
    assert IsRun(two, [events[2]], m);
    assert IsRun(one, events[1..], m);
    NewInv(maxDevices, connectionsPerDevice);
    RunInv(start, events, m);
  }

  /** An orphaned identity keeps its record for as long as the manager runs. */
  lemma {:induction false} OrphanForever(start: Manager, events: seq<Event>, end: Manager, x: DeviceId)
    requires Inv(start) && Orphan(start, x) && IsRun(start, events, end) && Stop !in events
    ensures Inv(end) && Orphan(end, x) && x in end.canonical
    decreases |events|
  {
    hide Accounted, Step, Records;
    if events != [] {
      assert events[0] in events;
      StepInv(start, events[0]);
      OrphanStays(start, events[0], x);
      OrphanForever(Step(start, events[0]), events[1..], end, x);
    }
  }

  // ---------------------------------------------------------------- sessions come and go

  /** The devices whose sessions a message ends. */
  function Dropped(m: Manager, e: Event): set<DeviceId> {
    match e
    case Removed(p) => if IsActive(m, p) then {} else {p}
    case CheckStaleness(now) => Evicted(m.(discovered := Aged(m.discovered, now)), now)
    case Stop => m.sessions.Keys
    case _ => {}
  }

  /** What a message does to the sessions: whoever is dropped is told to stop. */
  lemma SessionFrame(m: Manager, e: Event)
    ensures var n := Step(m, e);
      if e.Announced? then
        n.sessions == if e.found.deviceId !in m.discovered && |m.discovered| < MAX_DISCOVERED
                      then Spawn(m, e.found.deviceId).sessions else m.sessions
      else n.sessions == m.sessions - Dropped(m, e) && n.told >= Numbers(m.sessions, Dropped(m, e))
  {
    hide CanSpawn, Evicted, Aged, IsActive, Forget, Spawn, OnAnnounced, OnCheck, OnRemoved, OnResolved, OnStatus;
    assert m.sessions - {} == m.sessions && Numbers(m.sessions, {}) == {};
    hide Numbers;
    match e
    case Announced(d, now) => AnnouncedFrame(m, d, now);
    case CheckStaleness(now) => CheckFrame(m, now);
    case Removed(p) => RemovedFrame(m, p);
    case Resolved(p, c, info) => ResolvedFrame(m, p, c, info);
    case StatusChanged(p, status, entities) => StatusFrame(m, p, status, entities);
    case _ =>
  }

  /** A session is spawned for a device that is new on the network, if there is room. */
  lemma SessionGainedIff(m: Manager, e: Event, p: DeviceId)
    requires p !in m.sessions
    ensures p in Step(m, e).sessions
      <==> e.Announced? && e.found.deviceId == p && p !in m.discovered && |m.discovered| < MAX_DISCOVERED && CanSpawn(m, p)
  {
    hide Step, CanSpawn, IsActive, Evicted, Aged, Numbers, SecurityOf;
    SessionFrame(m, e);
  }

  /** Where a device is still on record, announcing it again does not give it a session:
      one that found no room when it was first seen stays without, however much room
      there is later. */
  lemma {:induction false} NoSecondChance(start: Manager, events: seq<Event>, end: Manager, p: DeviceId)
    requires IsRun(start, events, end) && StaysOnRecord(start, events, p) && p !in start.sessions
    ensures p !in end.sessions
    decreases |events|
  {
    hide Step;
    if events != [] {
      SessionGainedIff(start, events[0], p);
      NoSecondChance(Step(start, events[0]), events[1..], end, p);
    }
  }

  /** A session is given up when the manager stops, when its device is withdrawn and not
      active, and when its device has not been heard of for ten minutes (or the clock has
      gone back) and never got an identity. Silence never ends an active session. */
  lemma SessionLostIff(m: Manager, e: Event, p: DeviceId)
    requires Inv(m) && p in m.sessions
    ensures p !in Step(m, e).sessions
      <==> (|| e.Stop?
            || (e.Removed? && e.p == p && !IsActive(m, p))
            || (e.CheckStaleness? && p !in m.toCanonical
                && Elapsed(e.now, m.discovered[p].lastSeen, STALE_EVICTION_SECS)))
    ensures p !in Step(m, e).sessions ==> m.sessions[p].number in Step(m, e).told
    ensures p in Step(m, e).sessions ==> Step(m, e).sessions[p] == m.sessions[p]
  {
    hide Inv, Step, CanSpawn, Evicted, Aged, IsActive, Elapsed, Numbers;
    SessionFrame(m, e);
    SessionsOnRecord(m, p);
    assert forall ids: set<DeviceId> :: p in ids ==> m.sessions[p].number in Numbers(m.sessions, ids) by {
      NumberTaken(m.sessions, p);
    }
    if e.CheckStaleness? {
      CheckLoses(m, e.now, p);
    }
  }

  lemma SessionsOnRecord(m: Manager, p: DeviceId)
    requires Inv(m) && p in m.sessions
    ensures p in m.discovered
  {
  }

  lemma NumberTaken(sessions: map<DeviceId, Session>, p: DeviceId)
    requires p in sessions
    ensures forall ids: set<DeviceId> :: p in ids ==> sessions[p].number in Numbers(sessions, ids)
  {
  }

  lemma CheckLoses(m: Manager, now: nat, p: DeviceId)
    requires Inv(m) && p in m.sessions
    ensures p in Evicted(m.(discovered := Aged(m.discovered, now)), now)
      <==> p !in m.toCanonical && Elapsed(now, m.discovered[p].lastSeen, STALE_EVICTION_SECS)
  {
    hide Accounted, Identities;
  }

  // ---------------------------------------------------------------- listing

  predicate IsListed(m: Manager, c: DeviceId) {
    c in m.canonical || c in m.restored
  }

  /** An identity ceases to be listed exactly on Stop, when its device is withdrawn while not
      active and nothing was restored for it, or when a session resolves to it whose device is
      no longer on record, which loses a restored device; and it comes to be listed exactly by
      being restored, or by a session resolving to it whose device is on record. */
  lemma ListedIff(m: Manager, e: Event, c: DeviceId)
    requires Inv(m)
    ensures IsListed(m, c) ==>
      (!IsListed(Step(m, e), c)
       <==> (|| e.Stop?
             || (e.Resolved? && e.c == c && c !in m.canonical && e.p !in m.discovered)
             || (e.Removed? && !IsActive(m, e.p) && e.p in m.toCanonical && m.toCanonical[e.p] == c && c !in m.restored)))
    ensures !IsListed(m, c) ==>
      (IsListed(Step(m, e), c)
       <==> (e.Seed? && e.device.deviceId == c) || (e.Resolved? && e.c == c && e.p in m.discovered))
  {
    hide Inv, IsActive, OnAnnounced, OnCheck, OnRemoved, OnResolved, OnStatus, Numbers, Evicted, Aged, Spawn;
    match e
    case Announced(d, now) => AnnouncedFrame(m, d, now);
    case CheckStaleness(now) => CheckFrame(m, now);
    case Removed(p) => RemovedRecords(m, p);
    case Resolved(p, k, info) => ResolvedRecords(m, p, k, info);
    case StatusChanged(p, status, entities) => StatusRecords(m, p, status, entities);
    case _ =>
  }

  lemma RemovedRecords(m: Manager, p: DeviceId)
    ensures var n := OnRemoved(m, p);
      && n.restored == m.restored
      && n.canonical == if !IsActive(m, p) && p in m.toCanonical then m.canonical - {m.toCanonical[p]} else m.canonical
  {
    hide IsActive, StopAll, Forget, Numbers;
    if !IsActive(m, p) {
      ForgetFrame(m, m.discovered - {p}, p);
      StopAllFrame(Forget(m.(discovered := m.discovered - {p}), p), {p});
    }
  }

  lemma ResolvedRecords(m: Manager, p: DeviceId, c: DeviceId, info: int)
    ensures var n := OnResolved(m, p, c, info);
      && n.restored == m.restored - {c}
      && (p !in m.discovered || c in m.canonical ==> n.canonical == m.canonical)
      && (p in m.discovered ==> n.canonical.Keys == m.canonical.Keys + {c})
  {
    hide SecurityOf, Tell;
    if c in m.canonical {
      TellFrame(m.(restored := m.restored - {c}), p);
      assert m.canonical.Keys + {c} == m.canonical.Keys;
    } else if p in m.discovered {
      assert OnResolved(m, p, c, info).canonical.Keys == m.canonical.Keys + {c};
    }
  }

  lemma TellFrame(m: Manager, p: DeviceId)
    ensures var n := Tell(m, p); n == m.(told := n.told)
  {
  }

  lemma StatusRecords(m: Manager, p: DeviceId, status: Status, entities: nat)
    ensures var n := OnStatus(m, p, status, entities); n.restored == m.restored && n.canonical.Keys == m.canonical.Keys
  {
  }

  // ---------------------------------------------------------------- reconnecting

  /** The identity is filed under p, and p has a session. */
  predicate Owns(m: Manager, p: DeviceId, c: DeviceId) {
    c in m.toProvisional && m.toProvisional[c] == p && p in m.toCanonical && p in m.sessions
  }

  /** The manager does not stop, and the device is withdrawn only while it is active. */
  predicate Undisturbed(start: Manager, events: seq<Event>, p: DeviceId)
    decreases |events|
  {
    events != [] ==>
      && !events[0].Stop?
      && (events[0].Removed? && events[0].p == p ==> IsActive(start, p))
      && Undisturbed(Step(start, events[0]), events[1..], p)
  }

  lemma StepOwns(m: Manager, e: Event, p: DeviceId, c: DeviceId)
    requires Inv(m) && Owns(m, p, c) && !e.Stop? && (e.Removed? && e.p == p ==> IsActive(m, p))
    ensures Owns(Step(m, e), p, c) && Step(m, e).sessions[p] == m.sessions[p]
  {
    hide Accounted, Records, Step, IsActive;
    IdentityFrame(m, e);
    SessionLostIff(m, e, p);
  }

  lemma {:induction false} RunOwns(start: Manager, events: seq<Event>, end: Manager, p: DeviceId, c: DeviceId)
    requires Inv(start) && Owns(start, p, c) && IsRun(start, events, end) && Undisturbed(start, events, p)
    ensures Inv(end) && Owns(end, p, c) && end.sessions[p] == start.sessions[p]
    decreases |events|
  {
    hide Inv, Owns, Step, IsActive;
    if events != [] {
      assert Owns(start, p, c) ==> p in start.sessions by { OwnerHasSession(start, p, c); }
      StepInv(start, events[0]);
      StepOwns(start, events[0], p, c);
      RunOwns(Step(start, events[0]), events[1..], end, p, c);
    }
    OwnerHasSession(end, p, c);
  }

  lemma OwnerHasSession(m: Manager, p: DeviceId, c: DeviceId)
    ensures Owns(m, p, c) ==> p in m.sessions
  {
  }

  lemma ToldGrows(m: Manager, e: Event)
    ensures m.told <= Step(m, e).told
  {
    hide OnAnnounced, OnCheck, OnRemoved, Evicted, Aged, Numbers, SecurityOf, IsActive;
    match e
    case Announced(d, now) => AnnouncedFrame(m, d, now);
    case CheckStaleness(now) => CheckFrame(m, now);
    case Removed(p) => RemovedFrame(m, p);
    case _ =>
  }

  ghost predicate StaysOnRecord(start: Manager, events: seq<Event>, p: DeviceId)
    decreases |events|
  {
    p in start.discovered && (events != [] ==> StaysOnRecord(Step(start, events[0]), events[1..], p))
  }

  /** While a device stays on record it has the session it has, or none from then on. */
  lemma {:induction false} SameSessionOnRecord(start: Manager, events: seq<Event>, end: Manager, p: DeviceId)
    requires Inv(start) && IsRun(start, events, end) && StaysOnRecord(start, events, p)
    ensures start.told <= end.told
    ensures p in end.sessions ==> p in start.sessions && end.sessions[p] == start.sessions[p]
    decreases |events|
  {
    hide Inv, Step;
    if events != [] {
      var e := events[0];
      StepInv(start, e);
      ToldGrows(start, e);
      if p in start.sessions {
        SessionLostIff(start, e, p);
      } else {
        NoSecondChance(start, events, end, p);
      }
      SameSessionOnRecord(Step(start, e), events[1..], end, p);
    }
  }

  /** A device whose session owns its identity keeps that session through every run on which
      it is not disturbed. When the session then reconnects and resolves again, it is told to
      stop, while the map keeps it; and from then on, for as long as the device stays on
      record and whatever else happens, it has no session that was not told to stop. */
  lemma ReconnectEndsTheLink(start: Manager, before: seq<Event>, m: Manager, p: DeviceId, c: DeviceId, info: int,
                             after: seq<Event>, end: Manager)
    requires Inv(start) && Owns(start, p, c)
    requires IsRun(start, before, m) && Undisturbed(start, before, p)
    requires IsRun(Step(m, Resolved(p, c, info)), after, end) && StaysOnRecord(Step(m, Resolved(p, c, info)), after, p)
    ensures var n := Step(m, Resolved(p, c, info));
      && n.sessions == m.sessions && p in m.sessions && m.sessions[p] == start.sessions[p]
      && m.sessions[p].number in n.told
    ensures p in end.sessions ==> end.sessions[p] == start.sessions[p] && end.sessions[p].number in end.told
  {
    var e := Resolved(p, c, info);
    RunOwns(start, before, m, p, c);
    OwnerIsTold(m, p, c, info);
    hide Inv, Step, Owns;
    StepInv(m, e);
    SameSessionOnRecord(Step(m, e), after, end, p);
  }

  lemma OwnerIsTold(m: Manager, p: DeviceId, c: DeviceId, info: int)
    requires Inv(m) && Owns(m, p, c)
    ensures var n := Step(m, Resolved(p, c, info)); n.sessions == m.sessions && m.sessions[p].number in n.told
  {
    hide Accounted, Records;
  }

  /** Two messages lead there: a device is announced and its session resolves. */
  lemma OwnerReachable(maxDevices: nat, connectionsPerDevice: nat, d: DiscoveredDevice, now: nat, c: DeviceId, info: int)
    returns (m: Manager)
    requires maxDevices > 0 && connectionsPerDevice > 0
    ensures IsRun(New(maxDevices, connectionsPerDevice), [Announced(d, now), Resolved(d.deviceId, c, info)], m)
    ensures Inv(m) && Owns(m, d.deviceId, c) && m.sessions[d.deviceId].number !in m.told
  {
    var start, events := New(maxDevices, connectionsPerDevice), [Announced(d, now), Resolved(d.deviceId, c, info)];
    hide OnAnnounced, OnResolved, New;
    FirstAnnounced(maxDevices, connectionsPerDevice, d, now);
    var first := Step(start, events[0]);
    ResolvedFrame(first, d.deviceId, c, info);
    m := Step(first, events[1]);
    assert events[1..] == [events[1]] && events[1..][1..] == [];
    assert IsRun(m, [], m);
    assert IsRun(first, events[1..], m);
    NewInv(maxDevices, connectionsPerDevice);
    hide Inv, Step;
    RunInv(start, events, m);
  }

  // ---------------------------------------------------------------- the code

  class LinkManager {
    const maxDevices: nat
    const connectionsPerDevice: nat
    var discovered: map<DeviceId, DiscoveredDevice>
    var canonical: map<DeviceId, ConnectedDevice>
    var toCanonical: map<DeviceId, DeviceId>
    var toProvisional: map<DeviceId, DeviceId>
    var restored: map<DeviceId, ConnectedDevice>
    var sessions: map<DeviceId, Session>
    var security: map<DeviceId, Security>
    var told: set<nat>
    var spawned: nat
    var stopped: bool

    function View(): Manager
      reads this
    {
      Manager(maxDevices, connectionsPerDevice, discovered, canonical, toCanonical, toProvisional, restored, sessions,
              security, told, spawned, stopped)
    }

    constructor (maxDevices: nat, connectionsPerDevice: nat)
      ensures View() == New(maxDevices, connectionsPerDevice) && Inv(View())
    {
      this.maxDevices, this.connectionsPerDevice := maxDevices, connectionsPerDevice;
      discovered, canonical, toCanonical, toProvisional, restored := map[], map[], map[], map[], map[];
      sessions, security, told, spawned, stopped := map[], map[], {}, 0, false;
    }

    method SpawnSession(p: DeviceId)
      modifies this`sessions, this`spawned
      ensures View() == Spawn(old(View()), p)
    {
      if p in sessions || connectionsPerDevice == 0 {
        return;
      }
      var cap := if maxDevices < MAX_ACTIVE_SESSIONS then maxDevices else MAX_ACTIVE_SESSIONS;
      if cap == 0 || |sessions| >= cap {
        return;
      }
      var config := if p in security then security[p] else Cleartext;
      sessions, spawned := sessions[p := Session(spawned, config)], spawned + 1;
    }

    method DropSession(p: DeviceId)
      modifies this`sessions, this`told
      ensures View() == StopAll(old(View()), {p})
    {
      ghost var before := View();
      if p in sessions {
        told := told + {sessions[p].number};
        assert Numbers(before.sessions, {p}) == {before.sessions[p].number};
      } else {
        assert Numbers(before.sessions, {p}) == {};
      }
      sessions := sessions - {p};
    }

    method DeviceDiscovered(d: DiscoveredDevice, now: nat)
      modifies this`discovered, this`sessions, this`spawned
      ensures View() == OnAnnounced(old(View()), d, now)
    {
      hide Spawn;
      SpawnFrame(View(), d.deviceId);
      if d.deviceId in discovered {
        discovered := discovered[d.deviceId := discovered[d.deviceId].(lastSeen := now, stale := false)];
        return;
      }
      if |discovered| >= MAX_DISCOVERED {
        return;
      }
      SpawnSession(d.deviceId);
      discovered := discovered[d.deviceId := d];
    }

    method DeviceRemoved(p: DeviceId)
      modifies this
      ensures View() == OnRemoved(old(View()), p)
    {
      hide StopAll;
      if p in toCanonical && toCanonical[p] in canonical && canonical[toCanonical[p]].status == Active {
        if p in discovered {
          discovered := discovered[p := discovered[p].(stale := true)];
        }
        return;
      }
      discovered := discovered - {p};
      if p in toCanonical {
        var c := toCanonical[p];
        toCanonical, toProvisional, canonical := toCanonical - {p}, toProvisional - {c}, canonical - {c};
      }
      DropSession(p);
    }

    method SessionIdentityResolved(p: DeviceId, c: DeviceId, info: int)
      modifies this
      ensures View() == OnResolved(old(View()), p, c, info)
    {
      restored := restored - {c};
      if c in canonical {
        if p in sessions {
          told := told + {sessions[p].number};
        }
        return;
      }
      if p !in discovered {
        return;
      }
      var noise := p in security && security[p].Noise?;
      var connected := ConnectedDevice(c, discovered[p], Handshaking, 0, noise, info);
      canonical, toCanonical, toProvisional := canonical[c := connected], toCanonical[p := c], toProvisional[c := p];
    }

    method SessionStatusChanged(p: DeviceId, status: Status, entities: nat)
      modifies this`canonical
      ensures View() == OnStatus(old(View()), p, status, entities)
    {
      var c := if p in toCanonical then toCanonical[p] else p;
      if c in canonical {
        canonical := canonical[c := canonical[c].(status := status, entities := entities)];
      }
    }

    method MarkStale(now: nat)
      modifies this`discovered
      ensures discovered == Aged(old(discovered), now)
    {
      hide Elapsed;
      var todo := discovered.Keys;
      while todo != {}
        invariant todo <= discovered.Keys == old(discovered.Keys)
        invariant forall id :: id in discovered ==>
          discovered[id] == if id in todo then old(discovered)[id] else Age(old(discovered)[id], now)
      {
        var id :| id in todo;
        var d := discovered[id];
        if Elapsed(now, d.lastSeen, STALE_SECS) {
          discovered := discovered[id := d.(stale := true)];
        }
        todo := todo - {id};
      }
    }

    method CheckStale(now: nat)
      modifies this`discovered, this`sessions, this`told
      ensures View() == OnCheck(old(View()), now)
    {
      hide Aged, Evict, Evictable;
      MarkStale(now);
      ghost var aged := View();
      var toEvict := set id | id in discovered && Evictable(View(), discovered[id], now);
      var todo := toEvict;
      EvictNone(aged);
      assert toEvict - todo == {};
      while todo != {}
        invariant todo <= toEvict
        invariant View() == Evict(aged, toEvict - todo)
      {
        var id :| id in todo;
        EvictMore(aged, toEvict - todo, id);
        discovered := discovered - {id};
        DropSession(id);
        assert toEvict - todo + {id} == toEvict - (todo - {id});
        todo := todo - {id};
      }
      assert toEvict - todo == toEvict;
    }

    method Shutdown()
      modifies this
      ensures View() == OnStop(old(View()))
    {
      var todo := sessions.Keys;
      assert Numbers(sessions, sessions.Keys - todo) == {};
      while todo != {}
        invariant todo <= sessions.Keys
        invariant View() == old(View()).(told := told)
        invariant told == old(told) + Numbers(sessions, sessions.Keys - todo)
      {
        var id :| id in todo;
        assert sessions.Keys - (todo - {id}) == (sessions.Keys - todo) + {id};
        told := told + {sessions[id].number};
        todo := todo - {id};
      }
      assert sessions.Keys - todo == sessions.Keys;
      assert sessions - sessions.Keys == map[];
      sessions, canonical, restored, toCanonical, toProvisional := map[], map[], map[], map[], map[];
      stopped := true;
    }

    method Handle(e: Event)
      requires Inv(View())
      modifies this
      ensures View() == Step(old(View()), e) && Inv(View())
    {
      hide Inv, OnAnnounced, OnRemoved, OnResolved, OnStatus, OnCheck, OnStop;
      StepInv(View(), e);
      match e
      case SetSecurity(id, config) => security := security[id := config];
      case Seed(device) => restored := restored[device.deviceId := device];
      case Announced(d, now) => DeviceDiscovered(d, now);
      case Removed(p) => DeviceRemoved(p);
      case Resolved(p, c, info) => SessionIdentityResolved(p, c, info);
      case StatusChanged(p, status, entities) => SessionStatusChanged(p, status, entities);
      case CheckStaleness(now) => CheckStale(now);
      case Stop => Shutdown();
    }

    /** Every identity with a record is listed once, a confirmed record before a restored one. */
    method ListConnected() returns (list: seq<ConnectedDevice>)
      requires Inv(View())
      ensures forall i, j :: 0 <= i < j < |list| ==> list[i].deviceId != list[j].deviceId
      ensures forall d :: d in list <==>
        IsListed(View(), d.deviceId) && d == if d.deviceId in canonical then canonical[d.deviceId] else restored[d.deviceId]
    {
      hide Accounted, Within;
      list := [];
      var todo := canonical.Keys;
      while todo != {}
        invariant todo <= canonical.Keys
        invariant forall i, j :: 0 <= i < j < |list| ==> list[i].deviceId != list[j].deviceId
        invariant forall d :: d in list <==>
          d.deviceId in canonical && d.deviceId !in todo && d == canonical[d.deviceId]
      {
        var c :| c in todo;
        list := list + [canonical[c]];
        todo := todo - {c};
      }
      var rest := restored.Keys;
      assert forall d :: d in list <==> d.deviceId in canonical && d == canonical[d.deviceId];
      while rest != {}
        invariant rest <= restored.Keys
        invariant forall i, j :: 0 <= i < j < |list| ==> list[i].deviceId != list[j].deviceId
        invariant forall d :: d in list <==>
          || (d.deviceId in canonical && d == canonical[d.deviceId])
          || (d.deviceId !in canonical && d.deviceId in restored && d.deviceId !in rest && d == restored[d.deviceId])
      {
        var c :| c in rest;
        if c !in canonical {
          list := list + [restored[c]];
        }
        rest := rest - {c};
      }
    }

    method GetStatus(id: DeviceId) returns (r: Answer)
      requires Inv(View())
      ensures Answers(View(), id, r)
    {
      hide Accounted, Within, Identities;
      if id in canonical {
        return Live(canonical[id]);
      }
      if id in toCanonical {
        var c := toCanonical[id];
        if c in canonical {
          return Live(canonical[c]);
        }
      }
      if id in discovered {
        return Seen(discovered[id]);
      }
      if id in restored {
        return Kept(restored[id]);
      }
      var todo := restored.Keys;
      while todo != {}
        invariant todo <= restored.Keys
        invariant forall c :: c in restored && c !in todo ==> restored[c].discovered.deviceId != id
      {
        var c :| c in todo;
        if restored[c].discovered.deviceId == id {
          return Kept(restored[c]);
        }
        todo := todo - {c};
      }
      return Nothing;
    }

    /** Sends a command to the session the id is routed to and answers what the session
        answers. Without a session, with one whose mailbox is closed (`open` are the actors
        that still take messages), and when the session drops the reply (`answer` is None),
        the caller hears that no session is active. */
    method DispatchCommand(id: DeviceId, open: set<nat>, answer: Option<Reply>)
      returns (sentTo: Option<Session>, reply: Reply)
      ensures sentTo.Some? <==> Route(View(), id) in sessions && sessions[Route(View(), id)].number in open
      ensures sentTo.Some? ==> sentTo.value == sessions[Route(View(), id)]
      ensures reply == if sentTo.Some? && answer.Some? then answer.value else SessionNotActive
    {
      var p := if id in toProvisional then toProvisional[id] else id;
      if p !in sessions {
        return None, SessionNotActive;
      }
      var session := sessions[p];
      if session.number !in open {
        return None, SessionNotActive;
      }
      return Some(session), if answer.Some? then answer.value else SessionNotActive;
    }
  }

  lemma EvictNone(m: Manager)
    ensures Evict(m, {}) == m
  {
    assert m.discovered - {} == m.discovered && m.sessions - {} == m.sessions;
    assert Numbers(m.sessions, {}) == {};
  }

  lemma EvictMore(m: Manager, ids: set<DeviceId>, id: DeviceId)
    ensures var n := Evict(m, ids);
      Evict(m, ids + {id}) == StopAll(n.(discovered := n.discovered - {id}), {id})
  {
    assert m.discovered - ids - {id} == m.discovered - (ids + {id});
    assert m.sessions - ids - {id} == m.sessions - (ids + {id});
    assert Numbers(m.sessions, ids) + Numbers(m.sessions - ids, {id}) == Numbers(m.sessions, ids + {id});
  }
}
