/**
 Supervision of a restartable actor: the sliding-window restart limiter, and the
 monitor that gives each new incarnation a new id but the same mailbox.

 Instants and windows are natural numbers in one unit.
*/
module Supervisor {
  import opened Words

  // ---------------------------------------------------------------- the limiter

  function Since(now: nat, t: nat): nat {
    if t <= now then now - t else 0
  }

  /** The restarts that still count at `now`. */
  function Recent(times: seq<nat>, now: nat, window: nat): (kept: seq<nat>)
    ensures |kept| <= |times|
  {
    if times == [] then []
    else
      var front := Recent(times[..|times| - 1], now, window);
      if Since(now, times[|times| - 1]) < window then front + [times[|times| - 1]] else front
  }

  datatype Verdict = Verdict(allowed: bool, times: seq<nat>)

  function Judge(times: seq<nat>, max: nat, window: nat, now: nat): Verdict {
    var kept := Recent(times, now, window);
    if |kept| < max then Verdict(true, kept + [now]) else Verdict(false, kept)
  }

  /** The restart log of one child, pruned in place. */
  class RestartLog {
    var times: seq<nat>

    constructor ()
      ensures times == []
    {
      times := [];
    }

    method CheckRestartLimit(max: nat, window: nat, now: nat) returns (allowed: bool)
      modifies this
      ensures Verdict(allowed, times) == Judge(old(times), max, window, now)
    {
      var kept: seq<nat> := [];
      for i := 0 to |times|
        invariant times == old(times)
        invariant kept == Recent(times[..i], now, window)
      {
        assert times[..i + 1][..i] == times[..i];
        if Since(now, times[i]) < window {
          kept := kept + [times[i]];
        }
      }
      assert times[..|times|] == times;
      times := kept;
      if |times| < max {
        times := times + [now];
        return true;
      }
      return false;
    }
  }

  /** What the limiter has done after a sequence of panics: the restarts it granted, all
      of them, and the pruned log it kept. */
  datatype History = History(granted: seq<nat>, log: seq<nat>)

  function Replay(panics: seq<nat>, max: nat, window: nat): History {
    if panics == [] then History([], [])
    else
      var before := Replay(panics[..|panics| - 1], max, window);
      var now := panics[|panics| - 1];
      var v := Judge(before.log, max, window, now);
      History(if v.allowed then before.granted + [now] else before.granted, v.times)
  }

  predicate NonDecreasing(s: seq<nat>) {
    forall i, j :: 0 <= i < j < |s| ==> s[i] <= s[j]
  }

  lemma {:induction false} RecentTwice(times: seq<nat>, now: nat, later: nat, window: nat)
    requires now <= later
    ensures Recent(Recent(times, now, window), later, window) == Recent(times, later, window)
  {
    if times != [] {
      var front, t := times[..|times| - 1], times[|times| - 1];
      RecentTwice(front, now, later, window);
      if Since(now, t) < window {
        RecentSnoc(Recent(front, now, window), t, later, window);
      } else {
        assert Since(later, t) >= window;
      }
    }
  }

  lemma RecentSnoc(times: seq<nat>, t: nat, now: nat, window: nat)
    ensures Recent(times + [t], now, window)
      == Recent(times, now, window) + if Since(now, t) < window then [t] else []
  {
    assert (times + [t])[..|times|] == times;
  }

  lemma JudgedLog(times: seq<nat>, max: nat, window: nat, now: nat)
    ensures var v := Judge(times, max, window, now);
      v.times == if v.allowed then Recent(times, now, window) + [now] else Recent(times, now, window)
  {
  }

  /** Forgetting old restarts loses nothing: at any later moment the pruned log says what
      the whole history would say. */
  lemma {:induction false} LogIsEnough(panics: seq<nat>, max: nat, window: nat, now: nat)
    requires NonDecreasing(panics) && (panics != [] ==> panics[|panics| - 1] <= now)
    ensures var h := Replay(panics, max, window);
      Recent(h.log, now, window) == Recent(h.granted, now, window)
  {
    hide Judge;
    if panics != [] {
      var front, t := panics[..|panics| - 1], panics[|panics| - 1];
      LogIsEnough(front, max, window, now);
      LogIsEnough(front, max, window, t);
      var before := Replay(front, max, window);
      RecentTwice(before.log, t, now, window);
      RecentSnoc(Recent(before.log, t, window), t, now, window);
      RecentSnoc(before.granted, t, now, window);
      JudgedLog(before.log, max, window, t);
    }
  }

  /** Restarts inside the window that starts at a. */
  function Within(times: seq<nat>, a: nat, window: nat): (inside: seq<nat>)
    ensures |inside| <= |times|
  {
    if times == [] then []
    else
      var front, t := Within(times[..|times| - 1], a, window), times[|times| - 1];
      if a <= t < a + window then front + [t] else front
  }

  lemma {:induction false} WithinIsRecent(times: seq<nat>, a: nat, window: nat, now: nat)
    requires now < a + window
    ensures |Within(times, a, window)| <= |Recent(times, now, window)|
  {
    if times != [] {
      WithinIsRecent(times[..|times| - 1], a, window, now);
    }
  }

  /** For every sequence of panic times: no window of the configured length, wherever it
      starts, holds more granted restarts than allowed. */
  lemma {:induction false} WindowsAreBounded(panics: seq<nat>, max: nat, window: nat, a: nat)
    requires NonDecreasing(panics)
    ensures |Within(Replay(panics, max, window).granted, a, window)| <= max
  {
    if panics != [] {
      var front, now := panics[..|panics| - 1], panics[|panics| - 1];
      WindowsAreBounded(front, max, window, a);
      var before := Replay(front, max, window);
      if Judge(before.log, max, window, now).allowed {
        LogIsEnough(front, max, window, now);
        assert (before.granted + [now])[..|before.granted|] == before.granted;
        if a <= now < a + window {
          WithinIsRecent(before.granted, a, window, now);
        }
      }
    }
  }

  /** A restart stays in the log exactly as long as the window that began with it lasts. */
  lemma {:induction false} KeptIff(times: seq<nat>, now: nat, window: nat, t: nat)
    ensures t in Recent(times, now, window) <==> t in times && window > 0 && now < t + window
  {
    if times != [] {
      assert times == times[..|times| - 1] + [times[|times| - 1]];
      KeptIff(times[..|times| - 1], now, window, t);
    }
  }

  /** Where a window that ends with `now` starts. */
  function WindowStart(now: nat, window: nat): nat {
    if now + 1 >= window then now + 1 - window else 0
  }

  lemma {:induction false} RecentIsWithin(times: seq<nat>, now: nat, window: nat)
    requires forall t :: t in times ==> t <= now
    ensures Recent(times, now, window) == Within(times, WindowStart(now, window), window)
  {
    if times != [] {
      var front, last := times[..|times| - 1], times[|times| - 1];
      assert times == front + [last];
      assert last in times && forall t :: t in front ==> t in times;
      RecentIsWithin(front, now, window);
    }
  }

  lemma {:induction false} GrantsArePanics(panics: seq<nat>, max: nat, window: nat)
    ensures forall t :: t in Replay(panics, max, window).granted ==> t in panics
  {
    if panics != [] {
      assert panics == panics[..|panics| - 1] + [panics[|panics| - 1]];
      GrantsArePanics(panics[..|panics| - 1], max, window);
    }
  }

  /** A restart is refused exactly when the full history has as many grants as allowed
      between the start of the window that ends now and now. */
  lemma RefusedIffWindowFull(panics: seq<nat>, max: nat, window: nat, now: nat)
    requires NonDecreasing(panics) && (panics != [] ==> panics[|panics| - 1] <= now)
    ensures var h, a := Replay(panics, max, window), if now + 1 >= window then now + 1 - window else 0;
      !Judge(h.log, max, window, now).allowed <==> |Within(h.granted, a, window)| >= max
  {
    LogIsEnough(panics, max, window, now);
    GrantsArePanics(panics, max, window);
    forall t | t in panics ensures t <= now {
      var i :| 0 <= i < |panics| && panics[i] == t;
    }
    RecentIsWithin(Replay(panics, max, window).granted, now, window);
  }

  // ---------------------------------------------------------------- the monitor

  datatype Strategy =
    | OneForOne(maxRestarts: nat, window: nat)
    | AllForOne
    | RestartN(max: nat, window: nat)
    | Escalate

  /** The limit a strategy puts on restarts; `RestartN` narrows its count to 32 bits. */
  function RestartBound(s: Strategy): nat {
    match s
    case OneForOne(max, _) => max
    case RestartN(max, _) => max % TWO_32
    case _ => 0
  }

  function RestartWindow(s: Strategy): nat {
    match s
    case OneForOne(_, w) => w
    case RestartN(_, w) => w
    case _ => 0
  }

  /** One entry of the parent's list of children. */
  datatype Child = Child(id: nat, log: seq<nat>, stopSignal: bool)

  datatype Exit = Finished | Panicked | Cancelled

  datatype Phase = Running | Exited(exit: Exit) | Over

  /** One supervised actor, the lists it shares with others, and a record of its past. */
  datatype World<M> = World(
    tasks: set<nat>,        // keys of the system's task map
    children: seq<Child>,   // the parent's children, siblings included
    freshId: nat,           // ids from here on have never been given out
    clock: nat,
    current: nat,
    phase: Phase,
    mailbox: seq<M>,
    sent: seq<M>,           // record: everything accepted by the mailbox
    taken: seq<M>,          // record: everything an incarnation took
    lost: seq<M>,           // record: what was in hand at a panic or an abort
    ids: seq<nat>,          // record: every id the actor has had
    panics: seq<nat>)       // record: when the limiter was asked

  datatype Event<M> =
    | Send(m: M)
    | Handle
    | HandleAndStop
    | HandleAndPanic
    | PanicIdle
    | StopSignal
    | Shutdown
    | ShutdownInHand
    | Observe(now: nat)
    | SiblingSpawned
    | SiblingGone(id: nat)

  function RemoveChild(children: seq<Child>, id: nat): (kept: seq<Child>)
    ensures forall c :: c in kept <==> c in children && c.id != id
  {
    if children == [] then []
    else
      var rest := RemoveChild(children[1..], id);
      if children[0].id != id then [children[0]] + rest else rest
  }

  function FindChild(children: seq<Child>, id: nat): (i: nat)
    ensures i <= |children|
    ensures i < |children| ==> children[i].id == id
    ensures forall j :: 0 <= j < i ==> children[j].id != id
  {
    if children == [] || children[0].id == id then 0 else 1 + FindChild(children[1..], id)
  }

  function StopSiblings(children: seq<Child>, id: nat): (told: seq<Child>)
    ensures |told| == |children|
    ensures forall i :: 0 <= i < |told| ==>
      told[i] == if children[i].id != id then children[i].(stopSignal := true) else children[i]
  {
    seq(|children|, i requires 0 <= i < |children| =>
      if children[i].id != id then children[i].(stopSignal := true) else children[i])
  }

  function GiveUp<M>(w: World<M>): World<M> {
    w.(children := RemoveChild(w.children, w.current), tasks := w.tasks - {w.current}, phase := Over)
  }

  /** The monitor has seen a panic. */
  function OnPanic<M>(w: World<M>, s: Strategy, now: nat): World<M> {
    match s
    case AllForOne => GiveUp(w.(children := StopSiblings(w.children, w.current)))
    case Escalate => GiveUp(w)
    case _ =>
      var i := FindChild(w.children, w.current);
      if i == |w.children| then GiveUp(w)
      else
        var child := w.children[i];
        var v := Judge(child.log, RestartBound(s), RestartWindow(s), now);
        var asked := w.(children := w.children[i := child.(log := v.times)], panics := w.panics + [now]);
        if !v.allowed then GiveUp(asked)
        else asked.(
          children := w.children[i := Child(w.freshId, v.times, false)],
          tasks := w.tasks + {w.freshId} - {w.current},
          current := w.freshId,
          freshId := w.freshId + 1,
          ids := w.ids + [w.freshId],
          phase := Running)
  }

  predicate Enabled<M>(w: World<M>, e: Event<M>) {
    match e
    case Send(_) => w.phase != Over
    case Handle => w.phase == Running && w.mailbox != []
    case HandleAndStop => w.phase == Running && w.mailbox != []
    case HandleAndPanic => w.phase == Running && w.mailbox != []
    case PanicIdle => w.phase == Running
    case StopSignal => w.phase == Running
    case Shutdown => true
    case ShutdownInHand => w.phase == Running && w.mailbox != []
    case Observe(now) => w.phase.Exited? && w.clock <= now
    case SiblingSpawned => true
    case SiblingGone(id) => id !in w.ids
  }

  function Step<M>(w: World<M>, s: Strategy, e: Event<M>): World<M>
    requires Enabled(w, e)
  {
    match e
    case Send(m) => w.(mailbox := w.mailbox + [m], sent := w.sent + [m])
    case Handle => w.(mailbox := w.mailbox[1..], taken := w.taken + [w.mailbox[0]])
    case HandleAndStop =>
      w.(mailbox := w.mailbox[1..], taken := w.taken + [w.mailbox[0]],
         tasks := w.tasks - {w.current}, phase := Exited(Finished))
    case HandleAndPanic =>
      w.(mailbox := w.mailbox[1..], taken := w.taken + [w.mailbox[0]], lost := w.lost + [w.mailbox[0]],
         phase := Exited(Panicked))
    case PanicIdle => w.(phase := Exited(Panicked))
    case StopSignal => w.(tasks := w.tasks - {w.current}, phase := Exited(Finished))
    case ShutdownInHand =>
      w.(mailbox := w.mailbox[1..], taken := w.taken + [w.mailbox[0]], lost := w.lost + [w.mailbox[0]],
         tasks := {}, phase := Exited(Cancelled))
    case Shutdown => w.(tasks := {}, phase := if w.phase == Running then Exited(Cancelled) else w.phase)
    case Observe(now) =>
      var seen := w.(clock := now);
      if w.phase.exit == Panicked then OnPanic(seen, s, now) else GiveUp(seen)
    case SiblingSpawned =>
      w.(tasks := w.tasks + {w.freshId}, children := w.children + [Child(w.freshId, [], false)],
         freshId := w.freshId + 1)
    case SiblingGone(id) =>
      w.(tasks := w.tasks - {id}, children := RemoveChild(w.children, id))
  }

  /** Spawning takes one step: the task is registered and the handle is in the list. */
  function Spawned<M>(tasks: set<nat>, siblings: seq<Child>, freshId: nat, clock: nat): World<M> {
    World(tasks + {freshId}, siblings + [Child(freshId, [], false)], freshId + 1, clock, freshId, Running,
          [], [], [], [], [freshId], [])
  }

  predicate Legal(tasks: set<nat>, siblings: seq<Child>, freshId: nat) {
    (forall t :: t in tasks ==> t < freshId) && forall c :: c in siblings ==> c.id < freshId
  }

  ghost predicate OnlyCurrent<M>(w: World<M>) {
    && (forall t :: t in w.tasks && t in w.ids ==> t == w.current && w.phase != Over)
    && (forall c :: c in w.children && c.id in w.ids ==> c.id == w.current && w.phase != Over)
  }

  ghost predicate IdsAreOld<M>(w: World<M>) {
    && (forall i :: 0 <= i < |w.ids| ==> w.ids[i] < w.freshId)
    && (forall t :: t in w.tasks ==> t < w.freshId)
    && (forall c :: c in w.children ==> c.id < w.freshId)
    && w.ids != [] && w.ids[|w.ids| - 1] == w.current
  }

  /** While the monitor runs, the actor's handle is in the list once, and its log is the
      one a limiter would have after all the panics so far. */
  ghost predicate HandleFound<M>(w: World<M>, s: Strategy) {
    var i := FindChild(w.children, w.current);
    && i < |w.children|
    && (forall j :: 0 <= j < |w.children| && w.children[j].id == w.current ==> j == i)
    && w.children[i].log == Replay(w.panics, RestartBound(s), RestartWindow(s)).log
  }

  ghost predicate Counted<M>(w: World<M>, s: Strategy) {
    var granted := Replay(w.panics, RestartBound(s), RestartWindow(s)).granted;
    && NonDecreasing(w.panics)
    && (w.panics != [] ==> w.panics[|w.panics| - 1] <= w.clock)
    && |w.ids| == 1 + |granted|
  }

  ghost predicate MailConserved<M>(w: World<M>) {
    && w.taken + w.mailbox == w.sent
    && IsSubsequence(w.lost, w.taken)
    && |w.lost| <= |w.ids|
    && (w.phase == Running ==> |w.lost| < |w.ids|)
  }

  /** The one is the other with some of its elements left out. */
  ghost predicate IsSubsequence<M>(a: seq<M>, b: seq<M>) {
    || a == []
    || (b != []
        && (|| IsSubsequence(a, b[..|b| - 1])
            || (a[|a| - 1] == b[|b| - 1] && IsSubsequence(a[..|a| - 1], b[..|b| - 1]))))
  }

  lemma SubsequenceGrows<M>(a: seq<M>, b: seq<M>, x: M)
    requires IsSubsequence(a, b)
    ensures IsSubsequence(a, b + [x]) && IsSubsequence(a + [x], b + [x])
  {
    assert (b + [x])[..|b|] == b && (a + [x])[..|a|] == a;
  }

  ghost predicate Inv<M>(w: World<M>, s: Strategy) {
    && IdsAreOld(w) && OnlyCurrent(w) && MailConserved(w) && Counted(w, s)
    && (w.phase != Over ==> HandleFound(w, s))
  }

  lemma SpawnedInv<M>(tasks: set<nat>, siblings: seq<Child>, freshId: nat, clock: nat, s: Strategy)
    requires Legal(tasks, siblings, freshId)
    ensures Inv<M>(Spawned(tasks, siblings, freshId, clock), s)
  {
    var w: World<M> := Spawned(tasks, siblings, freshId, clock);
    assert w.children[|siblings|].id == freshId;
    assert forall j :: 0 <= j < |siblings| ==> w.children[j] == siblings[j];
  }

  lemma FindUnique(children: seq<Child>, id: nat, i: nat)
    requires i < |children| && children[i].id == id
    requires forall j :: 0 <= j < i ==> children[j].id != id
    ensures FindChild(children, id) == i
  {
  }

  lemma GiveUpInv<M>(w: World<M>, s: Strategy)
    requires IdsAreOld(w) && OnlyCurrent(w) && MailConserved(w) && Counted(w, s)
    ensures Inv(GiveUp(w), s)
  {
  }

  lemma ReplaySnoc(panics: seq<nat>, now: nat, max: nat, window: nat)
    ensures var before, after := Replay(panics, max, window), Replay(panics + [now], max, window);
      var v := Judge(before.log, max, window, now);
      && after.log == v.times
      && after.granted == if v.allowed then before.granted + [now] else before.granted
  {
    assert (panics + [now])[..|panics|] == panics;
  }

  lemma RestartInv<M>(w: World<M>, s: Strategy, now: nat)
    requires Inv(w, s) && w.phase.Exited? && w.clock == now && (s.OneForOne? || s.RestartN?)
    ensures Inv(OnPanic(w, s, now), s)
  {
    hide Judge, Replay, FindChild, IdsAreOld, OnlyCurrent, MailConserved, HandleFound, Counted;
    var child := Handle(w, s);
    if Judge(child.log, RestartBound(s), RestartWindow(s), now).allowed {
      GrantedInv(w, s, now);
    } else {
      RefusedInv(w, s, now);
    }
  }

  ghost function Handle<M>(w: World<M>, s: Strategy): Child
    requires HandleFound(w, s)
  {
    w.children[FindChild(w.children, w.current)]
  }

  lemma AskedCounted<M>(w: World<M>, s: Strategy, now: nat)
    requires Counted(w, s) && w.clock == now
    ensures var before, after := Replay(w.panics, RestartBound(s), RestartWindow(s)),
                                 Replay(w.panics + [now], RestartBound(s), RestartWindow(s));
      var v := Judge(before.log, RestartBound(s), RestartWindow(s), now);
      && NonDecreasing(w.panics + [now])
      && after.log == v.times
      && |w.ids| + (if v.allowed then 1 else 0) == 1 + |after.granted|
  {
    hide Judge, Replay;
    ReplaySnoc(w.panics, now, RestartBound(s), RestartWindow(s));
  }

  lemma GrantedInv<M>(w: World<M>, s: Strategy, now: nat)
    requires Inv(w, s) && w.phase.Exited? && w.clock == now && (s.OneForOne? || s.RestartN?)
    requires Judge(Handle(w, s).log, RestartBound(s), RestartWindow(s), now).allowed
    ensures Inv(OnPanic(w, s, now), s)
  {
    hide Judge, Replay, FindChild, Within;
    AskedCounted(w, s, now);
    var i := FindChild(w.children, w.current);
    var v := Judge(w.children[i].log, RestartBound(s), RestartWindow(s), now);
    var updated := Child(w.freshId, v.times, false);
    var children := w.children[i := updated];
    assert forall c :: c in children ==> c == updated || c in w.children;
    assert forall j :: 0 <= j < |children| && j != i ==> children[j] in w.children;
    FindUnique(children, w.freshId, i);
    UpdatedOnlyCurrent(w, i, updated);
    var w' := OnPanic(w, s, now);
    assert w'.children == children;
    assert IdsAreOld(w') && OnlyCurrent(w');
    assert MailConserved(w') && Counted(w', s);
    assert HandleFound(w', s);
  }

  lemma RefusedInv<M>(w: World<M>, s: Strategy, now: nat)
    requires Inv(w, s) && w.phase.Exited? && w.clock == now && (s.OneForOne? || s.RestartN?)
    requires !Judge(Handle(w, s).log, RestartBound(s), RestartWindow(s), now).allowed
    ensures Inv(OnPanic(w, s, now), s)
  {
    hide Judge, Replay;
    AskedCounted(w, s, now);
    var i := FindChild(w.children, w.current);
    var v := Judge(w.children[i].log, RestartBound(s), RestartWindow(s), now);
    var updated := w.children[i].(log := v.times);
    var children := w.children[i := updated];
    assert forall c :: c in children ==> c == updated || c in w.children;
    GiveUpInv(w.(children := children, panics := w.panics + [now]), s);
  }

  /** After a restart the old id is nowhere in the child list. */
  lemma UpdatedOnlyCurrent<M>(w: World<M>, i: nat, updated: Child)
    requires OnlyCurrent(w) && i < |w.children| && updated.id == w.freshId
    requires forall j :: 0 <= j < |w.children| && w.children[j].id == w.current ==> j == i
    ensures forall c :: c in w.children[i := updated] && c.id in w.ids + [w.freshId] ==> c.id == w.freshId
  {
    var children := w.children[i := updated];
    forall c | c in children && c.id in w.ids + [w.freshId] ensures c.id == w.freshId {
      var j :| 0 <= j < |children| && children[j] == c;
      if j != i {
        assert c in w.children;
      }
    }
  }

  lemma SpawnSiblingInv<M>(w: World<M>, s: Strategy)
    requires Inv(w, s)
    ensures Inv(Step(w, s, SiblingSpawned), s)
  {
    hide Counted, MailConserved, Replay;
    var w' := Step(w, s, SiblingSpawned);
    assert Counted(w', s) && MailConserved(w') by {
      RecordsKept(w, w', s);
    }
    assert forall c :: c in w'.children ==> c in w.children || c == Child(w.freshId, [], false);
    assert forall i :: 0 <= i < |w.ids| ==> w.ids[i] != w.freshId;
    if w.phase != Over {
      assert forall j :: 0 <= j < |w.children| ==> w'.children[j] == w.children[j];
      FindUnique(w'.children, w.current, FindChild(w.children, w.current));
    }
  }

  lemma SiblingGoneInv<M>(w: World<M>, s: Strategy, id: nat)
    requires Inv(w, s) && id !in w.ids
    ensures Inv(Step(w, s, SiblingGone(id)), s)
  {
    hide Counted, MailConserved, Replay;
    var w' := Step(w, s, SiblingGone(id));
    assert Counted(w', s) && MailConserved(w') by {
      RecordsKept(w, w', s);
    }
    if w.phase != Over {
      assert w.current in w.ids;
      RemoveKeeps(w.children, id, w.current);
    }
  }

  /** The records say the same of two worlds that agree on them. */
  lemma RecordsKept<M>(w: World<M>, w': World<M>, s: Strategy)
    requires Counted(w, s) && MailConserved(w)
    requires w' == w.(tasks := w'.tasks, children := w'.children, freshId := w'.freshId)
    ensures Counted(w', s) && MailConserved(w')
  {
  }

  lemma {:induction false} RemoveKeeps(children: seq<Child>, gone: nat, id: nat)
    requires gone != id && FindChild(children, id) < |children|
    requires forall j :: 0 <= j < |children| && children[j].id == id ==> j == FindChild(children, id)
    ensures var kept, k := RemoveChild(children, gone), FindChild(RemoveChild(children, gone), id);
      && k < |kept| && kept[k] == children[FindChild(children, id)]
      && forall j :: 0 <= j < |kept| && kept[j].id == id ==> j == k
  {
    var kept, tail := RemoveChild(children, gone), children[1..];
    assert forall j :: 0 <= j < |tail| ==> tail[j] == children[j + 1];
    if children[0].id == id {
      var rest := RemoveChild(tail, gone);
      assert kept == [children[0]] + rest;
      forall j | 1 <= j < |kept| ensures kept[j].id != id {
        assert kept[j] == rest[j - 1] && rest[j - 1] in rest;
        assert kept[j] in tail;
      }
    } else {
      RemoveKeeps(tail, gone, id);
    }
  }

  lemma LocalMail<M>(w: World<M>, s: Strategy, e: Event<M>)
    requires MailConserved(w) && Enabled(w, e) && !e.Observe? && !e.SiblingSpawned? && !e.SiblingGone?
    ensures MailConserved(Step(w, s, e))
  {
    hide IsSubsequence, GiveUp, OnPanic, RemoveChild;
    if e.Handle? || e.HandleAndStop? || e.HandleAndPanic? || e.ShutdownInHand? {
      SubsequenceGrows(w.lost, w.taken, w.mailbox[0]);
      assert w.mailbox == [w.mailbox[0]] + w.mailbox[1..];
    }
  }

  lemma LocalLists<M>(w: World<M>, s: Strategy, e: Event<M>)
    requires IdsAreOld(w) && OnlyCurrent(w)
    requires Enabled(w, e) && !e.Observe? && !e.SiblingSpawned? && !e.SiblingGone?
    ensures IdsAreOld(Step(w, s, e)) && OnlyCurrent(Step(w, s, e))
  {
    hide GiveUp, OnPanic, RemoveChild;
  }

  lemma LocalStepInv<M>(w: World<M>, s: Strategy, e: Event<M>)
    requires Inv(w, s) && Enabled(w, e) && !e.Observe? && !e.SiblingSpawned? && !e.SiblingGone?
    ensures Inv(Step(w, s, e), s)
  {
    hide Replay, FindChild, MailConserved, IdsAreOld, OnlyCurrent, NonDecreasing, GiveUp, OnPanic, RemoveChild;
    LocalMail(w, s, e);
    LocalLists(w, s, e);
  }

  lemma ToldInv<M>(w: World<M>, s: Strategy)
    requires IdsAreOld(w) && OnlyCurrent(w) && MailConserved(w) && Counted(w, s)
    ensures Inv(GiveUp(w.(children := StopSiblings(w.children, w.current))), s)
  {
    hide Counted, MailConserved;
    var told := w.(children := StopSiblings(w.children, w.current));
    assert Counted(told, s) && MailConserved(told) by {
      RecordsKept(w, told, s);
    }
    forall c | c in told.children ensures exists d :: d in w.children && d.id == c.id {
      var j :| 0 <= j < |told.children| && told.children[j] == c;
      assert w.children[j] in w.children;
    }
    GiveUpInv(told, s);
  }

  lemma ObserveInv<M>(w: World<M>, s: Strategy, now: nat)
    requires Inv(w, s) && Enabled(w, Observe(now))
    ensures Inv(Step(w, s, Observe(now)), s)
  {
    hide Replay, Judge, FindChild;
    var seen := w.(clock := now);
    if w.phase.exit == Panicked && s.AllForOne? {
      ToldInv(seen, s);
    } else if w.phase.exit == Panicked && !s.Escalate? {
      RestartInv(seen, s, now);
    } else {
      GiveUpInv(seen, s);
    }
  }

  lemma StepInv<M>(w: World<M>, s: Strategy, e: Event<M>)
    requires Inv(w, s) && Enabled(w, e)
    ensures Inv(Step(w, s, e), s)
  {
    hide Inv, Step;
    match e
    case Observe(now) => ObserveInv(w, s, now);
    case SiblingSpawned => SpawnSiblingInv(w, s);
    case SiblingGone(id) => SiblingGoneInv(w, s, id);
    case _ => LocalStepInv(w, s, e);
  }

  // ---------------------------------------------------------------- what the monitor decides

  /** The restarts granted so far. */
  function Granted<M>(w: World<M>, s: Strategy): seq<nat> {
    Replay(w.panics, RestartBound(s), RestartWindow(s)).granted
  }

  /** The strategy restarts, and fewer restarts than it allows were granted in its window. */
  ghost predicate HasRestartLeft<M>(w: World<M>, s: Strategy, now: nat) {
    match s
    case OneForOne(max, window) => |Within(Granted(w, s), WindowStart(now, window), window)| < max
    case RestartN(max, window) => |Within(Granted(w, s), WindowStart(now, window), window)| < max % TWO_32
    case _ => false
  }

  /** After a panic the actor is running again exactly if its strategy has a restart left:
      under the next id, on the same mailbox. In every other case, and after every other end,
      the monitor is done. */
  lemma RestartedIff<M>(w: World<M>, s: Strategy, now: nat)
    requires Inv(w, s) && w.phase.Exited? && w.clock <= now
    ensures var n := Step(w, s, Observe(now));
      && (n.phase == Running <==> w.phase.exit == Panicked && HasRestartLeft(w, s, now))
      && (n.phase == Over <==> n.phase != Running)
      && n.ids == (if n.phase == Running then w.ids + [w.freshId] else w.ids)
      && (n.phase == Running ==> n.current == w.freshId && n.current in n.tasks && n.panics == w.panics + [now])
      && n.mailbox == w.mailbox && n.sent == w.sent && n.taken == w.taken && n.lost == w.lost
  {
    hide Judge, Replay, FindChild, Within, OnlyCurrent, MailConserved, WindowStart;
    if w.phase.exit == Panicked && (s.OneForOne? || s.RestartN?) {
      RefusedIffWindowFull(w.panics, RestartBound(s), RestartWindow(s), now);
      assert w.current < w.freshId by { assert IdsAreOld(w); assert w.ids[|w.ids| - 1] < w.freshId; }
      JudgedOutcome(w.(clock := now), s, now);
      hide OnPanic, GiveUp;
    }
    assert WindowStart(now, RestartWindow(s)) == if now + 1 >= RestartWindow(s) then now + 1 - RestartWindow(s) else 0 by {
      StartOf(now, RestartWindow(s));
    }
  }

  lemma StartOf(now: nat, window: nat)
    ensures WindowStart(now, window) == if now + 1 >= window then now + 1 - window else 0
  {
  }

  lemma JudgedOutcome<M>(w: World<M>, s: Strategy, now: nat)
    requires HandleFound(w, s) && w.current < w.freshId && (s.OneForOne? || s.RestartN?)
    ensures var n := OnPanic(w, s, now);
      var log := Replay(w.panics, RestartBound(s), RestartWindow(s)).log;
      && n.phase == (if Judge(log, RestartBound(s), RestartWindow(s), now).allowed then Running else Over)
      && n.ids == (if n.phase == Running then w.ids + [w.freshId] else w.ids)
      && (n.phase == Running ==> n.current == w.freshId && n.current in n.tasks && n.panics == w.panics + [now])
      && n.mailbox == w.mailbox && n.sent == w.sent && n.taken == w.taken && n.lost == w.lost
  {
    hide Judge, Replay, FindChild, RemoveChild;
  }

  /** The siblings of an actor that panics under AllForOne are all told to stop; nothing else
      that ends an actor, and no other strategy, does anything to a sibling. */
  lemma SiblingsToldIff<M>(w: World<M>, s: Strategy, now: nat, c: Child)
    requires Inv(w, s) && w.phase.Exited? && w.clock <= now && c.id !in w.ids && c.id < w.freshId
    ensures var told := w.phase.exit == Panicked && s.AllForOne?;
      c in Step(w, s, Observe(now)).children <==> (exists d :: d in w.children && c == d.(stopSignal := d.stopSignal || told))
  {
    hide Judge, FindChild, Replay, MailConserved, Counted;
    var n := Step(w, s, Observe(now));
    var told := w.phase.exit == Panicked && s.AllForOne?;
    assert w.current in w.ids;
    if told {
      ToldSiblings(w.children, w.current, c);
    } else {
      assert c == c.(stopSignal := c.stopSignal || told);
      SiblingStays(w.(clock := now), s, now, c);
    }
  }

  lemma ToldSiblings(children: seq<Child>, id: nat, c: Child)
    requires c.id != id
    ensures c in RemoveChild(StopSiblings(children, id), id) <==> exists d :: d in children && c == d.(stopSignal := true)
  {
    var told := StopSiblings(children, id);
    if d :| d in children && c == d.(stopSignal := true) {
      var j :| 0 <= j < |children| && children[j] == d;
      assert told[j] == c;
    }
    if c in told {
      var j :| 0 <= j < |told| && told[j] == c;
      assert children[j] in children && c == children[j].(stopSignal := true);
    }
  }

  lemma SiblingStays<M>(w: World<M>, s: Strategy, now: nat, c: Child)
    requires w.current != c.id && c.id < w.freshId
    ensures c in GiveUp(w).children <==> c in w.children
    ensures !s.AllForOne? ==> (c in OnPanic(w, s, now).children <==> c in w.children)
  {
    hide Judge, FindChild, Replay;
    var i := FindChild(w.children, w.current);
    if i < |w.children| && w.children[i].id == w.current {
      forall x: Child | x.id == w.current || x.id == w.freshId ensures c in w.children[i := x] <==> c in w.children {
        ReplacedOther(w.children, i, x, c);
      }
    }
  }

  lemma ReplacedOther(children: seq<Child>, i: nat, x: Child, c: Child)
    requires i < |children| && c != x && c != children[i]
    ensures c in children[i := x] <==> c in children
  {
    if c in children {
      var j :| 0 <= j < |children| && children[j] == c;
      assert children[i := x][j] == c;
    }
  }

  /** An actor that ends without a panic never runs again, whatever happens to it later. */
  lemma {:induction false} OnlyPanicsRestart<M>(w: World<M>, s: Strategy, e: Event<M>, after: seq<Event<M>>, end: World<M>)
    requires w.phase == Running && Enabled(w, e) && Step(w, s, e).phase != Running && !e.HandleAndPanic? && !e.PanicIdle?
    requires IsRun(s, Step(w, s, e), after, end)
    ensures end.phase != Running && end.ids == w.ids
  {
    StaysEnded(s, Step(w, s, e), after, end);
  }

  lemma {:induction false} StaysEnded<M>(s: Strategy, start: World<M>, events: seq<Event<M>>, end: World<M>)
    requires start.phase != Running && start.phase != Exited(Panicked) && IsRun(s, start, events, end)
    ensures end.phase != Running && end.ids == start.ids
    decreases |events|
  {
    hide RemoveChild, OnPanic;
    if events != [] {
      StaysEnded(s, Step(start, s, events[0]), events[1..], end);
    }
  }

  /** While an incarnation runs it is in the task map; when it has ended by itself or was
      aborted it is not. */
  ghost predicate TaskListed<M>(w: World<M>) {
    && (w.phase == Running ==> w.current in w.tasks)
    && (w.phase == Exited(Finished) || w.phase == Exited(Cancelled) ==> w.current !in w.tasks)
  }

  lemma StepTaskListed<M>(w: World<M>, s: Strategy, e: Event<M>)
    requires Inv(w, s) && TaskListed(w) && Enabled(w, e)
    ensures TaskListed(Step(w, s, e))
  {
    hide Judge, FindChild, Replay, MailConserved, Counted, RemoveChild, HandleFound;
    assert w.current in w.ids;
    if e.Observe? {
      hide OnlyCurrent;
    }
  }

  /** What was sent in the course of a run. */
  function Sends<M>(events: seq<Event<M>>): seq<M> {
    if events == [] then []
    else (if events[0].Send? then [events[0].m] else []) + Sends(events[1..])
  }

  /** How many messages were taken in the course of a run. */
  function Takes<M>(events: seq<Event<M>>): nat {
    if events == [] then 0
    else
      var e := events[0];
      (if e.Handle? || e.HandleAndStop? || e.HandleAndPanic? || e.ShutdownInHand? then 1 else 0) + Takes(events[1..])
  }

  lemma StepMail<M>(w: World<M>, s: Strategy, e: Event<M>)
    requires Enabled(w, e)
    ensures Step(w, s, e).sent == w.sent + Sends([e]) && |Step(w, s, e).taken| == |w.taken| + Takes([e])
  {
    hide Judge, FindChild, RemoveChild, StopSiblings, RestartBound, RestartWindow;
  }

  /** A run: events that were each possible when they happened. */
  ghost predicate IsRun<M>(s: Strategy, start: World<M>, events: seq<Event<M>>, end: World<M>)
    decreases |events|
  {
    if events == [] then start == end
    else Enabled(start, events[0]) && IsRun(s, Step(start, s, events[0]), events[1..], end)
  }

  lemma {:induction false} RunInv<M>(s: Strategy, start: World<M>, events: seq<Event<M>>, end: World<M>)
    requires Inv(start, s) && IsRun(s, start, events, end)
    ensures Inv(end, s)
    decreases |events|
  {
    if events != [] {
      StepInv(start, s, events[0]);
      RunInv(s, Step(start, s, events[0]), events[1..], end);
    }
  }

  lemma {:induction false} RunMail<M>(s: Strategy, start: World<M>, events: seq<Event<M>>, end: World<M>)
    requires IsRun(s, start, events, end)
    ensures end.sent == start.sent + Sends(events) && |end.taken| == |start.taken| + Takes(events)
    decreases |events|
  {
    hide Step, Enabled;
    if events != [] {
      StepMail(start, s, events[0]);
      assert [events[0]][1..] == [];
      RunMail(s, Step(start, s, events[0]), events[1..], end);
    }
  }

  lemma {:induction false} RunTaskListed<M>(s: Strategy, start: World<M>, events: seq<Event<M>>, end: World<M>)
    requires Inv(start, s) && TaskListed(start) && IsRun(s, start, events, end)
    ensures TaskListed(end)
    decreases |events|
  {
    hide Step, Enabled, TaskListed, Inv;
    if events != [] {
      StepInv(start, s, events[0]);
      StepTaskListed(start, s, events[0]);
      RunTaskListed(s, Step(start, s, events[0]), events[1..], end);
    }
  }

  /** How often an incarnation was ended by a panic or an abort, and how often with a
      message in hand. */
  function Interrupted<M>(events: seq<Event<M>>): (counts: (nat, nat))
    ensures counts.1 <= counts.0
  {
    if events == [] then (0, 0)
    else
      var rest := Interrupted(events[1..]);
      match events[0]
      case HandleAndPanic => (rest.0 + 1, rest.1 + 1)
      case ShutdownInHand => (rest.0 + 1, rest.1 + 1)
      case PanicIdle => (rest.0 + 1, rest.1)
      case Shutdown => (rest.0 + 1, rest.1)
      case _ => rest
  }

  lemma StepLost<M>(w: World<M>, s: Strategy, e: Event<M>)
    requires Enabled(w, e)
    ensures |Step(w, s, e).lost| == |w.lost| + if e.HandleAndPanic? || e.ShutdownInHand? then 1 else 0
  {
    hide Judge, FindChild, RemoveChild, StopSiblings, RestartBound, RestartWindow;
  }

  lemma {:induction false} RunLost<M>(s: Strategy, start: World<M>, events: seq<Event<M>>, end: World<M>)
    requires IsRun(s, start, events, end)
    ensures |end.lost| == |start.lost| + Interrupted(events).1
    decreases |events|
  {
    hide Step, Enabled;
    if events != [] {
      StepLost(start, s, events[0]);
      RunLost(s, Step(start, s, events[0]), events[1..], end);
    }
  }

  /** Over every run of a freshly spawned actor, whatever its siblings do: what the
      incarnations took followed by what is in the mailbox is what was sent, in order; a running
      incarnation is in the task map and one that ended or was aborted is not; what
      was lost is part of what was taken, in order, and is one message for each panic or abort
      that came while one was in hand, and none for any other; the restarts are those the limiter
      granted, never more than the bound in any window, which for `RestartN` is the limit
      asked for if that fits in 32 bits and a smaller one otherwise; and once the monitor
      has returned, no id the actor ever had is left in the task map or the child list. */
  lemma SupervisedRun<M>(tasks: set<nat>, siblings: seq<Child>, freshId: nat, clock: nat,
                         s: Strategy, events: seq<Event<M>>, w: World<M>, a: nat)
    requires Legal(tasks, siblings, freshId)
    requires IsRun(s, Spawned(tasks, siblings, freshId, clock), events, w)
    ensures w.taken + w.mailbox == w.sent == Sends(events) && |w.taken| == Takes(events)
    ensures TaskListed(w)
    ensures IsSubsequence(w.lost, w.taken)
    ensures |w.lost| == Interrupted(events).1 <= Interrupted(events).0 && |w.lost| <= |w.ids|
    ensures var granted := Replay(w.panics, RestartBound(s), RestartWindow(s)).granted;
      |w.ids| == 1 + |granted| && |Within(granted, a, RestartWindow(s))| <= RestartBound(s)
    ensures s.RestartN? ==> RestartBound(s) <= s.max && (RestartBound(s) == s.max <==> s.max < TWO_32)
    ensures w.phase == Over ==>
      (forall id :: id in w.ids ==> id !in w.tasks && forall c :: c in w.children ==> c.id != id)
  {
    hide Replay, Within, IsRun, IsSubsequence, Interrupted, HandleFound, IdsAreOld, NonDecreasing, Sends, Takes;
    RunMail(s, Spawned(tasks, siblings, freshId, clock), events, w);
    assert Counted(w, s) ==> NonDecreasing(w.panics);
    SpawnedInv<M>(tasks, siblings, freshId, clock, s);
    RunInv(s, Spawned(tasks, siblings, freshId, clock), events, w);
    RunTaskListed(s, Spawned(tasks, siblings, freshId, clock), events, w);
    RunLost(s, Spawned(tasks, siblings, freshId, clock), events, w);
    WindowsAreBounded(w.panics, RestartBound(s), RestartWindow(s), a);
  }

  // ---------------------------------------------------------------- the code

  /** The monitor over the shared lists, changed in place. */
  class Monitor<M> {
    const strategy: Strategy
    var tasks: set<nat>
    var children: seq<Child>
    var freshId: nat
    var clock: nat
    var current: nat
    var phase: Phase
    var mailbox: seq<M>
    ghost var sent: seq<M>
    ghost var taken: seq<M>
    ghost var lost: seq<M>
    ghost var ids: seq<nat>
    ghost var panics: seq<nat>

    ghost function View(): World<M>
      reads this
    {
      World(tasks, children, freshId, clock, current, phase, mailbox, sent, taken, lost, ids, panics)
    }

    /** `spawn_actor_under_typed`. */
    constructor (s: Strategy, tasks: set<nat>, siblings: seq<Child>, freshId: nat, clock: nat)
      ensures strategy == s && View() == Spawned(tasks, siblings, freshId, clock)
    {
      strategy := s;
      this.tasks, children := tasks + {freshId}, siblings + [Child(freshId, [], false)];
      this.freshId, this.clock := freshId + 1, clock;
      current, phase, mailbox := freshId, Running, [];
      sent, taken, lost, ids, panics := [], [], [], [freshId], [];
    }

    method RemoveHandle(id: nat)
      modifies this`children
      ensures children == RemoveChild(old(children), id)
    {
      var kept: seq<Child> := [];
      var i := |children|;
      assert children[i..] == [];
      while i > 0
        invariant 0 <= i <= |children| && children == old(children)
        invariant kept == RemoveChild(children[i..], id)
      {
        i := i - 1;
        assert children[i..][1..] == children[i + 1..];
        if children[i].id != id {
          kept := [children[i]] + kept;
        }
      }
      assert children[0..] == children;
      children := kept;
    }

    method Deregister(id: nat)
      modifies this`tasks
      ensures tasks == old(tasks) - {id}
    {
      tasks := tasks - {id};
    }

    method MayRestart(i: nat, now: nat) returns (allowed: bool)
      requires i <= |children| && !strategy.AllForOne? && !strategy.Escalate?
      modifies this`children, this`panics
      ensures i == |old(children)| ==> !allowed && children == old(children) && panics == old(panics)
      ensures i < |old(children)| ==>
        var v := Judge(old(children)[i].log, RestartBound(strategy), RestartWindow(strategy), now);
        && allowed == v.allowed
        && children == old(children)[i := old(children)[i].(log := v.times)]
        && panics == old(panics) + [now]
    {
      hide Judge;
      if i == |children| {
        return false;
      }
      var log := new RestartLog();
      log.times := children[i].log;
      allowed := log.CheckRestartLimit(RestartBound(strategy), RestartWindow(strategy), now);
      children := children[i := children[i].(log := log.times)];
      panics := panics + [now];
    }

    method Abandon()
      modifies this
      ensures View() == GiveUp(old(View()))
    {
      RemoveHandle(current);
      Deregister(current);
      phase := Over;
    }

    /** Starts the next incarnation on the same mailbox and points the handle at it. */
    method Restart(i: nat)
      requires i < |children|
      modifies this
      ensures View() == old(View()).(
        children := old(children)[i := Child(old(freshId), old(children)[i].log, false)],
        tasks := old(tasks) + {old(freshId)} - {old(current)},
        current := old(freshId), freshId := old(freshId) + 1,
        ids := old(ids) + [old(freshId)], phase := Running)
    {
      var newId := freshId;
      freshId := freshId + 1;
      tasks := tasks + {newId};
      children := children[i := children[i].(id := newId, stopSignal := false)];
      Deregister(current);
      current, phase := newId, Running;
      ids := ids + [newId];
    }

    /** One turn of `typed_restart_monitor`: the awaited task has ended. */
    method OnTaskEnd(now: nat)
      requires phase.Exited? && clock <= now
      modifies this
      ensures View() == Step(old(View()), strategy, Observe(now))
    {
      hide Judge, FindChild, RemoveChild, RestartBound, RestartWindow;
      clock := now;
      if phase.exit != Panicked {
        Abandon();
        return;
      }
      match strategy
      case AllForOne =>
        children := StopSiblings(children, current);
        Abandon();
      case Escalate =>
        Abandon();
      case _ =>
        OnLimitedPanic(now);
    }

    method OnLimitedPanic(now: nat)
      requires !strategy.AllForOne? && !strategy.Escalate?
      modifies this
      ensures View() == OnPanic(old(View()), strategy, now)
    {
      hide Judge, FindChild, RemoveChild, RestartBound, RestartWindow;
      var i := FindChild(children, current);
      var allowed := MayRestart(i, now);
      if allowed {
        Restart(i);
      } else {
        Abandon();
      }
    }

    method Post(m: M)
      requires phase != Over
      modifies this
      ensures View() == Step(old(View()), strategy, Send(m))
    {
      mailbox := mailbox + [m];
      sent := sent + [m];
    }

    /** One turn of `run_actor_loop` with a message: the handler returns, asks to stop, or
        panics. */
    method TakeOne(outcome: Event<M>)
      requires outcome in {Handle, HandleAndStop, HandleAndPanic, ShutdownInHand} && Enabled(View(), outcome)
      modifies this
      ensures View() == Step(old(View()), strategy, outcome)
    {
      var m := mailbox[0];
      mailbox := mailbox[1..];
      taken := taken + [m];
      match outcome
      case HandleAndStop =>
        Deregister(current);
        phase := Exited(Finished);
      case HandleAndPanic =>
        lost := lost + [m];
        phase := Exited(Panicked);
      case ShutdownInHand =>
        lost := lost + [m];
        tasks, phase := {}, Exited(Cancelled);
      case _ =>
    }
  }
}
