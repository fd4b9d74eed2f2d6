/**
 Telling a state the firmware pushed from one that was set locally, so that only the
 latter is relayed to the firmware: entity mailboxes, the map of what the firmware last
 said, and the state updater that compares the two.
*/
module Echo {
  import opened Naming
  import opened Words

  /** States hold floating point numbers; one with a NaN in it is not equal to itself. */
  datatype Report = Unavailable | Value(content: int, comparable: bool)

  predicate Same(a: Report, b: Report) {
    a == b && (a.Value? ==> a.comparable)
  }

  /** What waits in an entity's mailbox, by where it came from. */
  datatype Message = FromFirmware(value: Report) | Withdrawal | FromLocal(value: Report) | Command

  datatype Relay = Relay(id: EntityId, value: Report, cause: Message)

  datatype Traffic = Traffic(
    firmware: map<EntityId, Report>,
    mail: map<EntityId, seq<Message>>,
    store: map<EntityId, Report>,
    relayed: seq<Relay>)

  function MailOf(t: Traffic, id: EntityId): seq<Message> {
    if id in t.mail then t.mail[id] else []
  }

  function Post(t: Traffic, id: EntityId, msg: Message): Traffic {
    t.(mail := t.mail[id := MailOf(t, id) + [msg]])
  }

  predicate Relays(firmware: map<EntityId, Report>, id: EntityId, v: Report) {
    v.Value? && !(id in firmware && Same(firmware[id], v))
  }

  function Updated(t: Traffic, id: EntityId, v: Report, cause: Message): Traffic {
    t.(store := t.store[id := v],
       relayed := t.relayed + if Relays(t.firmware, id, v) then [Relay(id, v, cause)] else [])
  }

  datatype Event =
    | Push(id: EntityId, value: Report)
    | Withdraw(id: EntityId)
    | SetLocally(id: EntityId, value: Report)
    | Ask(id: EntityId)
    | Deliver(id: EntityId, outcome: Option<Report>)

  predicate Enabled(t: Traffic, e: Event) {
    e.Deliver? ==> MailOf(t, e.id) != []
  }

  /** A push is recorded and then sent; the entity handles its messages later, in order. A
      command's outcome depends on the entity's domain; it may be refused. */
  function Step(t: Traffic, e: Event): Traffic
    requires Enabled(t, e)
  {
    match e
    case Push(id, v) => Post(t.(firmware := t.firmware[id := v]), id, FromFirmware(v))
    case Withdraw(id) => Post(t.(firmware := t.firmware - {id}), id, Withdrawal)
    case SetLocally(id, v) => Post(t, id, FromLocal(v))
    case Ask(id) => Post(t, id, Command)
    case Deliver(id, outcome) =>
      var head := MailOf(t, id)[0];
      var taken := t.(mail := t.mail[id := MailOf(t, id)[1..]]);
      (match head
       case FromFirmware(v) => Updated(taken, id, v, head)
       case Withdrawal => Updated(taken, id, Unavailable, head)
       case FromLocal(v) => Updated(taken, id, v, head)
       case Command => if outcome.Some? then Updated(taken, id, outcome.value, head) else taken)
  }

  ghost predicate IsRun(start: Traffic, events: seq<Event>, end: Traffic)
    decreases |events|
  {
    if events == [] then start == end
    else Enabled(start, events[0]) && IsRun(Step(start, events[0]), events[1..], end)
  }

  // ---------------------------------------------------------------- which pushes come back

  predicate IsWord(m: Message) {
    m.FromFirmware? || m.Withdrawal?
  }

  /** The last thing in a mailbox that the session put there. */
  function LastWord(mail: seq<Message>): Option<Message> {
    if mail == [] then None
    else if IsWord(mail[|mail| - 1]) then Some(mail[|mail| - 1])
    else LastWord(mail[..|mail| - 1])
  }

  lemma {:induction false} LastWordOfTail(mail: seq<Message>)
    requires mail != []
    ensures LastWord(mail) == if LastWord(mail[1..]).Some? then LastWord(mail[1..])
                              else if IsWord(mail[0]) then Some(mail[0]) else None
    ensures (exists m :: m in mail && IsWord(m)) <==> LastWord(mail).Some?
  {
    var front := mail[..|mail| - 1];
    assert mail == front + [mail[|mail| - 1]];
    if |mail| == 1 {
      assert front == [] && mail[1..] == [];
    } else {
      LastWordOfTail(front);
      assert mail[1..][..|mail| - 2] == front[1..];
    }
  }

  /** The map knows the last word, as long as it is on its way. */
  predicate Agrees(firmware: map<EntityId, Report>, id: EntityId, word: Option<Message>) {
    match word
    case Some(FromFirmware(v)) => id in firmware && firmware[id] == v
    case Some(_) => id !in firmware
    case None => true
  }

  ghost predicate Inv(t: Traffic) {
    forall id :: id in t.mail ==> Agrees(t.firmware, id, LastWord(t.mail[id]))
  }

  lemma LastWordOfSnoc(mail: seq<Message>, m: Message)
    ensures LastWord(mail + [m]) == if IsWord(m) then Some(m) else LastWord(mail)
  {
    assert (mail + [m])[..|mail|] == mail;
  }

  lemma PostKeeps(t: Traffic, id: EntityId, m: Message, firmware: map<EntityId, Report>)
    requires Inv(t) && (IsWord(m) ==> Agrees(firmware, id, Some(m)))
    requires forall other :: other != id || !IsWord(m) ==>
      (other in firmware <==> other in t.firmware) && (other in firmware ==> firmware[other] == t.firmware[other])
    ensures Inv(Post(t.(firmware := firmware), id, m))
  {
    hide LastWord;
    LastWordOfSnoc(MailOf(t, id), m);
    if id !in t.mail {
      NoWord();
    }
  }

  lemma NoWord()
    ensures LastWord([]) == None
  {
  }

  lemma StepInv(t: Traffic, e: Event)
    requires Inv(t) && Enabled(t, e)
    ensures Inv(Step(t, e))
  {
    match e
    case Push(id, v) => PostKeeps(t, id, FromFirmware(v), t.firmware[id := v]);
    case Withdraw(id) => PostKeeps(t, id, Withdrawal, t.firmware - {id});
    case SetLocally(id, v) => PostKeeps(t, id, FromLocal(v), t.firmware);
    case Ask(id) => PostKeeps(t, id, Command, t.firmware);
    case Deliver(id, _) =>
      hide LastWord;
      LastWordOfTail(t.mail[id]);
  }

  const QUIET := Traffic(map[], map[], map[], [])

  lemma {:induction false} RunInv(start: Traffic, events: seq<Event>, end: Traffic)
    requires Inv(start) && IsRun(start, events, end)
    ensures Inv(end)
    decreases |events|
  {
    hide Inv, Step, Enabled;
    if events != [] {
      StepInv(start, events[0]);
      RunInv(Step(start, events[0]), events[1..], end);
    }
  }

  /** After any run a push comes back to the firmware exactly if, by the time its entity
      handles it, the last word waiting behind it is a withdrawal or a push of another value,
      or if it is the last word itself and its value is not comparable. */
  lemma EchoedIff(events: seq<Event>, t: Traffic, id: EntityId, outcome: Option<Report>)
    requires IsRun(QUIET, events, t)
    requires MailOf(t, id) != [] && MailOf(t, id)[0].FromFirmware? && MailOf(t, id)[0].value.Value?
    ensures var pushed, word := MailOf(t, id)[0].value, LastWord(MailOf(t, id));
      && word.Some?
      && (Step(t, Deliver(id, outcome)).relayed != t.relayed
          <==> !(word.value.FromFirmware? && Same(word.value.value, pushed)))
  {
    RunInv(QUIET, events, t);
    LastWordOfTail(MailOf(t, id));
    assert MailOf(t, id)[0] in MailOf(t, id);
  }

  /** A pushed value that is not equal to itself comes back whenever it is handled. */
  lemma IncomparableIsEchoed(events: seq<Event>, t: Traffic, id: EntityId, outcome: Option<Report>)
    requires IsRun(QUIET, events, t)
    requires MailOf(t, id) != [] && MailOf(t, id)[0].FromFirmware?
    requires MailOf(t, id)[0].value.Value? && !MailOf(t, id)[0].value.comparable
    ensures Step(t, Deliver(id, outcome)).relayed
      == t.relayed + [Relay(id, MailOf(t, id)[0].value, MailOf(t, id)[0])]
  {
  }

  /** Two pushes before the first is handled: the first comes back exactly if it can be
      relayed at all and the second does not say the same. */
  lemma OvertakenIsEchoed(id: EntityId, v: Report, w: Report) returns (t: Traffic)
    ensures IsRun(QUIET, [Push(id, v), Push(id, w), Deliver(id, None)], t)
    ensures t.relayed == if v.Value? && !Same(w, v) then [Relay(id, v, FromFirmware(v))] else []
  {
    var events := [Push(id, v), Push(id, w), Deliver(id, None)];
    var one := Step(QUIET, events[0]);
    var two := Step(one, events[1]);
    assert MailOf(two, id) == [FromFirmware(v), FromFirmware(w)] && two.firmware[id] == w;
    t := Step(two, events[2]);
    assert events[1..] == [events[1], events[2]] && events[1..][1..] == [events[2]] && [events[2]][1..] == [];
    assert t.relayed == if v.Value? && !Same(w, v) then [Relay(id, v, FromFirmware(v))] else [];
    hide Step;
    assert IsRun(t, [], t);
    assert IsRun(two, [events[2]], t);
    assert IsRun(one, events[1..], t);
  }

  // ---------------------------------------------------------------- runs without echo

  /** No push that is still waiting differs from what is said now. */
  predicate Undisputed(mail: seq<Message>, v: Report) {
    forall m :: m in mail && m.FromFirmware? ==> Same(v, m.value)
  }

  /** The firmware is listened to in order: a push comes when those before it have been
      handled, or say the same; a withdrawal when all pushes have been. */
  predicate InOrder(t: Traffic, e: Event) {
    match e
    case Push(id, v) => Same(v, v) && Undisputed(MailOf(t, id), v)
    case Withdraw(id) => forall m :: m in MailOf(t, id) ==> !m.FromFirmware?
    case _ => true
  }

  ghost predicate IsOrderedRun(start: Traffic, events: seq<Event>, end: Traffic)
    decreases |events|
  {
    if events == [] then start == end
    else
      && Enabled(start, events[0]) && InOrder(start, events[0])
      && IsOrderedRun(Step(start, events[0]), events[1..], end)
  }

  /** Every push that waits is confirmed by the map. */
  ghost predicate Quiet(t: Traffic) {
    forall id, m :: id in t.mail && m in t.mail[id] && m.FromFirmware? ==>
      id in t.firmware && Same(t.firmware[id], m.value)
  }

  ghost predicate OnlyLocal(relayed: seq<Relay>) {
    forall r :: r in relayed ==> !IsWord(r.cause)
  }

  lemma StepQuiet(t: Traffic, e: Event)
    requires Quiet(t) && OnlyLocal(t.relayed) && Enabled(t, e) && InOrder(t, e)
    ensures Quiet(Step(t, e)) && OnlyLocal(Step(t, e).relayed)
  {
    match e
    case Deliver(id, outcome) => DeliverQuiet(t, id, outcome);
    case _ => assert Step(t, e).relayed == t.relayed;
  }

  lemma DeliverQuiet(t: Traffic, id: EntityId, outcome: Option<Report>)
    requires Quiet(t) && OnlyLocal(t.relayed) && MailOf(t, id) != []
    ensures var d := Step(t, Deliver(id, outcome)); Quiet(d) && OnlyLocal(d.relayed)
  {
    var d, mail := Step(t, Deliver(id, outcome)), t.mail[id];
    assert mail[0] in mail;
    assert forall m :: m in mail[1..] ==> m in mail;
    assert d.firmware == t.firmware && d.mail == t.mail[id := mail[1..]];
  }

  lemma {:induction false} OrderedRunQuiet(start: Traffic, events: seq<Event>, end: Traffic)
    requires Quiet(start) && OnlyLocal(start.relayed) && IsOrderedRun(start, events, end)
    ensures OnlyLocal(end.relayed)
    decreases |events|
  {
    hide Quiet, OnlyLocal, InOrder, Step;
    if events != [] {
      StepQuiet(start, events[0]);
      OrderedRunQuiet(Step(start, events[0]), events[1..], end);
    }
  }

  /** What the firmware last said of an entity, from the history alone. */
  function LastSaid(events: seq<Event>, id: EntityId): Option<Report> {
    if events == [] then None
    else
      match events[|events| - 1]
      case Push(other, v) => if other == id then Some(v) else LastSaid(events[..|events| - 1], id)
      case Withdraw(other) => if other == id then None else LastSaid(events[..|events| - 1], id)
      case _ => LastSaid(events[..|events| - 1], id)
  }

  lemma {:induction false} RunSnoc(start: Traffic, events: seq<Event>, end: Traffic) returns (before: Traffic)
    requires IsRun(start, events, end) && events != []
    ensures IsRun(start, events[..|events| - 1], before)
    ensures Enabled(before, events[|events| - 1]) && Step(before, events[|events| - 1]) == end
    decreases |events|
  {
    if |events| == 1 {
      before := start;
    } else {
      before := RunSnoc(Step(start, events[0]), events[1..], end);
      assert events[1..][..|events| - 2] == events[..|events| - 1][1..];
    }
  }

  lemma {:induction false} MapIsLastSaid(events: seq<Event>, t: Traffic, id: EntityId)
    requires IsRun(QUIET, events, t)
    ensures LastSaid(events, id) == if id in t.firmware then Some(t.firmware[id]) else None
    decreases |events|
  {
    if events != [] {
      var before := RunSnoc(QUIET, events, t);
      MapIsLastSaid(events[..|events| - 1], before, id);
    }
  }

  /** On every run on which the firmware is listened to in order, no push is ever relayed,
      and whatever is relayed next is a local change that differs from what the firmware
      last said. */
  lemma OnlyLocalChangesAreRelayed(events: seq<Event>, t: Traffic, next: Event)
    requires IsOrderedRun(QUIET, events, t)
    requires Enabled(t, next) && InOrder(t, next)
    ensures OnlyLocal(Step(t, next).relayed)
    ensures Step(t, next).relayed != t.relayed ==>
      var r := Step(t, next).relayed[|t.relayed|];
      && Step(t, next).relayed == t.relayed + [r] && !IsWord(r.cause)
      && !(LastSaid(events, r.id).Some? && Same(LastSaid(events, r.id).value, r.value))
  {
    OrderedIsRun(QUIET, events, t);
    OrderedRunQuiet(QUIET, events, t);
    OrderedSnoc(QUIET, events, t, next);
    OrderedRunQuiet(QUIET, events + [next], Step(t, next));
    RelayedNext(t, next);
    hide Step, OnlyLocal, Quiet, InOrder, LastSaid, IsOrderedRun;
    if next.Deliver? {
      MapIsLastSaid(events, t, next.id);
    }
    if Step(t, next).relayed != t.relayed {
      LastIsLocal(Step(t, next).relayed);
    }
  }

  lemma LastIsLocal(relayed: seq<Relay>)
    requires OnlyLocal(relayed) && relayed != []
    ensures !IsWord(relayed[|relayed| - 1].cause)
  {
    assert relayed[|relayed| - 1] in relayed;
  }

  /** A step relays at most one thing, for the entity that is delivered to, and not what the
      map has for it. */
  lemma RelayedNext(t: Traffic, e: Event)
    requires Enabled(t, e)
    ensures var relayed := Step(t, e).relayed;
      relayed != t.relayed ==>
        && e.Deliver? && |relayed| == |t.relayed| + 1 && relayed == t.relayed + [relayed[|t.relayed|]]
        && relayed[|t.relayed|].id == e.id && !(e.id in t.firmware && Same(t.firmware[e.id], relayed[|t.relayed|].value))
  {
  }

  lemma {:induction false} OrderedIsRun(start: Traffic, events: seq<Event>, t: Traffic)
    requires IsOrderedRun(start, events, t)
    ensures IsRun(start, events, t)
    decreases |events|
  {
    hide Step, InOrder;
    if events != [] {
      OrderedIsRun(Step(start, events[0]), events[1..], t);
    }
  }

  lemma {:induction false} OrderedSnoc(start: Traffic, events: seq<Event>, t: Traffic, next: Event)
    requires IsOrderedRun(start, events, t) && Enabled(t, next) && InOrder(t, next)
    ensures IsOrderedRun(start, events + [next], Step(t, next))
    decreases |events|
  {
    hide InOrder, Step;
    if events == [] {
      assert events + [next] == [next] && [next][1..] == [];
      assert IsOrderedRun(Step(t, next), [], Step(t, next));
    } else {
      OrderedSnoc(Step(start, events[0]), events[1..], t, next);
      assert (events + [next])[1..] == events[1..] + [next];
    }
  }

  // ---------------------------------------------------------------- in order, and to effect

  function MessageFor(e: Event, id: EntityId): seq<Message> {
    match e
    case Push(other, v) => if other == id then [FromFirmware(v)] else []
    case Withdraw(other) => if other == id then [Withdrawal] else []
    case SetLocally(other, v) => if other == id then [FromLocal(v)] else []
    case Ask(other) => if other == id then [Command] else []
    case _ => []
  }

  /** What was sent to an entity, in order. */
  function SentTo(events: seq<Event>, id: EntityId): seq<Message> {
    if events == [] then [] else MessageFor(events[0], id) + SentTo(events[1..], id)
  }

  /** What an entity makes of a message: the value it shows from then on. */
  function Effect(m: Message, outcome: Option<Report>): Option<Report> {
    match m
    case FromFirmware(v) => Some(v)
    case Withdrawal => Some(Unavailable)
    case FromLocal(v) => Some(v)
    case Command => outcome
  }

  /** What an entity handles in a step, and what comes of it. */
  function HandledIn(t: Traffic, e: Event, id: EntityId): (handled: seq<(Message, Option<Report>)>)
    requires Enabled(t, e)
    ensures |handled| <= 1
  {
    if e.Deliver? && e.id == id then [(MailOf(t, id)[0], Effect(MailOf(t, id)[0], e.outcome))] else []
  }

  /** The same for a run. */
  function Handled(start: Traffic, events: seq<Event>, id: EntityId): seq<(Message, Option<Report>)>
    decreases |events|
  {
    if events == [] || !Enabled(start, events[0]) then []
    else HandledIn(start, events[0], id) + Handled(Step(start, events[0]), events[1..], id)
  }

  function Messages(handled: seq<(Message, Option<Report>)>): seq<Message> {
    seq(|handled|, i requires 0 <= i < |handled| => handled[i].0)
  }

  /** The last value shown, after these were handled. */
  function LastShown(before: Option<Report>, handled: seq<(Message, Option<Report>)>): Option<Report>
    decreases handled
  {
    if handled == [] then before
    else LastShown(if handled[0].1.Some? then handled[0].1 else before, handled[1..])
  }

  function Stored(t: Traffic, id: EntityId): Option<Report> {
    if id in t.store then Some(t.store[id]) else None
  }

  /** On every run an entity handles what it was sent in the order in which it was sent,
      nothing lost and nothing twice, and the store has the last value that came of it. */
  lemma {:induction false} HandledInOrder(start: Traffic, events: seq<Event>, end: Traffic, id: EntityId)
    requires IsRun(start, events, end)
    ensures Messages(Handled(start, events, id)) + MailOf(end, id) == MailOf(start, id) + SentTo(events, id)
    ensures Stored(end, id) == LastShown(Stored(start, id), Handled(start, events, id))
    decreases |events|
  {
    hide Step, HandledIn, MailOf, Stored, Messages, LastShown;
    if events == [] {
      NoneHandled(Stored(start, id));
    } else {
      var e, next := events[0], Step(start, events[0]);
      var first, rest := HandledIn(start, e, id), Handled(next, events[1..], id);
      StepMail(start, e, id);
      HandledInOrder(next, events[1..], end, id);
      HandledConcat(Stored(start, id), first, rest);
      var sent, later := MessageFor(e, id), SentTo(events[1..], id);
      hide Handled, SentTo, MessageFor;
      assert (Messages(first) + Messages(rest)) + MailOf(end, id) == Messages(first) + (Messages(rest) + MailOf(end, id));
      assert Messages(first) + (MailOf(next, id) + later) == (Messages(first) + MailOf(next, id)) + later;
      assert (MailOf(start, id) + sent) + later == MailOf(start, id) + (sent + later);
    }
  }

  lemma NoneHandled(before: Option<Report>)
    ensures Messages([]) == [] && LastShown(before, []) == before
  {
  }

  lemma HandledConcat(before: Option<Report>, first: seq<(Message, Option<Report>)>, rest: seq<(Message, Option<Report>)>)
    requires |first| <= 1
    ensures Messages(first + rest) == Messages(first) + Messages(rest)
    ensures LastShown(before, first + rest) == LastShown(LastShown(before, first), rest)
  {
    if first == [] {
      assert first + rest == rest;
    } else {
      assert (first + rest)[1..] == rest && first[1..] == [];
    }
  }

  lemma StepMail(t: Traffic, e: Event, id: EntityId)
    requires Enabled(t, e)
    ensures var n := Step(t, e);
      && Messages(HandledIn(t, e, id)) + MailOf(n, id) == MailOf(t, id) + MessageFor(e, id)
      && Stored(n, id) == LastShown(Stored(t, id), HandledIn(t, e, id))
  {
    var handled := HandledIn(t, e, id);
    if handled != [] {
      assert handled[1..] == [] && Messages(handled) == [MailOf(t, id)[0]];
    }
  }

  /** After any run a message is relayed exactly if a value comes of it that is not what the
      firmware last said; the relay then carries that value. */
  lemma RelayedIff(events: seq<Event>, t: Traffic, id: EntityId, outcome: Option<Report>)
    requires IsRun(QUIET, events, t) && MailOf(t, id) != []
    ensures var head := MailOf(t, id)[0];
      var shown, said := Effect(head, outcome), LastSaid(events, id);
      Step(t, Deliver(id, outcome)).relayed ==
        if shown.Some? && shown.value.Value? && !(said.Some? && Same(said.value, shown.value))
        then t.relayed + [Relay(id, shown.value, head)] else t.relayed
  {
    MapIsLastSaid(events, t, id);
    hide LastSaid, IsRun;
  }

  // ---------------------------------------------------------------- local changes

  /** Local changes to one entity, each handled before the next, with nothing pushed. */
  function SayLocally(t: Traffic, id: EntityId, vs: seq<Report>): Traffic
    requires MailOf(t, id) == []
    ensures MailOf(SayLocally(t, id, vs), id) == []
    decreases |vs|
  {
    if vs == [] then t
    else
      var before := SayLocally(t, id, vs[..|vs| - 1]);
      Step(Step(before, SetLocally(id, vs[|vs| - 1])), Deliver(id, None))
  }

  /** What the firmware was told last, if it was told anything. */
  function LastTold(relayed: seq<Relay>, otherwise: Report): Report {
    if relayed == [] then otherwise else relayed[|relayed| - 1].value
  }

  lemma RelaysIff(firmware: map<EntityId, Report>, id: EntityId, v: Report)
    requires id in firmware && v.Value? && v.comparable
    ensures Relays(firmware, id, v) <==> v != firmware[id]
  {
  }

  predicate AllAre(vs: seq<Report>, w: Report) {
    forall v :: v in vs ==> v == w
  }

  lemma AllAreSnoc(vs: seq<Report>, w: Report)
    requires vs != []
    ensures AllAre(vs, w) <==> AllAre(vs[..|vs| - 1], w) && vs[|vs| - 1] == w
  {
    var front, last := vs[..|vs| - 1], vs[|vs| - 1];
    assert vs == front + [last];
    assert last in vs;
    assert forall v :: v in vs <==> v in front || v == last;
  }

  lemma {:induction false} SaidLocally(t: Traffic, id: EntityId, vs: seq<Report>)
    requires MailOf(t, id) == [] && id in t.firmware && Same(t.firmware[id], t.firmware[id])
    requires forall v :: v in vs ==> v.Value? && v.comparable
    ensures var d, w := SayLocally(t, id, vs), t.firmware[id];
      && d.firmware == t.firmware && t.relayed <= d.relayed
      && (d.relayed == t.relayed <==> AllAre(vs, w))
      && (d.relayed != t.relayed ==> d.relayed[|d.relayed| - 1].value != w)
      && (vs != [] && vs[|vs| - 1] != w ==> d.relayed != t.relayed && d.relayed[|d.relayed| - 1].value == vs[|vs| - 1])
    decreases |vs|
  {
    if vs != [] {
      var front, last := vs[..|vs| - 1], vs[|vs| - 1];
      assert vs == front + [last];
      SaidLocally(t, id, front);
      SetAndHandled(SayLocally(t, id, front), id, last);
      hide Step, Relays;
      var w := t.firmware[id];
      assert last in vs;
      RelaysIff(t.firmware, id, last);
      assert AllAre(vs, w) <==> AllAre(front, w) && last == w by {
        AllAreSnoc(vs, w);
      }
      hide AllAre;
    }
  }

  lemma SetAndHandled(t: Traffic, id: EntityId, v: Report)
    requires MailOf(t, id) == []
    ensures var d := Step(Step(t, SetLocally(id, v)), Deliver(id, None));
      && d.firmware == t.firmware
      && d.relayed == t.relayed + if Relays(t.firmware, id, v) then [Relay(id, v, FromLocal(v))] else []
  {
  }

  /** After local changes the firmware was last told what the entity shows, exactly if the
      entity does not show what the firmware said last, or never showed anything else: a
      change back to the firmware's value is not relayed, so the firmware is left with the
      change before it. */
  lemma FirmwareFollowsIff(t: Traffic, id: EntityId, vs: seq<Report>)
    requires MailOf(t, id) == [] && id in t.firmware && Same(t.firmware[id], t.firmware[id])
    requires vs != [] && forall v :: v in vs ==> v.Value? && v.comparable
    ensures var d, w := SayLocally(t, id, vs), t.firmware[id];
      && t.relayed <= d.relayed
      && (LastTold(d.relayed[|t.relayed|..], w) == vs[|vs| - 1]
          <==> vs[|vs| - 1] != w || AllAre(vs, w))
  {
    SaidLocally(t, id, vs);
    hide SayLocally;
  }

  // ---------------------------------------------------------------- the code

  class RemoteStateUpdater {
    var firmware: map<EntityId, Report>
    var store: map<EntityId, Report>
    var sent: seq<(EntityId, Report)>

    method Update(id: EntityId, state: Report)
      modifies this`store, this`sent
      ensures store == old(store)[id := state]
      ensures sent == old(sent) + if Relays(firmware, id, state) then [(id, state)] else []
    {
      store := store[id := state];
      if state.Unavailable? {
        return;
      }
      var isFirmwarePush := id in firmware && Same(firmware[id], state);
      if !isFirmwarePush {
        sent := sent + [(id, state)];
      }
    }
  }

  class EntityActor {
    const id: EntityId
    const updater: RemoteStateUpdater
    var state: Report
    var changes: seq<(Report, Report)>

    constructor (id: EntityId, initial: Report, updater: RemoteStateUpdater)
      ensures this.id == id && this.updater == updater && state == initial && changes == []
    {
      this.id, this.updater, state, changes := id, updater, initial, [];
    }

    method SetState(newState: Report)
      modifies this, updater`store, updater`sent
      ensures state == newState && changes == old(changes) + [(old(state), newState)]
      ensures updater.store == old(updater.store)[id := newState]
      ensures updater.sent == old(updater.sent) + if Relays(updater.firmware, id, newState) then [(id, newState)] else []
    {
      var was := state;
      state := newState;
      updater.Update(id, newState);
      changes := changes + [(was, newState)];
    }
  }
}
