/**
  Will messages as a protocol of small steps (vaux-broker/src/session.rs and vaux-broker/src/lib.rs). Every connection
  has a handler. A handler takes the stored will under the session's lock and only then publishes it or leaves it to a
  delayed task, so other handlers, connects and timers run in between. A handler whose write fails ends without
  taking the will. Wills are numbered in the order in which connects bring them, handlers in the order of the connects.
 */
module Will {
  import opened Mqtt

  /** The parts of a session that concern wills: the stored will and the token of a delayed publication. */
  datatype Slot = Slot(will: Option<nat>, token: Option<nat>)

  /**
    What a handler is doing. `leaving` tells whether the connection is closed, so that the handler ends once it has
    dealt with the will; after keep-alive expiry or a DISCONNECT packet it goes on.
   */
  datatype Phase = Ready | Holding(w: nat, leaving: bool) | Registering(w: nat, leaving: bool) | Gone

  datatype Handler = Handler(slot: nat, phase: Phase)

  datatype State = State(
    next: nat,                // number of the next will
    delayed: set<nat>,        // wills with a delay interval
    owner: map<nat, nat>,     // the handler of the connection that brought a will
    slots: seq<Slot>,         // sessions, past ones included: a handler may still hold them
    handlers: seq<Handler>,
    tasks: set<nat>,          // left to a delayed task
    cancelled: set<nat>,      // tokens cancelled
    published: seq<nat>,
    cleared: set<nat>,        // removed by a normal DISCONNECT
    dropped: set<nat>         // replaced by a later connect, or given up by a task that saw its token cancelled
  )

  const START := State(0, {}, map[], [], [], {}, {}, [], {}, {})

  /** Will brought by a connect: none, one without delay or one with. */
  datatype Brought = NoWill | AtOnce | AfterDelay

  datatype Event =
    | Open(will: Brought)               // connect that creates a session
    | Reopen(slot: nat, will: Brought)  // connect that resumes or takes over a session
    | Clear(h: nat)                     // DISCONNECT with reason 0x00
    | Take(h: nat, leaving: bool)       // keep-alive expiry, another DISCONNECT reason; socket close when leaving
    | Fail(h: nat)                      // a write fails: the handler ends
    | PublishNow(h: nat)
    | Spawn(h: nat)
    | Register(h: nat)
    | Fire(w: nat)                      // the delay is over, possibly just when the token is cancelled
    | Observe(w: nat)                   // the task sees its token cancelled

  predicate Enabled(s: State, e: Event) {
    match e
    case Open(_) => true
    case Reopen(i, _) => i < |s.slots|
    case Clear(h) => Can(s, h) && s.handlers[h].phase == Ready
    case Take(h, _) => Can(s, h) && s.handlers[h].phase == Ready
    case Fail(h) => Can(s, h) && s.handlers[h].phase == Ready
    case PublishNow(h) => Can(s, h) && s.handlers[h].phase.Holding? && s.handlers[h].phase.w !in s.delayed
    case Spawn(h) => Can(s, h) && s.handlers[h].phase.Holding? && s.handlers[h].phase.w in s.delayed
    case Register(h) => Can(s, h) && s.handlers[h].phase.Registering?
    case Fire(w) => w in s.tasks
    case Observe(w) => w in s.tasks && w in s.cancelled
  }

  predicate Can(s: State, h: nat) {
    h < |s.handlers| && s.handlers[h].slot < |s.slots|
  }

  function Opt(w: Option<nat>): set<nat> {
    if w.Some? then {w.value} else {}
  }

  /** The connect's own will, numbered. */
  function Numbered(s: State, will: Brought): Option<nat> {
    if will == NoWill then None else Some(s.next)
  }

  /** A new handler for `slot`, and the will its connect brings. */
  function Connected(s: State, slot: nat, will: Brought): State {
    var t := s.(handlers := s.handlers + [Handler(slot, Ready)]);
    if will == NoWill then t
    else t.(next := s.next + 1, owner := s.owner[s.next := |s.handlers|],
            delayed := if will == AfterDelay then s.delayed + {s.next} else s.delayed)
  }

  function InPhase(s: State, h: nat, phase: Phase): seq<Handler>
    requires h < |s.handlers|
  {
    s.handlers[h := s.handlers[h].(phase := phase)]
  }

  function Finished(leaving: bool): Phase {
    if leaving then Gone else Ready
  }

  function Apply(s: State, e: Event): State
    requires Enabled(s, e)
  {
    match e
    case Open(will) =>
      Connected(s, |s.slots|, will).(slots := s.slots + [Slot(Numbered(s, will), None)])
    case Reopen(i, will) =>
      Connected(s, i, will).(
        slots := s.slots[i := Slot(Numbered(s, will), None)],
        cancelled := s.cancelled + Opt(s.slots[i].token),
        dropped := s.dropped + Opt(s.slots[i].will))
    case Clear(h) =>
      var i := s.handlers[h].slot;
      s.(slots := s.slots[i := s.slots[i].(will := None)], cleared := s.cleared + Opt(s.slots[i].will))
    case Take(h, leaving) =>
      var i := s.handlers[h].slot;
      if s.slots[i].will.None? then s.(handlers := InPhase(s, h, Finished(leaving)))
      else s.(slots := s.slots[i := s.slots[i].(will := None)],
              handlers := InPhase(s, h, Holding(s.slots[i].will.value, leaving)))
    case Fail(h) =>
      s.(handlers := InPhase(s, h, Gone))
    case PublishNow(h) =>
      var p := s.handlers[h].phase;
      s.(handlers := InPhase(s, h, Finished(p.leaving)), published := s.published + [p.w])
    case Spawn(h) =>
      var p := s.handlers[h].phase;
      s.(handlers := InPhase(s, h, Registering(p.w, p.leaving)), tasks := s.tasks + {p.w})
    case Register(h) =>
      var i, p := s.handlers[h].slot, s.handlers[h].phase;
      s.(handlers := InPhase(s, h, Finished(p.leaving)),
         slots := s.slots[i := s.slots[i].(token := Some(p.w))],
         cancelled := s.cancelled + Opt(s.slots[i].token))
    case Fire(w) =>
      s.(tasks := s.tasks - {w}, published := s.published + [w])
    case Observe(w) =>
      s.(tasks := s.tasks - {w}, dropped := s.dropped + {w})
  }

  /** Any interleaving: events that cannot happen are passed over. */
  function Run(s: State, events: seq<Event>): State {
    if events == [] then s
    else
      var t := Run(s, events[..|events| - 1]);
      if Enabled(t, events[|events| - 1]) then Apply(t, events[|events| - 1]) else t
  }

  lemma RunSnoc(s: State, events: seq<Event>, e: Event)
    requires Enabled(Run(s, events), e)
    ensures Run(s, events + [e]) == Apply(Run(s, events), e)
  {
    assert (events + [e])[..|events|] == events;
  }

  //
  // Each will is in exactly one place
  //

  ghost predicate Stored(slots: seq<Slot>, w: nat) {
    exists i :: 0 <= i < |slots| && slots[i].will == Some(w)
  }

  predicate Holds(h: Handler, w: nat) {
    h.phase.Holding? && h.phase.w == w
  }

  ghost predicate Held(handlers: seq<Handler>, w: nat) {
    exists h :: 0 <= h < |handlers| && Holds(handlers[h], w)
  }

  function One(b: bool): nat {
    if b then 1 else 0
  }

  ghost function Places(s: State, w: nat): nat {
    One(Stored(s.slots, w)) + One(Held(s.handlers, w)) + One(w in s.tasks) +
    One(w in s.published) + One(w in s.cleared) + One(w in s.dropped)
  }

  ghost predicate OnePlace(s: State, w: nat) {
    Places(s, w) == One(w < s.next)
  }

  ghost predicate NoRepeats(p: seq<nat>) {
    forall i, j :: 0 <= i < j < |p| ==> p[i] != p[j]
  }

  /** No two sessions store the same will. */
  ghost predicate Separate(slots: seq<Slot>) {
    forall i, j :: 0 <= i < j < |slots| && slots[i].will.Some? ==> slots[i].will != slots[j].will
  }

  /** No two handlers hold the same will. */
  ghost predicate Apart(handlers: seq<Handler>) {
    forall g, h :: 0 <= g < h < |handlers| && handlers[g].phase.Holding? ==> !Holds(handlers[h], handlers[g].phase.w)
  }

  ghost predicate Inv(s: State) {
    && (forall w: nat :: OnePlace(s, w))
    && NoRepeats(s.published) && Separate(s.slots) && Apart(s.handlers)
  }

  lemma StoredAppend(slots: seq<Slot>, slot: Slot, w: nat)
    ensures Stored(slots + [slot], w) <==> Stored(slots, w) || slot.will == Some(w)
  {
    if Stored(slots, w) {
      var i :| 0 <= i < |slots| && slots[i].will == Some(w);
      assert (slots + [slot])[i].will == Some(w);
    }
    if slot.will == Some(w) {
      assert (slots + [slot])[|slots|].will == Some(w);
    }
  }

  lemma StoredUpdate(slots: seq<Slot>, i: nat, slot: Slot, w: nat)
    requires Separate(slots) && i < |slots|
    ensures Stored(slots[i := slot], w) <==> slot.will == Some(w) || (Stored(slots, w) && slots[i].will != Some(w))
    ensures slots[i].will == Some(w) ==> Stored(slots, w)
  {
    if slot.will == Some(w) {
      assert slots[i := slot][i].will == Some(w);
    }
    if Stored(slots, w) && slots[i].will != Some(w) {
      var j :| 0 <= j < |slots| && slots[j].will == Some(w);
      assert slots[i := slot][j].will == Some(w);
    }
  }

  lemma HeldAppend(handlers: seq<Handler>, slot: nat, w: nat)
    ensures Held(handlers + [Handler(slot, Ready)], w) <==> Held(handlers, w)
  {
    if Held(handlers, w) {
      var h :| 0 <= h < |handlers| && Holds(handlers[h], w);
      assert Holds((handlers + [Handler(slot, Ready)])[h], w);
    }
  }

  lemma HeldUpdate(handlers: seq<Handler>, h: nat, handler: Handler, w: nat)
    requires Apart(handlers) && h < |handlers|
    ensures Held(handlers[h := handler], w) <==> Holds(handler, w) || (Held(handlers, w) && !Holds(handlers[h], w))
    ensures Holds(handlers[h], w) ==> Held(handlers, w)
  {
    if Holds(handler, w) {
      assert Holds(handlers[h := handler][h], w);
    }
    if Held(handlers, w) && !Holds(handlers[h], w) {
      var g :| 0 <= g < |handlers| && Holds(handlers[g], w);
      assert Holds(handlers[h := handler][g], w);
    }
  }

  /** How an event changes one handler, if it does. */
  lemma StepHeld(s: State, e: Event, w: nat)
    requires Apart(s.handlers) && Enabled(s, e)
    ensures Held(Apply(s, e).handlers, w) <==>
              match e
              case Take(h, _) => Held(s.handlers, w) || s.slots[s.handlers[h].slot].will == Some(w)
              case PublishNow(h) => Held(s.handlers, w) && !Holds(s.handlers[h], w)
              case Spawn(h) => Held(s.handlers, w) && !Holds(s.handlers[h], w)
              case _ => Held(s.handlers, w)
    ensures e.PublishNow? || e.Spawn? ==> Held(s.handlers, s.handlers[e.h].phase.w)
  {
    hide Held, Apart;
    match e
    case Open(_) => HeldAppend(s.handlers, |s.slots|, w);
    case Reopen(i, _) => HeldAppend(s.handlers, i, w);
    case Take(h, _) => HeldUpdate(s.handlers, h, Apply(s, e).handlers[h], w);
    case Fail(h) => HeldUpdate(s.handlers, h, Apply(s, e).handlers[h], w);
    case PublishNow(h) => HeldBy(s.handlers, h, Apply(s, e).handlers[h], w);
    case Spawn(h) => HeldBy(s.handlers, h, Apply(s, e).handlers[h], w);
    case Register(h) => HeldUpdate(s.handlers, h, Apply(s, e).handlers[h], w);
    case _ =>
  }

  lemma HeldBy(handlers: seq<Handler>, h: nat, handler: Handler, w: nat)
    requires Apart(handlers) && h < |handlers| && handlers[h].phase.Holding? && !handler.phase.Holding?
    ensures Held(handlers[h := handler], w) <==> Held(handlers, w) && !Holds(handlers[h], w)
    ensures Held(handlers, handlers[h].phase.w)
  {
    HeldUpdate(handlers, h, handler, w);
    HeldUpdate(handlers, h, handler, handlers[h].phase.w);
  }

  lemma StepStored(s: State, e: Event, w: nat)
    requires Separate(s.slots) && Enabled(s, e)
    ensures Stored(Apply(s, e).slots, w) <==>
              match e
              case Open(will) => Stored(s.slots, w) || Numbered(s, will) == Some(w)
              case Reopen(i, will) =>
                Numbered(s, will) == Some(w) || (Stored(s.slots, w) && s.slots[i].will != Some(w))
              case Clear(h) => Stored(s.slots, w) && s.slots[s.handlers[h].slot].will != Some(w)
              case Take(h, _) => Stored(s.slots, w) && s.slots[s.handlers[h].slot].will != Some(w)
              case _ => Stored(s.slots, w)
    ensures e.Reopen? && s.slots[e.slot].will == Some(w) ==> Stored(s.slots, w)
    ensures (e.Clear? || e.Take?) && s.slots[s.handlers[e.h].slot].will == Some(w) ==> Stored(s.slots, w)
  {
    hide Stored;
    var t := Apply(s, e);
    match e
    case Open(will) => StoredAppend(s.slots, Slot(Numbered(s, will), None), w);
    case Reopen(i, will) => StoredUpdate(s.slots, i, Slot(Numbered(s, will), None), w);
    case Clear(h) => StoredUpdate(s.slots, s.handlers[h].slot, t.slots[s.handlers[h].slot], w);
    case Take(h, _) => StoredUpdate(s.slots, s.handlers[h].slot, s.slots[s.handlers[h].slot].(will := None), w);
    case Register(h) => StoredUpdate(s.slots, s.handlers[h].slot, t.slots[s.handlers[h].slot], w);
    case _ =>
  }

  /** The place of every will after a step. */
  lemma StepPlaces(s: State, e: Event, w: nat)
    requires OnePlace(s, w) && OnePlace(s, s.next) && Separate(s.slots) && Apart(s.handlers) && Enabled(s, e)
    ensures OnePlace(Apply(s, e), w)
  {
    hide Stored, Held, Separate, Apart;
    StepHeld(s, e, w);
    StepStored(s, e, w);
    var t := Apply(s, e);
    assert e.PublishNow? ==> (w in t.published <==> w in s.published || w == s.handlers[e.h].phase.w);
    assert e.Fire? ==> (w in t.published <==> w in s.published || w == e.w);
  }

  lemma NotIn(p: seq<nat>, w: nat)
    requires NoRepeats(p) && w !in p
    ensures NoRepeats(p + [w])
  {
  }

  lemma StepPublished(s: State, e: Event)
    requires Inv(s) && Enabled(s, e)
    ensures NoRepeats(Apply(s, e).published)
  {
    match e
    case PublishNow(h) =>
      StepHeld(s, e, s.handlers[h].phase.w);
      assert OnePlace(s, s.handlers[h].phase.w);
      NotIn(s.published, s.handlers[h].phase.w);
    case Fire(w) =>
      assert OnePlace(s, w);
      NotIn(s.published, w);
    case _ =>
  }

  lemma NotStored(slots: seq<Slot>, w: nat)
    requires !Stored(slots, w)
    ensures forall i :: 0 <= i < |slots| ==> slots[i].will != Some(w)
  {
  }

  lemma NotHeld(handlers: seq<Handler>, w: nat)
    requires !Held(handlers, w)
    ensures forall h :: 0 <= h < |handlers| ==> !Holds(handlers[h], w)
  {
  }

  lemma StepSeparate(s: State, e: Event)
    requires OnePlace(s, s.next) && Separate(s.slots) && Enabled(s, e)
    ensures Separate(Apply(s, e).slots)
  {
    NotStored(s.slots, s.next);
  }

  lemma StepApart(s: State, e: Event)
    requires Inv(s) && Enabled(s, e)
    ensures Apart(Apply(s, e).handlers)
  {
    if e.Take? && s.slots[s.handlers[e.h].slot].will.Some? {
      var w := s.slots[s.handlers[e.h].slot].will.value;
      assert Stored(s.slots, w) && OnePlace(s, w);
      NotHeld(s.handlers, w);
    }
  }

  lemma StepInv(s: State, e: Event)
    requires Inv(s) && Enabled(s, e)
    ensures Inv(Apply(s, e))
  {
    hide OnePlace, Apply, Enabled, NoRepeats, Separate, Apart;
    assert OnePlace(s, s.next);
    StepPublished(s, e);
    StepSeparate(s, e);
    StepApart(s, e);
    forall w: nat ensures OnePlace(Apply(s, e), w) {
      assert OnePlace(s, w);
      StepPlaces(s, e, w);
    }
  }

  lemma {:induction false} RunInv(s: State, events: seq<Event>)
    requires Inv(s)
    ensures Inv(Run(s, events))
    decreases events
  {
    hide Inv, Apply, Enabled;
    if events != [] {
      RunInv(s, events[..|events| - 1]);
      if Enabled(Run(s, events[..|events| - 1]), events[|events| - 1]) {
        StepInv(Run(s, events[..|events| - 1]), events[|events| - 1]);
      }
    }
  }

  lemma StartInv()
    ensures Inv(START)
  {
  }

  /** In every interleaving each will is published at most once, and is in one place at any time. */
  lemma AtMostOnce(events: seq<Event>)
    ensures NoRepeats(Run(START, events).published)
    ensures forall w: nat :: OnePlace(Run(START, events), w)
  {
    StartInv();
    RunInv(START, events);
  }

  lemma {:induction false} ClearedStays(s: State, events: seq<Event>, w: nat)
    requires w in s.cleared
    ensures w in Run(s, events).cleared
    decreases events
  {
    if events != [] {
      ClearedStays(s, events[..|events| - 1], w);
    }
  }

  /** A will that a normal DISCONNECT finds still stored is never published, whatever happens afterwards. */
  lemma ClearedNeverPublished(before: seq<Event>, h: nat, after: seq<Event>)
    ensures var s := Run(START, before);
            Enabled(s, Clear(h)) && s.slots[s.handlers[h].slot].will.Some? ==>
              s.slots[s.handlers[h].slot].will.value !in Run(Apply(s, Clear(h)), after).published
  {
    var s := Run(START, before);
    if Enabled(s, Clear(h)) && s.slots[s.handlers[h].slot].will.Some? {
      var w, t := s.slots[s.handlers[h].slot].will.value, Apply(s, Clear(h));
      StartInv();
      RunInv(START, before);
      StepInv(s, Clear(h));
      RunInv(t, after);
      ClearedStays(t, after, w);
      assert OnePlace(Run(t, after), w);
    }
  }

  /** The event publishes the will: its delay is over, or it has none and a handler that holds it publishes it. */
  predicate Publishes(s: State, e: Event, w: nat) {
    e == Fire(w) || (e.PublishNow? && w !in s.delayed && e.h < |s.handlers| && Holds(s.handlers[e.h], w))
  }

  /** Publication: a will with a delay goes out by its task alone, one without by a handler that took it. */
  lemma {:induction false} PublishedBy(events: seq<Event>, w: nat) returns (i: nat)
    requires w in Run(START, events).published
    ensures i < |events| && Publishes(Run(START, events[..i]), events[i], w)
    decreases events
  {
    var init, e := events[..|events| - 1], events[|events| - 1];
    var t := Run(START, init);
    if w in t.published {
      i := PublishedBy(init, w);
      assert events[..i] == init[..i];
    } else {
      i := |events| - 1;
    }
  }

  /** A will brought with a delay has one, and one brought without has none, as long as it exists. */
  lemma DelayKept(s: State, e: Event, w: nat)
    requires Enabled(s, e) && w < s.next
    ensures w in Apply(s, e).delayed <==> w in s.delayed
  {
  }

  lemma DelayBrought(s: State, e: Event)
    requires Enabled(s, e) && (e.Open? || e.Reopen?) && e.will != NoWill
    ensures var t := Apply(s, e);
            && t.next == s.next + 1 && (s.next !in s.delayed ==> (s.next in t.delayed <==> e.will == AfterDelay))
            && t.slots[if e.Open? then |s.slots| else e.slot].will == Some(s.next)
  {
  }

  /**
    Keep-alive expiry, a DISCONNECT with another reason and a closed socket all publish the stored will: at once if it
    has no delay, else by a task whose token the session then holds. The handler goes on unless the socket is closed.
   */
  lemma TakenIsPublished(s: State, h: nat, leaving: bool, w: nat)
    requires Can(s, h) && s.handlers[h].phase == Ready && s.slots[s.handlers[h].slot].will == Some(w)
    ensures var i := s.handlers[h].slot;
            && |Run(s, [Take(h, leaving)]).slots| == |s.slots| && Run(s, [Take(h, leaving)]).slots[i].will == None
            && if w !in s.delayed then
                 var t := Run(s, [Take(h, leaving), PublishNow(h)]);
                 && t.published == s.published + [w] && |t.handlers| == |s.handlers|
                 && t.handlers[h].phase == if leaving then Gone else Ready
               else
                 var t := Run(s, [Take(h, leaving), Spawn(h), Register(h)]);
                 && w in t.tasks && t.published == s.published
                 && |t.slots| == |s.slots| && t.slots[i].token == Some(w) && |t.handlers| == |s.handlers|
                 && t.handlers[h].phase == if leaving then Gone else Ready
  {
    assert Run(s, []) == s && [] + [Take(h, leaving)] == [Take(h, leaving)];
    RunSnoc(s, [], Take(h, leaving));
    var events := [Take(h, leaving)];
    if w !in s.delayed {
      RunSnoc(s, events, PublishNow(h));
      assert events + [PublishNow(h)] == [Take(h, leaving), PublishNow(h)];
    } else {
      RunSnoc(s, events, Spawn(h));
      RunSnoc(s, events + [Spawn(h)], Register(h));
      assert events + [Spawn(h)] + [Register(h)] == [Take(h, leaving), Spawn(h), Register(h)];
    }
  }

  //
  // Which wills can still be published
  //

  /** The handler will look for a will again. */
  predicate Returns(phase: Phase) {
    phase.Ready? || ((phase.Holding? || phase.Registering?) && !phase.leaving)
  }

  predicate CanTake(s: State, h: nat, w: nat) {
    Can(s, h) && s.slots[s.handlers[h].slot].will == Some(w) && Returns(s.handlers[h].phase)
  }

  /** Published, on its way, or stored in a session that still has a handler to take it. */
  ghost predicate Publishable(s: State, w: nat) {
    w in s.published || Held(s.handlers, w) || w in s.tasks || exists h :: CanTake(s, h, w)
  }

  lemma StepStuck(s: State, e: Event, w: nat)
    requires Inv(s) && Enabled(s, e) && w < s.next && !Publishable(s, w)
    ensures w < Apply(s, e).next && !Publishable(Apply(s, e), w)
  {
    hide Held, OnePlace, NoRepeats, Stored;
    var t := Apply(s, e);
    StepHeld(s, e, w);
    assert e.Take? ==> !CanTake(s, e.h, w);
    forall h: nat ensures !CanTake(t, h, w) {
      assert !CanTake(s, h, w);
    }
  }

  lemma {:induction false} RunStuck(s: State, events: seq<Event>, w: nat)
    requires Inv(s) && w < s.next && !Publishable(s, w)
    ensures w < Run(s, events).next && !Publishable(Run(s, events), w)
    decreases events
  {
    hide Inv, Apply, Enabled, Publishable;
    if events != [] {
      var init, e := events[..|events| - 1], events[|events| - 1];
      RunStuck(s, init, w);
      RunInv(s, init);
      if Enabled(Run(s, init), e) {
        StepStuck(Run(s, init), e, w);
      }
    }
  }

  /** A will in a handler's hands can be published. */
  lemma FromHand(s: State, events: seq<Event>, h: nat, w: nat) returns (more: seq<Event>)
    requires Can(Run(s, events), h) && Holds(Run(s, events).handlers[h], w)
    ensures w in Run(s, more).published
  {
    if w in Run(s, events).delayed {
      RunSnoc(s, events, Spawn(h));
      RunSnoc(s, events + [Spawn(h)], Fire(w));
      more := events + [Spawn(h)] + [Fire(w)];
    } else {
      RunSnoc(s, events, PublishNow(h));
      more := events + [PublishNow(h)];
    }
  }

  /** A handler that returns gets ready again without touching the stored will. */
  lemma MakeReady(s: State, events: seq<Event>, h: nat, w: nat) returns (more: seq<Event>)
    requires CanTake(Run(s, events), h, w)
    ensures CanTake(Run(s, more), h, w) && Run(s, more).handlers[h].phase == Ready
  {
    var t := Run(s, events);
    if t.handlers[h].phase.Holding? && t.handlers[h].phase.w !in t.delayed {
      RunSnoc(s, events, PublishNow(h));
      more := events + [PublishNow(h)];
    } else if t.handlers[h].phase.Holding? {
      RunSnoc(s, events, Spawn(h));
      RunSnoc(s, events + [Spawn(h)], Register(h));
      more := events + [Spawn(h)] + [Register(h)];
    } else if t.handlers[h].phase.Registering? {
      RunSnoc(s, events, Register(h));
      more := events + [Register(h)];
    } else {
      more := events;
    }
  }

  lemma Continuation(s: State, w: nat) returns (events: seq<Event>)
    requires Publishable(s, w) && forall h :: 0 <= h < |s.handlers| ==> Can(s, h)
    ensures w in Run(s, events).published
  {
    assert Run(s, []) == s;
    if w in s.published {
      events := [];
    } else if w in s.tasks {
      RunSnoc(s, [], Fire(w));
      events := [] + [Fire(w)];
    } else if Held(s.handlers, w) {
      var h :| 0 <= h < |s.handlers| && Holds(s.handlers[h], w);
      events := FromHand(s, [], h, w);
    } else {
      var h :| CanTake(s, h, w);
      events := MakeReady(s, [], h, w);
      RunSnoc(s, events, Take(h, true));
      events := FromHand(s, events + [Take(h, true)], h, w);
    }
  }

  lemma {:induction false} SlotsExist(events: seq<Event>)
    ensures forall h :: 0 <= h < |Run(START, events).handlers| ==> Can(Run(START, events), h)
    decreases events
  {
    if events != [] {
      var t, e := Run(START, events[..|events| - 1]), events[|events| - 1];
      SlotsExist(events[..|events| - 1]);
      if Enabled(t, e) {
        StepSlots(t, e);
      }
    }
  }

  lemma StepSlots(s: State, e: Event)
    requires Enabled(s, e) && forall h :: 0 <= h < |s.handlers| ==> Can(s, h)
    ensures forall h :: 0 <= h < |Apply(s, e).handlers| ==> Can(Apply(s, e), h)
  {
    var t := Apply(s, e);
    forall h: nat | h < |t.handlers| ensures Can(t, h) {
      assert h < |s.handlers| ==> Can(s, h);
    }
  }

  ghost predicate CanBePublished(s: State, w: nat) {
    exists events :: w in Run(s, events).published
  }

  /**
    Exactly these wills can be published in some continuation: the published ones, those a handler holds, those left
    to a task that has not given up, and the stored ones whose session has a handler that will look again.
   */
  lemma PublishableIff(before: seq<Event>, w: nat)
    requires w < Run(START, before).next
    ensures CanBePublished(Run(START, before), w) <==> Publishable(Run(START, before), w)
  {
    var s := Run(START, before);
    if Publishable(s, w) {
      SlotsExist(before);
      var events := Continuation(s, w);
    } else {
      StartInv();
      RunInv(START, before);
      forall events ensures w !in Run(s, events).published {
        RunStuck(s, events, w);
      }
    }
  }

  /** A failed write ends the last handler: the will stays stored, in nobody's reach. */
  lemma FailedWriteStrandsWill()
    ensures var s := Run(START, [Open(AtOnce), Fail(0)]);
            s.slots[0].will == Some(0) && s.cleared == s.dropped == {} && !CanBePublished(s, 0)
  {
    var s := Run(START, [Open(AtOnce), Fail(0)]);
    assert [Open(AtOnce), Fail(0)][..1] == [Open(AtOnce)] && [Open(AtOnce)][..0] == [];
    assert s == State(1, {}, map[0 := 0], [Slot(Some(0), None)], [Handler(0, Gone)], {}, {}, [], {}, {});
    PublishableIff([Open(AtOnce), Fail(0)], 0);
  }
}
