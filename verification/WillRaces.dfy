/**
  Two races of the will protocol. A reconnect cancels a delayed will through the token its session holds, and the
  token is registered only after the task has started. And a handler takes whatever will its session stores, also
  when a later connection to the same session has brought it.
 */
module WillRaces {
  import opened Mqtt
  import opened Will

  /** The session to which a will was brought. */
  function SlotOf(s: State, w: nat): nat
    requires w in s.owner && s.owner[w] < |s.handlers|
  {
    s.handlers[s.owner[w]].slot
  }

  predicate BroughtTo(s: State, w: nat, i: nat) {
    w < s.next && w in s.owner && s.owner[w] < |s.handlers| && SlotOf(s, w) == i
  }

  /** Handed to a delayed task at some time. */
  predicate Out(s: State, w: nat) {
    w < s.next && (w in s.tasks || w in s.published || w in s.dropped)
  }

  predicate Registers(h: Handler, w: nat) {
    h.phase.Registering? && h.phase.w == w
  }

  ghost predicate InRegistration(s: State, w: nat) {
    exists h :: 0 <= h < |s.handlers| && Registers(s.handlers[h], w)
  }

  /** A session stores only the will of its latest connection. */
  ghost predicate StoreOk(s: State, i: nat)
    requires i < |s.slots|
  {
    s.slots[i].will.Some? ==>
      var w := s.slots[i].will.value;
      BroughtTo(s, w, i) && forall g :: s.owner[w] < g < |s.handlers| ==> s.handlers[g].slot != i
  }

  ghost predicate TokenOk(s: State, i: nat)
    requires i < |s.slots|
  {
    s.slots[i].token.Some? ==> BroughtTo(s, s.slots[i].token.value, i) && Out(s, s.slots[i].token.value)
  }

  /** A handler deals with a will of its own session, and registers a token no one has seen yet. */
  ghost predicate HandlerOk(s: State, h: nat)
    requires h < |s.handlers|
  {
    var i, p := s.handlers[h].slot, s.handlers[h].phase;
    && i < |s.slots|
    && (p.Holding? ==> BroughtTo(s, p.w, i))
    && (p.Registering? ==>
          BroughtTo(s, p.w, i) && Out(s, p.w) && p.w !in s.cancelled && s.slots[i].token != Some(p.w))
  }

  ghost predicate OneRegistrar(s: State) {
    forall g, h :: 0 <= g < h < |s.handlers| && s.handlers[g].phase.Registering? ==>
      !Registers(s.handlers[h], s.handlers[g].phase.w)
  }

  /** A task that has not been cancelled has its token with its session or with a handler. */
  ghost predicate TaskOk(s: State, w: nat) {
    w in s.tasks && w !in s.cancelled ==>
      && w in s.owner && s.owner[w] < |s.handlers| && SlotOf(s, w) < |s.slots|
      && (InRegistration(s, w) || s.slots[SlotOf(s, w)].token == Some(w))
  }

  ghost predicate Linked(s: State) {
    && (forall i: nat :: i < |s.slots| ==> StoreOk(s, i) && TokenOk(s, i))
    && (forall h: nat :: h < |s.handlers| ==> HandlerOk(s, h))
    && OneRegistrar(s)
    && (forall w: nat :: TaskOk(s, w))
    && (forall w: nat :: w in s.cancelled ==> Out(s, w))
    && (forall w: nat :: w in s.delayed || w in s.owner ==> w < s.next)
  }

  lemma StepOut(s: State, e: Event, w: nat)
    requires Enabled(s, e) && Out(s, w)
    ensures Out(Apply(s, e), w)
  {
  }

  lemma StepStore(s: State, e: Event, i: nat)
    requires Enabled(s, e) && i < |Apply(s, e).slots|
    requires forall i: nat :: i < |s.slots| ==> StoreOk(s, i)
    requires forall h: nat :: h < |s.handlers| ==> s.handlers[h].slot < |s.slots|
    ensures StoreOk(Apply(s, e), i)
  {
    if i < |s.slots| {
      assert StoreOk(s, i);
    }
  }

  /** A will in a handler's hands is new to the tasks. */
  lemma HeldIsNew(s: State, h: nat)
    requires Inv(s) && h < |s.handlers| && s.handlers[h].phase.Holding?
    ensures !Out(s, s.handlers[h].phase.w)
  {
    assert Holds(s.handlers[h], s.handlers[h].phase.w);
    assert OnePlace(s, s.handlers[h].phase.w);
  }

  lemma StepToken(s: State, e: Event, i: nat)
    requires Enabled(s, e) && Linked(s) && i < |Apply(s, e).slots|
    ensures TokenOk(Apply(s, e), i)
  {
    hide StoreOk, TaskOk, OneRegistrar;
    if i < |s.slots| {
      assert TokenOk(s, i);
    }
    if e.Register? {
      assert HandlerOk(s, e.h);
    }
  }

  predicate ActsOn(e: Event, h: nat) {
    (e.Take? || e.Fail? || e.PublishNow? || e.Spawn? || e.Register?) && e.h == h
  }

  lemma StepActing(s: State, e: Event, h: nat)
    requires Enabled(s, e) && Linked(s) && Inv(s) && h < |s.handlers| && ActsOn(e, h)
    ensures HandlerOk(Apply(s, e), h)
  {
    hide TaskOk, Inv, OneRegistrar;
    assert HandlerOk(s, h) && StoreOk(s, s.handlers[h].slot) && TokenOk(s, s.handlers[h].slot);
    if e.Spawn? {
      HeldIsNew(s, h);
    }
  }

  lemma StepOther(s: State, e: Event, h: nat)
    requires Enabled(s, e) && Linked(s) && h < |s.handlers| && !ActsOn(e, h)
    ensures HandlerOk(Apply(s, e), h)
  {
    hide TaskOk, StoreOk;
    assert HandlerOk(s, h);
    if e.Reopen? {
      assert TokenOk(s, e.slot);
    }
    if e.Register? {
      assert TokenOk(s, s.handlers[e.h].slot);
      assert s.handlers[h].phase.Registering? ==> s.handlers[h].phase.w != s.handlers[e.h].phase.w by {
        assert h < e.h ==> s.handlers[h].phase.Registering? ==> !Registers(s.handlers[e.h], s.handlers[h].phase.w);
        assert e.h < h ==> !Registers(s.handlers[h], s.handlers[e.h].phase.w);
      }
    }
  }

  lemma StepHandler(s: State, e: Event, h: nat)
    requires Enabled(s, e) && Linked(s) && Inv(s) && h < |Apply(s, e).handlers|
    ensures HandlerOk(Apply(s, e), h)
  {
    hide TaskOk, Inv, OneRegistrar, StoreOk, TokenOk;
    if h == |s.handlers| {
      assert Apply(s, e).handlers[h].phase == Ready;
    } else if ActsOn(e, h) {
      StepActing(s, e, h);
    } else {
      StepOther(s, e, h);
    }
  }

  lemma StepRegistrar(s: State, e: Event)
    requires Enabled(s, e) && Linked(s) && Inv(s)
    ensures OneRegistrar(Apply(s, e))
  {
    hide TaskOk, Inv, StoreOk, TokenOk;
    if e.Spawn? {
      HeldIsNew(s, e.h);
      forall g: nat | g < |s.handlers| && s.handlers[g].phase.Registering?
        ensures s.handlers[g].phase.w != s.handlers[e.h].phase.w
      {
        assert HandlerOk(s, g);
      }
    }
  }

  lemma StepTask(s: State, e: Event, w: nat)
    requires Enabled(s, e) && Linked(s)
    ensures TaskOk(Apply(s, e), w)
  {
    hide StoreOk;
    var t := Apply(s, e);
    assert TaskOk(s, w);
    if w in t.tasks && w !in t.cancelled {
      if e.Spawn? && s.handlers[e.h].phase.w == w {
        assert HandlerOk(s, e.h);
        assert Registers(t.handlers[e.h], w);
      } else if InRegistration(s, w) {
        var h: nat :| h < |s.handlers| && Registers(s.handlers[h], w);
        assert HandlerOk(s, h);
        assert (e.Register? && e.h == h) || Registers(t.handlers[h], w);
      }
    }
  }

  lemma StepLinked(s: State, e: Event)
    requires Enabled(s, e) && Linked(s) && Inv(s)
    ensures Linked(Apply(s, e))
  {
    hide StoreOk, TokenOk, HandlerOk, OneRegistrar, TaskOk, Inv;
    var t := Apply(s, e);
    forall i: nat | i < |t.slots| ensures StoreOk(t, i) && TokenOk(t, i) {
      StepToken(s, e, i);
      LinkedSlots(s);
      StepStore(s, e, i);
    }
    forall h: nat | h < |t.handlers| ensures HandlerOk(t, h) {
      StepHandler(s, e, h);
    }
    StepRegistrar(s, e);
    forall w: nat ensures TaskOk(t, w) {
      StepTask(s, e, w);
    }
    forall w: nat | w in t.cancelled ensures Out(t, w) {
      StepCancelled(s, e, w);
    }
  }

  lemma LinkedSlots(s: State)
    requires Linked(s)
    ensures forall h: nat :: h < |s.handlers| ==> s.handlers[h].slot < |s.slots|
  {
    forall h: nat | h < |s.handlers| ensures s.handlers[h].slot < |s.slots| {
      assert HandlerOk(s, h);
    }
  }

  lemma StepCancelled(s: State, e: Event, w: nat)
    requires Enabled(s, e) && Linked(s) && w in Apply(s, e).cancelled
    ensures Out(Apply(s, e), w)
  {
    hide StoreOk, HandlerOk, OneRegistrar, TaskOk;
    if w !in s.cancelled {
      assert TokenOk(s, if e.Reopen? then e.slot else s.handlers[e.h].slot);
    }
    StepOut(s, e, w);
  }

  lemma {:induction false} RunLinked(events: seq<Event>)
    ensures Linked(Run(START, events)) && Inv(Run(START, events))
    decreases events
  {
    hide Linked, Inv, Apply, Enabled;
    if events == [] {
      StartLinked();
    } else {
      var t, e := Run(START, events[..|events| - 1]), events[|events| - 1];
      RunLinked(events[..|events| - 1]);
      if Enabled(t, e) {
        StepLinked(t, e);
        StepInv(t, e);
      }
    }
  }

  lemma StartLinked()
    ensures Linked(START) && Inv(START)
  {
    StartInv();
  }

  /**
    A connect to session `i` cancels a delayed will that is waiting for its time exactly if the will was brought to
    that session and its token is registered: not while the handler is between starting the task and registering it.
   */
  lemma ReopenCancelsIff(before: seq<Event>, i: nat, will: Brought, w: nat)
    ensures var s := Run(START, before);
            i < |s.slots| && w in s.tasks && w !in s.cancelled ==>
              (w in Apply(s, Reopen(i, will)).cancelled <==> BroughtTo(s, w, i) && !InRegistration(s, w))
  {
    var s := Run(START, before);
    RunLinked(before);
    if i < |s.slots| && w in s.tasks && w !in s.cancelled {
      assert TaskOk(s, w) && TokenOk(s, i);
      if InRegistration(s, w) {
        var h: nat :| h < |s.handlers| && Registers(s.handlers[h], w);
        assert HandlerOk(s, h);
      } else {
        assert OnePlace(s, w);
      }
    }
  }

  /** The race: the client is back before the token is registered, and its will goes out all the same. */
  lemma PublishedAfterReturn()
    ensures var s := Run(START, [Open(AfterDelay), Take(0, true), Spawn(0), Reopen(0, NoWill), Register(0)]);
            && |s.handlers| == 2 && s.handlers[1] == Handler(0, Ready) && s.tasks == {0} && s.cancelled == {}
            && !Enabled(s, Observe(0)) && Apply(s, Fire(0)).published == [0]
  {
    var events := [Open(AfterDelay)];
    assert events[..0] == [];
    RunSnoc(START, events, Take(0, true));
    events := events + [Take(0, true)];
    RunSnoc(START, events, Spawn(0));
    events := events + [Spawn(0)];
    RunSnoc(START, events, Reopen(0, NoWill));
    events := events + [Reopen(0, NoWill)];
    RunSnoc(START, events, Register(0));
    assert events + [Register(0)] == [Open(AfterDelay), Take(0, true), Spawn(0), Reopen(0, NoWill), Register(0)];
  }

  /** A handler finds the will of another connection exactly if there has been a later connect to its session. */
  lemma TakesAnothersIff(before: seq<Event>, h: nat, w: nat)
    ensures var s := Run(START, before);
            Can(s, h) && s.slots[s.handlers[h].slot].will == Some(w) ==>
              && w in s.owner
              && (s.owner[w] != h <==> exists g :: h < g < |s.handlers| && s.handlers[g].slot == s.handlers[h].slot)
  {
    var s := Run(START, before);
    RunLinked(before);
    if Can(s, h) && s.slots[s.handlers[h].slot].will == Some(w) {
      assert StoreOk(s, s.handlers[h].slot);
      if s.owner[w] != h {
        assert h < s.owner[w] && s.handlers[s.owner[w]].slot == s.handlers[h].slot;
      }
    }
  }

  /** After a takeover, the close of the old connection publishes the will of the new one, which is still there. */
  lemma TakeoverPublishesNewWill()
    ensures var s := Run(START, [Open(AtOnce), Reopen(0, AtOnce), Take(0, true), PublishNow(0)]);
            s.published == [1] && s.owner == map[0 := 0, 1 := 1] && s.handlers == [Handler(0, Gone), Handler(0, Ready)]
  {
    var events := [Open(AtOnce)];
    assert events[..0] == [];
    RunSnoc(START, events, Reopen(0, AtOnce));
    events := events + [Reopen(0, AtOnce)];
    RunSnoc(START, events, Take(0, true));
    events := events + [Take(0, true)];
    RunSnoc(START, events, PublishNow(0));
    assert events + [PublishNow(0)] == [Open(AtOnce), Reopen(0, AtOnce), Take(0, true), PublishNow(0)];
  }
}
