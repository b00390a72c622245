/**
  The send side of QoS 1 and QoS 2 delivery (sections 4.3.2 and 4.3.3 of MQTT Version 5.0) as a language and as the
  automaton whose state the client stores (vaux-client/src/session.rs, `QoSPacket` and `QoSPacketState::next`).
 */
module QoSTrace {
  import opened Mqtt

  datatype Next = NextPubAck | NextPubRec | NextPubRel | NextPubComp

  datatype Event = Publish1 | Publish2 | GotPubAck | GotPubRec | SentPubRel | GotPubComp

  /** The automaton: no exchange under way, one at a given point, or an illegal history. */
  datatype Phase = Idle | Waiting(next: Next) | Illegal

  function Delta(s: Phase, e: Event): Phase {
    match (s, e)
    case (Idle, Publish1) => Waiting(NextPubAck)
    case (Idle, Publish2) => Waiting(NextPubRec)
    case (Waiting(NextPubAck), GotPubAck) => Idle
    case (Waiting(NextPubRec), GotPubRec) => Waiting(NextPubRel)
    case (Waiting(NextPubRel), SentPubRel) => Waiting(NextPubComp)
    case (Waiting(NextPubComp), GotPubComp) => Idle
    case _ => Illegal
  }

  function Run(s: Phase, h: seq<Event>): Phase
    decreases h
  {
    if h == [] then s else Run(Delta(s, h[0]), h[1..])
  }

  lemma {:induction false} RunConcat(s: Phase, h: seq<Event>, t: seq<Event>)
    ensures Run(s, h + t) == Run(Run(s, h), t)
    decreases h
  {
    if h == [] {
      assert h + t == t;
    } else {
      assert (h + t)[1..] == h[1..] + t;
      RunConcat(Delta(s, h[0]), h[1..], t);
    }
  }

  lemma RunSnoc(s: Phase, h: seq<Event>, e: Event)
    ensures Run(s, h + [e]) == Delta(Run(s, h), e)
  {
    RunConcat(s, h, [e]);
    assert [e][1..] == [];
  }

  const CYCLE1 := [Publish1, GotPubAck]
  const CYCLE2 := [Publish2, GotPubRec, SentPubRel, GotPubComp]

  /** (PUBLISH1 PUBACK | PUBLISH2 PUBREC PUBREL PUBCOMP)* */
  ghost predicate Exchanges(h: seq<Event>) {
    || h == []
    || (CYCLE1 <= h && Exchanges(h[2..]))
    || (CYCLE2 <= h && Exchanges(h[4..]))
  }

  ghost predicate PrefixOfExchanges(h: seq<Event>) {
    exists t :: Exchanges(h + t)
  }

  lemma {:induction false} IllegalStays(h: seq<Event>)
    ensures Run(Illegal, h) == Illegal
    decreases h
  {
    if h != [] {
      IllegalStays(h[1..]);
    }
  }

  lemma RunCycles()
    ensures Run(Idle, CYCLE1) == Idle && Run(Idle, CYCLE2) == Idle
  {
    assert CYCLE1[1..] == [GotPubAck] && CYCLE2[1..] == [GotPubRec, SentPubRel, GotPubComp];
    assert [GotPubRec, SentPubRel, GotPubComp][1..] == [SentPubRel, GotPubComp]
           && [SentPubRel, GotPubComp][1..] == [GotPubComp];
  }

  lemma {:induction false} ExchangesRun(h: seq<Event>)
    requires Exchanges(h)
    ensures Run(Idle, h) == Idle
    decreases h
  {
    RunCycles();
    if h != [] {
      if CYCLE1 <= h && Exchanges(h[2..]) {
        assert h == CYCLE1 + h[2..];
        RunConcat(Idle, CYCLE1, h[2..]);
        ExchangesRun(h[2..]);
      } else {
        assert h == CYCLE2 + h[4..];
        RunConcat(Idle, CYCLE2, h[4..]);
        ExchangesRun(h[4..]);
      }
    }
  }

  /** From a waiting state, a run that ends idle starts with the event that is due. */
  lemma Forced(s: Phase, h: seq<Event>)
    requires s.Waiting? && Run(s, h) == Idle
    ensures h != [] && Delta(s, h[0]) != Illegal && Run(Delta(s, h[0]), h[1..]) == Idle
  {
    if h != [] && Delta(s, h[0]) == Illegal {
      IllegalStays(h[1..]);
    }
  }

  lemma {:induction false} RunExchanges(h: seq<Event>)
    requires Run(Idle, h) == Idle
    ensures Exchanges(h)
    decreases h
  {
    if h != [] {
      IllegalStays(h[1..]);
      Forced(Delta(Idle, h[0]), h[1..]);
      if h[0] == Publish1 {
        assert h[1..][1..] == h[2..] && h[1] == h[1..][0] == GotPubAck;
        assert CYCLE1 <= h;
        RunExchanges(h[2..]);
      } else {
        assert h[1..][1..] == h[2..] && h[1] == h[1..][0] == GotPubRec;
        Forced(Waiting(NextPubRel), h[2..]);
        assert h[2..][1..] == h[3..] && h[2] == h[2..][0] == SentPubRel;
        Forced(Waiting(NextPubComp), h[3..]);
        assert h[3..][1..] == h[4..] && h[3] == h[3..][0] == GotPubComp;
        assert CYCLE2 <= h;
        RunExchanges(h[4..]);
      }
    }
  }

  /** The events that finish an exchange. */
  function Finish(s: Phase): seq<Event> {
    match s
    case Waiting(NextPubAck) => [GotPubAck]
    case Waiting(NextPubRec) => [GotPubRec, SentPubRel, GotPubComp]
    case Waiting(NextPubRel) => [SentPubRel, GotPubComp]
    case Waiting(NextPubComp) => [GotPubComp]
    case _ => []
  }

  lemma FinishEndsIdle(s: Phase)
    requires s != Illegal
    ensures Run(s, Finish(s)) == Idle
  {
    assert [GotPubRec, SentPubRel, GotPubComp][1..] == [SentPubRel, GotPubComp]
           && [SentPubRel, GotPubComp][1..] == [GotPubComp];
  }

  /** The automaton accepts exactly the prefixes of sequences of complete exchanges. */
  lemma LegalIffPrefix(h: seq<Event>)
    ensures Run(Idle, h) != Illegal <==> PrefixOfExchanges(h)
  {
    if Run(Idle, h) != Illegal {
      var t := Finish(Run(Idle, h));
      FinishEndsIdle(Run(Idle, h));
      RunConcat(Idle, h, t);
      RunExchanges(h + t);
    }
    if PrefixOfExchanges(h) {
      var t :| Exchanges(h + t);
      ExchangesRun(h + t);
      RunConcat(Idle, h, t);
      IllegalStays(t);
    }
  }

  //
  // Histories of many packet identifiers
  //

  datatype Entry = Entry(id: u16, e: Event)

  /** The events of one identifier. */
  ghost function Of(history: seq<Entry>, id: u16): seq<Event> {
    if history == [] then []
    else
      var last := history[|history| - 1];
      Of(history[..|history| - 1], id) + if last.id == id then [last.e] else []
  }

  lemma OfSnoc(history: seq<Entry>, entry: Entry, id: u16)
    ensures Of(history + [entry], id) == if entry.id == id then Of(history, id) + [entry.e] else Of(history, id)
  {
    assert (history + [entry])[..|history|] == history;
  }

  /** Exchanges begun and exchanges ended. */
  ghost function Begun(history: seq<Entry>): nat {
    if history == [] then 0
    else
      var e := history[|history| - 1].e;
      Begun(history[..|history| - 1]) + if e == Publish1 || e == Publish2 then 1 else 0
  }

  ghost function Ended(history: seq<Entry>): nat {
    if history == [] then 0
    else
      var e := history[|history| - 1].e;
      Ended(history[..|history| - 1]) + if e == GotPubAck || e == GotPubComp then 1 else 0
  }

  lemma CountSnoc(history: seq<Entry>, entry: Entry)
    ensures Begun(history + [entry]) == Begun(history) + if entry.e == Publish1 || entry.e == Publish2 then 1 else 0
    ensures Ended(history + [entry]) == Ended(history) + if entry.e == GotPubAck || entry.e == GotPubComp then 1 else 0
  {
    assert (history + [entry])[..|history|] == history;
  }
}
