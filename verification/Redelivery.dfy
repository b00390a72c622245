/**
  Redelivery step by step (vaux-broker/src/lib.rs, `handle_client`). A handler drains the session's waiting publishes
  into its own hands and puts them back one by one, and between two of them routing, acknowledgements and, after a
  takeover, another handler's redelivery go on. A publish is then waiting in the session or in some handler's hands.
 */
module Redelivery {
  import opened Mqtt
  import opened Delivery

  type Waiting = map<u16, Publish>

  /** One session, and the publishes in the hands of each handler that drained it. */
  datatype State = State(view: View, hands: seq<Waiting>)

  datatype Event =
    | Track(out: Publish)
    | Ack(k: u16)
    | Drain
    | PutBack(h: nat, k: u16)   // put back, and the write that follows is under way
    | WriteFails(h: nat)        // the handler ends and drops what it still holds

  predicate Enabled(s: State, e: Event) {
    match e
    case PutBack(h, k) => h < |s.hands| && k in s.hands[h]
    case WriteFails(h) => h < |s.hands|
    case _ => true
  }

  function Apply(s: State, e: Event): State
    requires Enabled(s, e)
  {
    match e
    case Track(out) => s.(view := Tracked(s.view, out))
    case Ack(k) => s.(view := s.view.(pending := s.view.pending - {k}))
    case Drain => s.(view := s.view.(pending := map[]), hands := s.hands + [s.view.pending])
    case PutBack(h, k) =>
      s.(view := s.view.(pending := s.view.pending[k := s.hands[h][k].(dup := true)]),
         hands := s.hands[h := s.hands[h] - {k}])
    case WriteFails(h) => s.(hands := s.hands[h := map[]])
  }

  /** Any interleaving: events that cannot happen are passed over. */
  function Run(s: State, events: seq<Event>): State {
    if events == [] then s
    else
      var t := Run(s, events[..|events| - 1]);
      if Enabled(t, events[|events| - 1]) then Apply(t, events[|events| - 1]) else t
  }

  /** The place that holds an identifier: the session, or the hands of a handler. */
  datatype Place = InSession | InHands(h: nat)

  predicate HeldAt(s: State, place: Place, k: u16) {
    match place
    case InSession => k in s.view.pending
    case InHands(h) => h < |s.hands| && k in s.hands[h]
  }

  function PublishAt(s: State, place: Place, k: u16): Publish
    requires HeldAt(s, place, k)
  {
    if place.InSession? then s.view.pending[k] else s.hands[place.h][k]
  }

  /** `place` alone holds `k`, and what it holds is `p` or `p` marked as a duplicate. */
  ghost predicate Only(s: State, place: Place, k: u16, p: Publish) {
    && HeldAt(s, place, k) && SameButDup(p, PublishAt(s, place, k))
    && forall other :: HeldAt(s, other, k) ==> other == place
  }

  ghost predicate Waits(s: State, k: u16, p: Publish) {
    exists place :: Only(s, place, k, p)
  }

  ghost predicate Nowhere(s: State, k: u16) {
    forall place :: !HeldAt(s, place, k)
  }

  /** The events that end the duty for `k`: its acknowledgement, and the failure of the handler that holds it. */
  predicate Releases(s: State, e: Event, k: u16) {
    match e
    case Ack(j) => j == k && k in s.view.pending
    case WriteFails(h) => h < |s.hands| && k in s.hands[h]
    case _ => false
  }

  /** Where the publish is after an event that does not release it. */
  function Moves(place: Place, e: Event, k: u16, handlers: nat): Place {
    match e
    case Drain => if place.InSession? then InHands(handlers) else place
    case PutBack(h, j) => if j == k && place == InHands(h) then InSession else place
    case _ => place
  }

  /** An identifier that is not issued again is moved about, and lost exactly by a releasing event. */
  lemma StepWaits(s: State, e: Event, place: Place, k: u16, p: Publish)
    requires Only(s, place, k, p) && Enabled(s, e)
    requires e.Track? ==> IdAt(s.view.issued + 1) != k
    ensures !Releases(s, e, k) ==> Only(Apply(s, e), Moves(place, e, k, |s.hands|), k, p)
    ensures Releases(s, e, k) ==> Nowhere(Apply(s, e), k)
  {
    hide IdAt;
    var t := Apply(s, e);
    var to := Moves(place, e, k, |s.hands|);
    assert e.PutBack? && e.k == k ==> HeldAt(s, InHands(e.h), k);
    if !Releases(s, e, k) {
      assert HeldAt(t, to, k);
      assert PublishAt(t, to, k) == PublishAt(s, place, k)
             || PublishAt(t, to, k) == PublishAt(s, place, k).(dup := true);
    }
    forall other | HeldAt(t, other, k) ensures !Releases(s, e, k) && other == Moves(place, e, k, |s.hands|) {
      if e.Drain? {
        assert HeldAt(s, if other == InHands(|s.hands|) then InSession else other, k);
      } else if e.PutBack? && e.k == k && other == InSession {
        assert HeldAt(s, InHands(e.h), k);
      } else {
        assert HeldAt(s, other, k);
        assert Releases(s, e, k) ==> HeldAt(s, if e.Ack? then InSession else InHands(e.h), k);
      }
    }
  }

  /** No event of the run releases `k` when it happens. */
  ghost predicate NeverReleased(s: State, events: seq<Event>, k: u16) {
    forall i :: 0 <= i < |events| ==> !Releases(Run(s, events[..i]), events[i], k)
  }

  lemma {:induction false} IssuedGrows(s: State, events: seq<Event>)
    ensures s.view.issued <= Run(s, events).view.issued
    decreases events
  {
    if events != [] {
      IssuedGrows(s, events[..|events| - 1]);
    }
  }

  /**
    At least once in every interleaving: a publish stays in exactly one place, under its identifier and at most marked
    as a duplicate, until an acknowledgement or a failed write releases it or 65,535 more identifiers are issued.
   */
  lemma {:induction false} RetainedInterleaved(s: State, events: seq<Event>, n: nat, p: Publish)
    requires 1 <= n <= s.view.issued && Waits(s, IdAt(n), p)
    requires Run(s, events).view.issued < n + CYCLE && NeverReleased(s, events, IdAt(n))
    ensures Waits(Run(s, events), IdAt(n), p)
    decreases events
  {
    hide IdAt, Only, Releases, Apply;
    if events != [] {
      var init, e := events[..|events| - 1], events[|events| - 1];
      var t := Run(s, init);
      IssuedGrows(s, init);
      NeverReleasedInit(s, events, IdAt(n));
      IssuedStep(t, e);
      RetainedInterleaved(s, init, n, p);
      if Enabled(t, e) {
        var place :| Only(t, place, IdAt(n), p);
        if e.Track? {
          SameIdIff(n, t.view.issued + 1);
        }
        StepWaits(t, e, place, IdAt(n), p);
      }
    }
  }

  lemma NeverReleasedInit(s: State, events: seq<Event>, k: u16)
    requires events != [] && NeverReleased(s, events, k)
    ensures NeverReleased(s, events[..|events| - 1], k)
    ensures !Releases(Run(s, events[..|events| - 1]), events[|events| - 1], k)
  {
    var init := events[..|events| - 1];
    forall i | 0 <= i < |init| ensures !Releases(Run(s, init[..i]), init[i], k) {
      assert init[..i] == events[..i] && init[i] == events[i];
    }
  }

  lemma IssuedStep(s: State, e: Event)
    ensures Enabled(s, e) ==> Apply(s, e).view.issued == s.view.issued + if e.Track? then 1 else 0
  {
  }

  /** A newly routed publish waits in one place exactly when no handler holds an older one under its identifier. */
  lemma TrackWaitsIff(s: State, out: Publish)
    ensures var n := s.view.issued + 1;
            var p := out.(packetId := Some(IdAt(n)));
            Waits(Apply(s, Track(out)), IdAt(n), p) <==> forall h :: 0 <= h < |s.hands| ==> IdAt(n) !in s.hands[h]
  {
    hide IdAt;
    var k, t := IdAt(s.view.issued + 1), Apply(s, Track(out));
    var p := out.(packetId := Some(k));
    assert HeldAt(t, InSession, k);
    if forall h :: 0 <= h < |s.hands| ==> k !in s.hands[h] {
      assert Only(t, InSession, k, p);
    }
    if Waits(t, k, p) {
      var place :| Only(t, place, k, p);
      assert place == InSession;
      forall h: nat | h < |s.hands| ensures k !in s.hands[h] {
        assert !HeldAt(t, InHands(h), k);
      }
    }
  }

  //
  // Uninterrupted redelivery is the one step of the session table
  //

  function PutBacks(h: nat, order: seq<u16>): seq<Event> {
    seq(|order|, i requires 0 <= i < |order| => PutBack(h, order[i]))
  }

  ghost predicate NoRepeats(order: seq<u16>) {
    forall i, j :: 0 <= i < j < |order| ==> order[i] != order[j]
  }

  /** What has not been put back yet. */
  ghost function Rest(waiting: Waiting, order: seq<u16>): set<u16> {
    set k | k in waiting && k !in order
  }

  ghost function Unsent(waiting: Waiting, order: seq<u16>): Waiting {
    map k | k in waiting && k !in order :: waiting[k]
  }

  /** The state in which a handler has drained the session and put back the entries of `order`. */
  ghost function PartWay(s: State, order: seq<u16>): State {
    State(Redelivered(s.view, Rest(s.view.pending, order)), s.hands + [Unsent(s.view.pending, order)])
  }

  lemma {:induction false} PutBackAll(s: State, order: seq<u16>)
    requires NoRepeats(order) && forall k :: k in order ==> k in s.view.pending
    ensures Run(s, [Drain] + PutBacks(|s.hands|, order)) == PartWay(s, order)
    decreases order
  {
    hide PartWay;
    if order == [] {
      assert [Drain] + PutBacks(|s.hands|, order) == [Drain] && [Drain][..0] == [];
      Drained(s);
    } else {
      var init, k := order[..|order| - 1], order[|order| - 1];
      PutBackAll(s, init);
      assert k !in init && order == init + [k];
      LastPutBack(s, |s.hands|, order);
      PutBackOne(s, init, k);
    }
  }

  lemma Drained(s: State)
    ensures Apply(s, Drain) == PartWay(s, [])
  {
    assert Unsent(s.view.pending, []) == s.view.pending;
    assert Redelivered(s.view, Rest(s.view.pending, [])).pending == map[];
  }

  lemma LastPutBack(s: State, h: nat, order: seq<u16>)
    requires order != []
    ensures var t, e := Run(s, [Drain] + PutBacks(h, order[..|order| - 1])), PutBack(h, order[|order| - 1]);
            Enabled(t, e) ==> Run(s, [Drain] + PutBacks(h, order)) == Apply(t, e)
  {
    var events := [Drain] + PutBacks(h, order);
    assert events[..|events| - 1] == [Drain] + PutBacks(h, order[..|order| - 1]);
  }

  lemma PutBackOne(s: State, init: seq<u16>, k: u16)
    requires k in s.view.pending && k !in init
    ensures var t, e := PartWay(s, init), PutBack(|s.hands|, k);
            Enabled(t, e) && Apply(t, e) == PartWay(s, init + [k])
  {
    var view, h := s.view, |s.hands|;
    ViewAfter(view, init, k);
    HandsAfter(view.pending, init, k);
    assert (s.hands + [Unsent(view.pending, init)])[h := Unsent(view.pending, init + [k])] ==
           s.hands + [Unsent(view.pending, init + [k])];
  }

  lemma ViewAfter(view: View, init: seq<u16>, k: u16)
    requires k in view.pending && k !in init
    ensures Redelivered(view, Rest(view.pending, init + [k])).pending ==
              Redelivered(view, Rest(view.pending, init)).pending[k := view.pending[k].(dup := true)]
  {
  }

  lemma HandsAfter(waiting: Waiting, init: seq<u16>, k: u16)
    requires k in waiting && k !in init
    ensures k in Unsent(waiting, init) && Unsent(waiting, init)[k] == waiting[k]
    ensures Unsent(waiting, init) - {k} == Unsent(waiting, init + [k])
  {
  }

  /**
    A redelivery that nothing interrupts, in any order: if it puts everything back it is the step that loses nothing,
    and if a write fails after some entries it is the step that loses exactly the others.
   */
  lemma UninterruptedIsOneStep(s: State, order: seq<u16>)
    requires NoRepeats(order) && forall k :: k in order ==> k in s.view.pending
    ensures var events := [Drain] + PutBacks(|s.hands|, order);
            var lost := Rest(s.view.pending, order);
            && (lost == {} ==> Run(s, events).view == Redelivered(s.view, {}))
            && Run(s, events + [WriteFails(|s.hands|)]) == State(Redelivered(s.view, lost), s.hands + [map[]])
  {
    hide Run, Redelivered;
    var events := [Drain] + PutBacks(|s.hands|, order);
    PutBackAll(s, order);
    RunFails(s, events, |s.hands|);
    assert (s.hands + [Unsent(s.view.pending, order)])[|s.hands| := map[]] == s.hands + [map[]];
  }

  lemma RunFails(s: State, events: seq<Event>, h: nat)
    requires h < |Run(s, events).hands|
    ensures Run(s, events + [WriteFails(h)]) == Apply(Run(s, events), WriteFails(h))
  {
    assert (events + [WriteFails(h)])[..|events|] == events;
  }
}
