/**
  The broker's sessions as values: what each atomic step of the broker (connect and takeover, disconnect, route,
  acknowledge, redeliver) does to the table of sessions, and what holds over all runs of such steps
  (vaux-broker/src/session.rs and vaux-broker/src/lib.rs).
 */
module Delivery {
  import opened Mqtt
  import opened Topics

  //
  // Packet identifiers
  //

  const CYCLE := 0xffff

  /** The identifier after `id`: sixteen bit wrap-around that skips zero. */
  function After(id: u16): u16 {
    var next := (id + 1) % 0x1_0000;
    if next == 0 then 1 else next
  }

  /** The n-th identifier a session allocates. */
  function IdAt(n: nat): (id: u16)
    requires n >= 1
    ensures id != 0
  {
    (n - 1) % CYCLE + 1
  }

  lemma IdSucc(n: nat)
    requires n >= 1
    ensures After(IdAt(n)) == IdAt(n + 1)
  {
    var q, r := (n - 1) / CYCLE, (n - 1) % CYCLE;
    assert n - 1 == q * CYCLE + r;
    if r + 1 == CYCLE {
      assert n == (q + 1) * CYCLE;
    } else {
      assert n == q * CYCLE + (r + 1);
    }
  }

  /** Two allocations share an identifier exactly when a multiple of 65,535 lies between them. */
  lemma SameIdIff(n: nat, m: nat)
    requires 1 <= n <= m
    ensures IdAt(n) == IdAt(m) <==> (m - n) % CYCLE == 0
  {
    var q, r := (n - 1) / CYCLE, (n - 1) % CYCLE;
    var t, u := (m - 1) / CYCLE, (m - 1) % CYCLE;
    assert m - n == (t - q) * CYCLE + (u - r);
    if u < r {
      assert m - n == (t - q - 1) * CYCLE + (u - r + CYCLE);
    }
  }

  /** Any 65,535 consecutive allocations are distinct and nonzero. */
  lemma ConsecutiveDistinct(first: nat, i: nat, j: nat)
    requires first >= 1 && i < j < CYCLE
    ensures IdAt(first + i) != IdAt(first + j)
  {
    SameIdIff(first + i, first + j);
  }

  //
  // Sessions and steps
  //

  datatype Publish = Publish(topic: string, qos: QoSLevel, dup: bool, retain: bool, packetId: Option<u16>,
                             body: seq<byte>)

  /** A session: connected or not, the number of identifiers issued so far and the publishes not yet acknowledged. */
  datatype View = View(connected: bool, issued: nat, pending: map<u16, Publish>)

  type Sessions = map<string, View>

  const NEW_SESSION := View(true, 0, map[])

  /** Every stored publish is above QoS 0 and carries its own key. */
  predicate EntryOk(view: View, id: u16)
    requires id in view.pending
  {
    view.pending[id].qos != AtMostOnce && view.pending[id].packetId == Some(id)
  }

  ghost predicate ViewOk(view: View) {
    forall id :: id in view.pending ==> EntryOk(view, id)
  }

  ghost predicate SessionsOk(sessions: Sessions) {
    forall s :: s in sessions ==> ViewOk(sessions[s])
  }

  datatype Op =
    | Connect(id: string, cleanStart: bool)
    | Deactivate(id: string)
    | Route(publish: Publish, sender: string, subscribers: seq<Subscriber>)
    | Acknowledge(id: string, packetId: u16)
    | Redeliver(id: string, lost: set<u16>)
    | Idle

  ghost function Active(sessions: Sessions): set<string> {
    set s | s in sessions && sessions[s].connected
  }

  ghost predicate AtCapacity(sessions: Sessions, max: Option<nat>) {
    max.Some? && |Active(sessions)| >= max.value
  }

  /** A connection is turned away only when it would add an active session beyond the limit. */
  ghost predicate Rejected(sessions: Sessions, max: Option<nat>, id: string) {
    id !in Active(sessions) && AtCapacity(sessions, max)
  }

  function Lower(a: QoSLevel, b: QoSLevel): QoSLevel {
    if a == AtMostOnce || b == AtMostOnce then AtMostOnce
    else if a == AtLeastOnce || b == AtLeastOnce then AtLeastOnce
    else ExactlyOnce
  }

  function Rank(q: QoSLevel): nat {
    match q
    case AtMostOnce => 0
    case AtLeastOnce => 1
    case ExactlyOnce => 2
  }

  /** The granted level is the minimum of the two. */
  lemma LowerIsMinimum(a: QoSLevel, b: QoSLevel)
    ensures Rank(Lower(a, b)) == if Rank(a) <= Rank(b) then Rank(a) else Rank(b)
  {
  }

  /** A publish above QoS 0 takes the next identifier and is remembered under it. */
  function Tracked(view: View, out: Publish): View {
    var id := IdAt(view.issued + 1);
    view.(issued := view.issued + 1, pending := view.pending[id := out.(packetId := Some(id))])
  }

  /** The subscription gets the publish: it is not the publisher's own with No Local. */
  predicate Wanted(sender: string, sub: Subscriber) {
    !(sub.noLocal && sub.sessionId == sender)
  }

  /** The copy for one subscription: stamped with a new identifier above QoS 0, else with the publisher's, if any. */
  function Copy(publish: Publish, sub: Subscriber, id: u16): Publish {
    var qos := Lower(publish.qos, sub.qos);
    publish.(qos := qos, packetId := if qos == AtMostOnce then publish.packetId else Some(id))
  }

  function RoutedTo(sessions: Sessions, publish: Publish, sender: string, sub: Subscriber): Sessions {
    var qos := Lower(publish.qos, sub.qos);
    if Wanted(sender, sub) && sub.sessionId in sessions && sessions[sub.sessionId].connected && qos != AtMostOnce
    then sessions[sub.sessionId := Tracked(sessions[sub.sessionId], publish.(qos := qos))]
    else sessions
  }

  function Routed(sessions: Sessions, publish: Publish, sender: string, subs: seq<Subscriber>): Sessions {
    if subs == [] then sessions
    else RoutedTo(Routed(sessions, publish, sender, subs[..|subs| - 1]), publish, sender, subs[|subs| - 1])
  }

  /** Redelivery marks the entries it puts back as duplicates. It loses those it does not reach. */
  function Redelivered(view: View, lost: set<u16>): View {
    view.(pending := map id | id in view.pending && id !in lost :: view.pending[id].(dup := true))
  }

  ghost function Step(sessions: Sessions, max: Option<nat>, op: Op): Sessions {
    match op
    case Connect(id, cleanStart) =>
      if Rejected(sessions, max, id) then sessions
      else if cleanStart || id !in sessions then sessions[id := NEW_SESSION]
      else sessions[id := sessions[id].(connected := true)]
    case Deactivate(id) =>
      if id in sessions then sessions[id := sessions[id].(connected := false)] else sessions
    case Route(publish, sender, subs) =>
      Routed(sessions, publish, sender, subs)
    case Acknowledge(id, k) =>
      if id in sessions then sessions[id := sessions[id].(pending := sessions[id].pending - {k})] else sessions
    case Redeliver(id, lost) =>
      if id in sessions then sessions[id := Redelivered(sessions[id], lost)] else sessions
    case Idle =>
      sessions
  }

  ghost function Run(sessions: Sessions, max: Option<nat>, ops: seq<Op>): Sessions {
    if ops == [] then sessions
    else Step(Run(sessions, max, ops[..|ops| - 1]), max, ops[|ops| - 1])
  }

  //
  // What each step does, session by session
  //

  /** The steps of one session leave the others alone. */
  lemma StepElsewhere(sessions: Sessions, max: Option<nat>, op: Op, s: string)
    requires op.Connect? || op.Deactivate? || op.Acknowledge? || op.Redeliver? ==> op.id != s
    requires op.Route? ==> s !in Active(sessions)
    ensures s in Step(sessions, max, op) <==> s in sessions
    ensures s in sessions ==> Step(sessions, max, op)[s] == sessions[s]
  {
    if op.Route? {
      RoutedFrame(sessions, op.publish, op.sender, op.subscribers);
      if s in sessions {
        RoutedTracks(sessions, op.publish, op.sender, op.subscribers, s);
      }
    }
  }

  /** An accepted connect gives a new session on clean start or if there was none, and else the old one back. */
  lemma ConnectIs(sessions: Sessions, max: Option<nat>, id: string, cleanStart: bool)
    ensures var after := Step(sessions, max, Connect(id, cleanStart));
            if max.Some? && |Active(sessions)| >= max.value && id !in Active(sessions) then after == sessions
            else
              && id in after && after[id].connected
              && (cleanStart || id !in sessions ==> after[id].issued == 0 && after[id].pending == map[])
              && (!cleanStart && id in sessions ==>
                    after[id].issued == sessions[id].issued && after[id].pending == sessions[id].pending)
  {
  }

  /** After an accepted clean start nothing of the old session is kept. */
  lemma CleanStartForgets(sessions: Sessions, max: Option<nat>, id: string, n: nat, p: Publish)
    requires !Rejected(sessions, max, id)
    ensures !Keeps(Step(sessions, max, Connect(id, true)), id, n, p)
  {
  }

  /** Leaving, acknowledging and redelivering, entry by entry. */
  lemma EntriesAfter(sessions: Sessions, max: Option<nat>, op: Op, k: u16)
    requires (op.Deactivate? || op.Acknowledge? || op.Redeliver?) && op.id in sessions
    ensures var before, after := sessions[op.id], Step(sessions, max, op)[op.id];
            && op.id in Step(sessions, max, op) && after.issued == before.issued
            && (after.connected <==> before.connected && !op.Deactivate?)
            && (k in after.pending <==>
                  k in before.pending && !(op.Acknowledge? && k == op.packetId) && !(op.Redeliver? && k in op.lost))
            && (k in after.pending ==>
                  after.pending[k] == if op.Redeliver? then before.pending[k].(dup := true) else before.pending[k])
  {
  }

  //
  // What every step keeps
  //

  lemma RoutedToOk(sessions: Sessions, publish: Publish, sender: string, sub: Subscriber)
    requires SessionsOk(sessions)
    ensures SessionsOk(RoutedTo(sessions, publish, sender, sub))
  {
    forall s | s in RoutedTo(sessions, publish, sender, sub)
      ensures ViewOk(RoutedTo(sessions, publish, sender, sub)[s])
    {
      assert ViewOk(sessions[s]);
    }
  }

  lemma {:induction false} RoutedOk(sessions: Sessions, publish: Publish, sender: string, subs: seq<Subscriber>)
    requires SessionsOk(sessions)
    ensures SessionsOk(Routed(sessions, publish, sender, subs))
    decreases subs
  {
    if subs != [] {
      RoutedOk(sessions, publish, sender, subs[..|subs| - 1]);
      RoutedToOk(Routed(sessions, publish, sender, subs[..|subs| - 1]), publish, sender, subs[|subs| - 1]);
    }
  }

  /** In every run, what waits for an acknowledgement is above QoS 0 and is stored under the identifier it carries. */
  lemma {:induction false} RunOk(sessions: Sessions, max: Option<nat>, ops: seq<Op>)
    requires SessionsOk(sessions)
    ensures SessionsOk(Run(sessions, max, ops))
    decreases ops
  {
    if ops != [] {
      var before, op := Run(sessions, max, ops[..|ops| - 1]), ops[|ops| - 1];
      RunOk(sessions, max, ops[..|ops| - 1]);
      if op.Route? {
        RoutedOk(before, op.publish, op.sender, op.subscribers);
      } else {
        StepOk(before, max, op);
      }
    }
  }

  lemma StepOk(sessions: Sessions, max: Option<nat>, op: Op)
    requires SessionsOk(sessions) && !op.Route?
    ensures SessionsOk(Step(sessions, max, op))
  {
    forall s | s in Step(sessions, max, op) ensures ViewOk(Step(sessions, max, op)[s]) {
      if s in sessions {
        assert ViewOk(sessions[s]);
      }
    }
  }

  //
  // Capacity
  //

  lemma ActiveSubset(a: set<string>, b: set<string>)
    requires a <= b
    ensures |a| <= |b|
  {
    assert b == a + (b - a);
  }

  lemma {:induction false} RoutedFrame(sessions: Sessions, publish: Publish, sender: string, subs: seq<Subscriber>)
    ensures Routed(sessions, publish, sender, subs).Keys == sessions.Keys
    ensures forall s :: s in sessions ==> Routed(sessions, publish, sender, subs)[s].connected == sessions[s].connected
    decreases subs
  {
    if subs != [] {
      RoutedFrame(sessions, publish, sender, subs[..|subs| - 1]);
    }
  }

  lemma StepActive(sessions: Sessions, max: Option<nat>, op: Op)
    ensures op.Connect? && !Rejected(sessions, max, op.id) ==>
            Active(Step(sessions, max, op)) == Active(sessions) + {op.id}
    ensures op.Deactivate? ==> Active(Step(sessions, max, op)) == Active(sessions) - {op.id}
    ensures !op.Deactivate? && !(op.Connect? && !Rejected(sessions, max, op.id)) ==>
            Active(Step(sessions, max, op)) == Active(sessions)
  {
    if op.Route? {
      RoutedFrame(sessions, op.publish, op.sender, op.subscribers);
    }
  }

  /** The number of active sessions never passes the configured maximum, in any run. */
  lemma {:induction false} CapacityKept(sessions: Sessions, max: Option<nat>, ops: seq<Op>)
    requires max.Some? ==> |Active(sessions)| <= max.value
    ensures max.Some? ==> |Active(Run(sessions, max, ops))| <= max.value
    decreases ops
  {
    if ops != [] {
      var before := Run(sessions, max, ops[..|ops| - 1]);
      CapacityKept(sessions, max, ops[..|ops| - 1]);
      StepActive(before, max, ops[|ops| - 1]);
      ActiveSubset(Active(Run(sessions, max, ops)),
        Active(before) + match ops[|ops| - 1] case Connect(id, _) => {id} case _ => {});
    }
  }

  //
  // What routing allocates
  //

  /** What a publish owes a session: one copy per wanted subscription, at the lower QoS, when that is above 0. */
  function Owed(publish: Publish, sender: string, subs: seq<Subscriber>, s: string): seq<Publish> {
    if subs == [] then []
    else
      var sub := subs[|subs| - 1];
      Owed(publish, sender, subs[..|subs| - 1], s) +
      if sub.sessionId == s && Wanted(sender, sub) && Lower(publish.qos, sub.qos) != AtMostOnce
      then [publish.(qos := Lower(publish.qos, sub.qos))] else []
  }

  /** `view` after `outs` has been tracked in order. */
  function TrackedAll(view: View, outs: seq<Publish>): View {
    if outs == [] then view else Tracked(TrackedAll(view, outs[..|outs| - 1]), outs[|outs| - 1])
  }

  lemma TrackedAllSnoc(view: View, outs: seq<Publish>, out: Publish)
    ensures TrackedAll(view, outs + [out]) == Tracked(TrackedAll(view, outs), out)
  {
    assert (outs + [out])[..|outs|] == outs;
  }

  /** Routing gives an active session exactly what it is owed and leaves the others alone. */
  lemma {:induction false} RoutedTracks(sessions: Sessions, publish: Publish, sender: string, subs: seq<Subscriber>,
                                        s: string)
    requires s in sessions
    ensures s in Routed(sessions, publish, sender, subs)
    ensures Routed(sessions, publish, sender, subs)[s] ==
              if sessions[s].connected then TrackedAll(sessions[s], Owed(publish, sender, subs, s)) else sessions[s]
    decreases subs
  {
    if subs != [] {
      var init, sub := subs[..|subs| - 1], subs[|subs| - 1];
      RoutedTracks(sessions, publish, sender, init, s);
      RoutedFrame(sessions, publish, sender, init);
      TrackedAllSnoc(sessions[s], Owed(publish, sender, init, s), publish.(qos := Lower(publish.qos, sub.qos)));
      assert Owed(publish, sender, init, s) + [] == Owed(publish, sender, init, s);
    }
  }

  lemma {:induction false} TrackedAllCount(view: View, outs: seq<Publish>)
    ensures TrackedAll(view, outs).issued == view.issued + |outs|
    ensures TrackedAll(view, outs).connected == view.connected
    decreases outs
  {
    if outs != [] {
      TrackedAllCount(view, outs[..|outs| - 1]);
    }
  }

  //
  // Retention
  //

  ghost predicate SameButDup(p: Publish, q: Publish) {
    q == p || q == p.(dup := true)
  }

  /** The publish given the n-th identifier is still waiting for its acknowledgement. */
  ghost predicate Keeps(sessions: Sessions, s: string, n: nat, p: Publish) {
    && n >= 1 && s in sessions && n <= sessions[s].issued
    && IdAt(n) in sessions[s].pending && SameButDup(p, sessions[s].pending[IdAt(n)])
  }

  lemma {:induction false} TrackedAllKeeps(view: View, outs: seq<Publish>, n: nat)
    requires 1 <= n <= view.issued && view.issued + |outs| < n + CYCLE
    requires IdAt(n) in view.pending
    ensures IdAt(n) in TrackedAll(view, outs).pending
    ensures TrackedAll(view, outs).pending[IdAt(n)] == view.pending[IdAt(n)]
    decreases outs
  {
    hide IdAt;
    if outs != [] {
      var init := outs[..|outs| - 1];
      TrackedAllKeeps(view, init, n);
      TrackedAllCount(view, init);
      SameIdIff(n, view.issued + |outs|);
    }
  }

  /** Each copy stays under its own identifier, unless 65,535 more were tracked after it. */
  lemma {:induction false} TrackedAllStores(view: View, outs: seq<Publish>, j: nat)
    requires j < |outs| < j + 1 + CYCLE
    ensures var id := IdAt(view.issued + 1 + j);
            id in TrackedAll(view, outs).pending && TrackedAll(view, outs).pending[id] == outs[j].(packetId := Some(id))
    decreases outs
  {
    hide IdAt;
    var init := outs[..|outs| - 1];
    TrackedAllCount(view, init);
    if j < |init| {
      TrackedAllStores(view, init, j);
      SameIdIff(view.issued + 1 + j, view.issued + |outs|);
    }
  }

  /** A routed publish is remembered, once per copy owed. */
  lemma RoutedKeeps(sessions: Sessions, publish: Publish, sender: string, subs: seq<Subscriber>, s: string, j: nat)
    requires s in sessions && sessions[s].connected
    requires j < |Owed(publish, sender, subs, s)| < j + 1 + CYCLE
    ensures var n := sessions[s].issued + 1 + j;
            Keeps(Routed(sessions, publish, sender, subs), s, n,
              Owed(publish, sender, subs, s)[j].(packetId := Some(IdAt(n))))
  {
    hide IdAt, Owed, Routed, TrackedAll;
    var outs := Owed(publish, sender, subs, s);
    RoutedTracks(sessions, publish, sender, subs, s);
    TrackedAllCount(sessions[s], outs);
    TrackedAllStores(sessions[s], outs, j);
  }

  /** The steps that end the duty for an identifier: its acknowledgement, a clean start, a redelivery cut short. */
  predicate Releases(op: Op, s: string, id: u16) {
    match op
    case Connect(t, cleanStart) => t == s && cleanStart
    case Acknowledge(t, k) => t == s && k == id
    case Redeliver(t, lost) => t == s && id in lost
    case _ => false
  }

  lemma StepKeeps(sessions: Sessions, max: Option<nat>, op: Op, s: string, n: nat, p: Publish)
    requires Keeps(sessions, s, n, p) && !Releases(op, s, IdAt(n))
    requires s in Step(sessions, max, op) ==> Step(sessions, max, op)[s].issued < n + CYCLE
    ensures Keeps(Step(sessions, max, op), s, n, p)
  {
    hide IdAt;
    if op.Route? {
      RoutedTracks(sessions, op.publish, op.sender, op.subscribers, s);
      TrackedAllCount(sessions[s], Owed(op.publish, op.sender, op.subscribers, s));
      if sessions[s].connected {
        TrackedAllKeeps(sessions[s], Owed(op.publish, op.sender, op.subscribers, s), n);
      }
    }
  }

  /** Allocation counts only grow while the session is not replaced. */
  lemma StepGrows(sessions: Sessions, max: Option<nat>, op: Op, s: string)
    requires s in sessions && !(op.Connect? && op.id == s && op.cleanStart)
    ensures s in Step(sessions, max, op) && sessions[s].issued <= Step(sessions, max, op)[s].issued
  {
    if op.Route? {
      RoutedTracks(sessions, op.publish, op.sender, op.subscribers, s);
      TrackedAllCount(sessions[s], Owed(op.publish, op.sender, op.subscribers, s));
    }
  }

  /**
    At least once: in every run without a step that releases the identifier, and with fewer than 65,535 later
    allocations, a tracked publish is still there under the same identifier, at most marked as a duplicate.
   */
  lemma {:induction false} Retained(sessions: Sessions, max: Option<nat>, ops: seq<Op>, s: string, n: nat, p: Publish)
    requires Keeps(sessions, s, n, p)
    requires forall i :: 0 <= i < |ops| ==> !Releases(ops[i], s, IdAt(n))
    requires s in Run(sessions, max, ops) ==> Run(sessions, max, ops)[s].issued < n + CYCLE
    ensures Keeps(Run(sessions, max, ops), s, n, p)
    decreases ops
  {
    hide IdAt, Step, Keeps;
    if ops != [] {
      var init, op := ops[..|ops| - 1], ops[|ops| - 1];
      KeepsPresent(sessions, s, n, p);
      RunGrows(sessions, max, init, s, IdAt(n));
      StepGrows(Run(sessions, max, init), max, op, s);
      Retained(sessions, max, init, s, n, p);
      StepKeeps(Run(sessions, max, init), max, op, s, n, p);
    }
  }

  lemma KeepsPresent(sessions: Sessions, s: string, n: nat, p: Publish)
    requires Keeps(sessions, s, n, p)
    ensures n >= 1 && s in sessions
  {
  }

  lemma {:induction false} RunGrows(sessions: Sessions, max: Option<nat>, ops: seq<Op>, s: string, id: u16)
    requires s in sessions
    requires forall i :: 0 <= i < |ops| ==> !Releases(ops[i], s, id)
    ensures s in Run(sessions, max, ops) && sessions[s].issued <= Run(sessions, max, ops)[s].issued
    decreases ops
  {
    hide Step;
    if ops != [] {
      RunGrows(sessions, max, ops[..|ops| - 1], s, id);
      assert !Releases(ops[|ops| - 1], s, id);
      StepGrows(Run(sessions, max, ops[..|ops| - 1]), max, ops[|ops| - 1], s);
    }
  }

  /** A run is a run followed by another from where it ended. */
  lemma {:induction false} RunSplit(sessions: Sessions, max: Option<nat>, ops: seq<Op>, i: nat)
    requires i <= |ops|
    ensures Run(sessions, max, ops) == Run(Run(sessions, max, ops[..i]), max, ops[i..])
    decreases ops
  {
    hide Step;
    if i == |ops| {
      assert ops[..i] == ops && ops[i..] == [];
    } else {
      var init := ops[..|ops| - 1];
      RunSplit(sessions, max, init, i);
      assert init[..i] == ops[..i] && init[i..] == ops[i..][..|ops[i..]| - 1];
    }
  }

  /** The j-th copy that the i-th step of a run owes an active session. */
  ghost predicate OwedAt(sessions: Sessions, max: Option<nat>, ops: seq<Op>, i: nat, s: string, j: nat) {
    && i < |ops| && ops[i].Route?
    && s in Active(Run(sessions, max, ops[..i]))
    && j < |Owed(ops[i].publish, ops[i].sender, ops[i].subscribers, s)|
  }

  /** The number of the identifier that copy gets, and the copy as it is sent. */
  ghost function NumberOf(sessions: Sessions, max: Option<nat>, ops: seq<Op>, i: nat, s: string, j: nat): (n: nat)
    requires OwedAt(sessions, max, ops, i, s, j)
    ensures n >= 1
  {
    ActiveMember(Run(sessions, max, ops[..i]), s);
    Run(sessions, max, ops[..i])[s].issued + 1 + j
  }

  ghost function CopyOf(sessions: Sessions, max: Option<nat>, ops: seq<Op>, i: nat, s: string, j: nat): Publish
    requires OwedAt(sessions, max, ops, i, s, j)
  {
    Owed(ops[i].publish, ops[i].sender, ops[i].subscribers, s)[j].(
      packetId := Some(IdAt(NumberOf(sessions, max, ops, i, s, j))))
  }

  /**
    At least once, from the routing on: whatever a step of a run routes to an active session is there when the run
    ends, if no later step releases its identifier and fewer than 65,535 identifiers are issued after it.
   */
  lemma RoutedRetained(sessions: Sessions, max: Option<nat>, ops: seq<Op>, i: nat, s: string, j: nat)
    requires OwedAt(sessions, max, ops, i, s, j)
    requires var n := NumberOf(sessions, max, ops, i, s, j);
             && (forall k :: i < k < |ops| ==> !Releases(ops[k], s, IdAt(n)))
             && (s in Run(sessions, max, ops) ==> Run(sessions, max, ops)[s].issued < n + CYCLE)
    ensures Keeps(Run(sessions, max, ops), s, NumberOf(sessions, max, ops, i, s, j),
            CopyOf(sessions, max, ops, i, s, j))
  {
    hide Run, IdAt, Owed, Keeps, Releases, Active, Routed;
    var before, later := Run(sessions, max, ops[..i]), ops[i + 1..];
    ActiveMember(before, s);
    RunSplit(sessions, max, ops, i + 1);
    RunRoute(sessions, max, ops, i);
    forall k | 0 <= k < |later| ensures !Releases(later[k], s, IdAt(NumberOf(sessions, max, ops, i, s, j))) {
      assert later[k] == ops[i + 1 + k];
    }
    RoutedThenRun(before, max, ops[i], later, s, j);
  }

  lemma ActiveMember(sessions: Sessions, s: string)
    ensures s in Active(sessions) <==> s in sessions && sessions[s].connected
  {
  }

  lemma RunRoute(sessions: Sessions, max: Option<nat>, ops: seq<Op>, i: nat)
    requires i < |ops| && ops[i].Route?
    ensures Run(sessions, max, ops[..i + 1]) ==
              Routed(Run(sessions, max, ops[..i]), ops[i].publish, ops[i].sender, ops[i].subscribers)
  {
    hide Routed;
    assert ops[..i + 1][..i] == ops[..i];
  }

  lemma RoutedThenRun(before: Sessions, max: Option<nat>, op: Op, later: seq<Op>, s: string, j: nat)
    requires op.Route? && s in before && before[s].connected && j < |Owed(op.publish, op.sender, op.subscribers, s)|
    requires forall k :: 0 <= k < |later| ==> !Releases(later[k], s, IdAt(before[s].issued + 1 + j))
    requires var end := Run(Routed(before, op.publish, op.sender, op.subscribers), max, later);
             s in end ==> end[s].issued < before[s].issued + 1 + j + CYCLE
    ensures var n := before[s].issued + 1 + j;
            Keeps(Run(Routed(before, op.publish, op.sender, op.subscribers), max, later), s, n,
                  Owed(op.publish, op.sender, op.subscribers, s)[j].(packetId := Some(IdAt(n))))
  {
    hide Run, IdAt, Owed, Routed, TrackedAll, Keeps, Releases;
    var after, n := Routed(before, op.publish, op.sender, op.subscribers), before[s].issued + 1 + j;
    RoutedTracks(before, op.publish, op.sender, op.subscribers, s);
    TrackedAllCount(before[s], Owed(op.publish, op.sender, op.subscribers, s));
    RunGrows(after, max, later, s, IdAt(n));
    RoutedKeeps(before, op.publish, op.sender, op.subscribers, s, j);
    Retained(after, max, later, s, n, Owed(op.publish, op.sender, op.subscribers, s)[j].(packetId := Some(IdAt(n))));
  }

  /** The bound is exact: the 65,535th later allocation takes the identifier over. */
  lemma OverwrittenIff(view: View, n: nat, out: Publish)
    requires 1 <= n <= view.issued < n + CYCLE && IdAt(n) in view.pending
    requires view.pending[IdAt(n)] != out.(packetId := Some(IdAt(n)))
    ensures Tracked(view, out).pending[IdAt(n)] != view.pending[IdAt(n)] <==> view.issued + 1 == n + CYCLE
  {
    SameIdIff(n, view.issued + 1);
  }

  //
  // From the topic index to the sessions
  //

  /** The table entries for which a session is owed a copy. */
  ghost function OwedKeys(publish: Publish, sender: string, subs: Subscriptions, target: set<Key>,
                          s: string): set<Key> {
    set k | k in target && k in subs && subs[k].sessionId == s && Wanted(sender, subs[k])
      && Lower(publish.qos, subs[k].qos) != AtMostOnce
  }

  lemma OwedKeysStep(publish: Publish, sender: string, subs: Subscriptions, target: set<Key>, s: string, key: Key)
    requires key in target
    ensures var all := OwedKeys(publish, sender, subs, target, s);
            var fewer := OwedKeys(publish, sender, subs, target - {key}, s);
            |all| == |fewer| + if key in all then 1 else 0
  {
    var all, fewer := OwedKeys(publish, sender, subs, target, s), OwedKeys(publish, sender, subs, target - {key}, s);
    assert fewer == all - {key};
  }

  lemma ListsInit(out: seq<Subscriber>, keys: seq<Key>, subs: Subscriptions, target: set<Key>)
    requires Lists(out, keys, subs, target) && out != []
    ensures var key := keys[|keys| - 1];
            && key in target && key in subs && out[|out| - 1] == subs[key]
            && Lists(out[..|out| - 1], keys[..|keys| - 1], subs, target - {key})
  {
    var key := keys[|keys| - 1];
    assert forall i :: 0 <= i < |keys| - 1 ==> keys[i] in target - {key};
    forall k | k in target - {key} ensures k in keys[..|keys| - 1] {
      var i :| 0 <= i < |keys| && keys[i] == k;
      assert keys[..|keys| - 1][i] == k;
    }
  }

  /** The copies owed for a list of subscribers are one for each table entry that is owed one. */
  lemma {:induction false} OwedCount(publish: Publish, sender: string, out: seq<Subscriber>, keys: seq<Key>,
                                     subs: Subscriptions, target: set<Key>, s: string)
    requires Lists(out, keys, subs, target)
    ensures |Owed(publish, sender, out, s)| == |OwedKeys(publish, sender, subs, target, s)|
    decreases out
  {
    if out == [] {
      NothingListed(keys, subs, target);
    } else {
      hide Lists;
      var key := keys[|keys| - 1];
      ListsInit(out, keys, subs, target);
      OwedCount(publish, sender, out[..|out| - 1], keys[..|keys| - 1], subs, target - {key}, s);
      OwedKeysStep(publish, sender, subs, target, s, key);
    }
  }

  /** Every table entry that is owed a copy gets one, at its own QoS. */
  lemma {:induction false} OwedForKey(publish: Publish, sender: string, out: seq<Subscriber>, keys: seq<Key>,
                                      subs: Subscriptions, target: set<Key>, s: string, key: Key) returns (j: nat)
    requires Lists(out, keys, subs, target) && key in OwedKeys(publish, sender, subs, target, s)
    ensures j < |Owed(publish, sender, out, s)|
    ensures Owed(publish, sender, out, s)[j] == publish.(qos := Lower(publish.qos, subs[key].qos))
    decreases out
  {
    if out == [] {
      NothingListed(keys, subs, target);
    } else {
      hide Lists;
      var last := keys[|keys| - 1];
      ListsInit(out, keys, subs, target);
      if key == last {
        j := |Owed(publish, sender, out, s)| - 1;
      } else {
        j := OwedForKey(publish, sender, out[..|out| - 1], keys[..|keys| - 1], subs, target - {last}, s, key);
      }
    }
  }

  lemma NothingListed(keys: seq<Key>, subs: Subscriptions, target: set<Key>)
    requires Lists([], keys, subs, target)
    ensures target == {}
  {
  }
}
