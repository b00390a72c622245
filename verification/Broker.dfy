/**
  The broker's session pool and message delivery as the program updates them in place: two maps with counters, and
  sessions shared by reference (vaux-broker/src/session.rs, vaux-broker/src/lib.rs). Every operation is tied to the
  step on values that module Delivery reasons about.
 */
module Broker {
  import opened Mqtt
  import opened Topics
  import opened Delivery

  class Session {
    const id: string
    var connected: bool
    var nextPacketId: u16
    var pendingAck: map<u16, Publish>
    /** Identifiers handed out so far. */
    ghost var issued: nat

    ghost predicate Valid()
      reads this
    {
      nextPacketId == IdAt(issued + 1) && ViewOk(Abs())
    }

    ghost function Abs(): View
      reads this
    {
      View(connected, issued, pendingAck)
    }

    constructor (id: string)
      ensures Valid() && this.id == id && Abs() == View(false, 0, map[])
    {
      this.id, connected, nextPacketId, pendingAck, issued := id, false, 1, map[], 0;
    }

    method SetConnected(flag: bool)
      requires Valid()
      modifies this`connected
      ensures Valid() && connected == flag && Abs() == old(Abs()).(connected := flag)
    {
      assert forall id :: id in pendingAck ==> EntryOk(old(Abs()), id);
      connected := flag;
    }

    /** The k-th call returns the k-th identifier of the cycle. */
    method NextPacketId() returns (k: u16)
      requires Valid()
      modifies this`nextPacketId, this`issued
      ensures Valid() && issued == old(issued) + 1 && k == IdAt(issued) == (issued - 1) % 65535 + 1
    {
      k := nextPacketId;
      IdSucc(issued + 1);
      nextPacketId := (nextPacketId + 1) % 0x1_0000;
      if nextPacketId == 0 {
        nextPacketId := 1;
      }
      issued := issued + 1;
    }

    method TrackQosPublish(k: u16, publish: Publish)
      requires Valid() && publish.qos != AtMostOnce && publish.packetId == Some(k)
      modifies this`pendingAck
      ensures Valid() && pendingAck == old(pendingAck)[k := publish]
    {
      pendingAck := pendingAck[k := publish];
      assert forall id :: id in pendingAck && id != k ==> EntryOk(old(Abs()), id);
    }

    /** Allocate, stamp and remember. */
    method Give(out: Publish) returns (stamped: Publish)
      requires Valid() && out.qos != AtMostOnce
      modifies this
      ensures Valid() && Abs() == Tracked(old(Abs()), out) && stamped == out.(packetId := Some(IdAt(issued)))
    {
      hide ViewOk;
      var k := NextPacketId();
      stamped := out.(packetId := Some(k));
      TrackQosPublish(k, stamped);
    }

    method Acknowledge(k: u16) returns (known: bool)
      requires Valid()
      modifies this`pendingAck
      ensures Valid() && pendingAck == old(pendingAck) - {k} && known == (k in old(pendingAck))
    {
      known := k in pendingAck;
      pendingAck := pendingAck - {k};
      assert forall id :: id in pendingAck ==> EntryOk(old(Abs()), id);
    }

    /** `set_dup` and `set_packet_id` refuse a QoS 0 publish. */
    static function Again(k: u16, publish: Publish): Publish {
      if publish.qos == AtMostOnce then publish else publish.(dup := true, packetId := Some(k))
    }

    /**
      Redelivery after a connect: the waiting publishes are drained in no particular order and put back one by one,
      each before it is written. Without a `failure` every write succeeds, with one only that many do.
     */
    method Redeliver(failure: Option<nat>) returns (lost: set<u16>, sent: seq<Publish>)
      requires Valid()
      modifies this`pendingAck
      ensures Valid() && Abs() == Redelivered(old(Abs()), lost) && lost <= old(pendingAck.Keys)
      // what has not been reached when a write fails is lost, the entry whose write failed is not
      ensures failure.None? || failure.value >= |old(pendingAck)| ==> lost == {} && |sent| == |old(pendingAck)|
      ensures failure.Some? && failure.value < |old(pendingAck)| ==>
                |sent| == failure.value && |lost| == |old(pendingAck)| - failure.value - 1
      ensures forall i :: 0 <= i < |sent| ==> IsStored(sent[i], pendingAck)
      ensures forall i, j :: 0 <= i < j < |sent| ==> sent[i].packetId != sent[j].packetId
    {
      hide ViewOk, Redelivered, IsStored, Progress, Session.Again;
      ghost var was := Abs();
      var rest := pendingAck;
      pendingAck, sent := map[], [];
      ProgressStart(was);
      while rest != map[]
        invariant Progress(was, rest, pendingAck, |sent|) && (failure.Some? ==> |sent| <= failure.value)
        invariant forall i :: 0 <= i < |sent| ==> IsStored(sent[i], pendingAck)
        invariant forall i, j :: 0 <= i < j < |sent| ==> sent[i].packetId != sent[j].packetId
        decreases |rest|
      {
        var k :| k in rest;
        var publish := Again(k, rest[k]);
        ProgressStep(was, rest, pendingAck, |sent|, k);
        StillStored(sent, pendingAck, k, publish);
        rest := rest - {k};
        pendingAck := pendingAck[k := publish];
        if failure == Some(|sent|) {
          ProgressEnd(was, rest, pendingAck, |sent| + 1);
          return rest.Keys, sent;
        }
        sent := sent + [publish];
      }
      ProgressEnd(was, rest, pendingAck, |sent|);
      lost := {};
    }
  }

  /** Part way through the redelivery loop, with `done` entries put back. */
  ghost predicate Progress(was: View, rest: map<u16, Publish>, pending: map<u16, Publish>, done: nat) {
    && ViewOk(was) && (forall id :: id in rest ==> id in was.pending && rest[id] == was.pending[id])
    && pending == Redelivered(was, rest.Keys).pending && done + |rest| == |was.pending|
  }

  lemma ProgressStart(was: View)
    requires ViewOk(was)
    ensures Progress(was, was.pending, map[], 0)
  {
  }

  lemma ProgressStep(was: View, rest: map<u16, Publish>, pending: map<u16, Publish>, done: nat, k: u16)
    requires Progress(was, rest, pending, done) && k in rest
    ensures k !in pending && |rest - {k}| < |rest|
    ensures var publish := Session.Again(k, rest[k]);
            && publish.dup && publish.packetId == Some(k)
            && Progress(was, rest - {k}, pending[k := publish], done + 1)
  {
    assert EntryOk(was, k);
    RemoveOne(rest, k);
    assert pending[k := rest[k].(dup := true)] == Redelivered(was, (rest - {k}).Keys).pending;
  }

  lemma ProgressEnd(was: View, rest: map<u16, Publish>, pending: map<u16, Publish>, done: nat)
    requires Progress(was, rest, pending, done)
    ensures rest.Keys <= was.pending.Keys && |rest.Keys| == |rest| && done + |rest| == |was.pending|
    ensures was.(pending := pending) == Redelivered(was, rest.Keys) && ViewOk(was.(pending := pending))
    ensures rest == map[] ==> rest.Keys == {}
  {
    RedeliveredOk(was, rest.Keys);
  }

  /** A written publish is a marked duplicate under the identifier it is stored under. */
  predicate IsStored(publish: Publish, pending: map<u16, Publish>) {
    && publish.dup && publish.packetId.Some?
    && publish.packetId.value in pending && pending[publish.packetId.value] == publish
  }

  lemma StillStored(sent: seq<Publish>, pending: map<u16, Publish>, k: u16, publish: Publish)
    requires forall i :: 0 <= i < |sent| ==> IsStored(sent[i], pending)
    requires k !in pending
    ensures forall i :: 0 <= i < |sent| ==> IsStored(sent[i], pending[k := publish]) && sent[i].packetId != Some(k)
    ensures publish.dup && publish.packetId == Some(k) ==> IsStored(publish, pending[k := publish])
  {
  }

  lemma SizeOfKeys(m: map<u16, Publish>)
    ensures |m| == |m.Keys|
  {
  }

  lemma RemoveOne(m: map<u16, Publish>, k: u16)
    requires k in m
    ensures |m - {k}| == |m| - 1
  {
    assert (m - {k}).Keys == m.Keys - {k};
    SizeOfKeys(m - {k});
  }

  lemma RedeliveredOk(view: View, lost: set<u16>)
    requires ViewOk(view)
    ensures ViewOk(Redelivered(view, lost))
  {
    forall id | id in Redelivered(view, lost).pending ensures EntryOk(Redelivered(view, lost), id) {
      assert EntryOk(view, id);
    }
  }

  lemma PutSize(m: map<string, Session>, s: string, session: Session)
    ensures |m[s := session]| == if s in m then |m| else |m| + 1
  {
    assert m[s := session].Keys == m.Keys + {s};
    assert |m| == |m.Keys| && |m[s := session]| == |m[s := session].Keys|;
  }

  lemma DropSize(m: map<string, Session>, s: string)
    requires s in m
    ensures |m - {s}| == |m| - 1
  {
    assert (m - {s}).Keys == m.Keys - {s};
    assert |m| == |m.Keys| && |m - {s}| == |(m - {s}).Keys|;
  }

  /** The two maps split the table by the connected flag. */
  ghost predicate Partition(active: map<string, Session>, inactive: map<string, Session>, table: Sessions) {
    && (forall s :: s in active ==> s in table && s !in inactive && table[s].connected)
    && (forall s :: s in inactive ==> s in table && s !in active && !table[s].connected)
    && (forall s :: s in table ==> s in active || s in inactive)
  }

  /** One entry taken from the map that holds it. */
  lemma PartitionTake(active: map<string, Session>, inactive: map<string, Session>, table: Sessions, id: string)
    requires Partition(active, inactive, table)
    ensures id in active ==> id in table && id !in inactive && Partition(active - {id}, inactive, table - {id})
    ensures id in inactive ==> id in table && id !in active && Partition(active, inactive - {id}, table - {id})
    ensures id !in active && id !in inactive ==> id !in table && table - {id} == table
  {
  }

  lemma PartitionAdd(active: map<string, Session>, inactive: map<string, Session>, table: Sessions, id: string,
                     session: Session, view: View)
    requires Partition(active, inactive, table) && id !in table
    ensures id !in active && id !in inactive
    ensures view.connected ==> Partition(active[id := session], inactive, table[id := view])
    ensures !view.connected ==> Partition(active, inactive[id := session], table[id := view])
  {
  }

  lemma Overlapping(active: map<string, Session>, inactive: map<string, Session>, table: Sessions, id: string)
    ensures id in active && id in inactive ==> !Partition(active, inactive, table)
  {
  }

  lemma PartitionKeep(active: map<string, Session>, inactive: map<string, Session>, table: Sessions, id: string,
                      view: View)
    requires Partition(active, inactive, table) && id in table && view.connected == table[id].connected
    ensures Partition(active, inactive, table[id := view])
    ensures if view.connected then id in active && id !in inactive else id in inactive && id !in active
  {
  }

  /** `InPlace`: a session is stored under its own identifier and its state is the table's. */
  ghost predicate InPlace(session: Session, s: string, view: View)
    reads session
  {
    session.id == s && session.Valid() && session.Abs() == view
  }

  ghost predicate Placed(m: map<string, Session>, table: Sessions, repr: set<Session>)
    reads repr
  {
    forall s :: s in m ==> s in table && m[s] in repr && InPlace(m[s], s, table[s])
  }

  lemma PlacedDrop(m: map<string, Session>, table: Sessions, repr: set<Session>, id: string)
    requires Placed(m, table, repr)
    ensures Placed(m - {id}, table, repr)
  {
  }

  lemma PlacedWithout(m: map<string, Session>, table: Sessions, repr: set<Session>, id: string)
    requires Placed(m, table, repr) && id !in m
    ensures Placed(m, table - {id}, repr)
  {
  }

  lemma PlacedElsewhere(m: map<string, Session>, table: Sessions, repr: set<Session>, id: string, view: View)
    requires Placed(m, table, repr) && id !in m
    ensures Placed(m, table[id := view], repr)
  {
  }

  lemma PlacedMore(m: map<string, Session>, table: Sessions, repr: set<Session>, session: Session)
    requires Placed(m, table, repr)
    ensures Placed(m, table, repr + {session})
  {
  }

  lemma PlacedPut(m: map<string, Session>, table: Sessions, repr: set<Session>, id: string, session: Session)
    requires Placed(m, table, repr) && id in table && session in repr && InPlace(session, id, table[id])
    ensures Placed(m[id := session], table, repr)
  {
  }

  lemma FoundIn(m: map<string, Session>, table: Sessions, repr: set<Session>, id: string)
    requires Placed(m, table, repr)
    ensures id in m ==> id in table && m[id] in repr && InPlace(m[id], id, table[id])
  {
  }

  lemma Gone(active: map<string, Session>, inactive: map<string, Session>, table: Sessions, id: string)
    requires Partition(active, inactive, table - {id})
    ensures id !in active && id !in inactive
  {
  }

  lemma NotActive(active: map<string, Session>, inactive: map<string, Session>, table: Sessions, id: string)
    requires Partition(active, inactive, table)
    ensures id !in active ==> Step(table, None, Op.Deactivate(id)) == table
  {
    if id !in active && id in table {
      assert table[id := table[id].(connected := false)] == table;
    }
  }

  lemma PutBack(table: Sessions, id: string, view: View)
    ensures (table - {id})[id := view] == table[id := view]
  {
  }

  class SessionPool {
    var active: map<string, Session>
    var inactive: map<string, Session>
    var activeSessions: nat
    var inactiveSessions: nat
    /** The two maps as one table, and the sessions in them. */
    ghost var table: Sessions
    ghost var repr: set<Session>

    ghost predicate Valid()
      reads this, repr
    {
      && Partition(active, inactive, table)
      && activeSessions == |active| && inactiveSessions == |inactive|
      && Placed(active, table, repr) && Placed(inactive, table, repr)
    }

    lemma ActiveCount()
      requires Valid()
      ensures Active(table) == active.Keys && |Active(table)| == activeSessions
    {
      assert |active| == |active.Keys|;
    }

    constructor ()
      ensures Valid() && table == map[] && repr == {}
    {
      active, inactive, activeSessions, inactiveSessions := map[], map[], 0, 0;
      table, repr := map[], {};
    }

    predicate AtCapacity(max: Option<nat>)
      reads this
    {
      max.Some? && activeSessions >= max.value
    }

    /**
      The pool does not look whether the identifier is there already. It stays well formed exactly if it is not: else
      a counter is one too high, or the identifier is in both maps.
     */
    method Add(session: Session)
      requires Valid() && session.Valid()
      modifies this
      ensures Valid() <==> session.id !in old(table)
      ensures session.id !in old(table) ==>
                table == old(table)[session.id := session.Abs()] && repr == old(repr) + {session}
      ensures session.connected ==>
                && active == old(active)[session.id := session] && activeSessions == old(activeSessions) + 1
                && inactive == old(inactive) && inactiveSessions == old(inactiveSessions)
      ensures !session.connected ==>
                && inactive == old(inactive)[session.id := session] && inactiveSessions == old(inactiveSessions) + 1
                && active == old(active) && activeSessions == old(activeSessions)
    {
      hide Session.Valid, ViewOk, Partition, Placed;
      if session.connected {
        AddActive(session);
      } else {
        AddInactive(session);
      }
    }

    method AddActive(session: Session)
      requires Valid() && session.Valid() && session.connected
      modifies this
      ensures active == old(active)[session.id := session] && activeSessions == old(activeSessions) + 1
      ensures inactive == old(inactive) && inactiveSessions == old(inactiveSessions)
      ensures Valid() <==> session.id !in old(table)
      ensures session.id !in old(table) ==>
                table == old(table)[session.id := session.Abs()] && repr == old(repr) + {session}
    {
      hide Session.Valid, ViewOk, Partition, Placed;
      PutSize(active, session.id, session);
      if session.id !in table {
        PartitionAdd(active, inactive, table, session.id, session, session.Abs());
        Enter(session);
        PlacedPut(active, table, repr, session.id, session);
      } else {
        PartitionTake(active, inactive, table, session.id);
      }
      activeSessions := activeSessions + 1;
      active := active[session.id := session];
      Overlapping(active, inactive, table, session.id);
    }

    method AddInactive(session: Session)
      requires Valid() && session.Valid() && !session.connected
      modifies this
      ensures inactive == old(inactive)[session.id := session] && inactiveSessions == old(inactiveSessions) + 1
      ensures active == old(active) && activeSessions == old(activeSessions)
      ensures Valid() <==> session.id !in old(table)
      ensures session.id !in old(table) ==>
                table == old(table)[session.id := session.Abs()] && repr == old(repr) + {session}
    {
      hide Session.Valid, ViewOk, Partition, Placed;
      PutSize(inactive, session.id, session);
      if session.id !in table {
        PartitionAdd(active, inactive, table, session.id, session, session.Abs());
        Enter(session);
        PlacedPut(inactive, table, repr, session.id, session);
      } else {
        PartitionTake(active, inactive, table, session.id);
      }
      inactiveSessions := inactiveSessions + 1;
      inactive := inactive[session.id := session];
      Overlapping(active, inactive, table, session.id);
    }

    /** The table gets the session that is about to be stored. */
    ghost method Enter(session: Session)
      requires session.id !in active && session.id !in inactive
      requires Placed(active, table, repr) && Placed(inactive, table, repr)
      modifies this`table, this`repr
      ensures table == old(table)[session.id := session.Abs()] && repr == old(repr) + {session}
      ensures Placed(active, table, repr) && Placed(inactive, table, repr)
    {
      hide Session.Valid, Session.Abs, ViewOk, Placed;
      PlacedMore(active, table, repr, session);
      PlacedMore(inactive, table, repr, session);
      PlacedElsewhere(active, table, repr + {session}, session.id, session.Abs());
      PlacedElsewhere(inactive, table, repr + {session}, session.id, session.Abs());
      table, repr := table[session.id := session.Abs()], repr + {session};
    }

    /** The table forgets a session that is no longer stored. */
    ghost method Leave(id: string)
      requires id !in active && id !in inactive
      requires Placed(active, table, repr) && Placed(inactive, table, repr)
      modifies this`table
      ensures table == old(table) - {id}
      ensures Placed(active, table, repr) && Placed(inactive, table, repr)
    {
      hide Session.Valid, Session.Abs, ViewOk, Placed;
      PlacedWithout(active, table, repr, id);
      PlacedWithout(inactive, table, repr, id);
      table := table - {id};
    }

    method RemoveActive(id: string) returns (r: Option<Session>)
      requires Valid()
      modifies this
      ensures Valid() && repr == old(repr) && (r.Some? <==> id in old(active)) && inactive == old(inactive)
      ensures r.Some? ==> r.value == old(active)[id] && table == old(table) - {id} && active == old(active) - {id}
      ensures r.None? ==> table == old(table) && active == old(active)
    {
      hide Session.Valid, Session.Abs, ViewOk, Partition, Placed, InPlace;
      if id in active {
        PartitionTake(active, inactive, table, id);
        PlacedDrop(active, table, repr, id);
        DropSize(active, id);
        r := Some(active[id]);
        active, activeSessions := active - {id}, activeSessions - 1;
        Leave(id);
      } else {
        r := None;
      }
    }

    method RemoveInactive(id: string) returns (r: Option<Session>)
      requires Valid()
      modifies this
      ensures Valid() && repr == old(repr) && (r.Some? <==> id in old(inactive)) && active == old(active)
      ensures r.Some? ==> r.value == old(inactive)[id] && table == old(table) - {id} && inactive == old(inactive) - {id}
      ensures r.None? ==> table == old(table) && inactive == old(inactive)
    {
      hide Session.Valid, Session.Abs, ViewOk, Partition, Placed, InPlace;
      if id in inactive {
        PartitionTake(active, inactive, table, id);
        PlacedDrop(inactive, table, repr, id);
        DropSize(inactive, id);
        r := Some(inactive[id]);
        inactive, inactiveSessions := inactive - {id}, inactiveSessions - 1;
        Leave(id);
      } else {
        r := None;
      }
    }

    method Remove(id: string) returns (r: Option<Session>)
      requires Valid()
      modifies this
      ensures Valid() && repr == old(repr) && (r.Some? <==> id in old(table)) && table == old(table) - {id}
      ensures r.Some? ==> r.value == if id in old(active) then old(active)[id] else old(inactive)[id]
    {
      hide Session.Valid, Session.Abs, ViewOk, Partition, Placed, InPlace;
      PartitionTake(active, inactive, table, id);
      r := RemoveActive(id);
      if r.None? {
        r := RemoveInactive(id);
      }
    }

    /** A session outside the pool changes its flag: the pool is not disturbed. */
    method Flag(session: Session, connected: bool)
      requires Valid() && session.Valid() && session.id !in active && session.id !in inactive
      modifies session
      ensures Valid() && session.Valid() && session.Abs() == old(session.Abs()).(connected := connected)
    {
      hide Session.Valid, Session.Abs, ViewOk, Partition;
      session.SetConnected(connected);
      assert forall s :: s in active ==> old(InPlace(active[s], s, table[s]));
      assert forall s :: s in inactive ==> old(InPlace(inactive[s], s, table[s]));
    }

    /** The session moves to the active map and is marked connected. */
    method Activate(id: string) returns (r: Option<Session>)
      requires Valid()
      modifies this, if id in inactive then {inactive[id]} else {}
      ensures Valid() && repr == old(repr) && (r.Some? <==> id in old(inactive))
      ensures r.Some? ==> id in old(table) && table == old(table)[id := old(table)[id].(connected := true)]
      ensures r.Some? ==> r.value == old(inactive)[id] && Holds(r.value) && r.value.id == id && r.value.connected
      ensures r.None? ==> table == old(table) && active == old(active)
    {
      hide Session.Valid, ViewOk, Partition, Placed;
      ghost var was := table;
      FoundIn(inactive, table, repr, id);
      r := RemoveInactive(id);
      if r.Some? {
        Gone(active, inactive, was, id);
        Flag(r.value, true);
        Add(r.value);
        PutBack(was, id, was[id].(connected := true));
        assert repr == old(repr);
      }
    }

    /** The session moves to the inactive map and is marked not connected. */
    method Deactivate(id: string) returns (r: Option<Session>)
      requires Valid()
      modifies this, if id in active then {active[id]} else {}
      ensures Valid() && repr == old(repr) && (r.Some? <==> id in old(active))
      ensures table == Step(old(table), None, Op.Deactivate(id))
      ensures r.Some? ==> id in old(table) && table == old(table)[id := old(table)[id].(connected := false)]
      ensures r.None? ==> table == old(table)
      ensures r.Some? ==> r.value == old(active)[id] && id in inactive && inactive[id] == r.value
    {
      hide Session.Valid, ViewOk, Partition, Placed;
      ghost var was := table;
      FoundIn(active, table, repr, id);
      NotActive(active, inactive, table, id);
      r := RemoveActive(id);
      if r.Some? {
        Gone(active, inactive, was, id);
        Flag(r.value, false);
        Add(r.value);
        PutBack(was, id, was[id].(connected := false));
        assert repr == old(repr);
      }
    }

    /** One session has changed its own state: all others are still in place. */
    twostate lemma OthersInPlace(session: Session)
      requires old(Valid()) && unchanged(this) && unchanged(repr - {session})
      ensures Placed(active - {session.id}, table, repr) && Placed(inactive - {session.id}, table, repr)
    {
      hide Session.Valid, Session.Abs, ViewOk, Partition;
      assert forall s :: s in active ==> old(InPlace(active[s], s, table[s]));
      assert forall s :: s in inactive ==> old(InPlace(inactive[s], s, table[s]));
    }

    /** The table follows a session that changed without connecting or disconnecting. */
    ghost method Refresh(session: Session)
      requires Partition(active, inactive, table) && session.Valid() && session.id in table && session in repr
      requires session.connected == table[session.id].connected
      requires if session.connected then session.id in active && active[session.id] == session
               else session.id in inactive && inactive[session.id] == session
      requires activeSessions == |active| && inactiveSessions == |inactive|
      requires Placed(active - {session.id}, table, repr) && Placed(inactive - {session.id}, table, repr)
      modifies this`table
      ensures Valid() && table == old(table)[session.id := session.Abs()]
    {
      hide Session.Valid, ViewOk, Partition, Placed;
      PartitionKeep(active, inactive, table, session.id, session.Abs());
      PlacedChanged(active, table, repr, session);
      PlacedChanged(inactive, table, repr, session);
      table := table[session.id := session.Abs()];
    }

    method GetActive(id: string) returns (r: Option<Session>)
      requires Valid()
      ensures r.Some? <==> id in active
      ensures r.Some? ==> r.value == active[id] && Holds(r.value)
    {
      r := if id in active then Some(active[id]) else None;
    }

    ghost predicate Holds(session: Session)
      reads this, session
    {
      && session in repr && session.id in table && InPlace(session, session.id, table[session.id])
      && if session.connected then session.id in active && active[session.id] == session
         else session.id in inactive && inactive[session.id] == session
    }

    /** A copy for an active session. */
    method GiveTo(session: Session, out: Publish) returns (stamped: Publish)
      requires Valid() && Holds(session) && out.qos != AtMostOnce
      modifies this`table, session
      ensures Valid() && Holds(session) && table == old(table)[session.id := Tracked(old(table)[session.id], out)]
      ensures stamped == out.(packetId := Some(IdAt(session.issued)))
    {
      hide Session.Valid, ViewOk, Partition, Placed, Tracked;
      TrackedFlag(session.Abs(), out);
      stamped := session.Give(out);
      OthersInPlace(session);
      Refresh(session);
    }

    method AcknowledgeFor(session: Session, k: u16) returns (known: bool)
      requires Valid() && Holds(session)
      modifies this`table, session
      ensures Valid() && known == (k in old(table)[session.id].pending)
      ensures table == Step(old(table), None, Op.Acknowledge(session.id, k))
      ensures var before := old(table)[session.id];
              table == old(table)[session.id := before.(pending := before.pending - {k})]
    {
      hide Session.Valid, ViewOk, Partition, Placed;
      known := session.Acknowledge(k);
      OthersInPlace(session);
      Refresh(session);
    }

    method RedeliverTo(session: Session, failure: Option<nat>) returns (lost: set<u16>, sent: seq<Publish>)
      requires Valid() && Holds(session)
      modifies this`table, session
      ensures Valid() && table == Step(old(table), None, Op.Redeliver(session.id, lost))
      ensures failure.None? ==> lost == {}
    {
      hide Session.Valid, ViewOk, Partition, Placed, IsStored;
      lost, sent := session.Redeliver(failure);
      OthersInPlace(session);
      Refresh(session);
    }

    lemma Where(id: string)
      requires Valid()
      ensures id in table <==> id in active || id in inactive
      ensures id in active ==> table[id].connected && Holds(active[id]) && active[id].id == id
      ensures id in inactive ==>
              !table[id].connected && Holds(inactive[id]) && inactive[id].id == id && inactive[id] in repr
    {
    }

    /** Whether active or not. */
    method Find(id: string) returns (r: Option<Session>)
      requires Valid()
      ensures r.Some? <==> id in table
      ensures r.Some? ==> Holds(r.value) && r.value.id == id
    {
      r := if id in active then Some(active[id]) else if id in inactive then Some(inactive[id]) else None;
    }
  }

  lemma TrackedFlag(view: View, out: Publish)
    ensures Tracked(view, out).connected == view.connected
  {
  }

  lemma PlacedChanged(m: map<string, Session>, table: Sessions, repr: set<Session>, session: Session)
    requires Placed(m - {session.id}, table, repr) && session.Valid() && session in repr
    requires session.id in m ==> m[session.id] == session
    ensures Placed(m, table[session.id := session.Abs()], repr)
  {
    hide Session.Valid, ViewOk;
    forall s | s in m ensures m[s] in repr && InPlace(m[s], s, table[session.id := session.Abs()][s]) {
      if s != session.id {
        assert (m - {session.id})[s] == m[s];
      }
    }
  }

  lemma AlreadyConnected(table: Sessions, id: string)
    requires id in table && table[id].connected
    ensures table[id := table[id].(connected := true)] == table
  {
  }

  /** What the environment makes the broker do. A redelivery has a `failure` when a write fails after that many. */
  datatype Action =
    | ClientConnects(id: string, cleanStart: bool)
    | ClientLeaves(id: string)
    | ClientPublishes(publish: Publish, sender: string)
    | ClientAcknowledges(id: string, packetId: u16)
    | Resend(id: string, failure: Option<nat>)
    | ClientSubscribes(id: string, filter: string, qos: QoSLevel, noLocal: bool)
    | ClientUnsubscribes(id: string, filter: string)

  /** The index's answer is the flat table filtered by the wildcard rule, each entry once. */
  ghost predicate Answers(subs: Subscriptions, topic: string, out: seq<Subscriber>) {
    NoWildcards(Split(topic)) ==> Enumerates(out, subs, Matching(subs, Split(topic)))
  }

  /** The step on values that an action comes to, given the subscriptions of the moment. */
  ghost predicate Performs(a: Action, op: Op, subs: Subscriptions) {
    match a
    case ClientConnects(id, cleanStart) => op == Connect(id, cleanStart)
    case ClientLeaves(id) => op == Deactivate(id)
    case ClientPublishes(publish, sender) =>
      op.Route? && op.publish == publish && op.sender == sender && Answers(subs, publish.topic, op.subscribers)
    case ClientAcknowledges(id, k) => op == Acknowledge(id, k)
    case Resend(id, failure) => op.Redeliver? && op.id == id && (failure.None? ==> op.lost == {})
    case _ => op == Idle
  }

  /** The subscriptions after an action, and after a script. */
  ghost function Subscribed(subs: Subscriptions, a: Action): Subscriptions {
    match a
    case ClientSubscribes(id, filter, qos, noLocal) => subs[Key(Split(filter), id) := Subscriber(id, qos, noLocal)]
    case ClientUnsubscribes(id, filter) => subs - {Key(Split(filter), id)}
    case _ => subs
  }

  ghost function SubscribedAfter(subs: Subscriptions, script: seq<Action>): Subscriptions {
    if script == [] then subs
    else Subscribed(SubscribedAfter(subs, script[..|script| - 1]), script[|script| - 1])
  }

  ghost predicate Executes(script: seq<Action>, ops: seq<Op>, subs: Subscriptions) {
    && |ops| == |script|
    && forall i :: 0 <= i < |script| ==> Performs(script[i], ops[i], SubscribedAfter(subs, script[..i]))
  }

  lemma ExecutesMore(script: seq<Action>, i: nat, ops: seq<Op>, op: Op, subs: Subscriptions)
    requires i < |script| && Executes(script[..i], ops, subs)
    requires Performs(script[i], op, SubscribedAfter(subs, script[..i]))
    ensures Executes(script[..i + 1], ops + [op], subs)
  {
    hide Performs, SubscribedAfter;
    var more := script[..i + 1];
    forall k | 0 <= k < |more| ensures Performs(more[k], (ops + [op])[k], SubscribedAfter(subs, more[..k])) {
      assert more[..k] == script[..k] && (k < i ==> script[..i][..k] == script[..k] && script[..i][k] == script[k]);
    }
  }

  /** The actions that may end the broker's duty for an identifier of a session. */
  predicate MayRelease(a: Action, s: string, k: u16) {
    match a
    case ClientConnects(id, cleanStart) => id == s && cleanStart
    case ClientAcknowledges(id, packetId) => id == s && packetId == k
    case Resend(id, failure) => id == s && failure.Some?
    case _ => false
  }

  /** What one subscription of a publish is offered, given the active sessions. */
  predicate Offered(publish: Publish, sender: string, sub: Subscriber, active: set<string>, offer: Option<Publish>) {
    && (offer.Some? <==> !(sub.noLocal && sub.sessionId == sender) && sub.sessionId in active)
    && (offer.Some? ==>
          && offer.value == publish.(qos := offer.value.qos, packetId := offer.value.packetId)
          && Rank(offer.value.qos) == (if Rank(publish.qos) <= Rank(sub.qos) then Rank(publish.qos) else Rank(sub.qos))
          && (offer.value.qos == AtMostOnce ==> offer.value.packetId == publish.packetId)
          && (offer.value.qos != AtMostOnce ==> offer.value.packetId.Some?))
  }

  /** `BrokerState`: the pool, the topic index and the configured limit. */
  class BrokerState {
    const pool: SessionPool
    const tree: TopicTree
    const maxActive: Option<nat>

    constructor (maxActive: Option<nat>)
      ensures pool.Valid() && tree.Valid() && pool.table == map[] && tree.subs == map[] && this.maxActive == maxActive
      ensures fresh(pool) && fresh(tree) && pool.repr == {}
    {
      pool := new SessionPool();
      tree := new TopicTree();
      this.maxActive := maxActive;
    }

    method NewSession(id: string) returns (session: Session)
      requires pool.Valid() && id !in pool.table
      modifies pool
      ensures pool.Valid() && fresh(session) && pool.repr == old(pool.repr) + {session}
      ensures pool.table == old(pool.table)[id := NEW_SESSION]
      ensures pool.Holds(session) && session.id == id && session.connected
    {
      hide ViewOk, Partition, Placed;
      session := new Session(id);
      session.SetConnected(true);
      pool.Add(session);
    }

    /** Connect without clean start: resume, take over or begin. */
    method Resume(id: string) returns (session: Session, present: bool)
      requires pool.Valid()
      modifies pool, pool.repr
      ensures pool.Valid() && fresh(pool.repr - old(pool.repr)) && present == (id in old(pool.table))
      ensures pool.table == old(pool.table)[
                id := if id in old(pool.table) then old(pool.table)[id].(connected := true) else NEW_SESSION]
      ensures pool.Holds(session) && session.id == id && session.connected
    {
      hide Session.Valid, ViewOk, Partition, Placed, InPlace;
      pool.Where(id);
      var r := pool.Activate(id);
      if r.Some? {
        return r.value, true;
      }
      r := pool.GetActive(id);
      if r.Some? {
        AlreadyConnected(pool.table, id);
        return r.value, true;
      }
      session := NewSession(id);
      present := false;
    }

    /** The pool's write lock makes a connect one step. */
    method HandleConnect(id: string, cleanStart: bool) returns (r: Option<Session>, present: bool)
      requires pool.Valid()
      modifies pool, pool.repr
      ensures pool.Valid() && fresh(pool.repr - old(pool.repr))
      ensures pool.table == Step(old(pool.table), maxActive, Connect(id, cleanStart))
      // turned away exactly if it would add an active session beyond the limit
      ensures r.None? <==>
                maxActive.Some? && id !in old(pool.active) && old(pool.activeSessions) >= maxActive.value
      ensures r.None? ==> pool.table == old(pool.table)
      // a clean start, and a first connect, get a session with nothing in it
      ensures r.Some? && (cleanStart || id !in old(pool.table)) ==>
                pool.table == old(pool.table)[id := View(true, 0, map[])]
      // any other connect gets its session back
      ensures r.Some? && !cleanStart && id in old(pool.table) ==>
                pool.table == old(pool.table)[id := old(pool.table)[id].(connected := true)]
      ensures r.Some? ==> pool.Holds(r.value) && r.value.id == id && r.value.connected
      ensures present == (r.Some? && !cleanStart && id in old(pool.table))
    {
      hide Session.Valid, ViewOk, Partition, Placed, Active, InPlace;
      ghost var was := pool.table;
      pool.ActiveCount();
      r, present := None, false;
      var current := pool.GetActive(id);
      if current.None? && pool.AtCapacity(maxActive) {
        return;
      }
      var session;
      if cleanStart {
        var _ := pool.Remove(id);
        PutBack(was, id, NEW_SESSION);
        session := NewSession(id);
      } else {
        session, present := Resume(id);
      }
      r := Some(session);
    }

    /** One subscriber of a publish. The outcome is what is offered to the session's channel. */
    method RouteOne(publish: Publish, sender: string, sub: Subscriber) returns (offer: Option<Publish>)
      requires pool.Valid()
      modifies pool`table, pool.repr
      ensures pool.Valid() && pool.table == RoutedTo(old(pool.table), publish, sender, sub)
      // offered to an active session, but not to the publisher's own under No Local
      ensures offer.Some? <==> !(sub.noLocal && sub.sessionId == sender) && sub.sessionId in pool.active
      // the publish with the lower of the two QoS levels
      ensures offer.Some? ==>
                && offer.value == publish.(qos := offer.value.qos, packetId := offer.value.packetId)
                && Rank(offer.value.qos) == if Rank(publish.qos) <= Rank(sub.qos) then Rank(publish.qos)
                  else Rank(sub.qos)
      // at QoS 0 the publisher's identifier is passed on and nothing is remembered
      ensures offer.None? || offer.value.qos == AtMostOnce ==> pool.table == old(pool.table)
      ensures offer.Some? && offer.value.qos == AtMostOnce ==> offer.value.packetId == publish.packetId
      // above QoS 0 the next identifier is allocated, and what is offered is remembered under it
      ensures offer.Some? && offer.value.qos != AtMostOnce ==>
                var before, k := old(pool.table)[sub.sessionId], IdAt(old(pool.table)[sub.sessionId].issued + 1);
                && offer.value.packetId == Some(k) && offer.value == Copy(publish, sub, k)
                && pool.table == old(pool.table)[
                     sub.sessionId := View(true, before.issued + 1, before.pending[k := offer.value])]
    {
      hide Session.Valid, ViewOk, Partition, Placed, IdAt;
      pool.ActiveCount();
      pool.Where(sub.sessionId);
      LowerIsMinimum(publish.qos, sub.qos);
      if sub.noLocal && sub.sessionId == sender {
        return None;
      }
      var qos := Lower(publish.qos, sub.qos);
      var target := pool.GetActive(sub.sessionId);
      if target.None? {
        return None;
      }
      var out := publish.(qos := qos);
      if qos != AtMostOnce {
        out := pool.GiveTo(target.value, out);
        pool.ActiveCount();
      }
      offer := Some(out);
    }

    /** All subscribers of a publish, in order. */
    method RouteTo(publish: Publish, sender: string, subs: seq<Subscriber>) returns (offers: seq<Option<Publish>>)
      requires pool.Valid()
      modifies pool`table, pool.repr
      ensures pool.Valid() && pool.table == Routed(old(pool.table), publish, sender, subs)
      ensures |offers| == |subs|
      ensures forall i :: 0 <= i < |subs| ==> Offered(publish, sender, subs[i], pool.active.Keys, offers[i])
    {
      hide Session.Valid, ViewOk, Partition, Placed, RoutedTo, IdAt;
      offers := [];
      assert subs[..|subs|] == subs;
      for i := 0 to |subs|
        invariant pool.Valid() && pool.table == Routed(old(pool.table), publish, sender, subs[..i])
        invariant |offers| == i
        invariant forall j :: 0 <= j < i ==> Offered(publish, sender, subs[j], pool.active.Keys, offers[j])
      {
        assert subs[..i + 1][..i] == subs[..i];
        var offer := RouteOne(publish, sender, subs[i]);
        offers := offers + [offer];
      }
    }

    /**
      From the topic index to the sessions: an active session allocates one identifier for each of its matching
      subscriptions that is owed a copy above QoS 0, and no other session is touched.
     */
    method RoutePublish(publish: Publish, sender: string)
      returns (subs: seq<Subscriber>, offers: seq<Option<Publish>>)
      requires pool.Valid() && tree.Valid()
      modifies pool`table, pool.repr
      ensures pool.Valid() && pool.table == Routed(old(pool.table), publish, sender, subs)
      ensures ChildrenInRange(tree.nodes) && subs == Collect(tree.nodes, 0, Split(publish.topic), [])
      ensures Answers(tree.subs, publish.topic, subs)
      ensures |offers| == |subs|
      ensures forall i :: 0 <= i < |subs| ==> Offered(publish, sender, subs[i], pool.active.Keys, offers[i])
      ensures NoWildcards(Split(publish.topic)) ==> forall s :: s in old(pool.table) ==>
                Counts(old(pool.table), pool.table, s,
                  OwedKeys(publish, sender, tree.subs, Matching(tree.subs, Split(publish.topic)), s))
    {
      hide Session.Valid, ViewOk, Partition, Placed, Routed, Offered, Collect;
      subs := tree.MatchingSubscribers(publish.topic);
      offers := RouteTo(publish, sender, subs);
      if NoWildcards(Split(publish.topic)) {
        forall s | s in old(pool.table)
          ensures Counts(old(pool.table), pool.table, s,
                  OwedKeys(publish, sender, tree.subs, Matching(tree.subs, Split(publish.topic)), s))
        {
          RoutedCounts(old(pool.table), publish, sender, subs, tree.subs, Matching(tree.subs, Split(publish.topic)), s);
        }
      }
    }

    method AcknowledgeOne(id: string, k: u16)
      requires pool.Valid()
      modifies pool`table, pool.repr
      ensures pool.Valid() && pool.table == Step(old(pool.table), None, Acknowledge(id, k))
    {
      hide Session.Valid, ViewOk, Partition, Placed, InPlace;
      var session := pool.Find(id);
      if session.Some? {
        var _ := pool.AcknowledgeFor(session.value, k);
      }
    }

    method LeaveOne(id: string)
      requires pool.Valid()
      modifies pool, pool.repr
      ensures pool.Valid() && pool.repr == old(pool.repr) && pool.table == Step(old(pool.table), None, Deactivate(id))
    {
      hide Session.Valid, ViewOk, Partition, Placed, InPlace;
      pool.Where(id);
      var _ := pool.Deactivate(id);
    }

    method ResendAll(id: string, failure: Option<nat>) returns (lost: set<u16>)
      requires pool.Valid()
      modifies pool`table, pool.repr
      ensures pool.Valid() && pool.table == Step(old(pool.table), None, Redeliver(id, lost))
      ensures failure.None? ==> lost == {}
    {
      hide Session.Valid, ViewOk, Partition, Placed, InPlace, Redelivered;
      var session := pool.Find(id);
      lost := {};
      if session.Some? {
        var lostNow, _ := pool.RedeliverTo(session.value, failure);
        lost := lostNow;
      }
    }

    method Perform(a: Action) returns (ghost op: Op)
      requires pool.Valid() && tree.Valid()
      modifies pool, pool.repr, tree
      ensures pool.Valid() && tree.Valid() && fresh(pool.repr - old(pool.repr))
      ensures Performs(a, op, old(tree.subs)) && tree.subs == Subscribed(old(tree.subs), a)
      ensures pool.table == Step(old(pool.table), maxActive, op)
    {
      hide SessionPool.Valid, TopicTree.Valid, Routed, Redelivered, Counts, SessionPool.Holds, Answers, Offered,
        Collect;
      op := Idle;
      match a {
        case ClientConnects(id, cleanStart) =>
          op := Connect(id, cleanStart);
          var _, _ := HandleConnect(id, cleanStart);
        case ClientLeaves(id) =>
          op := Deactivate(id);
          LeaveOne(id);
        case ClientPublishes(publish, sender) =>
          var subs, _ := RoutePublish(publish, sender);
          op := Route(publish, sender, subs);
        case ClientAcknowledges(id, k) =>
          op := Acknowledge(id, k);
          AcknowledgeOne(id, k);
        case Resend(id, failure) =>
          var lost := ResendAll(id, failure);
          op := Redeliver(id, lost);
        case ClientSubscribes(id, filter, qos, noLocal) =>
          tree.Subscribe(filter, id, qos, noLocal);
        case ClientUnsubscribes(id, filter) =>
          var _ := tree.Unsubscribe(filter, id);
      }
    }

    /**
      Any run of the broker. The pool stays well formed and the number of active sessions within the limit. Every
      publish is routed by the subscriptions of its moment, and no copy above QoS 0, whether it was there before or
      is routed during the run, is forgotten while the session lives, its acknowledgement has not come, redelivery
      writes do not fail and fewer than 65,535 further identifiers are allocated.
     */
    method RunAll(script: seq<Action>) returns (ghost ops: seq<Op>)
      requires pool.Valid() && tree.Valid()
      modifies pool, pool.repr, tree
      ensures pool.Valid() && tree.Valid()
      ensures Executes(script, ops, old(tree.subs)) && tree.subs == SubscribedAfter(old(tree.subs), script)
      ensures pool.table == Delivery.Run(old(pool.table), maxActive, ops)
      ensures maxActive.Some? && old(pool.activeSessions) <= maxActive.value ==> pool.activeSessions <= maxActive.value
      ensures Retains(script, old(pool.table), pool.table)
      ensures RetainsRouted(script, ops, old(pool.table), maxActive)
    {
      hide SessionPool.Valid, TopicTree.Valid, Step, Retains, RetainsRouted, Active, Performs, Subscribed;
      pool.ActiveCount();
      ops := [];
      assert script[..0] == [] && script[..|script|] == script;
      for i := 0 to |script|
        invariant pool.Valid() && tree.Valid() && fresh(pool.repr - old(pool.repr))
        invariant Executes(script[..i], ops, old(tree.subs))
        invariant tree.subs == SubscribedAfter(old(tree.subs), script[..i])
        invariant pool.table == Delivery.Run(old(pool.table), maxActive, ops)
      {
        var op := Perform(script[i]);
        assert (ops + [op])[..|ops|] == ops && script[..i + 1][..i] == script[..i];
        ExecutesMore(script, i, ops, op, old(tree.subs));
        ops := ops + [op];
      }
      if maxActive.Some? && old(pool.activeSessions) <= maxActive.value {
        CapacityKept(old(pool.table), maxActive, ops);
      }
      pool.ActiveCount();
      RunRetains(script, ops, old(tree.subs), old(pool.table), maxActive);
      RunRetainsRouted(script, ops, old(tree.subs), old(pool.table), maxActive);
    }
  }

  /** Nothing in the script releases the n-th identifier, and it has not come round again. */
  ghost predicate Undisturbed(script: seq<Action>, after: Sessions, s: string, n: nat) {
    && n >= 1 && (forall i :: 0 <= i < |script| ==> !MayRelease(script[i], s, IdAt(n)))
    && (s in after ==> after[s].issued < n + CYCLE)
  }

  lemma NothingReleased(script: seq<Action>, ops: seq<Op>, subs: Subscriptions, from: nat, s: string, k: u16)
    requires Executes(script, ops, subs) && from <= |script|
    requires forall i :: 0 <= i < |script[from..]| ==> !MayRelease(script[from..][i], s, k)
    ensures forall i :: from <= i < |ops| ==> !Releases(ops[i], s, k)
  {
    hide Answers, SubscribedAfter;
    forall i | from <= i < |ops| ensures !Releases(ops[i], s, k) {
      assert script[from..][i - from] == script[i];
      assert Performs(script[i], ops[i], SubscribedAfter(subs, script[..i])) && !MayRelease(script[i], s, k);
    }
  }

  /** At least once over a whole script, for what was there before it. */
  ghost predicate Retains(script: seq<Action>, before: Sessions, after: Sessions) {
    forall s, n, p :: Keeps(before, s, n, p) && Undisturbed(script, after, s, n) ==> Keeps(after, s, n, p)
  }

  lemma RunRetains(script: seq<Action>, ops: seq<Op>, subs: Subscriptions, before: Sessions, max: Option<nat>)
    requires Executes(script, ops, subs)
    ensures Retains(script, before, Delivery.Run(before, max, ops))
  {
    hide IdAt, Step, Keeps, Executes, MayRelease, Releases;
    var after := Delivery.Run(before, max, ops);
    assert script[0..] == script;
    forall s, n, p | Keeps(before, s, n, p) && Undisturbed(script, after, s, n) ensures Keeps(after, s, n, p) {
      NothingReleased(script, ops, subs, 0, s, IdAt(n));
      Retained(before, max, ops, s, n, p);
    }
  }

  /** At least once over a whole script, for what its actions route: each copy owed is there at the end. */
  ghost predicate RetainsRouted(script: seq<Action>, ops: seq<Op>, before: Sessions, max: Option<nat>) {
    forall i: nat, s: string, j: nat :: RetainsCopy(script, ops, before, max, i, s, j)
  }

  ghost predicate RetainsCopy(script: seq<Action>, ops: seq<Op>, before: Sessions, max: Option<nat>, i: nat,
                              s: string, j: nat) {
    OwedAt(before, max, ops, i, s, j) && i < |script| ==>
      var n, after := NumberOf(before, max, ops, i, s, j), Delivery.Run(before, max, ops);
      Undisturbed(script[i + 1..], after, s, n) ==> Keeps(after, s, n, CopyOf(before, max, ops, i, s, j))
  }

  lemma RunRetainsRouted(script: seq<Action>, ops: seq<Op>, subs: Subscriptions, before: Sessions, max: Option<nat>)
    requires Executes(script, ops, subs)
    ensures RetainsRouted(script, ops, before, max)
  {
    hide RetainsCopy, Executes;
    forall i: nat, s: string, j: nat ensures RetainsCopy(script, ops, before, max, i, s, j) {
      CopyRetained(script, ops, subs, before, max, i, s, j);
    }
  }

  lemma CopyRetained(script: seq<Action>, ops: seq<Op>, subs: Subscriptions, before: Sessions, max: Option<nat>,
                     i: nat, s: string, j: nat)
    requires Executes(script, ops, subs)
    ensures RetainsCopy(script, ops, before, max, i, s, j)
  {
    hide IdAt, Delivery.Run, Keeps, Executes, MayRelease, Releases, NumberOf, CopyOf, OwedAt;
    if OwedAt(before, max, ops, i, s, j) && i < |script| {
      var n := NumberOf(before, max, ops, i, s, j);
      if Undisturbed(script[i + 1..], Delivery.Run(before, max, ops), s, n) {
        NothingReleased(script, ops, subs, i + 1, s, IdAt(n));
        RoutedRetained(before, max, ops, i, s, j);
      }
    }
  }

  /** Each matching subscription of an active session, with a QoS above 0 granted, is owed such a copy. */
  lemma CopyForSubscription(script: seq<Action>, ops: seq<Op>, subs: Subscriptions, before: Sessions,
                            max: Option<nat>, i: nat, key: Key)
    returns (j: nat)
    requires Executes(script, ops, subs) && i < |script| && script[i].ClientPublishes?
    requires NoWildcards(Split(script[i].publish.topic))
    requires var table := SubscribedAfter(subs, script[..i]);
             && key in Matching(table, Split(script[i].publish.topic)) && Wanted(script[i].sender, table[key])
             && Lower(script[i].publish.qos, table[key].qos) != AtMostOnce
             && table[key].sessionId in Active(Delivery.Run(before, max, ops[..i]))
    ensures var table := SubscribedAfter(subs, script[..i]);
            && OwedAt(before, max, ops, i, table[key].sessionId, j)
            && CopyOf(before, max, ops, i, table[key].sessionId, j) ==
                 script[i].publish.(qos := Lower(script[i].publish.qos, table[key].qos),
                                    packetId := Some(IdAt(NumberOf(before, max, ops, i, table[key].sessionId, j))))
  {
    hide IdAt, Delivery.Run, Active, Lists, Owed;
    var a, table := script[i], SubscribedAfter(subs, script[..i]);
    assert Performs(a, ops[i], table);
    var target := Matching(table, Split(a.publish.topic));
    var keys :| Lists(ops[i].subscribers, keys, table, target);
    j := OwedForKey(a.publish, a.sender, ops[i].subscribers, keys, table, target, table[key].sessionId, key);
  }

  ghost predicate Counts(before: Sessions, after: Sessions, s: string, owed: set<Key>)
    requires s in before
  {
    s in after && after[s].issued == before[s].issued + if before[s].connected then |owed| else 0
  }

  lemma RoutedCounts(before: Sessions, publish: Publish, sender: string, out: seq<Subscriber>, subs: Subscriptions,
                     target: set<Key>, s: string)
    requires s in before && Enumerates(out, subs, target)
    ensures Counts(before, Routed(before, publish, sender, out), s, OwedKeys(publish, sender, subs, target, s))
  {
    var keys :| Lists(out, keys, subs, target);
    OwedCount(publish, sender, out, keys, subs, target, s);
    RoutedTracks(before, publish, sender, out, s);
    TrackedAllCount(before[s], Owed(publish, sender, out, s));
  }
}
