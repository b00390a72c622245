/**
  The client's QoS machine in automatic acknowledgement mode (vaux-client/src/session.rs): pending maps, quotas and
  the packet identifier search, driven by outbound and inbound packets and by the success or failure of each send.
 */
module ClientSession {
  import opened Mqtt
  import opened QoSTrace

  const MAX_PENDING := 0xffff
  const USIZE := 0x1_0000_0000_0000_0000

  /** `usize` arithmetic, which wraps in release builds. */
  function Inc(n: nat): nat {
    if n == USIZE - 1 then 0 else n + 1
  }

  function Dec(n: nat): nat {
    if n == 0 then USIZE - 1 else n - 1
  }

  /** The packet types that the session only passes on. */
  datatype OtherType = ConnectType | ConnAckType | SubscribeType | SubAckType | UnsubscribeType | UnsubAckType

  datatype Packet =
    | Publish(qos: QoSLevel, id: Option<u16>, body: seq<byte>)
    | PubAck(packetId: u16)
    | PubRec(packetId: u16)
    | PubRel(packetId: u16)
    | PubComp(packetId: u16)
    | Disconnect
    | PingRequest
    | PingResponse
    | Other(kind: OtherType, body: seq<byte>)

  /** `Panicked` stands for an `unwrap` on nothing, `Deadlocked` for a wait that never ends. */
  datatype ErrorKind = Protocol | Transport | Panicked | Deadlocked

  datatype ConnAck = ConnAck(success: bool, assignedClientId: Option<string>, serverKeepAlive: Option<nat>,
                             sessionExpiry: Option<nat>, receiveMaximum: Option<u16>)

  function GetOr(o: Option<nat>, n: nat): nat {
    if o.Some? then o.value else n
  }

  datatype Result = Done(toConsumer: Option<Packet>) | Failed(kind: ErrorKind)

  datatype PacketState = PacketState(packet: Option<Packet>, next: Next)

  /** `QoSPacketState::next` */
  function Advance(s: PacketState): Option<PacketState> {
    match s.next
    case NextPubAck => None
    case NextPubRec => Some(PacketState(None, NextPubRel))
    case NextPubRel => Some(PacketState(None, NextPubComp))
    case NextPubComp => None
  }

  /** `new_qos1` and `new_qos2`, and the event that begins the exchange. */
  function First(p: Packet): PacketState
    requires p.Publish?
  {
    PacketState(Some(p), if p.qos == AtLeastOnce then NextPubAck else NextPubRec)
  }

  function Begin(p: Packet): Entry
    requires p.Publish? && p.id.Some?
  {
    Entry(p.id.value, if p.qos == AtLeastOnce then Publish1 else Publish2)
  }

  type Pending = map<u16, PacketState>

  /** The automaton state stored for an identifier. */
  function Stored(pending: Pending, id: u16): Phase {
    if id in pending then Waiting(pending[id].next) else Idle
  }

  /** The publish is kept exactly until it is acknowledged, under the identifier and QoS it was sent with. */
  predicate PayloadKept(id: u16, s: PacketState) {
    && (s.packet.Some? <==> s.next == NextPubAck || s.next == NextPubRec)
    && (s.packet.Some? ==>
          && s.packet.value.Publish? && s.packet.value.id == Some(id)
          && s.packet.value.qos == if s.next == NextPubAck then AtLeastOnce else ExactlyOnce)
  }

  ghost predicate Tracks(history: seq<Entry>, pending: Pending, id: u16) {
    Run(Idle, Of(history, id)) == Stored(pending, id)
  }

  /** Every identifier's history is legal and its automaton state is what the map stores. */
  ghost predicate Refines(history: seq<Entry>, pending: Pending) {
    && (forall id: u16 :: Tracks(history, pending, id))
    && (forall id :: id in pending ==> PayloadKept(id, pending[id]))
    && |pending| == Begun(history) - Ended(history)
    && |pending| <= MAX_PENDING
  }

  /** The receive side never waits for a PUBCOMP. */
  ghost predicate RecvOk(pending: Pending) {
    forall id :: id in pending ==> pending[id].next != NextPubComp && PayloadKept(id, pending[id])
  }

  lemma RecvOkRemove(pending: Pending, id: u16)
    requires RecvOk(pending)
    ensures RecvOk(pending - {id})
  {
  }

  lemma RecvOkInsert(pending: Pending, id: u16, s: PacketState)
    requires RecvOk(pending) && s.next != NextPubComp && PayloadKept(id, s)
    ensures RecvOk(pending[id := s])
  {
  }

  /** One accepted event, with the map changed at its identifier only. */
  lemma StepRefines(history: seq<Entry>, pending: Pending, entry: Entry, pending': Pending)
    requires Refines(history, pending)
    requires forall id: u16 :: id != entry.id ==> Stored(pending', id) == Stored(pending, id)
    requires Delta(Stored(pending, entry.id), entry.e) == Stored(pending', entry.id)
    requires forall id :: id in pending' ==> PayloadKept(id, pending'[id])
    requires |pending'| == |pending| + (if entry.e == Publish1 || entry.e == Publish2 then 1 else 0)
                                     - (if entry.e == GotPubAck || entry.e == GotPubComp then 1 else 0)
    requires |pending'| <= MAX_PENDING
    ensures Refines(history + [entry], pending')
  {
    hide Delta, Run, Of, Begun, Ended;
    CountSnoc(history, entry);
    forall id: u16 ensures Tracks(history + [entry], pending', id) {
      assert Tracks(history, pending, id);
      OfSnoc(history, entry, id);
      RunSnoc(Idle, Of(history, id), entry.e);
    }
  }

  /** In every reachable state, each identifier's accepted events are a prefix of complete exchanges. */
  lemma TraceRefinement(history: seq<Entry>, pending: Pending, id: u16)
    requires Refines(history, pending)
    ensures PrefixOfExchanges(Of(history, id))
  {
    assert Tracks(history, pending, id);
    LegalIffPrefix(Of(history, id));
  }

  /** The stored state lets an event through. */
  predicate Expects(pending: Pending, id: u16, e: Event) {
    match e
    case Publish1 => id !in pending
    case Publish2 => id !in pending
    case GotPubAck => id in pending && pending[id].next == NextPubAck
    case GotPubRec => id in pending && pending[id].next == NextPubRec
    case SentPubRel => id in pending && pending[id].next == NextPubRel
    case GotPubComp => id in pending && pending[id].next == NextPubComp
  }

  /** The map lets an event through exactly when the identifier's history allows it. */
  lemma ExpectsIffLegal(history: seq<Entry>, pending: Pending, id: u16, e: Event)
    requires Refines(history, pending)
    ensures Expects(pending, id, e) <==> PrefixOfExchanges(Of(history, id) + [e])
  {
    assert Tracks(history, pending, id);
    RunSnoc(Idle, Of(history, id), e);
    LegalIffPrefix(Of(history, id) + [e]);
  }

  lemma InsertCount(pending: Pending, id: u16, s: PacketState)
    ensures |pending[id := s]| == if id in pending then |pending| else |pending| + 1
  {
    assert pending[id := s].Keys == pending.Keys + {id};
    assert |pending| == |pending.Keys| && |pending[id := s]| == |pending[id := s].Keys|;
  }

  lemma ReplaceCount(pending: Pending, id: u16, s: PacketState)
    requires id in pending
    ensures |pending[id := s]| == |pending|
  {
    InsertCount(pending, id, s);
  }

  lemma RemoveCount(pending: Pending, id: u16)
    requires id in pending
    ensures |pending - {id}| == |pending| - 1
  {
    assert (pending - {id}).Keys == pending.Keys - {id};
    assert |pending| == |pending.Keys| && |pending - {id}| == |(pending - {id}).Keys|;
  }

  /** A publish put in flight on the receive side, and one taken out again at once. */
  lemma Inserted(pending: Pending, id: u16, p: Packet)
    requires RecvOk(pending) && p.Publish? && p.qos != AtMostOnce && p.id == Some(id)
    ensures RecvOk(pending[id := First(p)])
    ensures |pending[id := First(p)]| == if id in pending then |pending| else |pending| + 1
  {
    InsertCount(pending, id, First(p));
  }

  lemma Removed(pending: Pending, id: u16, s: PacketState)
    requires RecvOk(pending)
    ensures RecvOk(pending - {id}) && pending[id := s] - {id} == pending - {id}
    ensures |pending - {id}| == if id in pending then |pending| - 1 else |pending|
  {
    if id in pending {
      RemoveCount(pending, id);
    } else {
      assert pending - {id} == pending;
    }
  }

  lemma TrackRefines(history: seq<Entry>, pending: Pending, p: Packet)
    requires Refines(history, pending) && |pending| < MAX_PENDING
    requires p.Publish? && p.qos != AtMostOnce && p.id.Some? && p.id.value !in pending
    ensures Refines(history + [Begin(p)], pending[p.id.value := First(p)])
  {
    InsertCount(pending, p.id.value, First(p));
    StepRefines(history, pending, Begin(p), pending[p.id.value := First(p)]);
  }

  lemma SettleRefines(history: seq<Entry>, pending: Pending, id: u16, e: Event)
    requires Refines(history, pending) && Expects(pending, id, e) && (e == GotPubAck || e == GotPubComp)
    ensures Refines(history + [Entry(id, e)], pending - {id})
  {
    RemoveCount(pending, id);
    StepRefines(history, pending, Entry(id, e), pending - {id});
  }

  lemma MoveRefines(history: seq<Entry>, pending: Pending, id: u16, e: Event)
    requires Refines(history, pending) && Expects(pending, id, e) && (e == GotPubRec || e == SentPubRel)
    ensures Refines(history + [Entry(id, e)], pending[id := Advance(pending[id]).value])
  {
    ReplaceCount(pending, id, Advance(pending[id]).value);
    StepRefines(history, pending, Entry(id, e), pending[id := Advance(pending[id]).value]);
  }

  //
  // The packet identifier search
  //

  ghost function IdsBelow(n: nat): (ids: set<u16>)
    requires n <= 0x1_0000
    ensures forall id: u16 :: id in ids <==> id < n
  {
    if n == 0 then {} else IdsBelow(n - 1) + {n - 1}
  }

  lemma {:induction false} IdsBelowCount(n: nat)
    requires n <= 0x1_0000
    ensures |IdsBelow(n)| == n
  {
    if n > 0 {
      IdsBelowCount(n - 1);
    }
  }

  lemma SubsetCount(a: set<u16>, b: set<u16>)
    requires a <= b
    ensures |a| <= |b|
  {
    assert b == a + (b - a);
  }

  lemma FullCount(pending: Pending)
    requires forall id: u16 :: id in pending
    ensures |pending| > MAX_PENDING
  {
    IdsBelowCount(0x1_0000);
    SubsetCount(IdsBelow(0x1_0000), pending.Keys);
    assert |pending| == |pending.Keys|;
  }

  /** Pigeonhole: with fewer than 65,536 identifiers in flight, one is free. */
  lemma FreeIdExists(pending: Pending) returns (free: u16)
    requires |pending| <= MAX_PENDING
    ensures free !in pending
  {
    if forall id: u16 :: id in pending {
      FullCount(pending);
    }
    free :| free !in pending;
  }

  function Succ(id: u16): u16 {
    if id == 0xffff then 0 else id + 1
  }

  /** Steps from `a` up to `b`, wrapping after 65,535. */
  function Distance(a: u16, b: u16): nat {
    if a <= b then b - a else b + 0x1_0000 - a
  }

  /** `id` is the first free identifier from `start` on. */
  ghost predicate FirstFree(pending: Pending, start: u16, id: u16) {
    id !in pending && forall other: u16 :: Distance(start, other) < Distance(start, id) ==> other in pending
  }

  /** The search yields the reserved identifier 0 exactly when everything from the start to 65,535 is in flight. */
  lemma ZeroIff(pending: Pending, last: u16, id: u16)
    requires FirstFree(pending, Succ(last), id)
    ensures id == 0 <==> 0 !in pending && forall other: u16 :: last < other ==> other in pending
  {
    var start := Succ(last);
    if id == 0 {
      forall other: u16 | last < other ensures other in pending {
        assert Distance(start, other) < Distance(start, 0);
      }
    } else if 0 !in pending {
      assert !(Distance(start, 0) < Distance(start, id));
      assert last < id;
    }
  }

  /** The failing input: after identifier 65,535, with nothing in flight, the search yields 0. */
  lemma ZeroIsUsed()
    ensures FirstFree(map[], Succ(0xffff), 0)
  {
  }

  class Session {
    var pendingSend: Pending
    var pendingRecv: Pending
    var sendRemaining: nat
    var recvRemaining: nat
    var lastPacketId: u16
    var connected: bool
    var keepAlive: nat
    var sessionExpiry: nat
    const clientId: Option<string>
    const receiveMax: u16
    const autoPacketId: bool
    const pingresp: bool
    /** Accepted send-side events, and packets written to the socket. */
    ghost var history: seq<Entry>
    ghost var wire: seq<Packet>
    /** Whether the peer has ever reused an identifier in flight or exceeded the receive maximum. */
    ghost var misused: bool

    ghost predicate Valid()
      reads this
    {
      && Refines(history, pendingSend)
      && RecvOk(pendingRecv)
      && (!misused ==> RecvBalance() == receiveMax)
    }

    ghost function RecvBalance(): nat
      reads this
    {
      recvRemaining + |pendingRecv|
    }

    constructor (clientId: Option<string>, autoPacketId: bool, pingresp: bool, receiveMax: u16)
      ensures Valid() && !misused && pendingSend == pendingRecv == map[] && history == [] && wire == []
      ensures sendRemaining == 0xffff && recvRemaining == receiveMax && lastPacketId == 0 && !connected
      ensures keepAlive == 60 && sessionExpiry == 600 && this.clientId == clientId
      ensures this.autoPacketId == autoPacketId && this.pingresp == pingresp && this.receiveMax == receiveMax
    {
      keepAlive, sessionExpiry, this.clientId := 60, 600, clientId;
      pendingSend, pendingRecv, sendRemaining, recvRemaining := map[], map[], 0xffff, receiveMax;
      lastPacketId, connected, history, wire, misused := 0, false, [], [], false;
      this.autoPacketId, this.pingresp, this.receiveMax := autoPacketId, pingresp, receiveMax;
    }

    /**
      A refused connect is an error. Otherwise the session is connected, and a session without a client identifier
      needs one from the server: without it the connect fails, and with it the client waits for a lock that it holds.
      Then what the server prescribes replaces the session's own settings.
     */
    method HandleConnAck(ack: ConnAck) returns (r: Result)
      requires Valid()
      modifies this`sendRemaining, this`connected, this`keepAlive, this`sessionExpiry
      ensures Valid() && connected == ack.success
      ensures r == if !ack.success then Failed(Protocol)
                   else if clientId.Some? then Done(None)
                   else if ack.assignedClientId.Some? then Failed(Deadlocked) else Failed(Protocol)
      ensures r.Failed? ==>
                && sendRemaining == old(sendRemaining) && keepAlive == old(keepAlive)
                && sessionExpiry == old(sessionExpiry)
      ensures r.Done? ==>
                && sendRemaining == (if ack.receiveMaximum.Some? then ack.receiveMaximum.value else old(sendRemaining))
                && keepAlive == GetOr(ack.serverKeepAlive, old(keepAlive))
                && sessionExpiry == GetOr(ack.sessionExpiry, old(sessionExpiry))
    {
      connected := ack.success;
      if !ack.success {
        return Failed(Protocol);
      }
      if clientId.None? {
        return Failed(if ack.assignedClientId.Some? then Deadlocked else Protocol);
      }
      if ack.serverKeepAlive.Some? {
        keepAlive := ack.serverKeepAlive.value;
      }
      if ack.sessionExpiry.Some? {
        sessionExpiry := ack.sessionExpiry.value;
      }
      if ack.receiveMaximum.Some? {
        sendRemaining := ack.receiveMaximum.value;
      }
      r := Done(None);
    }

    method Send(packet: Packet, ok: bool)
      modifies this`wire
      ensures wire == if ok then old(wire) + [packet] else old(wire)
    {
      if ok {
        wire := wire + [packet];
      }
    }

    /** The wrapping search for an identifier that is not in flight. */
    method FindPacketId()
      requires |pendingSend| < MAX_PENDING
      modifies this`lastPacketId
      ensures FirstFree(pendingSend, Succ(old(lastPacketId)), lastPacketId)
    {
      ghost var free := FreeIdExists(pendingSend);
      ghost var start := Succ(lastPacketId);
      lastPacketId := Succ(lastPacketId);
      while lastPacketId in pendingSend
        invariant Distance(start, lastPacketId) + Distance(lastPacketId, free) == Distance(start, free)
        invariant forall other: u16 :: Distance(start, other) < Distance(start, lastPacketId) ==> other in pendingSend
        decreases Distance(lastPacketId, free)
      {
        lastPacketId := Succ(lastPacketId);
      }
    }

    /** The periodic ping. */
    method HandleKeepAlive(ok: bool) returns (r: Result)
      requires Valid()
      modifies this`wire
      ensures Valid() && wire == old(wire) + if ok then [PingRequest] else []
      ensures r == if ok then Done(None) else Failed(Transport)
    {
      Send(PingRequest, ok);
      r := if ok then Done(None) else Failed(Transport);
    }

    /** A publish above QoS 0 with 65,535 in flight, without quota, or with an identifier in use or none. */
    ghost predicate Refuses(packet: Packet)
      reads this
    {
      && packet.Publish? && packet.qos != AtMostOnce
      && (|pendingSend| >= 65535 || sendRemaining == 0
          || (if packet.id.Some? then packet.id.value in pendingSend else !autoPacketId))
    }

    method WriteNext(packet: Packet, ok: bool) returns (r: Result)
      requires Valid()
      modifies this`pendingSend, this`lastPacketId, this`connected, this`history, this`wire
      ensures Valid()
      ensures r == Failed(Protocol) <==> old(Refuses(packet))
      ensures r != Failed(Protocol) ==> r == if ok then Done(None) else Failed(Transport)
      // a refusal has no effect
      ensures r == Failed(Protocol) ==>
                && wire == old(wire) && lastPacketId == old(lastPacketId)
                && pendingSend == old(pendingSend) && history == old(history)
      // otherwise a publish above QoS 0 is put in flight under a free identifier
      ensures r != Failed(Protocol) && packet.Publish? && packet.qos != AtMostOnce ==>
                var id := if packet.id.Some? then packet.id.value else lastPacketId;
                var sent := packet.(id := Some(id));
                var next := if packet.qos == AtLeastOnce then NextPubAck else NextPubRec;
                && (packet.id.None? ==> FirstFree(old(pendingSend), Succ(old(lastPacketId)), id))
                && (packet.id.Some? ==> lastPacketId == old(lastPacketId))
                && id !in old(pendingSend) && pendingSend == old(pendingSend)[id := PacketState(Some(sent), next)]
                && history == old(history) + [Entry(id, if packet.qos == AtLeastOnce then Publish1 else Publish2)]
                && wire == if ok then old(wire) + [sent] else old(wire)
      // nothing else touches the pending sends
      ensures !(packet.Publish? && packet.qos != AtMostOnce) ==>
                && pendingSend == old(pendingSend) && history == old(history) && lastPacketId == old(lastPacketId)
                && wire == if ok then old(wire) + [packet] else old(wire)
      ensures connected == (old(connected) && !(packet.Disconnect? && ok))
    {
      hide Refines, FirstFree;
      if packet.Publish? && packet.qos != AtMostOnce {
        if |pendingSend| >= MAX_PENDING || sendRemaining == 0 {
          return Failed(Protocol);
        }
        var p := packet;
        if packet.id.Some? {
          if packet.id.value in pendingSend {
            return Failed(Protocol);
          }
        } else if autoPacketId {
          FindPacketId();
          FreeAfterSearch(old(lastPacketId));
          p := packet.(id := Some(lastPacketId));
        } else {
          return Failed(Protocol);
        }
        Track(p);
        Send(p, ok);
      } else {
        Send(packet, ok);
        if packet.Disconnect? && ok {
          connected := false;
        }
      }
      r := if ok then Done(None) else Failed(Transport);
    }

    lemma FreeAfterSearch(last: u16)
      requires FirstFree(pendingSend, Succ(last), lastPacketId)
      ensures lastPacketId !in pendingSend
    {
    }

    method Track(p: Packet)
      requires Valid() && p.Publish? && p.qos != AtMostOnce && p.id.Some? && p.id.value !in pendingSend
      requires |pendingSend| < MAX_PENDING
      modifies this`pendingSend, this`history
      ensures Valid()
      ensures pendingSend == old(pendingSend)[p.id.value := First(p)] && history == old(history) + [Begin(p)]
    {
      hide Refines, RecvOk;
      TrackRefines(history, pendingSend, p);
      pendingSend := pendingSend[p.id.value := First(p)];
      history := history + [Begin(p)];
    }

    method Settle(packet: Packet) returns (r: Result)
      requires Valid() && Due(packet) && (packet.PubAck? || packet.PubComp?)
      modifies this`pendingSend, this`history, this`sendRemaining
      ensures Valid() && Settled(packet, r) && r == Done(Some(packet))
    {
      hide Refines, RecvOk;
      ghost var e := if packet.PubAck? then GotPubAck else GotPubComp;
      SettleRefines(history, pendingSend, packet.packetId, e);
      pendingSend := pendingSend - {packet.packetId};
      history := history + [Entry(packet.packetId, e)];
      sendRemaining := Inc(sendRemaining);
      r := Done(Some(packet));
    }

    /** `QoSPacketState::next` on the send side. */
    method Move(id: u16, ghost e: Event)
      requires Valid() && Expects(pendingSend, id, e) && (e == GotPubRec || e == SentPubRel)
      modifies this`pendingSend, this`history
      ensures Valid()
      ensures pendingSend == old(pendingSend)[
                id := PacketState(None, if e == GotPubRec then NextPubRel else NextPubComp)]
      ensures history == old(history) + [Entry(id, e)]
    {
      hide Refines, RecvOk;
      MoveRefines(history, pendingSend, id, e);
      pendingSend := pendingSend[id := Advance(pendingSend[id]).value];
      history := history + [Entry(id, e)];
    }

    /** The control packet is the one the exchange waits for. */
    ghost predicate Due(packet: Packet)
      reads this
    {
      match packet
      case PubAck(id) => Expects(pendingSend, id, GotPubAck)
      case PubRec(id) => Expects(pendingSend, id, GotPubRec)
      case PubComp(id) => Expects(pendingSend, id, GotPubComp)
      case PubRel(id) => id in pendingRecv && pendingRecv[id].next == NextPubRel
      case _ => true
    }

    /** The peer reuses an identifier in flight, or exceeds the receive maximum where the client does not look. */
    ghost predicate Misuse(packet: Packet)
      reads this
    {
      && packet.Publish? && packet.id.Some?
      && match packet.qos
         case AtMostOnce => false
         case AtLeastOnce => recvRemaining > 0 && packet.id.value in pendingRecv
         case ExactlyOnce => recvRemaining == 0 || packet.id.value in pendingRecv
    }

    /** A control packet out of order is an error that changes nothing. */
    twostate predicate Refused(r: Result)
      reads this
    {
      && r == Failed(Protocol)
      && pendingSend == old(pendingSend) && pendingRecv == old(pendingRecv) && history == old(history)
      && wire == old(wire) && sendRemaining == old(sendRemaining) && recvRemaining == old(recvRemaining)
    }

    /** PUBACK or PUBCOMP in order ends the exchange. */
    twostate predicate Settled(packet: Packet, r: Result)
      requires packet.PubAck? || packet.PubComp?
      reads this
    {
      && r == Done(Some(packet)) && wire == old(wire)
      && pendingSend == old(pendingSend) - {packet.packetId}
      && history == old(history) + [Entry(packet.packetId, if packet.PubAck? then GotPubAck else GotPubComp)]
      && sendRemaining == Inc(old(sendRemaining))
    }

    /** PUBREC in order: the PUBREL is due, and once it is written the PUBCOMP is. */
    twostate predicate Released(id: u16, ok: bool, r: Result)
      reads this
    {
      && r == (if ok then Done(Some(PubRec(id))) else Failed(Transport))
      && wire == old(wire) + (if ok then [PubRel(id)] else [])
      && pendingSend == old(pendingSend)[id := PacketState(None, if ok then NextPubComp else NextPubRel)]
      && history == old(history) + [Entry(id, GotPubRec)] + (if ok then [Entry(id, SentPubRel)] else [])
      && sendRemaining == old(sendRemaining)
    }

    /** PUBREL in order: the exchange is over once the PUBCOMP is written. */
    twostate predicate Completed(id: u16, ok: bool, r: Result)
      reads this
    {
      && r == (if ok then Done(Some(PubRel(id))) else Failed(Transport))
      && wire == old(wire) + (if ok then [PubComp(id)] else [])
      && pendingRecv == (if ok then old(pendingRecv) - {id} else old(pendingRecv))
      && recvRemaining == (if ok then Inc(old(recvRemaining)) else old(recvRemaining))
    }

    /** The packet is handled without error. */
    ghost predicate Handles(packet: Packet, ok: bool)
      reads this
    {
      match packet
      case Publish(qos, id, _) => qos == AtMostOnce || (id.Some? && ok && (qos == AtLeastOnce ==> recvRemaining > 0))
      case PubRec(_) => Due(packet) && ok
      case PubRel(_) => Due(packet) && ok
      case Disconnect => false
      case _ => Due(packet)
    }

    method HandlePacket(packet: Packet, ok: bool) returns (r: Result)
      requires Valid()
      modifies this`pendingSend, this`pendingRecv, this`sendRemaining, this`recvRemaining
      modifies this`history, this`wire, this`misused
      ensures Valid() && misused == (old(misused) || old(Misuse(packet)))
      ensures !old(Due(packet)) ==> Refused(r)
      ensures old(Due(packet)) && (packet.PubAck? || packet.PubComp?) ==> Settled(packet, r)
      ensures old(Due(packet)) && packet.PubRec? ==> Released(packet.packetId, ok, r)
      ensures old(Due(packet)) && packet.PubRel? ==> Completed(packet.packetId, ok, r)
      ensures packet.Publish? ==> Received(packet, ok, r)
      ensures !packet.PubAck? && !packet.PubRec? && !packet.PubComp? ==>
                pendingSend == old(pendingSend) && history == old(history) && sendRemaining == old(sendRemaining)
      ensures !packet.Publish? && !packet.PubRel? ==>
                pendingRecv == old(pendingRecv) && recvRemaining == old(recvRemaining)
      // conservation of the receive quota, exactly
      ensures old(recvRemaining) < USIZE - 1 ==> (RecvBalance() == old(RecvBalance()) <==> !old(Misuse(packet)))
      // what is handled without error goes to the consumer, except an unwanted ping response
      ensures r.Done? <==> old(Handles(packet, ok))
      ensures r.Done? ==> r == Done(if packet.PingResponse? && !pingresp then None else Some(packet))
      ensures packet.Disconnect? ==> r == Failed(Protocol) && wire == old(wire)
      ensures packet.PingResponse? ==> r.Done? && wire == old(wire)
      ensures packet.PingRequest? || packet.Other? ==> r.Done? && wire == old(wire)
    {
      hide Refines, RecvOk, Received, Settled, Released, Completed;
      match packet {
        case PingResponse =>
          r := Done(if pingresp then Some(packet) else None);
        case Disconnect =>
          r := Failed(Protocol);
        case PingRequest =>
          r := Done(Some(packet));
        case Other(_, _) =>
          r := Done(Some(packet));
        case Publish(_, _, _) =>
          r := HandleRecvPublish(packet, ok);
        case PubAck(id) =>
          if id in pendingSend && pendingSend[id].next == NextPubAck {
            r := Settle(packet);
          } else {
            r := Failed(Protocol);
          }
        case PubRec(id) =>
          if id in pendingSend && pendingSend[id].next == NextPubRec {
            r := Release(id, ok);
          } else {
            r := Failed(Protocol);
          }
        case PubRel(id) =>
          if id in pendingRecv && pendingRecv[id].next == NextPubRel {
            r := Complete(id, ok);
          } else {
            r := Failed(Protocol);
          }
        case PubComp(id) =>
          if id in pendingSend && pendingSend[id].next == NextPubComp {
            r := Settle(packet);
          } else {
            r := Failed(Protocol);
          }
      }
    }

    method Release(id: u16, ok: bool) returns (r: Result)
      requires Valid() && Due(PubRec(id))
      modifies this`pendingSend, this`history, this`wire
      ensures Valid() && Released(id, ok, r) && r == if ok then Done(Some(PubRec(id))) else Failed(Transport)
    {
      hide Refines, RecvOk;
      Move(id, GotPubRec);
      Send(PubRel(id), ok);
      if !ok {
        return Failed(Transport);
      }
      Move(id, SentPubRel);
      r := Done(Some(PubRec(id)));
    }

    method Complete(id: u16, ok: bool) returns (r: Result)
      requires Valid() && Due(PubRel(id))
      modifies this`pendingRecv, this`recvRemaining, this`wire
      ensures Valid() && Completed(id, ok, r) && r == if ok then Done(Some(PubRel(id))) else Failed(Transport)
      ensures old(recvRemaining) < USIZE - 1 ==> RecvBalance() == old(RecvBalance())
    {
      hide Refines, RecvOk;
      Send(PubComp(id), ok);
      if !ok {
        return Failed(Transport);
      }
      RemoveCount(pendingRecv, id);
      RecvOkRemove(pendingRecv, id);
      pendingRecv := pendingRecv - {id};
      recvRemaining := Inc(recvRemaining);
      r := Done(Some(PubRel(id)));
    }

    /** What an inbound publish does to the receive side and which acknowledgement it causes. */
    twostate predicate Received(packet: Packet, ok: bool, r: Result)
      requires packet.Publish?
      reads this
    {
      if packet.qos == AtMostOnce || packet.id.None? || (packet.qos == AtLeastOnce && old(recvRemaining) == 0) then
        && pendingRecv == old(pendingRecv) && recvRemaining == old(recvRemaining) && wire == old(wire)
        && r == (if packet.qos == AtMostOnce then Done(Some(packet))
                 else if packet.qos == AtLeastOnce && old(recvRemaining) == 0 then Failed(Protocol)
                 else Failed(Panicked))
      else
        var id := packet.id.value;
        && r == (if ok then Done(Some(packet)) else Failed(Transport))
        && if packet.qos == AtLeastOnce then
             && pendingRecv == (if ok then old(pendingRecv) - {id} else old(pendingRecv)[id := First(packet)])
             && recvRemaining == (if ok then old(recvRemaining) else old(recvRemaining) - 1)
             && wire == old(wire) + (if ok then [PubAck(id)] else [])
           else
             && pendingRecv == old(pendingRecv)[id := if ok then PacketState(None, NextPubRel) else First(packet)]
             && recvRemaining == Dec(old(recvRemaining))
             && wire == old(wire) + (if ok then [PubRec(id)] else [])
    }

    method HandleRecvPublish(packet: Packet, ok: bool) returns (r: Result)
      requires Valid() && packet.Publish?
      modifies this`pendingRecv, this`recvRemaining, this`wire, this`misused
      ensures Valid() && misused == (old(misused) || old(Misuse(packet)))
      ensures Received(packet, ok, r) && (r.Done? ==> r == Done(Some(packet)))
              && (r.Done? <==> old(Handles(packet, ok)))
      ensures old(recvRemaining) < USIZE - 1 ==> (RecvBalance() == old(RecvBalance()) <==> !old(Misuse(packet)))
    {
      hide Refines, RecvOk;
      match packet.qos {
        case AtMostOnce =>
          r := Done(Some(packet));
        case AtLeastOnce =>
          if recvRemaining == 0 {
            r := Failed(Protocol);
          } else if packet.id.None? {
            r := Failed(Panicked);
          } else {
            r := ReceiveQoS1(packet, packet.id.value, ok);
          }
        case ExactlyOnce =>
          if packet.id.None? {
            r := Failed(Panicked);
          } else {
            r := ReceiveQoS2(packet, packet.id.value, ok);
          }
      }
    }

    method ReceiveQoS1(packet: Packet, id: u16, ok: bool) returns (r: Result)
      requires Valid() && packet.Publish? && packet.qos == AtLeastOnce && packet.id == Some(id) && recvRemaining > 0
      modifies this`pendingRecv, this`recvRemaining, this`wire, this`misused
      ensures Valid() && misused == (old(misused) || old(Misuse(packet)))
      ensures pendingRecv == if ok then old(pendingRecv) - {id} else old(pendingRecv)[id := First(packet)]
      ensures recvRemaining == if ok then old(recvRemaining) else old(recvRemaining) - 1
      ensures wire == old(wire) + if ok then [PubAck(id)] else []
      ensures r == if ok then Done(Some(packet)) else Failed(Transport)
      ensures RecvBalance() == old(RecvBalance()) <==> !old(Misuse(packet))
    {
      hide Refines, RecvOk, First, Session.Misuse;
      Begun(packet, id);
      Send(PubAck(id), ok);
      if ok {
        Acknowledged(id, old(pendingRecv), packet);
      }
      r := if ok then Done(Some(packet)) else Failed(Transport);
    }

    /** The publish is in flight, and one of the quota is used. */
    method Begun(packet: Packet, id: u16)
      requires Valid() && packet.Publish? && packet.qos == AtLeastOnce && packet.id == Some(id) && recvRemaining > 0
      modifies this`pendingRecv, this`recvRemaining, this`misused
      ensures Valid() && misused == (old(misused) || old(Misuse(packet)))
              && old(Misuse(packet)) == (id in old(pendingRecv))
      ensures pendingRecv == old(pendingRecv)[id := First(packet)] && recvRemaining == old(recvRemaining) - 1
      ensures RecvBalance() == old(RecvBalance()) - (if id in old(pendingRecv) then 1 else 0)
    {
      hide Refines, RecvOk, First;
      misused := misused || id in pendingRecv;
      Inserted(pendingRecv, id, packet);
      pendingRecv := pendingRecv[id := First(packet)];
      recvRemaining := recvRemaining - 1;
    }

    /** The acknowledgement is out: nothing of the publish is left, nor of another one under its identifier. */
    method Acknowledged(id: u16, ghost was: Pending, ghost packet: Packet)
      requires Valid() && RecvOk(was) && packet.Publish? && pendingRecv == was[id := First(packet)]
      modifies this`pendingRecv, this`recvRemaining
      ensures Valid() && pendingRecv == was - {id} && recvRemaining == old(recvRemaining) + 1
      ensures RecvBalance() == old(RecvBalance())
    {
      hide Refines, RecvOk, First;
      Removed(was, id, First(packet));
      RemoveCount(pendingRecv, id);
      pendingRecv := pendingRecv - {id};
      recvRemaining := recvRemaining + 1;
    }

    method ReceiveQoS2(packet: Packet, id: u16, ok: bool) returns (r: Result)
      requires Valid() && packet.Publish? && packet.qos == ExactlyOnce && packet.id == Some(id)
      modifies this`pendingRecv, this`recvRemaining, this`wire, this`misused
      ensures Valid() && misused == (old(misused) || old(Misuse(packet)))
      ensures pendingRecv == old(pendingRecv)[id := if ok then PacketState(None, NextPubRel) else First(packet)]
      ensures recvRemaining == Dec(old(recvRemaining))
      ensures wire == old(wire) + if ok then [PubRec(id)] else []
      ensures r == if ok then Done(Some(packet)) else Failed(Transport)
      ensures RecvBalance() == old(RecvBalance()) <==> !old(Misuse(packet))
    {
      hide Refines, RecvOk;
      misused := misused || Misuse(packet);
      ghost var was := pendingRecv;
      var state := First(packet);
      Inserted(was, id, packet);
      pendingRecv := pendingRecv[id := state];
      recvRemaining := Dec(recvRemaining);
      Send(PubRec(id), ok);
      if !ok {
        return Failed(Transport);
      }
      var next := Advance(pendingRecv[id]).value;
      ReplaceCount(pendingRecv, id, next);
      RecvOkInsert(pendingRecv, id, next);
      pendingRecv := pendingRecv[id := next];
      r := Done(Some(packet));
    }
  }
}
