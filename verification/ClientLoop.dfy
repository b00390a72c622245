/**
  The client's event loop (vaux-client/src/client.rs, `MqttClient::start`). Each turn of its `select!` completes one
  branch. A packet the consumer has no room for is parked in one slot, and the socket is not read while it is there.
 */
module ClientLoop {
  import opened Mqtt
  import opened ClientSession
  import QoSTrace

  datatype Kind =
    | KPublish | KPubAck | KPubRec | KPubRel | KPubComp | KDisconnect | KPingRequest | KPingResponse
    | KOther(other: OtherType)

  function KindOf(p: Packet): Kind {
    match p
    case Publish(_, _, _) => KPublish
    case PubAck(_) => KPubAck
    case PubRec(_) => KPubRec
    case PubRel(_) => KPubRel
    case PubComp(_) => KPubComp
    case Disconnect => KDisconnect
    case PingRequest => KPingRequest
    case PingResponse => KPingResponse
    case Other(kind, _) => KOther(kind)
  }

  /** Consumers may register a channel of their own for a packet type. */
  datatype Channel = Default | Filtered(kind: Kind)

  datatype Delivery = Delivery(channel: Channel, packet: Packet)

  function Route(filters: set<Kind>, p: Packet): Channel {
    if KindOf(p) in filters then Filtered(KindOf(p)) else Default
  }

  /** A type with a registered channel goes to that channel alone, and any other type to the common one. */
  lemma RouteIff(filters: set<Kind>, p: Packet, kind: Kind)
    ensures Route(filters, p) == Filtered(kind) <==> kind in filters && KindOf(p) == kind
    ensures Route(filters, p) == Default <==> KindOf(p) !in filters
  {
  }

  /** Packets have the same kind exactly if they are of the same type. */
  lemma KindIff(p: Packet, q: Packet)
    ensures KindOf(p) == KindOf(q) <==>
              || (p.Publish? && q.Publish?) || (p.PubAck? && q.PubAck?) || (p.PubRec? && q.PubRec?)
              || (p.PubRel? && q.PubRel?) || (p.PubComp? && q.PubComp?) || (p.Disconnect? && q.Disconnect?)
              || (p.PingRequest? && q.PingRequest?) || (p.PingResponse? && q.PingResponse?)
              || (p.Other? && q.Other? && p.kind == q.kind)
  {
  }

  /** What a bounded channel answers to a send. */
  datatype SendOutcome = Accepted | Full | Closed

  /**
    One completed branch of `select!`. `written` tells whether the session's own write succeeds, `outcome` what the
    consumer's channel answers. A forward attempt that is `Full` is one that another branch cancelled.
   */
  datatype Event =
    | KeepAlive(written: bool)
    | Forward(outcome: SendOutcome)
    | Readable(written: bool, outcome: SendOutcome)
    | ReadClosed
    | ReadFailed
    | Command(packet: Packet, written: bool)
    | CommandsClosed

  datatype Outcome = Running | Stopped | Error(kind: ErrorKind) | ChannelError

  /** The application's commands among the branches completed. */
  ghost function Commands(events: seq<Event>): seq<Event> {
    if events == [] then []
    else
      var last := events[|events| - 1];
      Commands(events[..|events| - 1]) + if last.Command? then [last] else []
  }

  lemma CommandsSnoc(events: seq<Event>, e: Event)
    ensures Commands(events + [e]) == Commands(events) + if e.Command? then [e] else []
  {
    assert (events + [e])[..|events|] == events;
  }

  lemma NoCommands(s: seq<Event>)
    ensures Commands([]) == [] && s + [] == s
  {
  }

  /** The packet on the wire is the command, with an identifier if it had none. */
  predicate Resembles(command: Packet, sent: Packet) {
    sent == command || (command.Publish? && command.id.None? && sent.Publish? && sent == command.(id := sent.id))
  }

  predicate QoSControl(p: Packet) {
    p.PubAck? || p.PubRec? || p.PubRel? || p.PubComp?
  }

  function Parked(pending: Option<Packet>): seq<Packet> {
    if pending.Some? then [pending.value] else []
  }

  ghost function Packets(delivered: seq<Delivery>): seq<Packet> {
    seq(|delivered|, i requires 0 <= i < |delivered| => delivered[i].packet)
  }

  /** The packets of the socket that concern the consumer. */
  ghost function Shown(read: seq<Packet>, pingresp: bool): seq<Packet> {
    if read == [] then []
    else
      var last := read[|read| - 1];
      Shown(read[..|read| - 1], pingresp) + if last.PingResponse? && !pingresp then [] else [last]
  }

  lemma ShownSnoc(read: seq<Packet>, p: Packet, pingresp: bool)
    ensures Shown(read + [p], pingresp) == Shown(read, pingresp) + if p.PingResponse? && !pingresp then [] else [p]
  {
    assert (read + [p])[..|read|] == read;
  }

  /** What one channel has been sent, and what of a packet sequence is meant for it. */
  ghost function SentOn(delivered: seq<Delivery>, c: Channel): seq<Packet> {
    if delivered == [] then []
    else
      var last := delivered[|delivered| - 1];
      SentOn(delivered[..|delivered| - 1], c) + if last.channel == c then [last.packet] else []
  }

  ghost function MeantFor(filters: set<Kind>, packets: seq<Packet>, c: Channel): seq<Packet> {
    if packets == [] then []
    else
      var last := packets[|packets| - 1];
      MeantFor(filters, packets[..|packets| - 1], c) + if Route(filters, last) == c then [last] else []
  }

  ghost predicate WellRouted(filters: set<Kind>, delivered: seq<Delivery>) {
    forall i :: 0 <= i < |delivered| ==> delivered[i].channel == Route(filters, delivered[i].packet)
  }

  lemma {:induction false} SentIsMeant(filters: set<Kind>, delivered: seq<Delivery>, c: Channel)
    requires WellRouted(filters, delivered)
    ensures SentOn(delivered, c) == MeantFor(filters, Packets(delivered), c)
  {
    if delivered != [] {
      var rest := delivered[..|delivered| - 1];
      SentIsMeant(filters, rest, c);
      assert Packets(delivered)[..|delivered| - 1] == Packets(rest);
    }
  }

  /** Nothing is lost, doubled or reordered on any channel. */
  ghost predicate InOrder(filters: set<Kind>, delivered: seq<Delivery>, pending: Option<Packet>, shown: seq<Packet>) {
    forall c: Channel ::
      SentOn(delivered, c) + MeantFor(filters, Parked(pending), c) == MeantFor(filters, shown, c)
  }

  /** Per channel order from the order over all channels. */
  lemma OrderedOnEveryChannel(filters: set<Kind>, delivered: seq<Delivery>, pending: Option<Packet>, shown: seq<Packet>)
    requires WellRouted(filters, delivered) && Packets(delivered) + Parked(pending) == shown
    ensures InOrder(filters, delivered, pending, shown)
  {
    forall c: Channel
      ensures SentOn(delivered, c) + MeantFor(filters, Parked(pending), c) == MeantFor(filters, shown, c)
    {
      SentIsMeant(filters, delivered, c);
      if pending.Some? {
        assert shown[..|shown| - 1] == Packets(delivered) && shown[|shown| - 1] == pending.value;
        assert Parked(pending)[..0] == [];
      } else {
        assert Parked(pending) == [] && Packets(delivered) == shown;
      }
    }
  }

  /** `delivered` and `parked` account for all of `shown`, or for all but its last packet. */
  ghost predicate AllBut(delivered: seq<Delivery>, shown: seq<Packet>, missing: nat) {
    |shown| <= |delivered| + missing && Packets(delivered) <= shown
  }

  lemma OneMore(delivered: seq<Delivery>, shown: seq<Packet>, more: seq<Packet>)
    requires Packets(delivered) == shown && |more| <= 1
    ensures AllBut(delivered, shown + more, 1)
  {
  }

  lemma Accounted(delivered: seq<Delivery>, pending: Option<Packet>, shown: seq<Packet>)
    requires Packets(delivered) + Parked(pending) == shown
    ensures AllBut(delivered, shown, 1)
  {
  }

  lemma OneDelivered(filters: set<Kind>, delivered: seq<Delivery>, packet: Packet)
    requires WellRouted(filters, delivered)
    ensures WellRouted(filters, delivered + [Delivery(Route(filters, packet), packet)])
    ensures Packets(delivered + [Delivery(Route(filters, packet), packet)]) == Packets(delivered) + [packet]
  {
  }

  lemma EmptySlot(s: seq<Packet>)
    ensures s + Parked(None) == s
  {
  }

  class Client {
    const session: Session
    const filters: set<Kind>
    const keepAliveEnabled: bool
    var pending: Option<Packet>
    var connected: bool
    /** Packets still to come from the broker, packets read, and packets sent to the consumer's channels. */
    var socket: seq<Packet>
    ghost var read: seq<Packet>
    ghost var delivered: seq<Delivery>
    /** The branches completed so far. */
    ghost var turns: seq<Event>

    ghost predicate Valid()
      reads this, session
    {
      session.Valid() && WellRouted(filters, delivered)
    }

    /** The loop's invariant over all channels together. */
    ghost predicate Conserved()
      reads this, session
    {
      Packets(delivered) + Parked(pending) == Shown(read, session.pingresp)
    }

    /** When the loop has ended, at most the last packet has not reached the consumer. */
    ghost predicate AlmostConserved()
      reads this, session
    {
      AllBut(delivered, Shown(read, session.pingresp), 1)
    }

    constructor (session: Session, filters: set<Kind>, keepAliveEnabled: bool, socket: seq<Packet>)
      requires session.Valid()
      ensures Valid() && Conserved() && pending.None? && connected && read == [] && delivered == []
      ensures this.session == session && this.filters == filters && this.socket == socket
      ensures this.keepAliveEnabled == keepAliveEnabled
    {
      this.session, this.filters, this.keepAliveEnabled := session, filters, keepAliveEnabled;
      this.socket, pending, connected, read, delivered, turns := socket, None, true, [], [], [];
    }

    /** A packet accepted by the channel it belongs to. */
    method Deliver(packet: Packet)
      requires Valid()
      modifies this`delivered
      ensures Valid() && delivered == old(delivered) + [Delivery(Route(filters, packet), packet)]
      ensures Packets(delivered) == old(Packets(delivered)) + [packet]
    {
      OneDelivered(filters, delivered, packet);
      delivered := delivered + [Delivery(Route(filters, packet), packet)];
    }

    /** Whether `select!` may complete the branch now. */
    predicate Enabled(e: Event)
      reads this
    {
      match e
      case KeepAlive(_) => keepAliveEnabled
      case Forward(_) => pending.Some?
      case Readable(_, _) => pending.None? && socket != []
      case ReadClosed => pending.None? && socket == []
      case ReadFailed => pending.None?
      case _ => true
    }

    /** The read branch: one packet is taken from the socket, handled and handed over or parked. */
    method ReadOne(written: bool, outcome: SendOutcome) returns (o: Outcome)
      requires Valid() && Conserved() && pending.None? && socket != []
      modifies this`pending, this`socket, this`read, this`delivered, session
      ensures Valid() && (o == Running ==> Conserved()) && AlmostConserved() && o != Stopped
      ensures read == old(read) + [old(socket)[0]] && socket == old(socket)[1..]
      ensures session.connected == old(session.connected)
      // the answer, and where the packet goes
      ensures !old(session.Handles(socket[0], written)) ==> o.Error? && pending == None && delivered == old(delivered)
      ensures old(session.Handles(socket[0], written)) ==>
                var packet := old(socket[0]);
                if packet.PingResponse? && !session.pingresp then o == Running && delivered == old(delivered)
                  && pending == None
                else match outcome
                  case Accepted =>
                    o == Running && pending == None
                      && delivered == old(delivered) + [Delivery(Route(filters, packet), packet)]
                  case Full => o == Running && pending == Some(packet) && delivered == old(delivered)
                  case Closed => o == ChannelError && pending == None && delivered == old(delivered)
    {
      hide Refines, RecvOk, WellRouted, Shown, Packets, AllBut;
      EmptySlot(Packets(delivered));
      var packet := socket[0];
      ShownSnoc(read, packet, session.pingresp);
      socket, read := socket[1..], read + [packet];
      var r := session.HandlePacket(packet, written);
      OneMore(delivered, old(Shown(read, session.pingresp)),
              if packet.PingResponse? && !session.pingresp then [] else [packet]);
      if r.Failed? {
        return Error(r.kind);
      }
      EmptySlot(Packets(delivered));
      if r.toConsumer.Some? {
        match outcome {
          case Accepted =>
            Deliver(r.toConsumer.value);
            EmptySlot(Packets(delivered));
          case Full =>
            pending := r.toConsumer;
          case Closed =>
            return ChannelError;
        }
      }
      Accounted(delivered, pending, Shown(read, session.pingresp));
      o := Running;
    }

    /** The forward branch: a parked packet leaves the slot only when its channel takes it. */
    method ForwardOne(outcome: SendOutcome) returns (o: Outcome)
      requires Valid() && Conserved() && pending.Some?
      modifies this`pending, this`delivered
      ensures Valid() && Conserved() && o == if outcome == Closed then ChannelError else Running
      ensures outcome == Accepted ==>
                pending == None && delivered == old(delivered)
                  + [Delivery(Route(filters, old(pending.value)), old(pending.value))]
      ensures outcome != Accepted ==> pending == old(pending) && delivered == old(delivered)
    {
      hide Refines, RecvOk, WellRouted, Shown, Packets;
      if outcome == Accepted {
        Deliver(pending.value);
        pending := None;
        EmptySlot(Packets(delivered));
      }
      o := if outcome == Closed then ChannelError else Running;
    }

    /** The loop ends by itself when the session is no longer connected. */
    ghost function Goes(): Outcome
      reads session
    {
      if session.connected then Running else Stopped
    }

    /** What each branch answers, and what it writes for the application. */
    twostate predicate Answered(e: Event, o: Outcome)
      reads this, session
    {
      match e
      case KeepAlive(written) =>
        && session.wire == old(session.wire) + (if written then [PingRequest] else [])
        && o == if written then Goes() else Error(Transport)
      case Forward(outcome) =>
        && session.wire == old(session.wire)
        && o == if outcome == Closed then ChannelError else Goes()
      case Readable(written, outcome) =>
        old(socket) != [] ==>
          if !old(session.Handles(socket[0], written)) then o.Error?
          else if outcome == Closed && !(old(socket)[0].PingResponse? && !session.pingresp) then o == ChannelError
          else o == Goes()
      case Command(packet, written) =>
        if packet.PubAck? || packet.PubRec? || packet.PubRel? || packet.PubComp? then
          o == Running && session.wire == old(session.wire) && session.pendingSend == old(session.pendingSend)
        else
          && (old(session.Refuses(packet)) ==> o == Error(Protocol) && session.wire == old(session.wire))
          && (!old(session.Refuses(packet)) ==>
                && o == (if written then Goes() else Error(Transport))
                && |session.wire| == |old(session.wire)| + (if written then 1 else 0)
                && old(session.wire) <= session.wire
                && (written ==> Resembles(packet, session.wire[|session.wire| - 1])))
      case _ => o == Error(Transport) && session.wire == old(session.wire)
    }

    /** A command of the application that is no QoS control packet. */
    method Obey(packet: Packet, written: bool) returns (o: Outcome)
      requires session.Valid()
      modifies session
      ensures session.Valid()
      ensures old(session.Refuses(packet)) ==> o == Error(Protocol) && session.wire == old(session.wire)
      ensures !old(session.Refuses(packet)) ==>
                && o == (if written then Running else Error(Transport))
                && |session.wire| == |old(session.wire)| + (if written then 1 else 0)
                && old(session.wire) <= session.wire
                && (written ==> Resembles(packet, session.wire[|session.wire| - 1]))
    {
      hide Refines, RecvOk, FirstFree, Session.Refuses;
      var r := session.WriteNext(packet, written);
      o := if r.Failed? then Error(r.kind) else Running;
    }

    /** One turn of the loop. */
    method Turn(e: Event) returns (o: Outcome)
      requires Valid() && Conserved() && Enabled(e)
      modifies this`pending, this`socket, this`read, this`delivered, this`connected, this`turns, session
      ensures Valid() && (o == Running ==> Conserved() && connected == old(connected)) && AlmostConserved()
      ensures turns == old(turns) + [e]
      ensures o != Running ==> !connected
      ensures read + socket == old(read + socket)
      ensures Answered(e, o)
      // reads are paused while a packet is parked
      ensures old(pending.Some?) ==> read == old(read)
      // the parked packet stays until a forward is accepted, and commands and pings are served meanwhile
      ensures old(pending.Some?) && e != Forward(Accepted) ==> pending == old(pending) && delivered == old(delivered)
    {
      hide Refines, RecvOk, WellRouted, Shown, Packets, AllBut, Parked, FirstFree;
      Accounted(delivered, pending, Shown(read, session.pingresp));
      turns := turns + [e];
      o := Running;
      match e {
        case KeepAlive(written) =>
          var r := session.HandleKeepAlive(written);
          if r.Failed? {
            o := Error(r.kind);
          }
        case Forward(outcome) =>
          o := ForwardOne(outcome);
          Accounted(delivered, pending, Shown(read, session.pingresp));
        case Readable(written, outcome) =>
          o := ReadOne(written, outcome);
        case ReadClosed =>
          o := Error(Transport);
        case ReadFailed =>
          o := Error(Transport);
        case Command(packet, written) =>
          if QoSControl(packet) {
            return;
          }
          o := Obey(packet, written);
        case CommandsClosed =>
          o := Error(Transport);
      }
      if o == Running && !session.connected {
        o := Stopped;
      }
      if o != Running {
        connected := false;
      }
    }

    /** Any run: whatever branches complete, and in whatever order, until the script or the loop ends. */
    method Run(script: seq<Event>) returns (o: Outcome)
      requires Valid() && Conserved()
      modifies this`pending, this`socket, this`read, this`delivered, this`connected, this`turns, session
      ensures Valid() && AlmostConserved()
      // no command is passed over, parked packet or not
      ensures o == Running ==> Commands(turns) == old(Commands(turns)) + Commands(script)
      ensures read + socket == old(read + socket)
      ensures o == Running ==> InOrder(filters, delivered, pending, Shown(read, session.pingresp))
      ensures forall id: u16 :: QoSTrace.PrefixOfExchanges(QoSTrace.Of(session.history, id))
      ensures !session.misused ==> session.RecvBalance() == session.receiveMax
    {
      hide WellRouted, Commands, Client.Answered, Refines, RecvOk, Shown, Packets, AllBut, Parked, InOrder;
      assert script[..0] == [] && script[..|script|] == script;
      NoCommands(Commands(turns));
      Accounted(delivered, pending, Shown(read, session.pingresp));
      o := Running;
      var i := 0;
      while i < |script| && o == Running
        invariant 0 <= i <= |script| && Valid() && AlmostConserved()
        invariant o == Running ==> Conserved()
        invariant read + socket == old(read + socket)
        invariant o == Running ==> Commands(turns) == old(Commands(turns)) + Commands(script[..i])
      {
        CommandsSnoc(turns, script[i]);
        CommandsSnoc(script[..i], script[i]);
        assert script[..i + 1] == script[..i] + [script[i]];
        if Enabled(script[i]) {
          o := Turn(script[i]);
        }
        i := i + 1;
      }
      if o == Running {
        OrderedOnEveryChannel(filters, delivered, pending, Shown(read, session.pingresp));
      }
      forall id: u16 ensures QoSTrace.PrefixOfExchanges(QoSTrace.Of(session.history, id)) {
        TraceRefinement(session.history, session.pendingSend, id);
      }
    }
  }
}
