/**
  From routing to the subscriber's decoder. A copy granted QoS 0 keeps the publisher's packet identifier
  (vaux-broker/src/lib.rs, `route_publish`), the codec writes an identifier whenever there is one, and the reader
  expects one only above QoS 0. It then takes the identifier for the length and the start of the properties.
 */
module Copies {
  import opened Mqtt
  import opened Codec
  import opened Body
  import opened Suffixes
  import VarInt
  import Topics
  import Packets
  import Prefixes
  import Delivery

  const PUBLISH := Packets.PUBLISH

  function Bits(qos: QoSLevel): nat {
    match qos
    case AtMostOnce => 0
    case AtLeastOnce => 1
    case ExactlyOnce => 2
  }

  /** The packet has the QoS and the packet identifier of the broker's publish. */
  predicate Carries(q: Packets.Packet, p: Delivery.Publish) {
    && q.kind == Packets.Publish && QoSBits(q.m.flags) == Bits(p.qos)
    && |q.m.head| == 2 && q.m.head[1] == (if p.packetId.Some? then Some(Num(p.packetId.value)) else None)
  }

  /** The conditions for a PUBLISH to be read back that do not concern its identifier. */
  predicate Plain(q: Packets.Packet)
    requires Packets.PacketOk(q) && q.kind == Packets.Publish
  {
    && Packets.BodySize(q) < VarInt.THREE_BYTES && q.m.user == []
    && (q.m.props[5].Some? ==> q.m.props[5].value.n < VarInt.THREE_BYTES)
  }

  /** A subscriber gets its copy back, identifier included, exactly if it is above QoS 0 or never had an identifier. */
  lemma CopyReadBackIff(publish: Delivery.Publish, sub: Topics.Subscriber, id: u16, q: Packets.Packet, rest: seq<byte>)
    requires Packets.PacketOk(q) && Packets.BodySize(q) < 0x1_0000_0000 && Carries(q, Delivery.Copy(publish, sub, id))
    ensures Packets.ReadBack(q, rest) <==>
              Plain(q) && (Delivery.Lower(publish.qos, sub.qos) != AtMostOnce || publish.packetId.None?)
  {
    hide Packets.ReadBack, Packets.CanRestore, Packets.PacketOk;
    Packets.RoundTripIff(q, rest);
    Packets.PublishCondition(q);
  }

  /** A PUBLISH above QoS 0 that the broker has read carries an identifier. */
  lemma DecodedHasId(src: seq<byte>)
    ensures var r := Packets.Decode(src);
            r.DecodedPacket? && r.p.kind == Packets.Publish && QoSBits(r.p.m.flags) > 0 ==>
              |r.p.m.head| == 2 && r.p.m.head[1].Some?
  {
    hide Packets.LengthComplete, VarInt.Decode;
    var r := Packets.Decode(src);
    if r.DecodedPacket? && r.p.kind == Packets.Publish {
      var v := VarInt.Decode(src[1..]);
      PublishHead(src[0] % 0x10, v.rest[..v.value]);
    }
  }

  lemma PublishHead(flags: nat, body: seq<byte>)
    ensures Packets.SchemaOf(Packets.Publish) == PUBLISH && SchemaOk(PUBLISH)
    ensures var r := DecBody(PUBLISH, flags, body);
            r.BodyParsed? ==> r.m.flags == flags && |r.m.head| == 2 && (QoSBits(flags) > 0 ==> r.m.head[1].Some?)
  {
    hide PropLoop, DecPayload, VarInt.Decode;
    Packets.SchemasOk(Packets.Publish);
    var r := DecFields(PUBLISH.head, flags, body);
    if r.FieldsParsed? {
      assert r.slots[1].Some? <==> IsRead(PUBLISH.head[1], flags);
    }
  }

  //
  // A QoS 0 copy with an identifier
  //

  /** A PUBLISH at QoS 0 that carries an identifier. */
  predicate Shifted(m: Message) {
    && SchemaOk(PUBLISH) && MessageOk(PUBLISH, m) && QoSBits(m.flags) == 0 && |m.head| == 2
    && m.head[0].Some? && m.head[1].Some? && Writable(U16, m.head[1].value)
  }

  /** What the reader takes for property length and properties, as far as it is not payload. */
  function TakenForProps(m: Message): seq<byte>
    requires Shifted(m)
  {
    Put16(m.head[1].value.n) + (VarInt.Encode(PropertySize(PUBLISH, m)) + PropertyBytes(PUBLISH, m))
  }

  /** The bytes, taken for property length and properties, give `props` and no user property, and nothing is left. */
  ghost predicate ReadsAs(src: seq<byte>, props: Slots) {
    match VarInt.Decode(src)
    case Failed(_) => false
    case Decoded(length, _, block) =>
      var r := PropLoop(PUBLISH.props, Defaults(PUBLISH.props), [], block, 0, length);
      r.PropsParsed? && r.slots == props && r.user == [] && r.rest == []
  }

  /** The bytes in question happen to give the same properties and to end where the payload begins. */
  ghost predicate Coincides(m: Message)
    requires Shifted(m)
  {
    ReadsAs(TakenForProps(m), m.props) && m.user == []
  }

  function WithoutId(m: Message): Message
    requires |m.head| == 2
  {
    m.(head := [m.head[0], None])
  }

  /** The body is read as the message without its identifier, with the exact length. */
  ghost predicate ContentReads(m: Message)
    requires Shifted(m)
  {
    var r := DecBody(PUBLISH, m.flags, EncBody(PUBLISH, m));
    && r.BodyParsed? && Canonical(PUBLISH, r.m) == Canonical(PUBLISH, WithoutId(m))
    && r.size == |EncBody(PUBLISH, m)|
  }

  lemma ShiftedParts(m: Message)
    requires Shifted(m)
    ensures var payload := EncPayload(PUBLISH.payload, m.payload);
            var topic := Enc(Text, m.head[0].value);
            && Writable(Text, m.head[0].value) && m.tail == [] && m.payload.Raw?
            && EncBody(PUBLISH, m) == topic + (TakenForProps(m) + payload)
            && NormalPayload(m.payload) == Raw(Some(payload))
  {
    hide VarInt.Encode, PropertySize, PropertyBytes;
    assert FieldOk(PUBLISH.head[0], m.head[0]);
    var topic, id := Enc(Text, m.head[0].value), Put16(m.head[1].value.n);
    var payload := EncPayload(PUBLISH.payload, m.payload);
    var second := PUBLISH.head[1..];
    assert second[0] == Field(U16, WithQoS, None) && second[1..] == [];
    assert EncFields(second[1..], m.head[1..][1..]) == [];
    assert EncFields(second, m.head[1..]) == id + [] == id;
    assert EncFields(PUBLISH.head, m.head) == topic + id;
    var length, block := VarInt.Encode(PropertySize(PUBLISH, m)), PropertyBytes(PUBLISH, m);
    assert [] + (length + (block + payload)) == length + (block + payload);
    Regroup(topic, id, length, block, payload);
  }

  lemma Regroup(a: seq<byte>, b: seq<byte>, c: seq<byte>, d: seq<byte>, e: seq<byte>)
    ensures a + b + (c + (d + e)) == a + (b + (c + d) + e)
  {
  }

  lemma ShiftedHead(m: Message, src: seq<byte>)
    requires Shifted(m) && Writable(Text, m.head[0].value)
    ensures var topic := Enc(Text, m.head[0].value);
            DecBody(PUBLISH, m.flags, topic + src) == DecRest(PUBLISH, m.flags, [m.head[0], None], [], |topic|, src)
  {
    hide Enc, DecRest, SchemaOk, MessageOk;
    DecEnc(Text, m.head[0].value, src);
    var second := PUBLISH.head[1..];
    assert second[0] == Field(U16, WithQoS, None) && second[1..] == [];
    assert DecFields(second[1..], m.flags, src) == FieldsParsed([], 0, src);
    assert DecFields(second, m.flags, src) == FieldsParsed([None], 0, src);
    assert [m.head[0]] + [None] == [m.head[0], None];
    assert DecFields(PUBLISH.tail, m.flags, src) == FieldsParsed([], 0, src);
  }

  predicate Restores(r: BodyParsed, m: Message, payload: seq<byte>, size: nat)
    requires r.BodyParsed?
  {
    r.m.payload == Raw(Some(payload)) && r.m.props == m.props && r.m.user == m.user && r.size == size
  }

  /** The rest of the body, with the payload after the bytes that are taken for properties. */
  lemma ShiftedRest(m: Message, payload: seq<byte>, read: nat)
    requires Shifted(m)
    ensures var r := DecRest(PUBLISH, m.flags, [m.head[0], None], [], read, TakenForProps(m) + payload);
            && (Coincides(m) ==>
                  && m.user == []
                  && r == BodyParsed(Message(m.flags, [m.head[0], None], [], m.props, [], Raw(Some(payload))),
                                     read + |TakenForProps(m) + payload|))
            && (r.BodyParsed? && Restores(r, m, payload, read + |TakenForProps(m) + payload|) ==> Coincides(m))
  {
    hide PropLoop, VarInt.Decode, SchemaOk, MessageOk, VarInt.Encode, PropertySize, PropertyBytes;
    var src := TakenForProps(m);
    VarSuffix(src, payload);
    LongEnough(m);
    var v := VarInt.Decode(src);
    if v.Decoded? {
      LoopSuffix(PUBLISH.props, Defaults(PUBLISH.props), [], v.rest, payload, 0, v.value);
      LoopCount(PUBLISH.props, Defaults(PUBLISH.props), [], v.rest + payload, 0, v.value);
      NothingBefore(payload);
      assert PUBLISH.payload == Remaining;
    }
  }

  lemma NothingBefore(payload: seq<byte>)
    ensures [] + payload == payload
    ensures forall s: seq<byte> :: s + payload == payload ==> s == []
  {
    forall s: seq<byte> | s + payload == payload ensures s == [] {
      assert |s + payload| == |s| + |payload|;
    }
  }

  lemma LongEnough(m: Message)
    requires Shifted(m)
    ensures |TakenForProps(m)| >= 3
  {
    hide VarInt.Encode, PropertySize, PropertyBytes, SchemaOk, MessageOk;
  }

  lemma ContentReadsIff(m: Message)
    requires Shifted(m)
    ensures ContentReads(m) <==> Coincides(m)
  {
    hide DecRest, DecBody, EncBody, Coincides, TakenForProps, Enc, EncPayload;
    ShiftedParts(m);
    var payload, topic := EncPayload(PUBLISH.payload, m.payload), Enc(Text, m.head[0].value);
    ShiftedHead(m, TakenForProps(m) + payload);
    ShiftedRest(m, payload, |topic|);
    RestShape(m.flags, [m.head[0], None], |topic|, TakenForProps(m) + payload);
  }

  lemma RestShape(flags: nat, head: Slots, read: nat, src: seq<byte>)
    requires SchemaOk(PUBLISH)
    ensures var r := DecRest(PUBLISH, flags, head, [], read, src);
            r.BodyParsed? ==> r.m.flags == flags && r.m.head == head && r.m.tail == [] && r.m.payload.Raw?
                              && NormalPayload(r.m.payload) == r.m.payload
  {
    hide PropLoop, VarInt.Decode;
  }

  /** The subscriber decodes topic, properties, payload and exact length of its copy, all but the identifier. */
  ghost predicate ContentRead(q: Packets.Packet, rest: seq<byte>)
    requires Packets.PacketOk(q) && q.kind == Packets.Publish && |q.m.head| == 2
  {
    var r := Packets.Decode(Packets.Frame(q) + rest);
    && r.DecodedPacket? && r.len == |Packets.Frame(q)| && r.p.kind == r.p.headerType == Packets.Publish
    && Canonical(PUBLISH, r.p.m) == Canonical(PUBLISH, WithoutId(q.m))
  }

  /** Exactly when the content of a QoS 0 copy with an identifier comes through, for every suffix. */
  lemma ContentReadIff(q: Packets.Packet, rest: seq<byte>)
    requires Packets.PacketOk(q) && q.kind == Packets.Publish && Packets.BodySize(q) < 0x1_0000_0000 && Shifted(q.m)
    ensures ContentRead(q, rest) <==>
              Packets.BodySize(q) < VarInt.THREE_BYTES && Packets.Representable(q) && Coincides(q.m)
  {
    hide VarInt.Encode, VarInt.Size, Packets.FirstByte, EncBody, DecBody, CodecSize, PropertySize, MessageEntries,
      Packets.Decode, Canonical, Coincides, Packets.Representable, Shifted, SchemaOk, MessageOk, WithoutId;
    ShiftedOk(q.m);
    var body, size := Packets.BodyBytes(q), Packets.BodySize(q);
    var head := [Packets.FirstByte(q.headerType, q.m.flags)] + VarInt.Encode(size);
    assert Packets.Frame(q) + rest == head + (body + rest);
    Packets.DecodeFrame(q.headerType, q.m.flags, size, body + rest);
    if size < VarInt.THREE_BYTES {
      Packets.FrameSize(q);
      var cut := (body + rest)[..size];
      if Packets.Representable(q) {
        assert cut == body;
        ContentReadsIff(q.m);
      } else {
        BodyCount(PUBLISH, q.m.flags, cut);
      }
    }
  }

  lemma ShiftedOk(m: Message)
    requires Shifted(m)
    ensures SchemaOk(PUBLISH) && MessageOk(PUBLISH, m) && |m.head| == 2 && PUBLISH.payload != NoPayload
  {
  }

  /** A publish read above QoS 0 and routed at QoS 0 loses its identifier, and its content except by coincidence. */
  lemma DowngradedContentIff(src: seq<byte>, publish: Delivery.Publish, sub: Topics.Subscriber, id: u16,
                             q: Packets.Packet, rest: seq<byte>)
    requires Packets.PacketOk(q) && Packets.BodySize(q) < 0x1_0000_0000
    ensures && Packets.Decode(src).DecodedPacket? && Carries(Packets.Decode(src).p, publish)
            && publish.qos != AtMostOnce && sub.qos == AtMostOnce && Carries(q, Delivery.Copy(publish, sub, id)) ==>
              && !Packets.ReadBack(q, rest) && Shifted(q.m)
              && (ContentRead(q, rest) <==>
                    Packets.BodySize(q) < VarInt.THREE_BYTES && Packets.Representable(q) && Coincides(q.m))
  {
    hide Packets.Decode, Packets.ReadBack, Plain, ContentRead, Packets.Representable, Coincides, Packets.BodySize;
    DecodedHasId(src);
    if Carries(q, Delivery.Copy(publish, sub, id)) {
      CopyReadBackIff(publish, sub, id, q, rest);
      if QoSBits(q.m.flags) == 0 && q.m.head[1].Some? {
        CarriesShifted(q);
        ContentReadIff(q, rest);
      }
    }
  }

  lemma CarriesShifted(q: Packets.Packet)
    requires Packets.PacketOk(q) && q.kind == Packets.Publish && QoSBits(q.m.flags) == 0 && |q.m.head| == 2
    requires q.m.head[1].Some?
    ensures Shifted(q.m)
  {
    hide SchemaOk;
    Packets.SchemasOk(Packets.Publish);
    assert FieldOk(PUBLISH.head[0], q.m.head[0]) && FieldOk(PUBLISH.head[1], q.m.head[1]);
  }

  //
  // Copies without properties
  //

  predicate Bare(m: Message) {
    m.props == Defaults(PUBLISH.props) && m.user == []
  }

  lemma BareBytes(m: Message)
    requires Shifted(m) && Bare(m)
    ensures var n := m.head[1].value.n; TakenForProps(m) == [n / 0x100, n % 0x100, 0]
  {
    hide SchemaOk, Defaults, Entries;
    Packets.NothingPresent(PUBLISH.props, 0);
    assert PropertyBytes(PUBLISH, m) == [] && PropertySize(PUBLISH, m) == 0;
  }

  /** The bytes of the identifier, then the empty property length, as a variable byte integer. */
  lemma BareLength(h: byte, l: byte)
    ensures VarInt.Decode([h, l, 0]) ==
              if h < 0x80 then VarInt.Decoded(h, 1, [l, 0])
              else if l < 0x80 then VarInt.Decoded(h - 0x80 + 0x80 * l, 2, [0])
              else VarInt.Decoded(h - 0x80 + 0x80 * (l - 0x80), 3, [])
  {
    assert [h, l, 0][1..] == [l, 0] && [l, 0][1..] == [0] && [0][1..] == [];
  }

  /** Whatever property the low byte names, it is not absent any more. */
  lemma BareTurn(l: byte, length: nat)
    requires length > 0
    ensures var r := PropLoop(PUBLISH.props, Defaults(PUBLISH.props), [], [l, 0], 0, length);
            !(r.PropsParsed? && r.slots == Defaults(PUBLISH.props) && r.user == [] && r.rest == [])
  {
    hide IsPropertyId, Find;
    var props, slots := PUBLISH.props, Defaults(PUBLISH.props);
    assert [l, 0][1..] == [0] && [0][1..] == [];
    var i := Find(props, l);
    if i < |props| {
      var d := Dec(props[i].ty, [0]);
      if d.Parsed? {
        assert props[i].mode == Optional && slots[i] == None;
        assert d.rest == [] && slots[i := Some(d.v)][i] == Some(d.v);
      }
    }
  }

  lemma BareEmpty(slots: Slots, user: seq<Pair>, src: seq<byte>, length: nat)
    requires |slots| == |PUBLISH.props| && length > 0 && (src == [] || src[0] == 0)
    ensures PropLoop(PUBLISH.props, slots, user, src, 0, length).PropsFailed?
  {
  }

  lemma BareReads(h: byte, l: byte)
    ensures ReadsAs([h, l, 0], Defaults(PUBLISH.props)) <==> h == l == 0x80
  {
    hide PropTurn, VarInt.Decode, Defaults;
    BareLength(h, l);
    var v := VarInt.Decode([h, l, 0]);
    if v.value > 0 {
      if h < 0x80 {
        BareTurn(l, v.value);
      } else {
        BareEmpty(Defaults(PUBLISH.props), [], v.rest, v.value);
      }
    }
  }

  /** Without properties the content of the copy comes through for one identifier only: 32,896. */
  lemma BareIff(m: Message)
    requires Shifted(m) && Bare(m)
    ensures Coincides(m) <==> m.head[1].value.n == 0x8080
  {
    hide Defaults, SchemaOk, MessageOk, ReadsAs, TakenForProps;
    BareBytes(m);
    var n := m.head[1].value.n;
    BareReads(n / 0x100, n % 0x100);
  }

  //
  // A coincidence with properties
  //

  /** Subscription identifier 7 and packet identifier 0x040b: read as length 4, a first identifier and the real one. */
  lemma Coincidence(m: Message)
    requires Shifted(m) && m.head[1].value == Num(0x040b) && m.user == []
    requires m.props == Defaults(PUBLISH.props)[5 := Some(Num(7))]
    ensures Coincides(m)
  {
    hide SchemaOk, MessageOk, ReadsAs;
    SevenBytes(m);
    SevenReads();
  }

  lemma SevenBytes(m: Message)
    requires Shifted(m) && m.head[1].value == Num(0x040b) && m.user == []
    requires m.props == Defaults(PUBLISH.props)[5 := Some(Num(7))]
    ensures TakenForProps(m) == [4, 0x0b, 2, 0x0b, 7]
  {
    hide SchemaOk, Defaults, Entries;
    Prefixes.OneSet(PUBLISH.props, 5, Num(7), 0);
    var ws := [Entry(5, Num(7))];
    assert EntriesOk(PUBLISH.props, ws) && ws[1..] == [] && EntriesOk(PUBLISH.props, []);
    assert EncEntries(PUBLISH.props, []) == [] && EntriesSize(PUBLISH.props, []) == 0;
    assert EncEntry(PUBLISH.props, ws[0]) == [0x0b, 7];
    assert EncEntries(PUBLISH.props, ws) == [0x0b, 7] + [] && EncUser([]) == [];
    assert PropertyBytes(PUBLISH, m) == [0x0b, 7] && PropertySize(PUBLISH, m) == 2;
  }

  lemma SevenReads()
    ensures ReadsAs([4, 0x0b, 2, 0x0b, 7], Defaults(PUBLISH.props)[5 := Some(Num(7))])
  {
    hide Defaults, PropTurn, VarInt.Decode;
    var slots := Defaults(PUBLISH.props);
    FourLength();
    OneTurn(slots, 2, [0x0b, 7]);
    assert [0x0b, 2] + [0x0b, 7] == [0x0b, 2, 0x0b, 7] && [0x0b, 7] + [] == [0x0b, 7];
    OneTurn(slots[5 := Some(Num(2))], 7, []);
    assert slots[5 := Some(Num(2))][5 := Some(Num(7))] == slots[5 := Some(Num(7))];
  }

  lemma FourLength()
    ensures VarInt.Decode([4, 0x0b, 2, 0x0b, 7]) == VarInt.Decoded(4, 1, [0x0b, 2, 0x0b, 7])
  {
    assert [4, 0x0b, 2, 0x0b, 7][1..] == [0x0b, 2, 0x0b, 7];
  }

  lemma OneTurn(slots: Slots, n: byte, rest: seq<byte>)
    requires |slots| == |PUBLISH.props| && n < 0x80
    ensures PropTurn(PUBLISH.props, slots, [], [0x0b, n] + rest) == Turn(slots[5 := Some(Num(n))], [], rest, 2)
  {
    hide VarInt.Turn;
    var src := [0x0b, n] + rest;
    Packets.PublishProps();
    FindAt(PUBLISH.props, 5);
    assert src[1..] == [n] + rest;
    assert VarInt.Encode(n) == [n];
    VarInt.RoundTrip(n, rest);
  }
}
