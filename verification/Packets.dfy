/**
  The packet structs of vaux-mqtt as schemas, and the framing of `codec::decode`: fixed header, remaining length, body.
 */
module Packets {
  import opened Mqtt
  import VarInt
  import opened Codec
  import opened Body

  datatype PacketType =
    | Connect | ConnAck | Publish | PubAck | PubRec | PubRel | PubComp | Subscribe | SubAck | Unsubscribe | UnsubAck
    | PingReq | PingResp | Disconnect | Auth

  //
  // Schemas
  //

  const PACKET_ID := Field(U16, Mandatory, Some(Num(0)))

  const PUBLISH := Schema(
    [Field(Text, Mandatory, Some(Data([]))), Field(U16, WithQoS, None)], [], false,
    [Prop(0x02, U32, Optional),         // message_expiry
     Prop(0x01, Format, Optional),      // payload_format
     Prop(0x23, U16, Optional),         // topic_alias
     Prop(0x08, Text, Optional),        // response_topic
     Prop(0x09, Binary, SkipEmpty),     // correlation_data
     Prop(0x0b, Variable, Optional),    // subscription_identifiers
     Prop(0x03, Text, Optional)],       // content_type
    Remaining)

  const SUBSCRIBE := Schema(
    [PACKET_ID], [], false,
    [Prop(0x0b, Variable, Optional)],   // subscription_id
    ListOf([Field(Text, Mandatory, None), Field(U8, Mandatory, None)]))

  const SUBACK := Schema(
    [PACKET_ID], [], false,
    [Prop(0x1f, Text, Optional)],       // reason
    ListOf([Field(ReasonCode, Mandatory, None)]))

  const UNSUBSCRIBE := Schema([PACKET_ID], [], false, [], ListOf([Field(Text, Mandatory, None)]))

  const UNSUBACK := Schema(
    [PACKET_ID], [], false,
    [Prop(0x1f, Text, Required)],       // reason
    ListOf([Field(ReasonCode, Mandatory, None)]))

  const DISCONNECT := Schema(
    [], [Field(ReasonCode, Mandatory, Some(Num(0)))], true,
    [Prop(0x11, U32, Optional),         // session_expiry_interval
     Prop(0x1f, Text, Optional),        // reason_string
     Prop(0x1c, Text, Optional)],       // server_reference
    NoPayload)

  /** PUBACK, PUBREC, PUBREL and PUBCOMP */
  const PUBRESP := Schema(
    [PACKET_ID], [Field(ReasonCode, MayBeAbsent, None)], true,
    [Prop(0x1f, Text, Optional)],       // reason_desc
    NoPayload)

  predicate IsPubResp(t: PacketType) {
    t.PubAck? || t.PubRec? || t.PubRel? || t.PubComp?
  }

  predicate IsPing(t: PacketType) {
    t.PingReq? || t.PingResp?
  }

  predicate HasSchema(t: PacketType) {
    IsPubResp(t) || t.Publish? || t.Subscribe? || t.SubAck? || t.Unsubscribe? || t.UnsubAck? || t.Disconnect?
  }

  function SchemaOf(t: PacketType): Schema
    requires HasSchema(t)
  {
    match t
    case Publish => PUBLISH
    case Subscribe => SUBSCRIBE
    case SubAck => SUBACK
    case Unsubscribe => UNSUBSCRIBE
    case UnsubAck => UNSUBACK
    case Disconnect => DISCONNECT
    case _ => PUBRESP
  }

  lemma SchemasOk(t: PacketType)
    requires HasSchema(t)
    ensures SchemaOk(SchemaOf(t))
  {
    hide PropsWellFormed;
    PublishProps();
    OtherProps();
  }

  lemma OtherProps()
    ensures PropsWellFormed(SUBSCRIBE.props) && PropsWellFormed(SUBACK.props) && PropsWellFormed(UNSUBSCRIBE.props)
    ensures PropsWellFormed(UNSUBACK.props) && PropsWellFormed(DISCONNECT.props) && PropsWellFormed(PUBRESP.props)
  {
  }

  lemma PublishProps()
    ensures PropsWellFormed(PUBLISH.props)
  {
    var ps := PUBLISH.props;
    assert ps[0].id == 0x02 && ps[1].id == 0x01 && ps[2].id == 0x23 && ps[3].id == 0x08 && ps[4].id == 0x09
           && ps[5].id == 0x0b && ps[6].id == 0x03;
  }

  //
  // Fixed header
  //

  function TypeBits(t: PacketType): nat {
    match t
    case Connect => 0x10 case ConnAck => 0x20 case Publish => 0x30 case PubAck => 0x40
    case PubRec => 0x50 case PubRel => 0x60 case PubComp => 0x70 case Subscribe => 0x80
    case SubAck => 0x90 case Unsubscribe => 0xa0 case UnsubAck => 0xb0 case PingReq => 0xc0
    case PingResp => 0xd0 case Disconnect => 0xe0 case Auth => 0xf0
  }

  function TypeOf(b: byte): PacketType {
    var bits := b - b % 0x10;
    if bits == 0x10 then Connect else if bits == 0x20 then ConnAck else if bits == 0x30 then Publish
    else if bits == 0x40 then PubAck else if bits == 0x50 then PubRec else if bits == 0x60 then PubRel
    else if bits == 0x70 then PubComp else if bits == 0x80 then Subscribe else if bits == 0x90 then SubAck
    else if bits == 0xa0 then Unsubscribe else if bits == 0xb0 then UnsubAck else if bits == 0xc0 then PingReq
    else if bits == 0xd0 then PingResp else if bits == 0xe0 then Disconnect else Auth
  }

  /** `FixedHeader::new` */
  function ReservedFlags(t: PacketType): nat {
    if t.PubRel? || t.Subscribe? || t.Unsubscribe? then 2 else 0
  }

  predicate FlagsOk(t: PacketType, flags: nat) {
    t.Publish? || flags == ReservedFlags(t)
  }

  function FirstByte(t: PacketType, flags: nat): byte
    requires flags < 0x10
  {
    TypeBits(t) + flags
  }

  lemma FirstByteRead(t: PacketType, flags: nat)
    requires flags < 0x10
    ensures FirstByte(t, flags) % 0x10 == flags && TypeOf(FirstByte(t, flags)) == t
  {
  }

  //
  // Packets
  //

  /** `kind` is the enum variant, `headerType` the packet type in the struct's own fixed header. */
  datatype Packet = Packet(kind: PacketType, headerType: PacketType, m: Message)

  const EMPTY := Message(0, [], [], [], [], Nothing)

  /** A packet the caller can hand to `encode` and that encodes without error. */
  predicate PacketOk(p: Packet) {
    && p.headerType == p.kind
    && p.m.flags < 0x10 && FlagsOk(p.kind, p.m.flags) && QoSBits(p.m.flags) != 3
    && (IsPing(p.kind) || HasSchema(p.kind))
    && (IsPing(p.kind) ==> p.m == EMPTY)
    && (HasSchema(p.kind) ==> (SchemasOk(p.kind); MessageOk(SchemaOf(p.kind), p.m)))
  }

  /** The remaining length written into the fixed header. */
  function BodySize(p: Packet): nat
    requires PacketOk(p)
  {
    if IsPing(p.kind) then 0 else SchemasOk(p.kind); CodecSize(SchemaOf(p.kind), p.m)
  }

  function BodyBytes(p: Packet): seq<byte>
    requires PacketOk(p)
  {
    if IsPing(p.kind) then [] else SchemasOk(p.kind); EncBody(SchemaOf(p.kind), p.m)
  }

  function Frame(p: Packet): seq<byte>
    requires PacketOk(p)
  {
    [FirstByte(p.headerType, p.m.flags)] + VarInt.Encode(BodySize(p)) + BodyBytes(p)
  }

  //
  // Decoding
  //

  datatype DecodeResult = DecodedPacket(p: Packet, len: nat) | DecodeFailed(error: CodecError)

  /** A response keeps the derived default header: type CONNECT, no flags. */
  function Stamp(t: PacketType, m: Message): Packet {
    if IsPubResp(t) then Packet(t, Connect, m.(flags := 0)) else Packet(t, t, m)
  }

  /** `for idx in 0..=3`: the remaining length is complete, or runs over four bytes. */
  function LengthComplete(src: seq<byte>, idx: nat): bool
    decreases 4 - idx
  {
    if idx > 3 then true else if |src| <= idx then false else src[idx] < 0x80 || LengthComplete(src, idx + 1)
  }

  function Decode(src: seq<byte>): DecodeResult {
    if |src| < 2 then DecodeFailed(InsufficientData)
    else
      var flags := src[0] % 0x10;
      var t := TypeOf(src[0]);
      if !FlagsOk(t, flags) then DecodeFailed(MalformedPacket)
      else if !LengthComplete(src[1..], 0) then DecodeFailed(InsufficientData)
      else
        match VarInt.Decode(src[1..])
        case Failed(e) => DecodeFailed(e)
        case Decoded(n, k, rest) =>
          if |rest| < n then DecodeFailed(InsufficientData) else DecodeKind(t, flags, rest[..n], 1 + k)
  }

  /** The body, by packet type; CONNECT and CONNACK are not modelled. */
  function DecodeKind(t: PacketType, flags: nat, body: seq<byte>, read: nat): DecodeResult {
    if IsPing(t) then DecodedPacket(Packet(t, t, EMPTY), read)
    else if !HasSchema(t) then DecodeFailed(MalformedPacket)
    else
      SchemasOk(t);
      match DecBody(SchemaOf(t), flags, body)
      case BodyFailed(e) => DecodeFailed(e)
      case BodyParsed(m, size) => DecodedPacket(Stamp(t, m), read + size)
  }

  method DecodePacket(bytes: seq<byte>) returns (r: DecodeResult)
    ensures r == Decode(bytes)
  {
    hide DecodeKind, VarInt.Decode, TypeOf;
    if |bytes| < 2 {
      return DecodeFailed(InsufficientData);
    }
    var flags, t, src := bytes[0] % 0x10, TypeOf(bytes[0]), bytes[1..];
    if !FlagsOk(t, flags) {
      return DecodeFailed(MalformedPacket);
    }
    var idx := 0;
    while idx <= 3
      invariant 0 <= idx <= 4
      invariant LengthComplete(src, idx) == LengthComplete(src, 0)
    {
      if |src| <= idx {
        return DecodeFailed(InsufficientData);
      }
      if src[idx] < 0x80 {
        break;
      }
      idx := idx + 1;
    }
    var length := VarInt.DecodeLoop(src);
    if length.Failed? {
      return DecodeFailed(length.error);
    }
    if |length.rest| < length.value {
      return DecodeFailed(InsufficientData);
    }
    r := DecodeKind(t, flags, length.rest[..length.value], 1 + length.size);
  }

  //
  // Sizes
  //

  /** No variable byte integer of the packet needs five bytes. */
  predicate Representable(p: Packet)
    requires PacketOk(p)
  {
    IsPing(p.kind) || (SchemasOk(p.kind); AllSizable(SchemaOf(p.kind).props, MessageEntries(SchemaOf(p.kind), p.m)))
  }

  lemma PropertySizeBelow(s: Schema, m: Message)
    requires SchemaOk(s) && MessageOk(s, m)
    ensures PropertySize(s, m) <= CodecSize(s, m)
  {
    hide PropertySize, FieldsSize, PayloadSize, VarInt.Size;
  }

  /** The size written ahead of the packet is that of what follows, iff every variable byte integer is representable. */
  lemma FrameSize(p: Packet)
    requires PacketOk(p) && BodySize(p) < VarInt.FOUR_BYTES
    ensures |BodyBytes(p)| == BodySize(p) <==> Representable(p)
    ensures BodySize(p) <= |BodyBytes(p)| <= BodySize(p) + 1
    ensures |Frame(p)| == 1 + VarInt.Size(BodySize(p)) + |BodyBytes(p)|
  {
    hide CodecSize, EncBody, VarInt.Encode, VarInt.Size, MessageEntries, PropertySize, PropertyBytes, AllSizable,
      SchemaOf;
    VarInt.EncodeLength(BodySize(p));
    if HasSchema(p.kind) {
      SchemasOk(p.kind);
      PropertySizeBelow(SchemaOf(p.kind), p.m);
      SizeExact(SchemaOf(p.kind), p.m);
    }
  }

  //
  // Framing
  //

  lemma {:induction false} LengthSeen(v: nat, rest: seq<byte>, idx: nat)
    requires idx < |VarInt.Encode(v)|
    ensures LengthComplete(VarInt.Encode(v) + rest, idx)
    decreases |VarInt.Encode(v)| - idx
  {
    var bytes := VarInt.Encode(v);
    VarInt.EncodeForm(v);
    if idx <= 3 && idx < |bytes| - 1 {
      LengthSeen(v, rest, idx + 1);
    }
  }

  lemma {:induction false} LengthCut(bytes: seq<byte>, idx: nat)
    requires idx <= |bytes| <= 3 && forall i :: 0 <= i < |bytes| ==> bytes[i] >= 0x80
    ensures !LengthComplete(bytes, idx)
    decreases |bytes| - idx
  {
    if idx < |bytes| {
      LengthCut(bytes, idx + 1);
    }
  }

  /** Decoding a frame: the header and length are taken off, the body goes to its reader. */
  lemma DecodeFrame(t: PacketType, flags: nat, n: nat, after: seq<byte>)
    requires flags < 0x10 && FlagsOk(t, flags) && n < 0x1_0000_0000
    ensures var src := [FirstByte(t, flags)] + VarInt.Encode(n) + after;
            Decode(src) ==
            if n >= VarInt.THREE_BYTES then DecodeFailed(MalformedPacket)
            else if |after| < n then DecodeFailed(InsufficientData)
            else DecodeKind(t, flags, after[..n], 1 + VarInt.Size(n))
  {
    hide DecodeKind, VarInt.Decode, VarInt.Encode, VarInt.Size, TypeOf, FirstByte, LengthComplete, FlagsOk;
    var src := [FirstByte(t, flags)] + VarInt.Encode(n) + after;
    FirstByteRead(t, flags);
    assert src[0] == FirstByte(t, flags) && src[1..] == VarInt.Encode(n) + after;
    LengthSeen(n, after, 0);
    VarInt.RoundTrip(n, after);
  }

  /** Anything shorter than the length announced asks for more bytes. */
  lemma PrefixInsufficient(p: Packet, n: nat)
    requires PacketOk(p) && BodySize(p) < VarInt.THREE_BYTES
    requires 0 < n < 1 + VarInt.Size(BodySize(p)) + BodySize(p)
    ensures n <= |Frame(p)| && Decode(Frame(p)[..n]) == DecodeFailed(InsufficientData)
  {
    hide VarInt.Encode, VarInt.Size, FirstByte, FlagsOk, BodySize, BodyBytes, Representable, Decode;
    FrameSize(p);
    var first, length, body := FirstByte(p.headerType, p.m.flags), VarInt.Encode(BodySize(p)), BodyBytes(p);
    var src := Frame(p)[..n];
    VarInt.EncodeLength(BodySize(p));
    if n >= 1 + |length| {
      assert src == [first] + length + body[..n - 1 - |length|];
      DecodeFrame(p.headerType, p.m.flags, BodySize(p), body[..n - 1 - |length|]);
    } else {
      assert src == [first] + length[..n - 1];
      HeaderInsufficient(p.headerType, p.m.flags, BodySize(p), n - 1);
    }
  }

  lemma HeaderInsufficient(t: PacketType, flags: nat, v: nat, n: nat)
    requires flags < 0x10 && FlagsOk(t, flags) && v < VarInt.THREE_BYTES && n < |VarInt.Encode(v)|
    ensures Decode([FirstByte(t, flags)] + VarInt.Encode(v)[..n]) == DecodeFailed(InsufficientData)
  {
    hide DecodeKind, VarInt.Decode, VarInt.Encode, VarInt.Size, TypeOf, FirstByte, LengthComplete, FlagsOk;
    var cut := VarInt.Encode(v)[..n];
    var src := [FirstByte(t, flags)] + cut;
    FirstByteRead(t, flags);
    VarInt.EncodeLength(v);
    VarInt.EncodeForm(v);
    assert src[1..] == cut;
    LengthCut(cut, 0);
  }

  //
  // Round trip
  //

  /** What a caller can check: the packet will be read back from its own bytes. */
  ghost predicate CanRestore(p: Packet)
    requires PacketOk(p)
  {
    || IsPing(p.kind)
    || (BodySize(p) < VarInt.THREE_BYTES && (SchemasOk(p.kind); Restorable(SchemaOf(p.kind), p.m)))
  }

  /** The packet the reader builds. */
  function Restored(p: Packet): Packet
    requires PacketOk(p)
  {
    if IsPing(p.kind) then p else SchemasOk(p.kind); Stamp(p.kind, Normal(SchemaOf(p.kind), p.m))
  }

  lemma RestorableSizable(p: Packet)
    requires PacketOk(p) && CanRestore(p)
    ensures Representable(p) && BodySize(p) < VarInt.THREE_BYTES
  {
    if HasSchema(p.kind) {
      SchemasOk(p.kind);
      ReadableSizable(SchemaOf(p.kind).props, MessageEntries(SchemaOf(p.kind), p.m));
    }
  }

  /** The round trip, whatever follows the frame. */
  lemma RoundTrip(p: Packet, rest: seq<byte>)
    requires PacketOk(p) && CanRestore(p)
    ensures Decode(Frame(p) + rest) == DecodedPacket(Restored(p), |Frame(p)|)
  {
    hide VarInt.Encode, VarInt.Size, FirstByte, EncBody, DecBody, CodecSize, SchemaOf, PropertySize, MessageEntries,
      Normal, Decode;
    RestorableSizable(p);
    FrameSize(p);
    var body := BodyBytes(p);
    assert Frame(p) + rest == [FirstByte(p.headerType, p.m.flags)] + VarInt.Encode(BodySize(p)) + (body + rest);
    DecodeFrame(p.headerType, p.m.flags, BodySize(p), body + rest);
    assert (body + rest)[..BodySize(p)] == body;
    if HasSchema(p.kind) {
      SchemasOk(p.kind);
      PropertySizeBelow(SchemaOf(p.kind), p.m);
      BodyRoundTrip(SchemaOf(p.kind), p.m);
    }
  }

  /** Equal up to the fixed header of a response, an absent payload and an absent reason. */
  ghost predicate Same(p: Packet, q: Packet)
    requires PacketOk(p)
  {
    && q.kind == p.kind
    && (IsPubResp(p.kind) || (q.headerType == p.headerType && q.m.flags == p.m.flags))
    && (if IsPing(p.kind) then q.m == p.m
        else (SchemasOk(p.kind); Canonical(SchemaOf(p.kind), q.m.(flags := p.m.flags)) ==
          Canonical(SchemaOf(p.kind), p.m)))
  }

  ghost predicate ReadBack(p: Packet, rest: seq<byte>)
    requires PacketOk(p)
  {
    var r := Decode(Frame(p) + rest);
    r.DecodedPacket? && Same(p, r.p) && r.len == |Frame(p)|
  }

  lemma RestoredSame(p: Packet)
    requires PacketOk(p)
    ensures Same(p, Restored(p))
  {
    if HasSchema(p.kind) {
      SchemasOk(p.kind);
      NormalSame(SchemaOf(p.kind), p.m);
    }
  }

  lemma FlagsCarried(s: Schema, flags: nat, src: seq<byte>)
    requires SchemaOk(s)
    ensures var r := DecBody(s, flags, src); r.BodyParsed? ==> r.m.flags == flags
  {
    hide DecFields, VarInt.Decode, PropLoop, DecPayload;
  }

  /** Only packets that end in a payload carry a variable byte integer. */
  lemma UnrepresentableHasPayload(p: Packet)
    requires PacketOk(p) && !Representable(p)
    ensures HasSchema(p.kind) && SchemaOf(p.kind).payload != NoPayload
  {
    SchemasOk(p.kind);
    var s := SchemaOf(p.kind);
    var ws := MessageEntries(s, p.m);
    EntriesAre(s.props, p.m.props, 0);
    var j :| 0 <= j < |ws| && !EntrySizable(s.props, ws[j]);
    assert EntryOk(s.props, ws[j]) && s.props[ws[j].i].ty == Variable;
  }

  /**
    Exactly when a packet survives the trip, for every packet that encodes and every suffix: the body is below 2^21
    bytes; a Publish has an identifier iff its QoS is above zero; a response with properties gives a reason; there are
    no user properties; and the subscription identifier is below 2^21.
   */
  lemma RoundTripIff(p: Packet, rest: seq<byte>)
    requires PacketOk(p) && BodySize(p) < 0x1_0000_0000
    ensures ReadBack(p, rest) <==> CanRestore(p)
  {
    hide VarInt.Encode, VarInt.Size, FirstByte, EncBody, DecBody, CodecSize, SchemaOf, PropertySize, MessageEntries,
      Normal, Decode, Canonical, Restorable, Representable;
    if CanRestore(p) {
      RoundTrip(p, rest);
      RestoredSame(p);
    } else {
      var s := SchemaOf(p.kind);
      var body := BodyBytes(p);
      SchemasOk(p.kind);
      assert Frame(p) + rest == [FirstByte(p.headerType, p.m.flags)] + VarInt.Encode(BodySize(p)) + (body + rest);
      DecodeFrame(p.headerType, p.m.flags, BodySize(p), body + rest);
      if BodySize(p) < VarInt.THREE_BYTES {
        FrameSize(p);
        PropertySizeBelow(s, p.m);
        var cut := (body + rest)[..BodySize(p)];
        FlagsCarried(s, p.m.flags, cut);
        if Representable(p) {
          assert cut == body;
          ReadsBackIff(s, p.m);
        } else {
          UnrepresentableHasPayload(p);
          BodyCount(s, p.m.flags, cut);
        }
      }
    }
  }

  /** The condition, spelled out for PUBLISH. */
  lemma PublishCondition(p: Packet)
    requires PacketOk(p) && p.kind == Publish
    ensures CanRestore(p) <==>
            && BodySize(p) < VarInt.THREE_BYTES
            && (p.m.head[1].Some? <==> QoSBits(p.m.flags) > 0)
            && p.m.user == []
            && (p.m.props[5].Some? ==> p.m.props[5].value.n < VarInt.THREE_BYTES)
  {
    hide CodecSize, AllReadable, Entries;
    SchemasOk(Publish);
    assert FieldOk(PUBLISH.head[0], p.m.head[0]) && PropOk(PUBLISH.props[5], p.m.props[5]);
    OnlyVariable(PUBLISH.props, p.m.props, 5);
  }

  /** When one optional property is a variable byte integer, it alone decides. */
  lemma OnlyVariable(props: seq<Prop>, slots: Slots, i: nat)
    requires PropsOk(props, slots) && i < |props| && props[i].mode == Optional
    requires forall j :: 0 <= j < |props| && j != i ==> props[j].ty != Variable
    ensures AllReadable(props, Entries(props, slots, 0)) <==> (slots[i].Some? ==> Readable(props[i].ty, slots[i].value))
  {
    var ws := Entries(props, slots, 0);
    EntriesAre(props, slots, 0);
    if slots[i].Some? {
      assert Entry(i, slots[i].value) in ws;
      var j :| 0 <= j < |ws| && ws[j] == Entry(i, slots[i].value);
      assert AllReadable(props, ws) ==> EntryReadable(props, ws[j]);
    }
    forall j | 0 <= j < |ws| && (slots[i].Some? ==> Readable(props[i].ty, slots[i].value))
      ensures EntryReadable(props, ws[j])
    {
      assert ws[j] in ws;
    }
  }

  /** The condition, spelled out for the four publish responses: a reason description needs a reason. */
  lemma PubRespCondition(p: Packet)
    requires PacketOk(p) && IsPubResp(p.kind)
    ensures CanRestore(p) <==>
            BodySize(p) < VarInt.THREE_BYTES && p.m.user == [] && (p.m.tail[0].Some? || p.m.props[0].None?)
  {
    hide CodecSize, EncBody;
    SchemasOk(p.kind);
    var ws := MessageEntries(PUBRESP, p.m);
    EntriesAre(PUBRESP.props, p.m.props, 0);
    assert FieldOk(PACKET_ID, p.m.head[0]);
    forall j | 0 <= j < |ws| ensures EntryReadable(PUBRESP.props, ws[j]) {
      assert EntryOk(PUBRESP.props, ws[j]);
    }
    UserSizeExact(p.m.user);
    var w := if p.m.props[0].Some? then Entry(0, p.m.props[0].value) else Entry(1, Num(0));
    assert Present(PUBRESP.props[0], p.m.props[0]) <==> p.m.props[0].Some?;
    assert p.m.props[0].Some? <==> w in ws;
  }

  /** A PUBACK with a reason description and no reason is not read back. */
  lemma DescriptionWithoutReason()
    ensures var p := Packet(PubAck, PubAck, Message(0, [Some(Num(1))], [None], [Some(Data([]))], [], Nothing));
            PacketOk(p) && !ReadBack(p, [])
  {
    hide Decode, Restorable, Frame;
    var m := Message(0, [Some(Num(1))], [None], [Some(Data([]))], [], Nothing);
    var p := Packet(PubAck, PubAck, m);
    PubRespCondition(p);
    assert Entries(PUBRESP.props, m.props, 1) == [];
    assert Entries(PUBRESP.props, m.props, 0) == [Entry(0, Data([]))];
    assert PropertySize(PUBRESP, m) == 3;
    assert BodySize(p) == 6;
    RoundTripIff(p, []);
  }

  /** The least PUBLISH with a user property. */
  const TAGGED := Message(0, [Some(Data([])), None], [], Defaults(PUBLISH.props), [Pair([], [])], Raw(None))

  lemma DefaultsOk(props: seq<Prop>)
    requires PropsWellFormed(props)
    ensures PropsOk(props, Defaults(props))
  {
  }

  lemma OnlyUser(s: Schema, m: Message)
    requires MessageOk(s, m) && Entries(s.props, m.props, 0) == []
    ensures PropertySize(s, m) == UserSize(m.user)
  {
  }

  lemma TaggedOk()
    ensures MessageOk(PUBLISH, TAGGED) && PropertySize(PUBLISH, TAGGED) == 5
  {
    hide PropsOk, Defaults, Entries, PropsWellFormed, PropertySize;
    PublishProps();
    DefaultsOk(PUBLISH.props);
    NothingPresent(PUBLISH.props, 0);
    OnlyUser(PUBLISH, TAGGED);
    assert UserSize(TAGGED.user[1..]) == 0;
  }

  lemma TaggedSize()
    ensures PacketOk(Packet(Publish, Publish, TAGGED)) && BodySize(Packet(Publish, Publish, TAGGED)) == 8
  {
    hide PropertySize, EncBody, MessageOk;
    SchemasOk(Publish);
    TaggedOk();
  }

  /** The packet reads back but for its user properties, and all of these are collected. */
  ghost predicate UserCollected(p: Packet)
    requires PacketOk(p)
  {
    && HasSchema(p.kind) && BodySize(p) < VarInt.THREE_BYTES && p.m.user != [] && Kept(p.m.user, 0) == |p.m.user|
    && (SchemasOk(p.kind);
        && Agree(SchemaOf(p.kind).head, p.m.head, p.m.flags) && TailGiven(SchemaOf(p.kind), p.m)
        && AllReadable(SchemaOf(p.kind).props, MessageEntries(SchemaOf(p.kind), p.m)))
  }

  /** Such a packet is read back, user properties included, with a length four too high for each of them. */
  lemma UserPropertiesOvercounted(p: Packet, rest: seq<byte>)
    requires PacketOk(p) && UserCollected(p)
    ensures Decode(Frame(p) + rest) == DecodedPacket(Restored(p), |Frame(p)| + 4 * |p.m.user|)
  {
    hide VarInt.Encode, VarInt.Size, FirstByte, EncBody, DecBody, CodecSize, SchemaOf, PropertySize, MessageEntries,
      Normal, Decode, Kept, AllSizable, AllReadable;
    SchemasOk(p.kind);
    var s, body := SchemaOf(p.kind), BodyBytes(p);
    ReadableSizable(s.props, MessageEntries(s, p.m));
    FrameSize(p);
    assert Frame(p) + rest == [FirstByte(p.headerType, p.m.flags)] + VarInt.Encode(BodySize(p)) + (body + rest);
    DecodeFrame(p.headerType, p.m.flags, BodySize(p), body + rest);
    assert (body + rest)[..BodySize(p)] == body;
    PropertySizeBelow(s, p.m);
    BodyUserKept(s, p.m);
  }

  /** The least PUBLISH with a user property: read back as it is, with a length of fourteen for its ten bytes. */
  lemma UserPropertyOvercounted(rest: seq<byte>)
    ensures var p := Packet(Publish, Publish, TAGGED);
            && PacketOk(p) && |Frame(p)| == 10
            && Decode(Frame(p) + rest) == DecodedPacket(Packet(Publish, Publish, TAGGED.(payload := Raw(Some([])))), 14)
  {
    var p := Packet(Publish, Publish, TAGGED);
    TaggedSize();
    TaggedOk();
    FewKept(TAGGED.user);
    SchemasOk(Publish);
    TaggedCollected();
    hide PacketOk, BodySize, Frame, Decode, UserCollected, BodyBytes, Representable;
    FrameSize(p);
    UserPropertiesOvercounted(p, rest);
  }

  lemma TaggedCollected()
    ensures PacketOk(Packet(Publish, Publish, TAGGED)) && UserCollected(Packet(Publish, Publish, TAGGED))
    ensures Representable(Packet(Publish, Publish, TAGGED))
    ensures Restored(Packet(Publish, Publish, TAGGED)) == Packet(Publish, Publish, TAGGED.(payload := Raw(Some([]))))
  {
    hide PropertySize, EncBody, MessageOk, CodecSize, AllReadable, AllSizable, Entries, Defaults, Agree, Kept, SchemaOk;
    TaggedSize();
    TaggedOk();
    TaggedPlain();
    SchemasOk(Publish);
  }

  lemma TaggedPlain()
    requires MessageOk(PUBLISH, TAGGED)
    ensures Agree(PUBLISH.head, TAGGED.head, TAGGED.flags) && TailGiven(PUBLISH, TAGGED)
    ensures Kept(TAGGED.user, 0) == |TAGGED.user|
    ensures AllReadable(PUBLISH.props, MessageEntries(PUBLISH, TAGGED))
    ensures AllSizable(PUBLISH.props, MessageEntries(PUBLISH, TAGGED))
  {
    hide Defaults, PropsOk, Entries;
    FewKept(TAGGED.user);
    NothingPresent(PUBLISH.props, 0);
  }

  /** Optional properties are absent from a fresh packet. */
  lemma {:induction false} NothingPresent(props: seq<Prop>, k: nat)
    requires k <= |props| && forall i :: 0 <= i < |props| ==> props[i].mode != Required
    ensures Entries(props, Defaults(props), k) == []
    decreases |props| - k
  {
    if k < |props| {
      NothingPresent(props, k + 1);
    }
  }
}
