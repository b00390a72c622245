/**
  What the reader makes of a frame that is cut short. It asks for more bytes, with one exception: the generated size
  of a packet is one short when a subscription identifier needs five bytes, so all but the last byte of such a frame
  pass for a whole one.
 */
module Prefixes {
  import opened Mqtt
  import opened Codec
  import opened Body
  import opened Packets
  import VarInt

  /** Every strict non-empty prefix of the frame makes the reader ask for more. */
  ghost predicate AsksForMore(p: Packet)
    requires PacketOk(p)
  {
    forall n :: 0 < n < |Frame(p)| ==> Decode(Frame(p)[..n]) == DecodeFailed(InsufficientData)
  }

  /** The integer that needs five bytes ends the body: no property, user property or payload comes after it. */
  predicate OverlongLast(s: Schema, m: Message)
    requires SchemaOk(s) && MessageOk(s, m)
  {
    var ws := MessageEntries(s, m);
    ws != [] && !EntrySizable(s.props, ws[|ws| - 1]) && m.user == [] && EncPayload(s.payload, m.payload) == []
  }

  //
  // The body without its last byte
  //

  /** Four continuation bytes and nothing more. */
  lemma CutInteger(v: nat)
    requires VarInt.FOUR_BYTES <= v < 0x1_0000_0000
    ensures |VarInt.Encode(v)| == 5 && VarInt.Decode(VarInt.Encode(v)[..4]) == VarInt.Failed(InsufficientData)
  {
    VarInt.EncodeLength(v);
    VarInt.EncodeForm(v);
    hide VarInt.Encode;
    var src := VarInt.Encode(v)[..4];
    assert src[1..][0] == src[1] && src[1..][1..][0] == src[2] && src[1..][1..][1..][0] == src[3];
  }

  lemma {:induction false} EncConcat(props: seq<Prop>, a: seq<Entry>, b: seq<Entry>)
    requires EntriesOk(props, a) && EntriesOk(props, b)
    ensures EntriesOk(props, a + b) && EncEntries(props, a + b) == EncEntries(props, a) + EncEntries(props, b)
    ensures EntriesSize(props, a + b) == EntriesSize(props, a) + EntriesSize(props, b)
    decreases a
  {
    hide EncEntry, EntryOk;
    if a == [] {
      assert a + b == b;
    } else {
      assert EntriesOk(props, a[1..]) && EntryOk(props, a[0]);
      EncConcat(props, a[1..], b);
      assert (a + b)[1..] == a[1..] + b && (a + b)[0] == a[0];
      assert EntriesOk(props, a + b) by {
        forall j | 0 <= j < |a + b| ensures EntryOk(props, (a + b)[j]) {
          assert (a + b)[j] == if j < |a| then a[j] else b[j - |a|];
        }
      }
      assert EncEntry(props, a[0]) + (EncEntries(props, a[1..]) + EncEntries(props, b)) ==
             EncEntry(props, a[0]) + EncEntries(props, a[1..]) + EncEntries(props, b);
    }
  }

  /** Only one entry of a message is a variable byte integer. */
  lemma OthersReadable(s: Schema, m: Message, j: nat)
    requires SchemaOk(s) && MessageOk(s, m) && j < |MessageEntries(s, m)|
    requires !EntrySizable(s.props, MessageEntries(s, m)[j])
    ensures forall i :: 0 <= i < |MessageEntries(s, m)| && i != j ==> EntryReadable(s.props, MessageEntries(s, m)[i])
  {
    hide Entries;
    var ws := MessageEntries(s, m);
    EntriesAre(s.props, m.props, 0);
    assert EntryOk(s.props, ws[j]);
    forall i | 0 <= i < |ws| && i != j ensures EntryReadable(s.props, ws[i]) {
      assert EntryOk(s.props, ws[i]) && ws[i].i != ws[j].i;
    }
  }

  /** The entry alone, without its last byte. */
  lemma TurnOnCut(props: seq<Prop>, slots: Slots, user: seq<Pair>, w: Entry)
    requires PropsWellFormed(props) && |slots| == |props| && EntryOk(props, w) && !EntrySizable(props, w)
    ensures var bytes := EncEntry(props, w);
            PropTurn(props, slots, user, bytes[..|bytes| - 1]) == TurnFailed(InsufficientData)
  {
    hide VarInt.Decode, VarInt.Encode;
    var bytes := EncEntry(props, w);
    CutInteger(w.v.n);
    FindAt(props, w.i);
    assert bytes[..|bytes| - 1][1..] == VarInt.Encode(w.v.n)[..4];
  }

  /** The property loop over a block that has lost its last byte, when the overlong integer ends it. */
  lemma LoopLast(s: Schema, ws: seq<Entry>)
    requires SchemaOk(s) && EntriesOk(s.props, ws) && ws != [] && !EntrySizable(s.props, ws[|ws| - 1])
    requires AllReadable(s.props, ws[..|ws| - 1])
    ensures var block := EncEntries(s.props, ws);
            |block| > 0 && PropLoop(s.props, Defaults(s.props), [], block[..|block| - 1], 0,
              EntriesSize(s.props, ws)) ==
              PropsFailed(InsufficientData)
  {
    hide PropTurn, AllReadable, EntrySizable, EncEntry, EncEntries, EntriesSize, Apply, EntriesOk, SchemaOk;
    var init, last := ws[..|ws| - 1], ws[|ws| - 1];
    EncLast(s.props, ws);
    var bytes, block := EncEntry(s.props, last), EncEntries(s.props, ws);
    assert block[..|block| - 1] == EncEntries(s.props, init) + bytes[..|bytes| - 1];
    SchemaProps(s);
    LoopOverEntries(s.props, Defaults(s.props), [], init, bytes[..|bytes| - 1], 0, EntriesSize(s.props, ws));
    TurnOnCut(s.props, Apply(Defaults(s.props), init), [], last);
  }

  lemma SchemaProps(s: Schema)
    requires SchemaOk(s)
    ensures PropsWellFormed(s.props)
  {
  }

  lemma EncLast(props: seq<Prop>, ws: seq<Entry>)
    requires EntriesOk(props, ws) && ws != []
    ensures var init, last := ws[..|ws| - 1], ws[|ws| - 1];
            && EntriesOk(props, init) && EntryOk(props, last)
            && EncEntries(props, ws) == EncEntries(props, init) + EncEntry(props, last)
            && EntriesSize(props, ws) > EntriesSize(props, init)
  {
    hide EncEntry, ValSize;
    var init, last := ws[..|ws| - 1], ws[|ws| - 1];
    assert EntryOk(props, last);
    EncConcat(props, init, [last]);
    assert ws == init + [last] && [last][1..] == [];
    assert EncEntries(props, [last]) == EncEntry(props, last) + [];
  }

  /** And when something comes after it, of which only the last byte is gone. */
  lemma LoopNotLast(s: Schema, ws: seq<Entry>, tail: seq<byte>, length: nat)
    requires SchemaOk(s) && EntriesOk(s.props, ws) && !AllReadable(s.props, ws)
    requires EntriesSize(s.props, ws) <= length
    ensures PropLoop(s.props, Defaults(s.props), [], EncEntries(s.props, ws) + tail, 0, length) ==
              PropsFailed(MalformedPacket)
  {
    LoopOverEntries(s.props, Defaults(s.props), [], ws, tail, 0, length);
  }

  /** Properties and payload as they are written, without the last byte. */
  function CutBlock(s: Schema, m: Message): seq<byte>
    requires MessageOk(s, m)
  {
    var block := PropertyBytes(s, m) + EncPayload(s.payload, m.payload);
    if block == [] then [] else block[..|block| - 1]
  }

  function CutError(s: Schema, m: Message): CodecError
    requires SchemaOk(s) && MessageOk(s, m)
  {
    if OverlongLast(s, m) then InsufficientData else MalformedPacket
  }

  lemma CutLoop(s: Schema, m: Message)
    requires SchemaOk(s) && MessageOk(s, m) && !AllSizable(s.props, MessageEntries(s, m))
    ensures PropertyBytes(s, m) != []
    ensures PropLoop(s.props, Defaults(s.props), [], CutBlock(s, m), 0, PropertySize(s, m)) ==
            PropsFailed(CutError(s, m))
  {
    hide Entries, EncEntries, EntriesSize, EncUser, UserSize, PropLoop, EncPayload, EntryReadable;
    var ws := MessageEntries(s, m);
    EntriesAre(s.props, m.props, 0);
    UserSizeExact(m.user);
    var j: nat :| j < |ws| && !EntrySizable(s.props, ws[j]);
    OthersReadable(s, m, j);
    EncLast(s.props, ws);
    EncSize(s.props[ws[|ws| - 1].i].ty, ws[|ws| - 1].v);
    if OverlongLast(s, m) {
      assert j == |ws| - 1 by {
        UnsizableUnreadable(s.props, ws[|ws| - 1]);
      }
      assert PropertyBytes(s, m) + EncPayload(s.payload, m.payload) == EncEntries(s.props, ws);
      LoopLast(s, ws);
    } else {
      CutAfter(s, m, j);
    }
  }

  lemma UnsizableUnreadable(props: seq<Prop>, w: Entry)
    requires !EntrySizable(props, w)
    ensures !EntryReadable(props, w)
  {
  }

  lemma CutAfter(s: Schema, m: Message, j: nat)
    requires SchemaOk(s) && MessageOk(s, m) && !OverlongLast(s, m) && j < |MessageEntries(s, m)|
    requires !EntrySizable(s.props, MessageEntries(s, m)[j])
    ensures PropLoop(s.props, Defaults(s.props), [], CutBlock(s, m), 0, PropertySize(s, m)) ==
            PropsFailed(MalformedPacket)
  {
    hide Entries, EncUser, UserSize, PropLoop, EncPayload, EntryReadable, EntrySizable, EncEntries, EntriesSize,
      EntriesOk, AllReadable, SchemaOk;
    var ws := MessageEntries(s, m);
    EntriesAre(s.props, m.props, 0);
    SplitAfter(s.props, ws, j);
    var upto, after := ws[..j + 1], ws[j + 1..];
    UserSizeExact(m.user);
    var payload := EncPayload(s.payload, m.payload);
    var later := EncEntries(s.props, after) + EncUser(m.user) + payload;
    assert later != [];
    CutAppend(EncEntries(s.props, upto), EncEntries(s.props, after), EncUser(m.user), payload);
    LoopNotLast(s, upto, later[..|later| - 1], PropertySize(s, m));
  }

  lemma SplitAfter(props: seq<Prop>, ws: seq<Entry>, j: nat)
    requires EntriesOk(props, ws) && j < |ws| && !EntrySizable(props, ws[j])
    ensures var upto, after := ws[..j + 1], ws[j + 1..];
            && EntriesOk(props, upto) && EntriesOk(props, after) && !AllReadable(props, upto)
            && EncEntries(props, ws) == EncEntries(props, upto) + EncEntries(props, after)
            && EntriesSize(props, upto) <= EntriesSize(props, ws)
            && (EncEntries(props, after) == [] ==> j == |ws| - 1)
  {
    hide EncEntries, EntriesSize, EntrySizable, EntryReadable;
    var upto, after := ws[..j + 1], ws[j + 1..];
    assert ws == upto + after && upto[j] == ws[j];
    EncConcat(props, upto, after);
    EntriesLength(props, after);
    UnsizableUnreadable(props, ws[j]);
  }

  lemma EntriesLength(props: seq<Prop>, ws: seq<Entry>)
    requires EntriesOk(props, ws)
    ensures ws != [] ==> EncEntries(props, ws) != []
  {
    if ws != [] {
      assert EntryOk(props, ws[0]);
    }
  }

  lemma CutAppend(a: seq<byte>, b: seq<byte>, c: seq<byte>, d: seq<byte>)
    requires b + c + d != []
    ensures var block, later := a + b + c + d, b + c + d;
            block != [] && block[..|block| - 1] == a + later[..|later| - 1]
  {
  }

  lemma CutRest(s: Schema, m: Message, head: Slots, read: nat)
    requires SchemaOk(s) && MessageOk(s, m) && !AllSizable(s.props, MessageEntries(s, m))
    requires PropertySize(s, m) < VarInt.THREE_BYTES
    ensures DecRest(s, m.flags, head, m.tail, read, VarInt.Encode(PropertySize(s, m)) + CutBlock(s, m)) ==
              BodyFailed(CutError(s, m))
  {
    hide PropLoop, VarInt.Decode, VarInt.Encode, PropertySize, MessageEntries, CutBlock, CutError, VarInt.Size;
    CutLoop(s, m);
    VarInt.RoundTrip(PropertySize(s, m), CutBlock(s, m));
  }

  /** A schema with a variable byte integer has no fields that may be missing. */
  lemma TailIsGiven(s: Schema, m: Message)
    requires SchemaOk(s) && MessageOk(s, m) && !AllSizable(s.props, MessageEntries(s, m))
    ensures !s.abbreviates && TailGiven(s, m) && PropertyBytes(s, m) != []
  {
    hide Entries, PropertyBytes;
    var ws := MessageEntries(s, m);
    EntriesAre(s.props, m.props, 0);
    var j :| 0 <= j < |ws| && !EntrySizable(s.props, ws[j]);
    assert EntryOk(s.props, ws[j]) && s.props[ws[j].i].ty == Variable;
    forall i | 0 <= i < |m.tail| ensures m.tail[i].Some? {
      assert FieldOk(s.tail[i], m.tail[i]);
    }
    CutLoop(s, m);
  }

  lemma BodyCut(s: Schema, m: Message)
    requires SchemaOk(s) && MessageOk(s, m) && !AllSizable(s.props, MessageEntries(s, m))
    ensures !s.abbreviates && TailGiven(s, m)
    ensures var body := EncBody(s, m);
            && |body| > 0
            && body[..|body| - 1] == EncFields(s.head, m.head) +
                 (EncFields(s.tail, m.tail) + (VarInt.Encode(PropertySize(s, m)) + CutBlock(s, m)))
  {
    hide EncFields, VarInt.Encode, PropertySize, PropertyBytes, EncPayload, MessageEntries;
    TailIsGiven(s, m);
  }

  /** When identifier and QoS agree, the body without its last byte is refused, or asks for more. */
  lemma CutBody(s: Schema, m: Message)
    requires SchemaOk(s) && MessageOk(s, m) && !AllSizable(s.props, MessageEntries(s, m))
    requires PropertySize(s, m) < VarInt.THREE_BYTES && QoSBits(m.flags) != 3 && Agree(s.head, m.head, m.flags)
    ensures var body := EncBody(s, m);
            |body| > 0 && DecBody(s, m.flags, body[..|body| - 1]) == BodyFailed(CutError(s, m))
  {
    hide EncFields, DecFields, VarInt.Encode, PropertySize, MessageEntries, EncBody, CutBlock, CutError, DecRest;
    BodyCut(s, m);
    var rest := VarInt.Encode(PropertySize(s, m)) + CutBlock(s, m);
    FieldsRoundTrip(s.head, m.head, m.flags, EncFields(s.tail, m.tail) + rest);
    TailAgrees(s, m);
    FieldsRoundTrip(s.tail, m.tail, m.flags, rest);
    CutRest(s, m, m.head, |EncFields(s.head, m.head)| + |EncFields(s.tail, m.tail)|);
  }

  //
  // Frames
  //

  /** A frame that announces one byte too few is taken to end before its last byte. */
  lemma DecodeCut(p: Packet, rest: seq<byte>)
    requires PacketOk(p) && BodySize(p) < VarInt.THREE_BYTES && !Representable(p)
    ensures var frame, body := Frame(p), BodyBytes(p);
            && |body| == BodySize(p) + 1 && |frame| == 1 + VarInt.Size(BodySize(p)) + |body|
            && Decode(frame[..|frame| - 1] + rest) ==
                 DecodeKind(p.headerType, p.m.flags, body[..|body| - 1], 1 + VarInt.Size(BodySize(p)))
  {
    hide DecodeKind, VarInt.Encode, VarInt.Size, FirstByte, FlagsOk, BodySize, BodyBytes, Representable, Decode;
    FrameSize(p);
    VarInt.EncodeLength(BodySize(p));
    var first, length, body := FirstByte(p.headerType, p.m.flags), VarInt.Encode(BodySize(p)), BodyBytes(p);
    var cut := body[..|body| - 1];
    assert Frame(p)[..|Frame(p)| - 1] + rest == [first] + length + (cut + rest);
    DecodeFrame(p.headerType, p.m.flags, BodySize(p), cut + rest);
    assert (cut + rest)[..BodySize(p)] == cut;
  }

  /** What the reader finds in the body without its last byte decides. */
  lemma CutDecides(p: Packet)
    requires PacketOk(p) && BodySize(p) < VarInt.THREE_BYTES
    ensures Representable(p) ==> AsksForMore(p)
    ensures !Representable(p) ==>
              && HasSchema(p.kind) && SchemaOk(SchemaOf(p.kind)) && |BodyBytes(p)| > 0
              && (AsksForMore(p) <==>
                    DecBody(SchemaOf(p.kind), p.m.flags, BodyBytes(p)[..|BodyBytes(p)| - 1]) ==
                      BodyFailed(InsufficientData))
  {
    hide VarInt.Size, FirstByte, BodySize, BodyBytes, Representable, Decode, DecBody, SchemaOf, Frame, SchemaOk;
    FrameSize(p);
    var frame := Frame(p);
    forall n | 0 < n < |frame| && (Representable(p) || n < |frame| - 1)
      ensures Decode(frame[..n]) == DecodeFailed(InsufficientData)
    {
      PrefixInsufficient(p, n);
    }
    if !Representable(p) {
      UnrepresentableHasPayload(p);
      SchemasOk(p.kind);
      DecodeCut(p, []);
      assert frame[..|frame| - 1] + [] == frame[..|frame| - 1];
    }
  }

  predicate HeadAgrees(p: Packet)
    requires PacketOk(p) && HasSchema(p.kind)
  {
    Agree(SchemaOf(p.kind).head, p.m.head, p.m.flags)
  }

  /**
    Exactly when every strict prefix asks for more, for packets whose identifier agrees with their QoS: no integer
    needs five bytes, or the one that does ends the packet.
   */
  lemma AsksForMoreIff(p: Packet)
    requires PacketOk(p) && BodySize(p) < VarInt.THREE_BYTES && HasSchema(p.kind) && HeadAgrees(p)
    ensures AsksForMore(p) <==> Representable(p) || (SchemasOk(p.kind); OverlongLast(SchemaOf(p.kind), p.m))
  {
    hide VarInt.Size, BodySize, DecBody, SchemaOf, AsksForMore, EncBody, CodecSize, OverlongLast, MessageEntries,
      PropertySize, AllSizable;
    SchemasOk(p.kind);
    CutDecides(p);
    if !Representable(p) {
      PropertySizeOfPacket(p);
      CutBody(SchemaOf(p.kind), p.m);
    }
  }

  lemma PropertySizeOfPacket(p: Packet)
    requires PacketOk(p) && BodySize(p) < VarInt.THREE_BYTES && HasSchema(p.kind)
    ensures SchemaOk(SchemaOf(p.kind)) && PropertySize(SchemaOf(p.kind), p.m) < VarInt.THREE_BYTES
  {
    hide PropertySize, CodecSize;
    SchemasOk(p.kind);
    PropertySizeBelow(SchemaOf(p.kind), p.m);
  }

  /** In the second case the reader is never satisfied: whatever follows the frame, it asks for more. */
  lemma WaitsForever(p: Packet, rest: seq<byte>)
    requires PacketOk(p) && BodySize(p) < VarInt.THREE_BYTES && HasSchema(p.kind) && HeadAgrees(p)
    requires !Representable(p) && (SchemasOk(p.kind); OverlongLast(SchemaOf(p.kind), p.m))
    ensures Decode(Frame(p) + rest) == DecodeFailed(InsufficientData)
  {
    hide VarInt.Size, BodySize, DecBody, SchemaOf, EncBody, CodecSize, OverlongLast, MessageEntries,
      PropertySize, AllSizable, Decode, Frame;
    SchemasOk(p.kind);
    PropertySizeOfPacket(p);
    CutBody(SchemaOf(p.kind), p.m);
    var frame := Frame(p);
    DecodeCut(p, []);
    DecodeCut(p, frame[|frame| - 1..] + rest);
    assert frame[..|frame| - 1] + (frame[|frame| - 1..] + rest) == frame + rest;
  }

  /** The bytes of a PUBLISH from the identifier on, without the last one. */
  function AfterTopic(m: Message): seq<byte>
    requires MessageOk(PUBLISH, m)
  {
    EncFields(PUBLISH.head[1..], m.head[1..]) + (VarInt.Encode(PropertySize(PUBLISH, m)) + CutBlock(PUBLISH, m))
  }

  /**
    In the other packets, a PUBLISH with an identifier at QoS 0 or without one above, the reader takes other bytes
    for the properties: identifier, property length and properties, or these without their first two bytes.
   */
  lemma AsksForMoreShifted(p: Packet)
    requires PacketOk(p) && BodySize(p) < VarInt.THREE_BYTES && HasSchema(p.kind) && !HeadAgrees(p)
    ensures p.kind == Publish && SchemaOk(PUBLISH) && MessageOk(PUBLISH, p.m) && p.m.head[0].Some?
    ensures !Representable(p) ==>
              var src := AfterTopic(p.m);
              && |src| >= 2
              && (AsksForMore(p) <==>
                    DecRest(PUBLISH, p.m.flags, p.m.head, [], 0, if QoSBits(p.m.flags) == 0 then src else src[2..]) ==
                      BodyFailed(InsufficientData))
  {
    hide VarInt.Size, BodySize, DecBody, AsksForMore, EncBody, CodecSize, MessageEntries, PropertySize, AllSizable,
      AfterTopic, DecRest, CutBlock, VarInt.Encode;
    SchemasOk(p.kind);
    OnlyPublish(p);
    CutDecides(p);
    if !Representable(p) {
      PropertySizeOfPacket(p);
      ShiftedBody(p.m);
    }
  }

  lemma OnlyPublish(p: Packet)
    requires PacketOk(p) && HasSchema(p.kind) && !HeadAgrees(p)
    ensures p.kind == Publish && SchemaOf(p.kind) == PUBLISH && p.m.head[0].Some?
  {
    hide SchemaOk, BodySize, CodecSize;
    assert FieldOk(SchemaOf(p.kind).head[0], p.m.head[0]);
  }

  lemma ShiftedBody(m: Message)
    requires SchemaOk(PUBLISH) && MessageOk(PUBLISH, m) && QoSBits(m.flags) != 3
    requires !Agree(PUBLISH.head, m.head, m.flags) && !AllSizable(PUBLISH.props, MessageEntries(PUBLISH, m))
    ensures var body, src := EncBody(PUBLISH, m), AfterTopic(m);
            && |body| > 0 && |src| >= 2
            && (DecBody(PUBLISH, m.flags, body[..|body| - 1]) == BodyFailed(InsufficientData) <==>
                  DecRest(PUBLISH, m.flags, m.head, [], 0, if QoSBits(m.flags) == 0 then src else src[2..]) ==
                    BodyFailed(InsufficientData))
  {
    hide EncBody, DecRest, DecBody, AllSizable, SchemaOk, MessageEntries, AfterTopic;
    TopicFirst(m);
    AfterTopicLong(m);
    ShiftedRest(m.flags, m.head[0].value, m.head, AfterTopic(m));
  }

  lemma TopicFirst(m: Message)
    requires SchemaOk(PUBLISH) && MessageOk(PUBLISH, m) && !AllSizable(PUBLISH.props, MessageEntries(PUBLISH, m))
    ensures var body := EncBody(PUBLISH, m);
            && |body| > 0 && m.head[0].Some? && Writable(Text, m.head[0].value)
            && body[..|body| - 1] == Enc(Text, m.head[0].value) + AfterTopic(m)
  {
    hide VarInt.Encode, PropertySize, CutBlock, MessageEntries, EncBody, AllSizable, Enc;
    BodyCut(PUBLISH, m);
    assert FieldOk(PUBLISH.head[0], m.head[0]);
    var topic, second := Enc(Text, m.head[0].value), EncFields(PUBLISH.head[1..], m.head[1..]);
    var rest := VarInt.Encode(PropertySize(PUBLISH, m)) + CutBlock(PUBLISH, m);
    assert EncFields(PUBLISH.tail, m.tail) + rest == rest;
    Regroup(topic, second, rest);
  }

  lemma Regroup(a: seq<byte>, b: seq<byte>, c: seq<byte>)
    ensures a + b + c == a + (b + c)
  {
  }

  lemma ShiftedRest(flags: nat, topic: Val, head: Slots, src: seq<byte>)
    requires SchemaOk(PUBLISH) && Writable(Text, topic) && QoSBits(flags) != 3 && |src| >= 2
    ensures DecBody(PUBLISH, flags, Enc(Text, topic) + src) == BodyFailed(InsufficientData) <==>
            DecRest(PUBLISH, flags, head, [], 0, if QoSBits(flags) == 0 then src else src[2..]) ==
              BodyFailed(InsufficientData)
  {
    ShiftedHead(flags, topic, src);
    var r := DecFields(PUBLISH.head, flags, Enc(Text, topic) + src);
    assert DecFields(PUBLISH.tail, flags, r.rest) == FieldsParsed([], 0, r.rest);
    hide DecFields, DecRest, SchemaOk, Enc;
    ErrorOnly(flags, r.slots, head, r.size, r.rest);
  }

  /** Topic, and two bytes more above QoS 0. */
  lemma ShiftedHead(flags: nat, topic: Val, src: seq<byte>)
    requires Writable(Text, topic) && QoSBits(flags) != 3 && |src| >= 2
    ensures var r := DecFields(PUBLISH.head, flags, Enc(Text, topic) + src);
            r.FieldsParsed? && r.rest == if QoSBits(flags) == 0 then src else src[2..]
  {
    hide Enc;
    DecEnc(Text, topic, src);
    var second := PUBLISH.head[1..];
    assert second[0] == Field(U16, WithQoS, None) && second[1..] == [];
    var n := if QoSBits(flags) == 0 then 0 else 2;
    assert DecFields(second[1..], flags, src[n..]).FieldsParsed?;
  }

  lemma AfterTopicLong(m: Message)
    requires SchemaOk(PUBLISH) && MessageOk(PUBLISH, m) && !AllSizable(PUBLISH.props, MessageEntries(PUBLISH, m))
    ensures |AfterTopic(m)| >= 2
  {
    hide VarInt.Encode, PropertySize, EncFields, AllSizable, MessageEntries, PropertyBytes, EncPayload;
    LongBlock(m);
  }

  lemma LongBlock(m: Message)
    requires SchemaOk(PUBLISH) && MessageOk(PUBLISH, m) && !AllSizable(PUBLISH.props, MessageEntries(PUBLISH, m))
    ensures |PropertyBytes(PUBLISH, m)| >= 2
  {
    hide Entries, EncEntries, EntriesSize, EncUser;
    var ws := MessageEntries(PUBLISH, m);
    EntriesAre(PUBLISH.props, m.props, 0);
    assert ws != [];
    EncLast(PUBLISH.props, ws);
    EncSize(PUBLISH.props[ws[|ws| - 1].i].ty, ws[|ws| - 1].v);
  }

  /** Which error the rest of the body gives does not depend on what was read before it. */
  lemma ErrorOnly(flags: nat, head: Slots, head': Slots, read: nat, src: seq<byte>)
    requires SchemaOk(PUBLISH)
    ensures DecRest(PUBLISH, flags, head, [], read, src) == BodyFailed(InsufficientData) <==>
            DecRest(PUBLISH, flags, head', [], 0, src) == BodyFailed(InsufficientData)
  {
    hide PropLoop, VarInt.Decode;
  }

  /** There the order of the properties does not help: an identifier below 256 makes the cut frame pass for a packet. */
  lemma SmallIdentifierDecodes(p: Packet)
    requires PacketOk(p) && p.kind == Publish && BodySize(p) < VarInt.THREE_BYTES && !Representable(p)
    requires QoSBits(p.m.flags) == 0 && p.m.head[1].Some? && p.m.head[1].value.n < 0x100
    ensures !AsksForMore(p)
  {
    hide VarInt.Size, BodySize, CodecSize, MessageEntries, PropertySize, AllSizable, Representable, AsksForMore,
      DecRest;
    SchemasOk(p.kind);
    assert FieldOk(PUBLISH.head[1], p.m.head[1]) && !IsRead(PUBLISH.head[1], p.m.flags);
    assert !HeadAgrees(p);
    AsksForMoreShifted(p);
    ZeroFirst(p.m);
    ZeroLength(p.m.flags, p.m.head, AfterTopic(p.m));
  }

  lemma ZeroFirst(m: Message)
    requires MessageOk(PUBLISH, m) && m.head[1].Some? && Writable(U16, m.head[1].value) && m.head[1].value.n < 0x100
    ensures |AfterTopic(m)| >= 1 && AfterTopic(m)[0] == 0
  {
    hide PropertySize, CutBlock, VarInt.Encode;
    var second := PUBLISH.head[1..];
    assert second[0] == Field(U16, WithQoS, None) && second[1..] == [];
    assert EncFields(second, m.head[1..]) == Put16(m.head[1].value.n) + EncFields(second[1..], m.head[1..][1..]);
  }

  lemma ZeroLength(flags: nat, head: Slots, src: seq<byte>)
    requires SchemaOk(PUBLISH) && |src| >= 1 && src[0] == 0
    ensures DecRest(PUBLISH, flags, head, [], 0, src).BodyParsed?
  {
  }

  //
  // The two cases at their least inputs
  //

  /** An empty topic, the least subscription identifier that needs five bytes, and a payload. */
  function Overlong(payload: Option<seq<byte>>): Message {
    Message(0, [Some(Data([])), None], [], Defaults(PUBLISH.props)[5 := Some(Num(VarInt.FOUR_BYTES))], [], Raw(payload))
  }

  lemma {:induction false} OneSet(props: seq<Prop>, i: nat, v: Val, k: nat)
    requires i < |props| && k <= |props| && props[i].mode == Optional
    requires forall j :: 0 <= j < |props| ==> props[j].mode != Required
    ensures Entries(props, Defaults(props)[i := Some(v)], k) == if k <= i then [Entry(i, v)] else []
    decreases |props| - k
  {
    if k < |props| {
      OneSet(props, i, v, k + 1);
    }
  }

  lemma OverlongProps()
    ensures PropsOk(PUBLISH.props, Overlong(None).props)
    ensures Entries(PUBLISH.props, Overlong(None).props, 0) == [Entry(5, Num(VarInt.FOUR_BYTES))]
  {
    hide Entries, PropsWellFormed;
    OneSet(PUBLISH.props, 5, Num(VarInt.FOUR_BYTES), 0);
    PublishProps();
    DefaultsOk(PUBLISH.props);
    var slots := Overlong(None).props;
    forall i | 0 <= i < |slots| ensures PropOk(PUBLISH.props[i], slots[i]) {
      assert PropOk(PUBLISH.props[i], Defaults(PUBLISH.props)[i]);
    }
  }

  lemma OverlongOk(payload: Option<seq<byte>>)
    ensures MessageOk(PUBLISH, Overlong(payload)) && PropertySize(PUBLISH, Overlong(payload)) == 5
    ensures SchemaOk(PUBLISH) && !AllSizable(PUBLISH.props, MessageEntries(PUBLISH, Overlong(payload)))
    ensures OverlongLast(PUBLISH, Overlong(payload)) <==> payload == None || payload == Some([])
  {
    hide Entries, Defaults, PropsOk, PropsWellFormed, EncEntries;
    OverlongProps();
    SchemasOk(Publish);
    var ws := [Entry(5, Num(VarInt.FOUR_BYTES))];
    assert ws[1..] == [] && !EntrySizable(PUBLISH.props, ws[0]);
    assert EntriesOk(PUBLISH.props, ws) && EntriesOk(PUBLISH.props, []) && EntriesSize(PUBLISH.props, []) == 0;
    assert EntriesSize(PUBLISH.props, ws) == 5;
  }

  lemma OverlongPacket(payload: Option<seq<byte>>)
    ensures var p := Packet(Publish, Publish, Overlong(payload));
            && PacketOk(p) && BodySize(p) == 8 + (if payload.Some? then |payload.value| else 0)
            && !Representable(p) && HeadAgrees(p)
  {
    hide PropertySize, MessageOk, EncBody, MessageEntries, AllSizable, SchemaOk;
    OverlongOk(payload);
  }

  /** With a byte of payload, the first eleven of the twelve bytes are refused. */
  lemma ElevenBytesRefused()
    ensures var p := Packet(Publish, Publish, Overlong(Some([0])));
            PacketOk(p) && |Frame(p)| == 12 && Decode(Frame(p)[..11]) == DecodeFailed(MalformedPacket)
  {
    hide PropertySize, MessageOk, EncBody, MessageEntries, AllSizable, SchemaOk, CodecSize, Overlong, PacketOk,
      OverlongLast, DecBody, Decode, BodySize, Representable, Frame;
    var p := Packet(Publish, Publish, Overlong(Some([0])));
    OverlongPacket(Some([0]));
    OverlongOk(Some([0]));
    PropertySizeOfPacket(p);
    CutBodyOf(p);
    DecodeCut(p, []);
    assert Frame(p)[..11] + [] == Frame(p)[..11];
  }

  lemma CutBodyOf(p: Packet)
    requires PacketOk(p) && p.kind == Publish && BodySize(p) < VarInt.THREE_BYTES && !Representable(p) && HeadAgrees(p)
    ensures SchemaOk(PUBLISH) && MessageOk(PUBLISH, p.m) && |BodyBytes(p)| > 0
    ensures DecodeKind(p.headerType, p.m.flags, BodyBytes(p)[..|BodyBytes(p)| - 1], 1 + VarInt.Size(BodySize(p))) ==
              DecodeFailed(CutError(PUBLISH, p.m))
  {
    hide VarInt.Size, BodySize, DecBody, EncBody, CodecSize, CutError, MessageEntries, PropertySize, AllSizable;
    SchemasOk(p.kind);
    PropertySizeOfPacket(p);
    CutBody(PUBLISH, p.m);
  }

  /** Without one, the reader asks for more for ever. */
  lemma ElevenBytesWait(rest: seq<byte>)
    ensures var p := Packet(Publish, Publish, Overlong(None));
            PacketOk(p) && Decode(Frame(p) + rest) == DecodeFailed(InsufficientData)
  {
    hide PropertySize, MessageOk, EncBody, MessageEntries, AllSizable, SchemaOk, CodecSize, Overlong,
      OverlongLast, DecBody, Decode, BodySize, Representable, Frame;
    OverlongPacket(None);
    OverlongOk(None);
    WaitsForever(Packet(Publish, Publish, Overlong(None)), rest);
  }
}
