/**
  The packets byte by byte, as sections 2 and 3 of MQTT Version 5.0 lay them out: literal first bytes, property
  identifiers, field order and integer forms, written without the schemas. The encoder writes exactly this layout and
  the decoder reads it.
 */
module Wire {
  import opened Mqtt
  import opened Codec
  import opened Body
  import opened Packets
  import VarInt

  //
  // Integers and strings
  //

  function Two(n: nat): (bytes: seq<byte>)
    requires n < 0x1_0000
    ensures |bytes| == 2
  {
    [n / 256, n % 256]
  }

  function Four(n: nat): seq<byte>
    requires n < 0x1_0000_0000
  {
    [n / 0x100_0000, n / 0x1_0000 % 256, n / 0x100 % 256, n % 256]
  }

  function Str(bytes: seq<byte>): seq<byte>
    requires |bytes| <= 0xffff
  {
    Two(|bytes|) + bytes
  }

  lemma FirstDigit(v: nat)
    ensures VarInt.Encode(v) == if v < 0x80 then [v] else [0x80 + v % 0x80] + VarInt.Encode(v / 0x80)
  {
  }

  lemma TwoDigits(v: nat)
    requires 0x80 <= v < 0x4000
    ensures VarInt.Encode(v) == [0x80 + v % 0x80, v / 0x80]
  {
    hide VarInt.Encode;
    FirstDigit(v);
    FirstDigit(v / 0x80);
  }

  lemma ThreeDigits(v: nat)
    requires 0x4000 <= v < 0x20_0000
    ensures VarInt.Encode(v) == [0x80 + v % 0x80, 0x80 + v / 0x80 % 0x80, v / 0x4000]
  {
    hide VarInt.Encode;
    FirstDigit(v);
    TwoDigits(v / 0x80);
  }

  lemma FourDigits(v: nat)
    requires 0x20_0000 <= v < 0x1000_0000
    ensures VarInt.Encode(v) ==
              [0x80 + v % 0x80, 0x80 + v / 0x80 % 0x80, 0x80 + v / 0x4000 % 0x80, v / 0x20_0000]
  {
    hide VarInt.Encode;
    FirstDigit(v);
    ThreeDigits(v / 0x80);
  }

  /** One to four bytes, the low seven bits first, with the high bit on all but the last. */
  lemma VariableForm(v: nat)
    requires v < 0x1000_0000
    ensures VarInt.Encode(v) ==
              if v < 0x80 then [v]
              else if v < 0x4000 then [0x80 + v % 0x80, v / 0x80]
              else if v < 0x20_0000 then [0x80 + v % 0x80, 0x80 + v / 0x80 % 0x80, v / 0x4000]
              else [0x80 + v % 0x80, 0x80 + v / 0x80 % 0x80, 0x80 + v / 0x4000 % 0x80, v / 0x20_0000]
  {
    hide VarInt.Encode;
    if v < 0x80 {
      FirstDigit(v);
    } else if v < 0x4000 {
      TwoDigits(v);
    } else if v < 0x20_0000 {
      ThreeDigits(v);
    } else {
      FourDigits(v);
    }
  }

  //
  // Properties
  //

  function Num1(id: byte, slot: Option<Val>): seq<byte> {
    if slot.Some? && slot.value.Num? && slot.value.n < 256 then [id, slot.value.n] else []
  }

  function Num2(id: byte, slot: Option<Val>): seq<byte> {
    if slot.Some? && slot.value.Num? && slot.value.n < 0x1_0000 then [id] + Two(slot.value.n) else []
  }

  function Num4(id: byte, slot: Option<Val>): seq<byte> {
    if slot.Some? && slot.value.Num? && slot.value.n < 0x1_0000_0000 then [id] + Four(slot.value.n) else []
  }

  function Var(id: byte, slot: Option<Val>): seq<byte> {
    if slot.Some? && slot.value.Num? then [id] + VarInt.Encode(slot.value.n) else []
  }

  function Text(id: byte, slot: Option<Val>): seq<byte> {
    if slot.Some? && slot.value.Data? && |slot.value.bytes| <= 0xffff then [id] + Str(slot.value.bytes) else []
  }

  function NonEmpty(id: byte, slot: Option<Val>): seq<byte> {
    if slot == Some(Data([])) then [] else Text(id, slot)
  }

  function Pairs(user: seq<Pair>): seq<byte>
    requires UserOk(user)
  {
    if user == [] then []
    else
      assert PairFits(user[0]);
      [0x26] + Str(user[0].key) + Str(user[0].value) + Pairs(user[1..])
  }

  /** The integer is counted one byte short. */
  function Short(slot: Option<Val>): nat {
    if slot.Some? && slot.value.Num? && slot.value.n >= 0x1000_0000 then 1 else 0
  }

  /** The block of properties of each packet type, and by how much it is counted short. */
  function Block(t: PacketType, m: Message): seq<byte>
    requires HasSchema(t) && MessageOk(SchemaOf(t), m)
  {
    var p := m.props;
    (match t
     case Publish =>
       Num4(0x02, p[0]) + (Num1(0x01, p[1]) + (Num2(0x23, p[2]) + (Text(0x08, p[3]) + (NonEmpty(0x09, p[4]) +
         (Var(0x0b, p[5]) + Text(0x03, p[6]))))))
     case Subscribe => Var(0x0b, p[0])
     case SubAck => Text(0x1f, p[0])
     case Unsubscribe => []
     case UnsubAck => Text(0x1f, p[0])
     case Disconnect => Num4(0x11, p[0]) + (Text(0x1f, p[1]) + Text(0x1c, p[2]))
     case _ => Text(0x1f, p[0])) + Pairs(m.user)
  }

  function Missing(t: PacketType, m: Message): nat
    requires HasSchema(t) && MessageOk(SchemaOf(t), m)
  {
    if t.Publish? then Short(m.props[5]) else if t.Subscribe? then Short(m.props[0]) else 0
  }

  //
  // The generated encoder, property by property
  //

  function Written(p: Prop, slot: Option<Val>): seq<byte>
    requires PropOk(p, slot)
  {
    if Present(p, slot) then [p.id] + Enc(p.ty, slot.value) else []
  }

  function WrittenFrom(props: seq<Prop>, slots: Slots, k: nat): seq<byte>
    requires PropsOk(props, slots) && k <= |props|
    decreases |props| - k
  {
    if k == |props| then []
    else
      assert PropOk(props[k], slots[k]);
      Written(props[k], slots[k]) + WrittenFrom(props, slots, k + 1)
  }

  function ShortFrom(props: seq<Prop>, slots: Slots, k: nat): nat
    requires PropsOk(props, slots) && k <= |props|
    decreases |props| - k
  {
    if k == |props| then 0
    else (if props[k].ty == Variable then Short(slots[k]) else 0) + ShortFrom(props, slots, k + 1)
  }

  lemma {:induction false} EntriesWritten(props: seq<Prop>, slots: Slots, k: nat)
    requires PropsOk(props, slots) && k <= |props|
    ensures EntriesOk(props, Entries(props, slots, k))
    ensures EncEntries(props, Entries(props, slots, k)) == WrittenFrom(props, slots, k)
    ensures EntriesSize(props, Entries(props, slots, k)) + ShortFrom(props, slots, k) == |WrittenFrom(props, slots, k)|
    decreases |props| - k
  {
    hide PropsOk, Present, EntriesOk, Enc, ValSize, Entries, EncEntries, EntriesSize, EncEntry, Written;
    SameLength(props, slots);
    EntriesAre(props, slots, k);
    EntriesCons(props, slots, k);
    if k < |props| {
      EntriesWritten(props, slots, k + 1);
      WrittenSize(props, slots, k);
      if Present(props[k], slots[k]) {
        EncCons(props, Entry(k, slots[k].value), Entries(props, slots, k + 1));
      }
    } else {
      NoEntry(props);
    }
  }

  lemma SameLength(props: seq<Prop>, slots: Slots)
    requires PropsOk(props, slots)
    ensures |props| == |slots|
  {
  }

  lemma NoEntry(props: seq<Prop>)
    ensures EntriesOk(props, []) && EncEntries(props, []) == [] && EntriesSize(props, []) == 0
  {
  }

  lemma EntriesCons(props: seq<Prop>, slots: Slots, k: nat)
    requires PropsOk(props, slots) && k <= |props|
    ensures |props| == |slots|
    ensures k == |props| ==> Entries(props, slots, k) == []
    ensures k < |props| ==>
              Entries(props, slots, k) ==
                if Present(props[k], slots[k]) then [Entry(k, slots[k].value)] + Entries(props, slots, k + 1)
                else Entries(props, slots, k + 1)
  {
  }

  lemma EncCons(props: seq<Prop>, w: Entry, rest: seq<Entry>)
    requires EntriesOk(props, [w] + rest) && EntriesOk(props, rest)
    ensures EntryOk(props, w)
    ensures EncEntries(props, [w] + rest) == [props[w.i].id] + Enc(props[w.i].ty, w.v) + EncEntries(props, rest)
    ensures EntriesSize(props, [w] + rest) == 1 + ValSize(props[w.i].ty, w.v) + EntriesSize(props, rest)
  {
    assert ([w] + rest)[0] == w && ([w] + rest)[1..] == rest;
    assert EntryOk(props, ([w] + rest)[0]);
  }

  lemma WrittenSize(props: seq<Prop>, slots: Slots, k: nat)
    requires PropsOk(props, slots) && k < |props|
    ensures PropOk(props[k], slots[k])
    ensures Present(props[k], slots[k]) ==>
              && slots[k].Some? && Writable(props[k].ty, slots[k].value)
              && Written(props[k], slots[k]) == [props[k].id] + Enc(props[k].ty, slots[k].value)
              && |Written(props[k], slots[k])| ==
                   1 + ValSize(props[k].ty, slots[k].value) + (if props[k].ty == Variable then Short(slots[k]) else 0)
    ensures !Present(props[k], slots[k]) ==>
              Written(props[k], slots[k]) == [] && (props[k].ty == Variable ==> Short(slots[k]) == 0)
  {
    assert PropOk(props[k], slots[k]);
    if Present(props[k], slots[k]) {
      EncSize(props[k].ty, slots[k].value);
    }
  }

  lemma HighHalf(n: nat)
    ensures n / 0x1_0000 / 0x100 == n / 0x100_0000
  {
  }

  lemma LowHalf(n: nat)
    ensures n % 0x1_0000 / 0x100 == n / 0x100 % 256 && n % 0x1_0000 % 0x100 == n % 256
  {
    var h, c, d := n / 0x1_0000, n % 0x1_0000 / 0x100, n % 0x1_0000 % 0x100;
    assert n == 0x1_0000 * h + 0x100 * c + d;
    assert n / 0x100 == 0x100 * h + c;
  }

  lemma Four32(n: nat)
    requires n < 0x1_0000_0000
    ensures Put32(n) == Four(n)
  {
    HighHalf(n);
    LowHalf(n);
    var h, l := n / 0x1_0000, n % 0x1_0000;
    assert Put16(h) == [h / 0x100, h % 0x100] && Put16(l) == [l / 0x100, l % 0x100];
  }

  /** Each property type has its literal form. */
  function Literal(p: Prop, slot: Option<Val>): seq<byte> {
    match p.ty
    case U8 => Num1(p.id, slot)
    case Format => Num1(p.id, slot)
    case ReasonCode => Num1(p.id, slot)
    case U16 => Num2(p.id, slot)
    case U32 => Num4(p.id, slot)
    case Variable => Var(p.id, slot)
    case _ => if p.mode == SkipEmpty then NonEmpty(p.id, slot) else Text(p.id, slot)
  }

  lemma WrittenLiteral(p: Prop, slot: Option<Val>)
    requires PropOk(p, slot) && (p.mode == SkipEmpty ==> p.ty == Codec.Text || p.ty == Binary)
    ensures Written(p, slot) == Literal(p, slot)
  {
    hide VarInt.Encode;
    if slot.Some? && p.ty == U32 {
      Four32(slot.value.n);
    }
  }

  /** Unrolls the properties of a schema from position k on. */
  lemma OneWritten(props: seq<Prop>, slots: Slots, k: nat)
    requires PropsWellFormed(props) && PropsOk(props, slots) && k <= |props|
    ensures |props| == |slots|
    ensures k == |props| ==> WrittenFrom(props, slots, k) == [] && ShortFrom(props, slots, k) == 0
    ensures k < |props| ==>
              && WrittenFrom(props, slots, k) == Literal(props[k], slots[k]) + WrittenFrom(props, slots, k + 1)
              && ShortFrom(props, slots, k) ==
                   (if props[k].ty == Variable then Short(slots[k]) else 0) + ShortFrom(props, slots, k + 1)
  {
    hide Written, Literal;
    if k < |props| {
      assert PropOk(props[k], slots[k]);
      WrittenLiteral(props[k], slots[k]);
    }
  }

  lemma NoMore(s: seq<byte>)
    ensures s + [] == s
  {
  }

  lemma PublishWritten(slots: Slots)
    requires PropsOk(PUBLISH.props, slots)
    ensures |slots| == 7 && ShortFrom(PUBLISH.props, slots, 0) == Short(slots[5])
    ensures WrittenFrom(PUBLISH.props, slots, 0) ==
              Num4(0x02, slots[0]) + (Num1(0x01, slots[1]) + (Num2(0x23, slots[2]) + (Text(0x08, slots[3]) +
                (NonEmpty(0x09, slots[4]) + (Var(0x0b, slots[5]) + Text(0x03, slots[6]))))))
  {
    hide PropsOk, WrittenFrom, ShortFrom, Num1, Num2, Num4, Var, Text, NonEmpty, Short;
    var props := PUBLISH.props;
    PublishProps();
    OneWritten(props, slots, 0);
    OneWritten(props, slots, 1);
    OneWritten(props, slots, 2);
    OneWritten(props, slots, 3);
    OneWritten(props, slots, 4);
    OneWritten(props, slots, 5);
    OneWritten(props, slots, 6);
    OneWritten(props, slots, 7);
    NoMore(Text(0x03, slots[6]));
  }

  lemma DisconnectWritten(slots: Slots)
    requires PropsOk(DISCONNECT.props, slots)
    ensures |slots| == 3 && ShortFrom(DISCONNECT.props, slots, 0) == 0
    ensures WrittenFrom(DISCONNECT.props, slots, 0) == Num4(0x11, slots[0])
            + (Text(0x1f, slots[1]) + Text(0x1c, slots[2]))
  {
    hide PropsOk, WrittenFrom, ShortFrom, Num1, Num2, Num4, Var, Text, NonEmpty, Short;
    var props := DISCONNECT.props;
    OtherProps();
    OneWritten(props, slots, 0);
    OneWritten(props, slots, 1);
    OneWritten(props, slots, 2);
    OneWritten(props, slots, 3);
    NoMore(Text(0x1c, slots[2]));
  }

  /** The other schemas have one property or none. */
  lemma SingleWritten(props: seq<Prop>, slots: Slots)
    requires PropsWellFormed(props) && PropsOk(props, slots) && |props| == 1
    ensures |slots| == 1 && WrittenFrom(props, slots, 0) == Literal(props[0], slots[0])
    ensures ShortFrom(props, slots, 0) == if props[0].ty == Variable then Short(slots[0]) else 0
  {
    hide PropsOk, WrittenFrom, ShortFrom, Literal, Short, PropsWellFormed;
    OneWritten(props, slots, 0);
    OneWritten(props, slots, 1);
    NoMore(Literal(props[0], slots[0]));
  }

  lemma OthersWritten(t: PacketType, slots: Slots)
    requires HasSchema(t) && !t.Publish? && !t.Disconnect? && PropsOk(SchemaOf(t).props, slots)
    ensures t.Unsubscribe? ==>
            WrittenFrom(UNSUBSCRIBE.props, slots, 0) == [] && ShortFrom(UNSUBSCRIBE.props, slots, 0) == 0
    ensures !t.Unsubscribe? ==>
              && |slots| == 1
              && WrittenFrom(SchemaOf(t).props, slots, 0) ==
                (if t.Subscribe? then Var(0x0b, slots[0]) else Text(0x1f, slots[0]))
              && ShortFrom(SchemaOf(t).props, slots, 0) == (if t.Subscribe? then Short(slots[0]) else 0)
  {
    hide PropsOk, WrittenFrom, ShortFrom, Num1, Num2, Num4, Var, Text, NonEmpty, Short, PropsWellFormed;
    OtherProps();
    if t.Unsubscribe? {
      OneWritten(UNSUBSCRIBE.props, slots, 0);
    } else {
      SingleWritten(SchemaOf(t).props, slots);
    }
  }

  lemma {:induction false} UserIsPairs(user: seq<Pair>)
    requires UserOk(user)
    ensures EncUser(user) == Pairs(user)
    decreases user
  {
    if user != [] {
      assert PairFits(user[0]);
      UserIsPairs(user[1..]);
    }
  }

  /** The property block of every packet is the literal one, and its size is what it falls short of. */
  lemma BlockIs(t: PacketType, m: Message)
    requires HasSchema(t) && MessageOk(SchemaOf(t), m)
    ensures PropertyBytes(SchemaOf(t), m) == Block(t, m)
    ensures PropertySize(SchemaOf(t), m) + Missing(t, m) == |Block(t, m)|
    ensures AllSizable(SchemaOf(t).props, MessageEntries(SchemaOf(t), m)) <==> Missing(t, m) == 0
  {
    hide Entries, EncEntries, EntriesSize, WrittenFrom, ShortFrom, Num1, Num2, Num4, Var, Text, NonEmpty, Short,
      AllSizable, PropsOk, Pairs, EncUser, UserSize;
    var s := SchemaOf(t);
    EntriesAre(s.props, m.props, 0);
    EntriesWritten(s.props, m.props, 0);
    EntriesSizeExact(s.props, MessageEntries(s, m));
    UserSizeExact(m.user);
    UserIsPairs(m.user);
    if t.Publish? {
      PublishWritten(m.props);
    } else if t.Disconnect? {
      DisconnectWritten(m.props);
    } else {
      OthersWritten(t, m.props);
    }
  }

  //
  // Bodies
  //

  function NumOf(slot: Option<Val>): nat {
    if slot.Some? && slot.value.Num? then slot.value.n else 0
  }

  function One(slot: Option<Val>): seq<byte> {
    if NumOf(slot) < 256 && slot.Some? then [NumOf(slot)] else []
  }

  function Id(slot: Option<Val>): seq<byte> {
    if NumOf(slot) < 0x1_0000 && slot.Some? then Two(NumOf(slot)) else []
  }

  function Name(slot: Option<Val>): seq<byte> {
    if slot.Some? && slot.value.Data? && |slot.value.bytes| <= 0xffff then Str(slot.value.bytes) else []
  }

  /** Topic and packet identifier; packet identifier; nothing. */
  function Head(t: PacketType, m: Message): seq<byte>
    requires HasSchema(t) && MessageOk(SchemaOf(t), m)
  {
    match t
    case Publish => Name(m.head[0]) + Id(m.head[1])
    case Disconnect => []
    case _ => Id(m.head[0])
  }

  /** A list of filters with their option bytes, of reason codes, or of topics. */
  function Listed(t: PacketType, items: seq<Slots>): seq<byte>
    requires forall i :: 0 <= i < |items| ==> |items[i]| == if t.Subscribe? then 2 else 1
  {
    if items == [] then []
    else
      (match t
       case Subscribe => Name(items[0][0]) + One(items[0][1])
       case Unsubscribe => Name(items[0][0])
       case _ => One(items[0][0])) + Listed(t, items[1..])
  }

  function Tail(t: PacketType, m: Message): seq<byte>
    requires HasSchema(t) && MessageOk(SchemaOf(t), m)
  {
    match t
    case Publish => if m.payload.Raw? && m.payload.data.Some? then m.payload.data.value else []
    case _ =>
      if m.payload.Items? && (forall i :: 0 <= i < |m.payload.items| ==>
                                |m.payload.items[i]| == if t.Subscribe? then 2 else 1)
      then Listed(t, m.payload.items) else []
  }

  function Minus(a: nat, b: nat): nat {
    if b <= a then a - b else 0
  }

  /** Property length, properties and payload. */
  function Rest(t: PacketType, m: Message): seq<byte>
    requires HasSchema(t) && MessageOk(SchemaOf(t), m)
  {
    VarInt.Encode(Minus(|Block(t, m)|, Missing(t, m))) + (Block(t, m) + Tail(t, m))
  }

  /** The short form of a response or DISCONNECT: reason Success, or none, and no properties. */
  predicate IsShort(t: PacketType, m: Message)
    requires HasSchema(t) && MessageOk(SchemaOf(t), m)
  {
    (IsPubResp(t) || t.Disconnect?) && NumOf(m.tail[0]) == 0 && Block(t, m) == []
  }

  function Layout(t: PacketType, m: Message): seq<byte>
    requires HasSchema(t) && MessageOk(SchemaOf(t), m)
  {
    Head(t, m) +
    if IsShort(t, m) then []
    else if IsPubResp(t) || t.Disconnect? then One(m.tail[0]) + Rest(t, m)
    else Rest(t, m)
  }

  /** The first byte, with the flags that a PUBLISH has there. */
  function First(t: PacketType, flags: nat): nat {
    match t
    case Connect => 0x10 case ConnAck => 0x20 case Publish => 0x30 + flags case PubAck => 0x40
    case PubRec => 0x50 case PubRel => 0x62 case PubComp => 0x70 case Subscribe => 0x82
    case SubAck => 0x90 case Unsubscribe => 0xa2 case UnsubAck => 0xb0 case PingReq => 0xc0
    case PingResp => 0xd0 case Disconnect => 0xe0 case Auth => 0xf0
  }

  /** The whole packet. */
  function Bytes(p: Packet): seq<byte>
    requires PacketOk(p)
  {
    if IsPing(p.kind) then [First(p.kind, 0), 0]
    else
      [First(p.kind, p.m.flags)] + VarInt.Encode(Minus(|Layout(p.kind, p.m)|, Missing(p.kind, p.m)))
        + Layout(p.kind, p.m)
  }

  //
  // The encoder writes this layout
  //

  lemma FieldWritten(f: Field, slot: Option<Val>)
    requires FieldOk(f, slot)
    ensures slot.Some? && f.ty == Codec.Text ==> Enc(f.ty, slot.value) == Name(slot)
    ensures slot.Some? && f.ty == U16 ==> Enc(f.ty, slot.value) == Id(slot)
    ensures slot.Some? && (f.ty == U8 || f.ty == ReasonCode) ==> Enc(f.ty, slot.value) == One(slot)
    ensures slot.None? ==> Name(slot) == Id(slot) == One(slot) == []
  {
  }

  lemma OneField(fields: seq<Field>, slots: Slots)
    requires FieldsOk(fields, slots) && |fields| == 1
    ensures FieldOk(fields[0], slots[0])
    ensures EncFields(fields, slots) == if slots[0].Some? then Enc(fields[0].ty, slots[0].value) else []
  {
    assert fields[1..] == [] && slots[1..] == [];
    assert EncFields(fields[1..], slots[1..]) == [];
    if slots[0].Some? {
      NoMore(Enc(fields[0].ty, slots[0].value));
    }
  }

  lemma TwoFields(fields: seq<Field>, slots: Slots)
    requires FieldsOk(fields, slots) && |fields| == 2 && slots[0].Some?
    ensures FieldOk(fields[0], slots[0]) && FieldOk(fields[1], slots[1])
    ensures EncFields(fields, slots) == Enc(fields[0].ty, slots[0].value) +
              if slots[1].Some? then Enc(fields[1].ty, slots[1].value) else []
  {
    OneField(fields[1..], slots[1..]);
  }

  lemma HeadIs(t: PacketType, m: Message)
    requires HasSchema(t) && MessageOk(SchemaOf(t), m)
    ensures EncFields(SchemaOf(t).head, m.head) == Head(t, m)
  {
    hide Enc, Name, Id, One, PropsOk, UserOk, PayloadOk, EncFields;
    var fields := SchemaOf(t).head;
    if t.Publish? {
      assert FieldOk(fields[0], m.head[0]);
      TwoFields(fields, m.head);
      FieldWritten(fields[0], m.head[0]);
      FieldWritten(fields[1], m.head[1]);
    } else if t.Disconnect? {
      NoFields(fields, m.head);
    } else {
      OneField(fields, m.head);
      FieldWritten(fields[0], m.head[0]);
    }
  }

  lemma NoFields(fields: seq<Field>, slots: Slots)
    requires FieldsOk(fields, slots) && fields == []
    ensures EncFields(fields, slots) == []
  {
  }

  lemma {:induction false} ItemsAre(t: PacketType, items: seq<Slots>)
    requires t.Subscribe? || t.SubAck? || t.Unsubscribe? || t.UnsubAck?
    requires ItemsOk(SchemaOf(t).payload.item, items)
    ensures forall i :: 0 <= i < |items| ==> |items[i]| == if t.Subscribe? then 2 else 1
    ensures EncItems(SchemaOf(t).payload.item, items) == Listed(t, items)
    decreases items
  {
    hide Enc, Name, Id, One, EncFields;
    var item := SchemaOf(t).payload.item;
    if items != [] {
      ItemsAre(t, items[1..]);
      assert FieldsOk(item, items[0]);
      assert forall i :: 0 < i < |items| ==> items[1..][i - 1] == items[i];
      if t.Subscribe? {
        assert FieldOk(item[0], items[0][0]) && FieldOk(item[1], items[0][1]);
        TwoFields(item, items[0]);
        FieldWritten(item[0], items[0][0]);
        FieldWritten(item[1], items[0][1]);
      } else {
        assert FieldOk(item[0], items[0][0]);
        OneField(item, items[0]);
        FieldWritten(item[0], items[0][0]);
      }
    }
  }

  lemma TailIs(t: PacketType, m: Message)
    requires HasSchema(t) && MessageOk(SchemaOf(t), m)
    ensures EncPayload(SchemaOf(t).payload, m.payload) == Tail(t, m)
  {
    hide EncItems, Listed, FieldsOk, PropsOk, UserOk;
    if SchemaOf(t).payload.ListOf? {
      ItemsAre(t, m.payload.items);
    }
  }

  lemma LayoutIs(t: PacketType, m: Message)
    requires HasSchema(t) && MessageOk(SchemaOf(t), m)
    ensures SchemaOk(SchemaOf(t)) && EncBody(SchemaOf(t), m) == Layout(t, m)
  {
    hide Block, Head, Tail, EncFields, PropertyBytes, PropertySize, EncPayload, VarInt.Encode, Missing, AllSizable,
      MessageOk, SchemaOk, IsShort, Abbreviated, SchemaOf, One;
    SchemasOk(t);
    HeadIs(t, m);
    TailIs(t, m);
    BlockIs(t, m);
    MiddleIs(t, m);
    ShortFormIs(t, m);
    Empty(VarInt.Encode(PropertySize(SchemaOf(t), m)) + (Block(t, m) + Tail(t, m)));
  }

  lemma Empty(s: seq<byte>)
    ensures [] + s == s
  {
  }

  /** The fields between packet identifier and properties. */
  lemma MiddleIs(t: PacketType, m: Message)
    requires HasSchema(t) && MessageOk(SchemaOf(t), m)
    ensures EncFields(SchemaOf(t).tail, m.tail) == if IsPubResp(t) || t.Disconnect? then One(m.tail[0]) else []
  {
    hide Enc, One, PropsOk, UserOk, PayloadOk, EncFields;
    var fields := SchemaOf(t).tail;
    if IsPubResp(t) || t.Disconnect? {
      OneField(fields, m.tail);
      FieldWritten(fields[0], m.tail[0]);
    } else {
      NoFields(fields, m.tail);
    }
  }

  lemma ShortFormIs(t: PacketType, m: Message)
    requires HasSchema(t) && MessageOk(SchemaOf(t), m) && SchemaOk(SchemaOf(t))
    ensures Abbreviated(SchemaOf(t), m) <==> IsShort(t, m)
  {
    hide Block, PropertySize, PropertyBytes, PropsOk, UserOk, PayloadOk, AllSizable;
    BlockIs(t, m);
    if IsPubResp(t) || t.Disconnect? {
      assert FieldOk(SchemaOf(t).tail[0], m.tail[0]);
    }
  }

  /** The encoder writes every packet in this layout, for sizes up to 268,435,455. */
  lemma FrameIsBytes(p: Packet)
    requires PacketOk(p) && BodySize(p) < 0x1000_0000
    ensures Frame(p) == Bytes(p)
  {
    hide Layout, VarInt.Encode, EncBody, CodecSize, MessageOk, MessageEntries, AllSizable, Block, PropertySize,
      PropertyBytes;
    FirstIs(p);
    if IsPing(p.kind) {
      FirstDigit(0);
      NoMore([First(p.kind, 0), 0]);
    } else {
      SchemasOk(p.kind);
      LayoutIs(p.kind, p.m);
      BlockIs(p.kind, p.m);
      FrameSize(p);
    }
  }

  lemma FirstIs(p: Packet)
    requires PacketOk(p)
    ensures FirstByte(p.headerType, p.m.flags) == First(p.kind, p.m.flags)
  {
    hide MessageOk;
  }

  //
  // The decoder reads it
  //

  /** What is read: a payload is never absent, a response gets a default header, the short form no reason of its own. */
  function ReadAs(p: Packet): Packet
    requires PacketOk(p)
  {
    if IsPing(p.kind) then p
    else if p.kind.Publish? then p.(m := p.m.(payload := Raw(Some(Tail(p.kind, p.m)))))
    else if IsPubResp(p.kind) then
      Packet(p.kind, Connect, p.m.(flags := 0, tail := if IsShort(p.kind, p.m) then [None] else p.m.tail))
    else if p.kind.Disconnect? && IsShort(p.kind, p.m) then p.(m := p.m.(tail := [Some(Num(0))]))
    else p
  }

  lemma RestoredIs(p: Packet)
    requires PacketOk(p)
    ensures Restored(p) == ReadAs(p)
  {
    hide Block, PropertySize, PropertyBytes, PropsOk, UserOk, Listed, SchemaOk;
    if !IsPing(p.kind) {
      SchemasOk(p.kind);
      ShortFormIs(p.kind, p.m);
      assert TailDefaults(PUBRESP) == [None] && TailDefaults(DISCONNECT) == [Some(Num(0))];
    }
  }

  /** The decoder reads the layout of every packet that satisfies the condition, whatever follows it. */
  lemma BytesAreRead(p: Packet, rest: seq<byte>)
    requires PacketOk(p) && CanRestore(p)
    ensures Decode(Bytes(p) + rest) == DecodedPacket(ReadAs(p), |Bytes(p)|)
  {
    hide Decode, Bytes, ReadAs, Frame, Restored, CanRestore, PacketOk, BodySize, Representable;
    RestorableSizable(p);
    FrameIsBytes(p);
    RestoredIs(p);
    RoundTrip(p, rest);
  }

  lemma SubscribeBytes(p: Packet)
    requires PacketOk(p) && p.kind == Subscribe
    ensures MessageOk(SUBSCRIBE, p.m)
    ensures var body := Layout(Subscribe, p.m);
            Bytes(p) == [0x82] + VarInt.Encode(Minus(|body|, Missing(Subscribe, p.m))) + body
  {
    hide VarInt.Encode, MessageOk, Layout, Missing, SchemaOk;
  }

  /** For instance the body of a SUBSCRIBE with one filter and no properties. */
  lemma OneFilter(m: Message, id: nat, filter: seq<byte>, options: byte)
    requires MessageOk(SUBSCRIBE, m) && id < 0x1_0000 && |filter| <= 0xffff
    requires m.head == [Some(Num(id))] && m.props == [None] && m.user == []
    requires m.payload == Items([[Some(Data(filter)), Some(Num(options))]])
    ensures Layout(Subscribe, m) == Two(id) + ([0] + (Str(filter) + [options])) && Missing(Subscribe, m) == 0
  {
    hide MessageOk, Block, Tail, VarInt.Encode, Str, Listed;
    NoBlock(m);
    OneTail(m, filter, options);
    FirstDigit(0);
    Empty(Str(filter) + [options]);
  }

  lemma NoBlock(m: Message)
    requires MessageOk(SUBSCRIBE, m) && m.props == [None] && m.user == []
    ensures Block(Subscribe, m) == [] && Missing(Subscribe, m) == 0
  {
    hide MessageOk;
    NoMore([]);
  }

  lemma OneTail(m: Message, filter: seq<byte>, options: byte)
    requires MessageOk(SUBSCRIBE, m) && |filter| <= 0xffff
    requires m.payload == Items([[Some(Data(filter)), Some(Num(options))]])
    ensures Tail(Subscribe, m) == Str(filter) + [options]
  {
    hide MessageOk, Str, Listed;
    OneListed(filter, options);
  }

  lemma OneListed(filter: seq<byte>, options: byte)
    requires |filter| <= 0xffff
    ensures Listed(Subscribe, [[Some(Data(filter)), Some(Num(options))]]) == Str(filter) + [options]
  {
    var items := [[Some(Data(filter)), Some(Num(options))]];
    assert items[1..] == [] && Listed(Subscribe, items[1..]) == [];
    NoMore(Str(filter) + [options]);
  }

  //
  // What it refuses
  //

  /** The first bytes that are accepted. Type 0 is taken for AUTH. */
  lemma FirstByteAccepted(b: byte)
    ensures FlagsOk(TypeOf(b), b % 16) <==>
              || 0x30 <= b < 0x40
              || b in [0x00, 0x10, 0x20, 0x40, 0x50, 0x62, 0x70, 0x82, 0x90, 0xa2, 0xb0, 0xc0, 0xd0, 0xe0, 0xf0]
  {
    var bits := b - b % 16;
    assert bits in [0x00, 0x10, 0x20, 0x30, 0x40, 0x50, 0x60, 0x70, 0x80, 0x90, 0xa0, 0xb0, 0xc0, 0xd0, 0xe0, 0xf0];
  }

  lemma FirstByteRefused(src: seq<byte>)
    requires |src| >= 2 && !(0x30 <= src[0] < 0x40)
    requires src[0] !in [0x00, 0x10, 0x20, 0x40, 0x50, 0x62, 0x70, 0x82, 0x90, 0xa2, 0xb0, 0xc0, 0xd0, 0xe0, 0xf0]
    ensures Decode(src) == DecodeFailed(MalformedPacket)
  {
    hide LengthComplete, VarInt.Decode, DecodeKind, FlagsOk, TypeOf;
    FirstByteAccepted(src[0]);
  }

  /** The reason codes. */
  lemma ReasonCodes(n: nat)
    ensures IsReason(n) <==>
              n in [0x00, 0x01, 0x02, 0x04, 0x10, 0x11, 0x18, 0x19, 0x80, 0x81, 0x82, 0x83, 0x84, 0x85, 0x86, 0x87,
                    0x88, 0x89, 0x8a, 0x8b, 0x8c, 0x8d, 0x8e, 0x8f, 0x90, 0x91, 0x92, 0x93, 0x94, 0x95, 0x96, 0x97,
                    0x98, 0x99, 0x9a, 0x9b, 0x9c, 0x9d, 0x9e, 0x9f, 0xa0, 0xa1, 0xa2]
  {
  }

  /** The property identifiers. */
  lemma PropertyIds(b: byte)
    ensures IsPropertyId(b) <==>
              b in [0x01, 0x02, 0x03, 0x08, 0x09, 0x0b, 0x11, 0x12, 0x13, 0x15, 0x16, 0x17, 0x18, 0x19, 0x1a, 0x1c,
                    0x1f, 0x21, 0x22, 0x23, 0x24, 0x25, 0x26, 0x27, 0x28, 0x29, 0x2a]
  {
  }

  /** The properties, besides user properties, that each packet type has. */
  function Allowed(t: PacketType): seq<int> {
    match t
    case Publish => [0x01, 0x02, 0x03, 0x08, 0x09, 0x0b, 0x23]
    case Subscribe => [0x0b]
    case Unsubscribe => []
    case Disconnect => [0x11, 0x1c, 0x1f]
    case _ => [0x1f]
  }

  /** Any other property is refused: as malformed if there is no such property, else as not supported. */
  lemma PropertyRefused(t: PacketType, slots: Slots, user: seq<Pair>, src: seq<byte>)
    requires HasSchema(t) && |slots| == |SchemaOf(t).props| && src != []
    requires src[0] != 0x26 && src[0] !in Allowed(t)
    ensures PropTurn(SchemaOf(t).props, slots, user, src) ==
              TurnFailed(if IsPropertyId(src[0]) then UnsupportedProperty else MalformedPacket)
  {
    hide IsPropertyId, Dec, DecPair;
    var props := SchemaOf(t).props;
    forall i | 0 <= i < |props| ensures props[i].id in Allowed(t) {
      if t.Publish? {
        assert props[0].id == 0x02 && props[1].id == 0x01 && props[2].id == 0x23 && props[3].id == 0x08
               && props[4].id == 0x09 && props[5].id == 0x0b && props[6].id == 0x03;
      }
    }
  }

  /** A field that is cut short: single numbers panic, a string without its length is malformed, the rest wait. */
  lemma CutField(t: Ty, v: Val, n: nat)
    requires Writable(t, v) && n < |Enc(t, v)|
    ensures t != Variable ==>
              Dec(t, Enc(t, v)[..n]) ==
                Failed(if t != Codec.Text && t != Binary then Panic else if n < 2 then MalformedPacket
                  else InsufficientData)
  {
    var src := Enc(t, v)[..n];
    if (t == Codec.Text || t == Binary) && n >= 2 {
      assert Get16(src) == |v.bytes|;
    }
  }
}
