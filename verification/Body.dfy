/**
  Whole packet bodies: the size, encode and decode functions the derive macros assemble from the fields of a struct,
  and exactly when the three agree.
 */
module Body {
  import opened Mqtt
  import VarInt
  import opened Codec

  //
  // Payloads
  //

  /** `Remaining` is Publish's raw payload, `ListOf` a vector of items read until the packet ends. */
  datatype PayloadTy = NoPayload | Remaining | ListOf(item: seq<Field>)

  datatype Payload = Nothing | Raw(data: Option<seq<byte>>) | Items(items: seq<Slots>)

  /** Items are made of mandatory fields, at least one. */
  predicate ItemTypeOk(item: seq<Field>) {
    item != [] && PlainFields(item) && forall i :: 0 <= i < |item| ==> item[i].presence == Mandatory
  }

  predicate ItemsOk(item: seq<Field>, items: seq<Slots>) {
    forall i :: 0 <= i < |items| ==> FieldsOk(item, items[i])
  }

  predicate PayloadOk(t: PayloadTy, p: Payload) {
    match t
    case NoPayload => p.Nothing?
    case Remaining => p.Raw?
    case ListOf(item) => p.Items? && ItemsOk(item, p.items)
  }

  function EncItems(item: seq<Field>, items: seq<Slots>): seq<byte>
    requires ItemsOk(item, items)
  {
    if items == [] then [] else EncFields(item, items[0]) + EncItems(item, items[1..])
  }

  function ItemsSize(item: seq<Field>, items: seq<Slots>): nat
    requires ItemsOk(item, items)
  {
    if items == [] then 0 else FieldsSize(item, items[0]) + ItemsSize(item, items[1..])
  }

  datatype ItemsParsed = ItemsParsed(items: seq<Slots>, size: nat) | ItemsFailed(error: CodecError)

  lemma ItemProgress(item: seq<Field>, src: seq<byte>)
    requires ItemTypeOk(item)
    ensures var r := DecFields(item, 0, src); r.FieldsParsed? ==> |r.rest| < |src|
  {
    assert IsRead(item[0], 0);
  }

  function DecItems(item: seq<Field>, src: seq<byte>): ItemsParsed
    requires ItemTypeOk(item)
    decreases |src|
  {
    if src == [] then ItemsParsed([], 0)
    else
      ItemProgress(item, src);
      match DecFields(item, 0, src)
      case FieldsFailed(e) => ItemsFailed(e)
      case FieldsParsed(slots, size, rest) =>
        match DecItems(item, rest)
        case ItemsFailed(e) => ItemsFailed(e)
        case ItemsParsed(items, size') => ItemsParsed([slots] + items, size + size')
  }

  /** `while src.has_remaining() { ... value.push(item) }` */
  method DecodeItems(item: seq<Field>, bytes: seq<byte>) returns (r: ItemsParsed)
    requires ItemTypeOk(item)
    ensures r == DecItems(item, bytes)
  {
    hide DecFields;
    var items, size: nat, src := [], 0, bytes;
    while src != []
      invariant DecItems(item, bytes) ==
                match DecItems(item, src) {
                  case ItemsFailed(e) => ItemsFailed(e)
                  case ItemsParsed(more, size') => ItemsParsed(items + more, size + size')
                }
      decreases |src|
    {
      ItemProgress(item, src);
      match DecFields(item, 0, src) {
        case FieldsFailed(e) =>
          return ItemsFailed(e);
        case FieldsParsed(slots, n, rest) =>
          assert forall more: seq<Slots> :: items + ([slots] + more) == items + [slots] + more;
          items, size, src := items + [slots], size + n, rest;
      }
    }
    r := ItemsParsed(items, size);
  }

  lemma {:induction false} ItemsRoundTrip(item: seq<Field>, items: seq<Slots>)
    requires ItemTypeOk(item) && ItemsOk(item, items)
    ensures DecItems(item, EncItems(item, items)) == ItemsParsed(items, |EncItems(item, items)|)
    decreases items
  {
    hide DecFields, EncFields;
    if items != [] {
      var first, rest := EncFields(item, items[0]), EncItems(item, items[1..]);
      ItemsRoundTrip(item, items[1..]);
      assert FieldsOk(item, items[0]);
      forall i | 0 <= i < |item| ensures items[0][i].Some? <==> IsRead(item[i], 0) {
        assert FieldOk(item[i], items[0][i]);
      }
      FieldsRoundTrip(item, items[0], 0, rest);
      ItemProgress(item, first + rest);
    }
  }

  lemma {:induction false} ItemsSizeExact(item: seq<Field>, items: seq<Slots>)
    requires ItemTypeOk(item) && ItemsOk(item, items)
    ensures |EncItems(item, items)| == ItemsSize(item, items)
    decreases items
  {
    if items != [] {
      ItemsSizeExact(item, items[1..]);
      FieldsSizeExact(item, items[0]);
    }
  }

  function EncPayload(t: PayloadTy, p: Payload): seq<byte>
    requires PayloadOk(t, p)
  {
    match t
    case NoPayload => []
    case Remaining => if p.data.Some? then p.data.value else []
    case ListOf(item) => EncItems(item, p.items)
  }

  function PayloadSize(t: PayloadTy, p: Payload): nat
    requires PayloadOk(t, p)
  {
    match t
    case NoPayload => 0
    case Remaining => if p.data.Some? then |p.data.value| else 0
    case ListOf(item) => ItemsSize(item, p.items)
  }

  datatype PayloadParsed = PayloadParsed(payload: Payload, size: nat) | PayloadFailed(error: CodecError)

  predicate PayloadTyOk(t: PayloadTy) {
    t.ListOf? ==> ItemTypeOk(t.item)
  }

  function DecPayload(t: PayloadTy, src: seq<byte>): PayloadParsed
    requires PayloadTyOk(t)
  {
    match t
    case NoPayload => PayloadParsed(Nothing, 0)
    case Remaining => PayloadParsed(Raw(Some(src)), |src|)
    case ListOf(item) =>
      match DecItems(item, src)
      case ItemsFailed(e) => PayloadFailed(e)
      case ItemsParsed(items, size) => PayloadParsed(Items(items), size)
  }

  /** The reader never leaves the raw payload absent. */
  function NormalPayload(p: Payload): Payload {
    if p == Raw(None) then Raw(Some([])) else p
  }

  lemma PayloadRoundTrip(t: PayloadTy, p: Payload)
    requires PayloadTyOk(t) && PayloadOk(t, p)
    ensures DecPayload(t, EncPayload(t, p)) == PayloadParsed(NormalPayload(p), |EncPayload(t, p)|)
    ensures |EncPayload(t, p)| == PayloadSize(t, p)
  {
    if t.ListOf? {
      ItemsRoundTrip(t.item, p.items);
      ItemsSizeExact(t.item, p.items);
    }
  }

  //
  // Schemas and messages
  //

  /**
    `tail` holds the fields marked `non_abbreviated`. When `abbreviates`, a packet whose reason is Success and that
    has no properties stops after `head`.
   */
  datatype Schema = Schema(head: seq<Field>, tail: seq<Field>, abbreviates: bool, props: seq<Prop>, payload: PayloadTy)

  datatype Message = Message(flags: nat, head: Slots, tail: Slots, props: Slots, user: seq<Pair>, payload: Payload)

  predicate SchemaOk(s: Schema) {
    && PlainFields(s.head) && PlainFields(s.tail) && PropsWellFormed(s.props) && PayloadTyOk(s.payload)
    && (forall i :: 0 <= i < |s.tail| ==> s.tail[i].presence != WithQoS)
    && (s.abbreviates ==> |s.tail| == 1 && s.tail[0].ty == ReasonCode && s.payload.NoPayload?)
    && (forall i :: 0 <= i < |s.tail| && s.tail[i].presence == MayBeAbsent ==> s.abbreviates)
    && (forall i, j :: 0 <= i < j < |s.props| ==> s.props[i].ty != Variable || s.props[j].ty != Variable)
    && (s.payload.NoPayload? ==> forall i :: 0 <= i < |s.props| ==> s.props[i].ty != Variable)
    && (s.abbreviates ==> s.tail[0].default == if s.tail[0].presence == MayBeAbsent then None else Some(Num(0)))
  }

  /** Field types, and the length checks without which encoding fails. */
  predicate MessageOk(s: Schema, m: Message) {
    && FieldsOk(s.head, m.head) && FieldsOk(s.tail, m.tail) && PropsOk(s.props, m.props)
    && UserOk(m.user) && PayloadOk(s.payload, m.payload) && m.flags < 0x10
  }

  function PropertyBytes(s: Schema, m: Message): seq<byte>
    requires MessageOk(s, m)
  {
    EntriesAre(s.props, m.props, 0);
    EncEntries(s.props, Entries(s.props, m.props, 0)) + EncUser(m.user)
  }

  /** `property_size` */
  function PropertySize(s: Schema, m: Message): nat
    requires MessageOk(s, m)
  {
    EntriesAre(s.props, m.props, 0);
    EntriesSize(s.props, Entries(s.props, m.props, 0)) + UserSize(m.user)
  }

  predicate Abbreviated(s: Schema, m: Message)
    requires SchemaOk(s) && MessageOk(s, m)
  {
    s.abbreviates && (m.tail[0] == None || m.tail[0] == Some(Num(0))) && PropertySize(s, m) == 0
  }

  /** `codec_size`: the payload is counted with the header fields, ahead of the early return. */
  function CodecSize(s: Schema, m: Message): nat
    requires SchemaOk(s) && MessageOk(s, m)
  {
    var total := FieldsSize(s.head, m.head) + PayloadSize(s.payload, m.payload);
    if Abbreviated(s, m) then total
    else total + FieldsSize(s.tail, m.tail) + PropertySize(s, m) + VarInt.Size(PropertySize(s, m))
  }

  function EncBody(s: Schema, m: Message): seq<byte>
    requires SchemaOk(s) && MessageOk(s, m)
  {
    EncFields(s.head, m.head) +
    if Abbreviated(s, m) then []
    else
      EncFields(s.tail, m.tail)
        + (VarInt.Encode(PropertySize(s, m)) + (PropertyBytes(s, m) + EncPayload(s.payload, m.payload)))
  }

  function TailDefaults(s: Schema): Slots {
    seq(|s.tail|, i requires 0 <= i < |s.tail| => s.tail[i].default)
  }

  function EmptyPayload(t: PayloadTy): Payload {
    match t
    case NoPayload => Nothing
    case Remaining => Raw(None)
    case ListOf(_) => Items([])
  }

  datatype BodyParsed = BodyParsed(m: Message, size: nat) | BodyFailed(error: CodecError)

  /** The generated `decode`, on a freshly constructed packet. */
  function DecBody(s: Schema, flags: nat, src: seq<byte>): BodyParsed
    requires SchemaOk(s)
  {
    match DecFields(s.head, flags, src)
    case FieldsFailed(e) => BodyFailed(e)
    case FieldsParsed(head, n0, src1) =>
      if s.abbreviates && src1 == [] then
        BodyParsed(Message(flags, head, TailDefaults(s), Defaults(s.props), [], EmptyPayload(s.payload)), n0)
      else
        match DecFields(s.tail, flags, src1)
        case FieldsFailed(e) => BodyFailed(e)
        case FieldsParsed(tail, n1, src2) => DecRest(s, flags, head, tail, n0 + n1, src2)
  }

  /** Properties and payload. */
  function DecRest(s: Schema, flags: nat, head: Slots, tail: Slots, read: nat, src: seq<byte>): BodyParsed
    requires SchemaOk(s)
  {
    match VarInt.Decode(src)
    case Failed(e) => BodyFailed(e)
    case Decoded(length, n, src1) =>
      match PropLoop(s.props, Defaults(s.props), [], src1, 0, length)
      case PropsFailed(e) => BodyFailed(e)
      case PropsParsed(props, user, src2, counted) =>
        match DecPayload(s.payload, src2)
        case PayloadFailed(e) => BodyFailed(e)
        case PayloadParsed(payload, n3) =>
          BodyParsed(Message(flags, head, tail, props, user, payload), read + n + counted + n3)
  }

  //
  // Size
  //

  function MessageEntries(s: Schema, m: Message): seq<Entry>
    requires MessageOk(s, m)
  {
    Entries(s.props, m.props, 0)
  }

  /** The generated sizes are exact, user properties included, iff no variable byte integer needs five bytes. */
  lemma SizeExact(s: Schema, m: Message)
    requires SchemaOk(s) && MessageOk(s, m) && PropertySize(s, m) < VarInt.FOUR_BYTES
    ensures |PropertyBytes(s, m)| == PropertySize(s, m) <==> AllSizable(s.props, MessageEntries(s, m))
    ensures |EncBody(s, m)| == CodecSize(s, m) <==> AllSizable(s.props, MessageEntries(s, m))
    ensures CodecSize(s, m) <= |EncBody(s, m)| <= CodecSize(s, m) + 1
  {
    hide EncFields, EncEntries, EncUser, EncPayload, FieldsSize, UserSize, PayloadSize, VarInt.Encode, VarInt.Size;
    var ws := MessageEntries(s, m);
    EntriesAre(s.props, m.props, 0);
    EntriesSizeExact(s.props, ws);
    OneShort(s.props, ws);
    UserSizeExact(m.user);
    FieldsSizeExact(s.head, m.head);
    FieldsSizeExact(s.tail, m.tail);
    PayloadRoundTrip(s.payload, m.payload);
    VarInt.EncodeLength(PropertySize(s, m));
    if Abbreviated(s, m) {
      NoEntries(s.props, ws);
      assert EncPayload(s.payload, m.payload) == [] by { EmptyWhenAbbreviated(s, m); }
    }
  }

  /** With at most one variable byte integer among the properties, the size is at most one byte short. */
  lemma {:induction false} OneShort(props: seq<Prop>, ws: seq<Entry>)
    requires EntriesOk(props, ws) && DistinctPositions(ws)
    requires forall i, j :: 0 <= i < j < |props| ==> props[i].ty != Variable || props[j].ty != Variable
    ensures |EncEntries(props, ws)| <= EntriesSize(props, ws) + 1
    decreases ws
  {
    if ws != [] {
      assert EntryOk(props, ws[0]) && EntriesOk(props, ws[1..]);
      EncSize(props[ws[0].i].ty, ws[0].v);
      if props[ws[0].i].ty == Variable {
        EntriesSizeExact(props, ws[1..]);
        forall j | 0 <= j < |ws[1..]| ensures EntrySizable(props, ws[1..][j]) {
          assert EntryOk(props, ws[1..][j]) && ws[j + 1].i != ws[0].i;
        }
      } else {
        OneShort(props, ws[1..]);
      }
    }
  }

  lemma NoEntries(props: seq<Prop>, ws: seq<Entry>)
    requires EntriesOk(props, ws) && EntriesSize(props, ws) == 0
    ensures ws == []
  {
  }

  lemma EmptyWhenAbbreviated(s: Schema, m: Message)
    requires SchemaOk(s) && MessageOk(s, m) && s.abbreviates
    ensures EncPayload(s.payload, m.payload) == []
  {
  }

  //
  // Round trip
  //

  ghost predicate TailGiven(s: Schema, m: Message) {
    forall i :: 0 <= i < |m.tail| ==> m.tail[i].Some?
  }

  /** What a caller can check before encoding: the packet will be read back. */
  ghost predicate Restorable(s: Schema, m: Message)
    requires SchemaOk(s) && MessageOk(s, m)
  {
    && Agree(s.head, m.head, m.flags)
    && (Abbreviated(s, m) || TailGiven(s, m))
    && m.user == []
    && AllReadable(s.props, MessageEntries(s, m))
  }

  /** The reader fills in the default reason of an abbreviated packet, and never leaves a raw payload absent. */
  function Normal(s: Schema, m: Message): Message
    requires SchemaOk(s) && MessageOk(s, m)
  {
    m.(tail := if Abbreviated(s, m) then TailDefaults(s) else m.tail, payload := NormalPayload(m.payload))
  }

  /** Messages are the same when they differ only in that: no reason is Success, no payload is an empty one. */
  function Canonical(s: Schema, m: Message): Message {
    m.(tail := if s.abbreviates && m.tail == [None] then [Some(Num(0))] else m.tail,
       payload := NormalPayload(m.payload))
  }

  lemma NormalSame(s: Schema, m: Message)
    requires SchemaOk(s) && MessageOk(s, m)
    ensures Canonical(s, Normal(s, m)) == Canonical(s, m)
  {
    if Abbreviated(s, m) {
      assert FieldOk(s.tail[0], m.tail[0]);
      assert m.tail == [m.tail[0]];
      assert TailDefaults(s) == [s.tail[0].default];
    }
  }

  lemma ReadableSizable(props: seq<Prop>, ws: seq<Entry>)
    requires AllReadable(props, ws)
    ensures AllSizable(props, ws)
  {
    forall j | 0 <= j < |ws| ensures EntrySizable(props, ws[j]) {
      assert EntryReadable(props, ws[j]);
    }
  }

  lemma BodyRoundTrip(s: Schema, m: Message)
    requires SchemaOk(s) && MessageOk(s, m) && QoSBits(m.flags) != 3 && PropertySize(s, m) < VarInt.THREE_BYTES
    requires Restorable(s, m)
    ensures DecBody(s, m.flags, EncBody(s, m)) == BodyParsed(Normal(s, m), |EncBody(s, m)|)
  {
    hide DecFields, EncFields, DecRest, VarInt.Encode, PropertyBytes, EncPayload, PropertySize;
    var src := EncBody(s, m);
    var head := EncFields(s.head, m.head);
    if Abbreviated(s, m) {
      assert src == head + [];
      FieldsRoundTrip(s.head, m.head, m.flags, []);
      AbbreviatedProps(s, m);
    } else {
      FieldsRead(s, m);
      RestUserKept(s, m, |head| + |EncFields(s.tail, m.tail)|);
    }
  }

  lemma TailAgrees(s: Schema, m: Message)
    requires SchemaOk(s) && MessageOk(s, m) && TailGiven(s, m)
    ensures Agree(s.tail, m.tail, m.flags)
  {
  }

  /** An abbreviated packet has nothing the short form would lose. */
  lemma AbbreviatedProps(s: Schema, m: Message)
    requires SchemaOk(s) && MessageOk(s, m) && Abbreviated(s, m)
    ensures m.props == Defaults(s.props) && m.user == [] && m.payload == Nothing == EmptyPayload(s.payload)
    ensures MessageEntries(s, m) == []
  {
    EntriesAre(s.props, m.props, 0);
    NoEntries(s.props, MessageEntries(s, m));
    EntriesRestore(s.props, m.props);
  }

  //
  // Every other packet is not read back
  //

  ghost predicate ReadsBack(s: Schema, m: Message)
    requires SchemaOk(s) && MessageOk(s, m)
  {
    var r := DecBody(s, m.flags, EncBody(s, m));
    r.BodyParsed? && Canonical(s, r.m) == Canonical(s, m) && r.size == |EncBody(s, m)|
  }

  /**
    With readable properties, the reader gets all of them and the first `Kept` user properties, counting four bytes
    too many for each. What is left of the user properties goes to the payload.
   */
  lemma RestWithUser(s: Schema, m: Message, read: nat)
    requires SchemaOk(s) && MessageOk(s, m) && PropertySize(s, m) < VarInt.THREE_BYTES
    requires AllReadable(s.props, MessageEntries(s, m))
    ensures var k := Kept(m.user, 0);
            var src := VarInt.Encode(PropertySize(s, m)) + (PropertyBytes(s, m) + EncPayload(s.payload, m.payload));
            var left := EncUser(m.user[k..]) + EncPayload(s.payload, m.payload);
            var r := DecRest(s, m.flags, m.head, m.tail, read, src);
            match DecPayload(s.payload, left)
            case PayloadFailed(e) => r == BodyFailed(e)
            case PayloadParsed(payload, n) =>
              && r.BodyParsed? && r.m == m.(user := m.user[..k], payload := payload)
              && r.size + |left| == read + |src| + 4 * k + n
  {
    hide PropTurn, VarInt.Decode, VarInt.Encode, EncPayload, DecPayload, Apply, Entries, EncEntries, EntriesSize,
      VarInt.Size, EncUser, UserSize, Kept;
    var ws := MessageEntries(s, m);
    var payload := EncPayload(s.payload, m.payload);
    var size, k := PropertySize(s, m), Kept(m.user, 0);
    EntriesAre(s.props, m.props, 0);
    EntriesRestore(s.props, m.props);
    EntriesSizeExact(s.props, ws);
    ReadableSizable(s.props, ws);
    UserSizeExact(m.user);
    UserSplit(m.user, k);
    VarInt.RoundTrip(size, PropertyBytes(s, m) + payload);
    VarInt.EncodeLength(size);
    assert PropertyBytes(s, m) + payload == EncEntries(s.props, ws) + (EncUser(m.user) + payload);
    LoopOverEntries(s.props, Defaults(s.props), [], ws, EncUser(m.user) + payload, 0, size);
    LoopOverUser(s.props, m.props, [], m.user, payload, EntriesSize(s.props, ws), size, 0);
    assert [] + m.user[..k] == m.user[..k];
  }

  lemma {:induction false} UserSplit(user: seq<Pair>, k: nat)
    requires UserOk(user) && k <= |user|
    ensures |EncUser(user)| == |EncUser(user[..k])| + |EncUser(user[k..])|
  {
    if k == 0 {
      assert user[0..] == user;
    } else {
      assert PairFits(user[0]) && user[1..][k - 1..] == user[k..] && user[..k][1..] == user[1..][..k - 1];
      UserSplit(user[1..], k - 1);
    }
  }

  /** If all user properties are collected, the message itself is read, and only the count is wrong. */
  lemma RestUserKept(s: Schema, m: Message, read: nat)
    requires SchemaOk(s) && MessageOk(s, m) && PropertySize(s, m) < VarInt.THREE_BYTES
    requires AllReadable(s.props, MessageEntries(s, m)) && Kept(m.user, 0) == |m.user|
    ensures var src := VarInt.Encode(PropertySize(s, m)) + (PropertyBytes(s, m) + EncPayload(s.payload, m.payload));
            DecRest(s, m.flags, m.head, m.tail, read, src) ==
              BodyParsed(m.(payload := NormalPayload(m.payload)), read + |src| + 4 * |m.user|)
  {
    hide DecRest, Kept, PropertyBytes, PropertySize, VarInt.Encode, DecPayload, EncPayload, MessageEntries;
    RestWithUser(s, m, read);
    PayloadRoundTrip(s.payload, m.payload);
    assert m.user[|m.user|..] == [] && m.user[..|m.user|] == m.user;
    assert EncUser([]) + EncPayload(s.payload, m.payload) == EncPayload(s.payload, m.payload);
  }

  /** The reader gets through the fields of a body in full form. */
  lemma FieldsRead(s: Schema, m: Message)
    requires SchemaOk(s) && MessageOk(s, m) && QoSBits(m.flags) != 3
    requires Agree(s.head, m.head, m.flags) && TailGiven(s, m) && !Abbreviated(s, m)
    ensures var rest := VarInt.Encode(PropertySize(s, m)) + (PropertyBytes(s, m) + EncPayload(s.payload, m.payload));
            var read := |EncFields(s.head, m.head)| + |EncFields(s.tail, m.tail)|;
            && |EncBody(s, m)| == read + |rest|
            && DecBody(s, m.flags, EncBody(s, m)) == DecRest(s, m.flags, m.head, m.tail, read, rest)
  {
    hide DecFields, EncFields, DecRest, VarInt.Encode, PropertyBytes, EncPayload, PropertySize, Abbreviated;
    var head, tail := EncFields(s.head, m.head), EncFields(s.tail, m.tail);
    var rest := VarInt.Encode(PropertySize(s, m)) + (PropertyBytes(s, m) + EncPayload(s.payload, m.payload));
    assert EncBody(s, m) == head + (tail + rest);
    FieldsRoundTrip(s.head, m.head, m.flags, tail + rest);
    TailAgrees(s, m);
    FieldsRoundTrip(s.tail, m.tail, m.flags, rest);
  }

  /** A body whose user properties are all collected is read in full, with a count four too high for each. */
  lemma BodyUserKept(s: Schema, m: Message)
    requires SchemaOk(s) && MessageOk(s, m) && QoSBits(m.flags) != 3 && PropertySize(s, m) < VarInt.THREE_BYTES
    requires Agree(s.head, m.head, m.flags) && TailGiven(s, m) && AllReadable(s.props, MessageEntries(s, m))
    requires m.user != [] && Kept(m.user, 0) == |m.user|
    ensures DecBody(s, m.flags, EncBody(s, m)) == BodyParsed(Normal(s, m), |EncBody(s, m)| + 4 * |m.user|)
  {
    hide DecBody, EncBody, EncFields, DecRest, VarInt.Encode, PropertyBytes, EncPayload, Kept, MessageEntries,
      AllReadable, Agree, SchemaOk, TailGiven;
    UserMeansProperties(s, m);
    FieldsRead(s, m);
    RestUserKept(s, m, |EncFields(s.head, m.head)| + |EncFields(s.tail, m.tail)|);
  }

  lemma UserMeansProperties(s: Schema, m: Message)
    requires SchemaOk(s) && MessageOk(s, m) && m.user != []
    ensures !Abbreviated(s, m)
  {
    UserSizeExact(m.user);
  }

  /** Unreadable properties are refused; user properties are left to the payload or overcounted. */
  lemma RestLost(s: Schema, m: Message, read: nat)
    requires SchemaOk(s) && MessageOk(s, m) && PropertySize(s, m) < VarInt.THREE_BYTES
    requires m.user != [] || !AllReadable(s.props, MessageEntries(s, m))
    ensures var src := VarInt.Encode(PropertySize(s, m)) + (PropertyBytes(s, m) + EncPayload(s.payload, m.payload));
            var r := DecRest(s, m.flags, m.head, m.tail, read, src);
            r.BodyParsed? ==> r.m.user != m.user || r.size != read + |src|
  {
    hide Kept, PropertySize, DecPayload;
    if AllReadable(s.props, MessageEntries(s, m)) {
      RestWithUser(s, m, read);
      if Kept(m.user, 0) == |m.user| {
        RestUserKept(s, m, read);
      }
    } else {
      RestRefused(s, m, read);
    }
  }

  lemma RestRefused(s: Schema, m: Message, read: nat)
    requires SchemaOk(s) && MessageOk(s, m) && PropertySize(s, m) < VarInt.THREE_BYTES
    requires !AllReadable(s.props, MessageEntries(s, m))
    ensures var src := VarInt.Encode(PropertySize(s, m)) + (PropertyBytes(s, m) + EncPayload(s.payload, m.payload));
            DecRest(s, m.flags, m.head, m.tail, read, src) == BodyFailed(MalformedPacket)
  {
    hide PropTurn, VarInt.Decode, VarInt.Encode, EncPayload, DecPayload, Apply, Entries, EncEntries, EntriesSize,
      VarInt.Size, EncUser, UserSize;
    var ws := MessageEntries(s, m);
    var payload, size := EncPayload(s.payload, m.payload), PropertySize(s, m);
    EntriesAre(s.props, m.props, 0);
    VarInt.RoundTrip(size, PropertyBytes(s, m) + payload);
    assert PropertyBytes(s, m) + payload == EncEntries(s.props, ws) + (EncUser(m.user) + payload);
    LoopOverEntries(s.props, Defaults(s.props), [], ws, EncUser(m.user) + payload, 0, size);
  }

  /** Without a reason, the property length is read as one. */
  lemma ReasonMisread(s: Schema, m: Message, rest: seq<byte>)
    requires SchemaOk(s) && MessageOk(s, m) && s.abbreviates && m.tail == [None] && PropertySize(s, m) > 0
    ensures var r := DecFields(s.tail, m.flags, VarInt.Encode(PropertySize(s, m)) + rest);
            r.FieldsParsed? ==> |r.slots| == 1 && r.slots[0].Some? && r.slots[0] != Some(Num(0))
  {
    hide PropertySize, VarInt.Encode;
    var size := PropertySize(s, m);
    VarInt.EncodeForm(size);
    var src := VarInt.Encode(size) + rest;
    assert src[0] == VarInt.Encode(size)[0] != 0;
    assert IsRead(s.tail[0], m.flags) && Dec(s.tail[0].ty, src).Parsed? ==> Dec(s.tail[0].ty, src).v == Num(src[0]);
  }

  /** The body is read back iff the packet is restorable. */
  lemma ReadsBackIff(s: Schema, m: Message)
    requires SchemaOk(s) && MessageOk(s, m) && QoSBits(m.flags) != 3 && PropertySize(s, m) < VarInt.THREE_BYTES
    ensures ReadsBack(s, m) <==> Restorable(s, m)
  {
    hide DecFields, EncFields, DecRest, VarInt.Encode, PropertyBytes, EncPayload, PropertySize;
    if Restorable(s, m) {
      BodyRoundTrip(s, m);
      NormalSame(s, m);
    } else if Agree(s.head, m.head, m.flags) {
      if Abbreviated(s, m) {
        AbbreviatedProps(s, m);
        assert false;
      }
      var head, tail := EncFields(s.head, m.head), EncFields(s.tail, m.tail);
      var rest := VarInt.Encode(PropertySize(s, m)) + (PropertyBytes(s, m) + EncPayload(s.payload, m.payload));
      assert EncBody(s, m) == head + (tail + rest);
      FieldsRoundTrip(s.head, m.head, m.flags, tail + rest);
      if TailGiven(s, m) {
        TailAgrees(s, m);
        FieldsRoundTrip(s.tail, m.tail, m.flags, rest);
        RestLost(s, m, |head| + |tail|);
        RestKeeps(s, m.flags, m.head, m.tail, |head| + |tail|, rest);
      } else {
        MissingTail(s, m);
        assert tail + rest == rest;
        ReasonMisread(s, m, PropertyBytes(s, m) + EncPayload(s.payload, m.payload));
        var r := DecFields(s.tail, m.flags, rest);
        if r.FieldsParsed? {
          RestKeeps(s, m.flags, m.head, r.slots, |head| + r.size, r.rest);
        }
      }
    } else {
      HeadKept(s, m);
    }
  }

  lemma RestKeeps(s: Schema, flags: nat, head: Slots, tail: Slots, read: nat, src: seq<byte>)
    requires SchemaOk(s)
    ensures var r := DecRest(s, flags, head, tail, read, src);
            r.BodyParsed? ==> r.m.head == head && r.m.tail == tail
  {
  }

  /** Whatever is decoded, a header field is present iff it was read. */
  lemma HeadKept(s: Schema, m: Message)
    requires SchemaOk(s) && MessageOk(s, m) && !Agree(s.head, m.head, m.flags)
    ensures var r := DecBody(s, m.flags, EncBody(s, m)); r.BodyParsed? ==> r.m.head != m.head
  {
    hide EncBody, DecRest;
    var src := EncBody(s, m);
    var r := DecFields(s.head, m.flags, src);
    if r.FieldsParsed? {
      var t := DecFields(s.tail, m.flags, r.rest);
      if t.FieldsParsed? {
        RestKeeps(s, m.flags, r.slots, t.slots, r.size + t.size, t.rest);
      }
    }
  }

  lemma MissingTail(s: Schema, m: Message)
    requires SchemaOk(s) && MessageOk(s, m) && !TailGiven(s, m) && !Abbreviated(s, m)
    ensures s.abbreviates && m.tail == [None] && EncFields(s.tail, m.tail) == [] && PropertySize(s, m) > 0
  {
    var i :| 0 <= i < |m.tail| && m.tail[i].None?;
    assert FieldOk(s.tail[i], m.tail[i]);
    assert s.abbreviates && i == 0;
    assert m.tail == [m.tail[0]];
  }

  //
  // Order of properties
  //

  /** Properties in any order, preceded by their length and followed by a payload. */
  function WireProps(s: Schema, ws: seq<Entry>, payload: seq<byte>): seq<byte>
    requires EntriesOk(s.props, ws)
  {
    VarInt.Encode(|EncEntries(s.props, ws)|) + (EncEntries(s.props, ws) + payload)
  }

  /** The loop stops exactly at the property length, with each property set once. */
  lemma WirePropsRead(s: Schema, ws: seq<Entry>, payload: seq<byte>)
    requires SchemaOk(s) && EntriesOk(s.props, ws) && AllReadable(s.props, ws)
    requires |EncEntries(s.props, ws)| < VarInt.THREE_BYTES
    ensures forall j :: 0 <= j < |ws| ==> ws[j].i < |s.props|
    ensures var length := |EncEntries(s.props, ws)|;
            && VarInt.Decode(WireProps(s, ws, payload)) ==
              VarInt.Decoded(length, VarInt.Size(length), EncEntries(s.props, ws) + payload)
            && PropLoop(s.props, Defaults(s.props), [], EncEntries(s.props, ws) + payload, 0, length) ==
               PropsParsed(Apply(Defaults(s.props), ws), [], payload, length)
  {
    hide VarInt.Decode, VarInt.Encode, VarInt.Size, EncEntries, EntriesSize, PropTurn, Apply;
    var length := |EncEntries(s.props, ws)|;
    EntriesSizeExact(s.props, ws);
    ReadableSizable(s.props, ws);
    LoopOverEntries(s.props, Defaults(s.props), [], ws, payload, 0, length);
    VarInt.RoundTrip(length, EncEntries(s.props, ws) + payload);
  }

  /** Any two orders of the same properties decode to the same packet and byte count. */
  lemma PropertyOrder(s: Schema, flags: nat, head: Slots, tail: Slots, read: nat,
                      ws: seq<Entry>, ws': seq<Entry>, payload: seq<byte>)
    requires SchemaOk(s) && EntriesOk(s.props, ws) && AllReadable(s.props, ws)
    requires |EncEntries(s.props, ws)| < VarInt.THREE_BYTES
    requires DistinctPositions(ws) && DistinctPositions(ws') && forall w :: w in ws <==> w in ws'
    ensures EntriesOk(s.props, ws')
    ensures DecRest(s, flags, head, tail, read, WireProps(s, ws', payload)) ==
            DecRest(s, flags, head, tail, read, WireProps(s, ws, payload))
  {
    hide VarInt.Decode, VarInt.Encode, VarInt.Size, EncEntries, EntriesSize, PropLoop, Apply, WireProps, DecPayload;
    forall j | 0 <= j < |ws'| ensures EntryOk(s.props, ws'[j]) && EntryReadable(s.props, ws'[j]) {
      assert ws'[j] in ws;
      var k :| 0 <= k < |ws| && ws[k] == ws'[j];
      assert EntryOk(s.props, ws[k]) && EntryReadable(s.props, ws[k]);
    }
    WirePropsRead(s, ws, payload);
    EncLengthOrder(s.props, ws, ws');
    WirePropsRead(s, ws', payload);
    ApplyOrder(Defaults(s.props), ws, ws');
  }

  //
  // Counts on arbitrary input
  //

  lemma {:induction false} ItemsCount(item: seq<Field>, src: seq<byte>)
    requires ItemTypeOk(item)
    ensures var r := DecItems(item, src); r.ItemsParsed? ==> r.size == |src|
    decreases |src|
  {
    hide DecFields;
    if src != [] {
      ItemProgress(item, src);
      var r := DecFields(item, 0, src);
      if r.FieldsParsed? {
        ItemsCount(item, r.rest);
      }
    }
  }

  /** A packet that ends in a payload is counted in full, plus four for each user property. */
  lemma BodyCount(s: Schema, flags: nat, src: seq<byte>)
    requires SchemaOk(s) && s.payload != NoPayload
    ensures var r := DecBody(s, flags, src); r.BodyParsed? ==> r.size == |src| + 4 * |r.m.user|
  {
    hide DecFields, VarInt.Decode, PropTurn, PropLoop;
    var h := DecFields(s.head, flags, src);
    if h.FieldsParsed? {
      var t := DecFields(s.tail, flags, h.rest);
      if t.FieldsParsed? && VarInt.Decode(t.rest).Decoded? {
        var l := VarInt.Decode(t.rest);
        LoopCount(s.props, Defaults(s.props), [], l.rest, 0, l.value);
        var p := PropLoop(s.props, Defaults(s.props), [], l.rest, 0, l.value);
        if p.PropsParsed? && s.payload.ListOf? {
          ItemsCount(s.payload.item, p.rest);
        }
      }
    }
  }
}
