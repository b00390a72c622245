/**
  The code the derive macros of vaux-macro generate for a packet struct, as three interpreters of one field schema:
  size (size.rs, lib.rs), encode (encode.rs) and decode (decode.rs, and publish.rs for Publish).
  This file holds the fields; Body.dfy puts them together.
 */
module Codec {
  import opened Mqtt
  import VarInt

  //
  // Field types
  //

  datatype Ty = U8 | U16 | U32 | Variable | Text | Binary | ReasonCode | Format

  /** Numbers, and byte strings: text is the UTF-8 bytes, taken as they come. */
  datatype Val = Num(n: nat) | Data(bytes: seq<byte>)

  predicate IsReason(n: nat) {
    n <= 0x02 || n == 0x04 || 0x10 <= n <= 0x11 || 0x18 <= n <= 0x19 || 0x80 <= n <= 0xa2
  }

  predicate HasType(t: Ty, v: Val) {
    match t
    case U8 => v.Num? && v.n < 0x100
    case U16 => v.Num? && v.n < 0x1_0000
    case U32 => v.Num? && v.n < 0x1_0000_0000
    case Variable => v.Num? && v.n < 0x1_0000_0000
    case Text => v.Data?
    case Binary => v.Data?
    case ReasonCode => v.Num? && IsReason(v.n)
    case Format => v.Num? && v.n < 2
  }

  /** What `encode_string` and `encode_array_field` check. */
  predicate Fits(v: Val) {
    v.Data? ==> |v.bytes| <= 0xffff
  }

  predicate Writable(t: Ty, v: Val) {
    HasType(t, v) && Fits(v)
  }

  /** Values the reader gets back: it refuses variable byte integers from 2^21 up. */
  predicate Readable(t: Ty, v: Val) {
    t == Variable && v.Num? ==> v.n < VarInt.THREE_BYTES
  }

  /** Values whose generated size is right: `variable_byte_int_size` stops at four bytes. */
  predicate Sizable(t: Ty, v: Val) {
    t == Variable && v.Num? ==> v.n < VarInt.FOUR_BYTES
  }

  function ValSize(t: Ty, v: Val): nat
    requires HasType(t, v)
  {
    match t
    case U8 => 1
    case U16 => 2
    case U32 => 4
    case Variable => VarInt.Size(v.n)
    case Text => 2 + |v.bytes|
    case Binary => 2 + |v.bytes|
    case ReasonCode => 1
    case Format => 1
  }

  function Put16(n: nat): seq<byte>
    requires n < 0x1_0000
  {
    [n / 0x100, n % 0x100]
  }

  function Put32(n: nat): seq<byte>
    requires n < 0x1_0000_0000
  {
    Put16(n / 0x1_0000) + Put16(n % 0x1_0000)
  }

  function Get16(src: seq<byte>): nat
    requires |src| >= 2
  {
    src[0] as int * 0x100 + src[1]
  }

  function Enc(t: Ty, v: Val): seq<byte>
    requires Writable(t, v)
  {
    match t
    case U8 => [v.n]
    case U16 => Put16(v.n)
    case U32 => Put32(v.n)
    case Variable => VarInt.Encode(v.n)
    case Text => Put16(|v.bytes|) + v.bytes
    case Binary => Put16(|v.bytes|) + v.bytes
    case ReasonCode => [v.n]
    case Format => [v.n]
  }

  datatype Parsed = Parsed(v: Val, size: nat, rest: seq<byte>) | Failed(error: CodecError)

  function Dec(t: Ty, src: seq<byte>): (r: Parsed)
    ensures r.Parsed? ==> 1 <= r.size && r.size + |r.rest| == |src|
  {
    match t
    case U8 => if |src| < 1 then Failed(Panic) else Parsed(Num(src[0]), 1, src[1..])
    case U16 => if |src| < 2 then Failed(Panic) else Parsed(Num(Get16(src)), 2, src[2..])
    case U32 => if |src| < 4 then Failed(Panic) else Parsed(Num(Get16(src) * 0x1_0000 + Get16(src[2..])), 4, src[4..])
    case Variable => (
      match VarInt.Decode(src)
      case Decoded(n, size, rest) => Parsed(Num(n), size, rest)
      case Failed(e) => Failed(e))
    case Text => DecBytes(src)
    case Binary => DecBytes(src)
    case ReasonCode =>
      if |src| < 1 then Failed(Panic)
      else if !IsReason(src[0]) then Failed(MalformedPacket)
      else Parsed(Num(src[0]), 1, src[1..])
    case Format =>
      if |src| < 1 then Failed(Panic)
      else if src[0] >= 2 then Failed(MalformedPacket)
      else Parsed(Num(src[0]), 1, src[1..])
  }

  function DecBytes(src: seq<byte>): (r: Parsed)
    ensures r.Parsed? ==> r.v.Data? && 1 <= r.size && r.size + |r.rest| == |src|
  {
    if |src| < 2 then Failed(MalformedPacket)
    else
      var len := Get16(src);
      if |src| - 2 < len then Failed(InsufficientData)
      else Parsed(Data(src[2..2 + len]), 2 + len, src[2 + len..])
  }

  lemma EncSize(t: Ty, v: Val)
    requires Writable(t, v)
    ensures |Enc(t, v)| >= 1
    ensures |Enc(t, v)| == ValSize(t, v) + if Sizable(t, v) then 0 else 1
  {
    if t == Variable {
      VarInt.EncodeLength(v.n);
    }
  }

  /** Reading what was written, whatever follows it. */
  lemma DecEnc(t: Ty, v: Val, rest: seq<byte>)
    requires Writable(t, v)
    ensures Dec(t, Enc(t, v) + rest) ==
            if Readable(t, v) then Parsed(v, |Enc(t, v)|, rest) else Failed(MalformedPacket)
  {
    hide VarInt.Decode, VarInt.Encode, VarInt.Size, DecBytes;
    var src := Enc(t, v) + rest;
    match t
    case U8 => assert src[1..] == rest;
    case U16 => assert src[2..] == rest;
    case U32 => assert src[4..] == rest;
    case Variable => VarInt.RoundTrip(v.n, rest); VarInt.EncodeLength(v.n);
    case Text => DecEncBytes(v.bytes, rest);
    case Binary => DecEncBytes(v.bytes, rest);
    case ReasonCode => assert src[1..] == rest;
    case Format => assert src[1..] == rest;
  }

  lemma DecEncBytes(bytes: seq<byte>, rest: seq<byte>)
    requires |bytes| <= 0xffff
    ensures DecBytes(Put16(|bytes|) + bytes + rest) == Parsed(Data(bytes), 2 + |bytes|, rest)
  {
    var src := Put16(|bytes|) + bytes + rest;
    assert Get16(src) == |bytes|;
    assert src[2..2 + |bytes|] == bytes && src[2 + |bytes|..] == rest;
  }

  //
  // Header fields
  //

  /**
    `Mandatory` fields are plain struct fields. `WithQoS` is Publish's packet identifier: written when present,
    read when the header carries a QoS above zero. `MayBeAbsent` is an `Option` the reader always reads.
   */
  datatype Presence = Mandatory | WithQoS | MayBeAbsent

  datatype Field = Field(ty: Ty, presence: Presence, default: Option<Val>)

  type Slots = seq<Option<Val>>

  predicate FieldOk(f: Field, slot: Option<Val>) {
    (f.presence == Mandatory ==> slot.Some?) && (slot.Some? ==> Writable(f.ty, slot.value))
  }

  predicate FieldsOk(fields: seq<Field>, slots: Slots) {
    |fields| == |slots| && forall i :: 0 <= i < |fields| ==> FieldOk(fields[i], slots[i])
  }

  function FieldsSize(fields: seq<Field>, slots: Slots): nat
    requires FieldsOk(fields, slots)
  {
    if fields == [] then 0
    else
      (if slots[0].Some? then ValSize(fields[0].ty, slots[0].value) else 0) + FieldsSize(fields[1..], slots[1..])
  }

  function EncFields(fields: seq<Field>, slots: Slots): seq<byte>
    requires FieldsOk(fields, slots)
  {
    if fields == [] then []
    else (if slots[0].Some? then Enc(fields[0].ty, slots[0].value) else []) + EncFields(fields[1..], slots[1..])
  }

  /** The QoS bits of the fixed header; three of the four values are legal. */
  function QoSBits(flags: nat): nat {
    flags / 2 % 4
  }

  predicate IsRead(f: Field, flags: nat) {
    f.presence == WithQoS ==> QoSBits(flags) > 0
  }

  datatype FieldsParsed = FieldsParsed(slots: Slots, size: nat, rest: seq<byte>) | FieldsFailed(error: CodecError)

  function DecFields(fields: seq<Field>, flags: nat, src: seq<byte>): (r: FieldsParsed)
    ensures r.FieldsParsed? ==>
              && |r.slots| == |fields| && r.size + |r.rest| == |src|
              && forall i :: 0 <= i < |fields| ==> (r.slots[i].Some? <==> IsRead(fields[i], flags))
    decreases fields
  {
    if fields == [] then FieldsParsed([], 0, src)
    else if fields[0].presence == WithQoS && QoSBits(flags) == 3 then FieldsFailed(Panic)
    else if IsRead(fields[0], flags) then
      match Dec(fields[0].ty, src) {
        case Failed(e) => FieldsFailed(e)
        case Parsed(v, size, rest) =>
          match DecFields(fields[1..], flags, rest)
          case FieldsFailed(e) => FieldsFailed(e)
          case FieldsParsed(slots, size', rest') => FieldsParsed([Some(v)] + slots, size + size', rest')
      }
    else
      match DecFields(fields[1..], flags, src)
      case FieldsFailed(e) => FieldsFailed(e)
      case FieldsParsed(slots, size, rest) => FieldsParsed([None] + slots, size, rest)
  }

  /** The fields written are the fields that will be read. */
  predicate Agree(fields: seq<Field>, slots: Slots, flags: nat) {
    |fields| == |slots| && forall i :: 0 <= i < |fields| ==> (slots[i].Some? <==> IsRead(fields[i], flags))
  }

  /** Schemas use no variable byte integer outside the properties. */
  predicate PlainFields(fields: seq<Field>) {
    forall i :: 0 <= i < |fields| ==> fields[i].ty != Variable
  }

  lemma {:induction false} FieldsRoundTrip(fields: seq<Field>, slots: Slots, flags: nat, rest: seq<byte>)
    requires FieldsOk(fields, slots) && PlainFields(fields) && QoSBits(flags) != 3
    requires Agree(fields, slots, flags)
    ensures DecFields(fields, flags, EncFields(fields, slots) + rest) ==
            FieldsParsed(slots, |EncFields(fields, slots)|, rest)
    decreases fields
  {
    var src := EncFields(fields, slots) + rest;
    if fields == [] {
      assert src == rest;
    } else {
      var tail := EncFields(fields[1..], slots[1..]);
      FieldsRoundTrip(fields[1..], slots[1..], flags, rest);
      assert FieldOk(fields[0], slots[0]) && slots == [slots[0]] + slots[1..];
      if slots[0].Some? {
        var first := Enc(fields[0].ty, slots[0].value);
        Rotate(first, tail, rest);
        DecEnc(fields[0].ty, slots[0].value, tail + rest);
      } else {
        assert EncFields(fields, slots) == tail && src == tail + rest;
      }
    }
  }

  lemma Rotate(a: seq<byte>, b: seq<byte>, c: seq<byte>)
    ensures a + b + c == a + (b + c)
  {
  }

  lemma {:induction false} FieldsSizeExact(fields: seq<Field>, slots: Slots)
    requires FieldsOk(fields, slots) && PlainFields(fields)
    ensures |EncFields(fields, slots)| == FieldsSize(fields, slots)
    decreases fields
  {
    if fields != [] {
      FieldsSizeExact(fields[1..], slots[1..]);
      if slots[0].Some? {
        assert FieldOk(fields[0], slots[0]);
        EncSize(fields[0].ty, slots[0].value);
      }
    }
  }

  //
  // Properties
  //

  const USER_PROPERTY: byte := 0x26

  /** The identifiers `PropertyType::try_from` accepts. */
  predicate IsPropertyId(id: byte) {
    || 0x01 <= id <= 0x03 || 0x08 <= id <= 0x09 || id == 0x0b || 0x11 <= id <= 0x13 || 0x15 <= id <= 0x1a
    || id == 0x1c || id == 0x1f || 0x21 <= id <= 0x2a
  }

  /** `Optional` is an `Option`, `Required` a plain field, `SkipEmpty` a byte vector that is skipped when empty. */
  datatype Mode = Optional | Required | SkipEmpty

  datatype Prop = Prop(id: byte, ty: Ty, mode: Mode)

  datatype Pair = Pair(key: seq<byte>, value: seq<byte>)

  predicate PropsWellFormed(props: seq<Prop>) {
    && (forall i, j :: 0 <= i < j < |props| ==> props[i].id != props[j].id)
    && (forall i :: 0 <= i < |props| ==>
          && IsPropertyId(props[i].id) && props[i].id != USER_PROPERTY
          && (props[i].mode != Optional ==> props[i].ty == Text || props[i].ty == Binary))
  }

  /** The field of a freshly constructed packet. */
  function Default(p: Prop): Option<Val> {
    if p.mode == Optional then None else Some(Data([]))
  }

  predicate PropOk(p: Prop, slot: Option<Val>) {
    (p.mode != Optional ==> slot.Some?) && (slot.Some? ==> Writable(p.ty, slot.value))
  }

  predicate PropsOk(props: seq<Prop>, slots: Slots) {
    |props| == |slots| && forall i :: 0 <= i < |props| ==> PropOk(props[i], slots[i])
  }

  /** The property is written. */
  predicate Present(p: Prop, slot: Option<Val>) {
    slot.Some? && (p.mode == SkipEmpty ==> slot.value != Data([]))
  }

  /** A property on the wire: a position in the schema and a value. */
  datatype Entry = Entry(i: nat, v: Val)

  /** The entries the encoder writes, in declaration order from position k. */
  function Entries(props: seq<Prop>, slots: Slots, k: nat): seq<Entry>
    requires |props| == |slots| && k <= |props|
    decreases |props| - k
  {
    if k == |props| then []
    else (if Present(props[k], slots[k]) then [Entry(k, slots[k].value)] else []) + Entries(props, slots, k + 1)
  }

  predicate EntryOk(props: seq<Prop>, w: Entry) {
    w.i < |props| && Writable(props[w.i].ty, w.v)
  }

  predicate EntriesOk(props: seq<Prop>, ws: seq<Entry>) {
    forall j :: 0 <= j < |ws| ==> EntryOk(props, ws[j])
  }

  function EncEntry(props: seq<Prop>, w: Entry): (bytes: seq<byte>)
    requires EntryOk(props, w)
    ensures |bytes| >= 1
  {
    [props[w.i].id] + Enc(props[w.i].ty, w.v)
  }

  function EncEntries(props: seq<Prop>, ws: seq<Entry>): seq<byte>
    requires EntriesOk(props, ws)
  {
    if ws == [] then []
    else
      assert EntryOk(props, ws[0]) && EntriesOk(props, ws[1..]);
      EncEntry(props, ws[0]) + EncEntries(props, ws[1..])
  }

  function EntriesSize(props: seq<Prop>, ws: seq<Entry>): nat
    requires EntriesOk(props, ws)
  {
    if ws == [] then 0
    else
      assert EntryOk(props, ws[0]) && EntriesOk(props, ws[1..]);
      1 + ValSize(props[ws[0].i].ty, ws[0].v) + EntriesSize(props, ws[1..])
  }

  predicate EntryReadable(props: seq<Prop>, w: Entry) {
    w.i < |props| ==> Readable(props[w.i].ty, w.v)
  }

  predicate EntrySizable(props: seq<Prop>, w: Entry) {
    w.i < |props| ==> Sizable(props[w.i].ty, w.v)
  }

  predicate PairFits(p: Pair) {
    |p.key| <= 0xffff && |p.value| <= 0xffff
  }

  predicate UserOk(user: seq<Pair>) {
    forall i :: 0 <= i < |user| ==> PairFits(user[i])
  }

  function EncPair(p: Pair): seq<byte>
    requires PairFits(p)
  {
    [USER_PROPERTY] + Enc(Text, Data(p.key)) + Enc(Text, Data(p.value))
  }

  /** User properties in the order the map yields them. */
  function EncUser(user: seq<Pair>): seq<byte>
    requires UserOk(user)
  {
    if user == [] then [] else EncPair(user[0]) + EncUser(user[1..])
  }

  function UserSize(user: seq<Pair>): nat {
    if user == [] then 0 else 1 + 2 + |user[0].key| + 2 + |user[0].value| + UserSize(user[1..])
  }

  function Find(props: seq<Prop>, id: byte): (n: nat)
    ensures n <= |props| && (n < |props| ==> props[n].id == id)
    ensures forall i :: 0 <= i < n ==> props[i].id != id
  {
    if props == [] || props[0].id == id then 0 else 1 + Find(props[1..], id)
  }

  datatype PropsParsed =
    | PropsParsed(slots: Slots, user: seq<Pair>, rest: seq<byte>, read: nat)
    | PropsFailed(error: CodecError)

  datatype PairParsed = PairParsed(pair: Pair, counted: nat, rest: seq<byte>) | PairFailed(error: CodecError)

  /** One user property; the count returned is four more than the bytes consumed. */
  function DecPair(src: seq<byte>): (r: PairParsed)
    ensures r.PairParsed? ==> |r.rest| < |src| && r.counted == |src| - |r.rest| + 4
  {
    match DecBytes(src)
    case Failed(e) => PairFailed(e)
    case Parsed(key, keyLen, afterKey) =>
      match DecBytes(afterKey)
      case Failed(e) => PairFailed(e)
      case Parsed(value, len, rest) => PairParsed(Pair(key.bytes, value.bytes), 2 + keyLen + 2 + len, rest)
  }

  datatype Turn = Turn(slots: Slots, user: seq<Pair>, rest: seq<byte>, counted: nat) | TurnFailed(error: CodecError)

  /** One turn of the property loop. */
  function PropTurn(props: seq<Prop>, slots: Slots, user: seq<Pair>, src: seq<byte>): (r: Turn)
    requires |slots| == |props|
    ensures r.Turn? ==> |r.slots| == |props| && |r.rest| < |src|
  {
    if src == [] then TurnFailed(Panic)
    else if !IsPropertyId(src[0]) then TurnFailed(MalformedPacket)
    else if src[0] == USER_PROPERTY then
      match DecPair(src[1..]) {
        case PairFailed(e) => TurnFailed(e)
        case PairParsed(pair, counted, rest) => Turn(slots, user + [pair], rest, 1 + counted)
      }
    else
      var i := Find(props, src[0]);
      if i == |props| then TurnFailed(UnsupportedProperty)
      else
        match Dec(props[i].ty, src[1..])
        case Failed(e) => TurnFailed(e)
        case Parsed(v, size, rest) => Turn(slots[i := Some(v)], user, rest, 1 + size)
  }

  /** The property loop from a given state: `read` bytes counted so far of `length`. */
  function PropLoop(props: seq<Prop>, slots: Slots, user: seq<Pair>, src: seq<byte>, read: nat,
                    length: nat): (r: PropsParsed)
    requires |slots| == |props|
    ensures r.PropsParsed? ==> |r.slots| == |props|
    decreases |src|
  {
    if read >= length then PropsParsed(slots, user, src, read)
    else
      match PropTurn(props, slots, user, src)
      case TurnFailed(e) => PropsFailed(e)
      case Turn(slots', user', rest, counted) => PropLoop(props, slots', user', rest, read + counted, length)
  }

  /** The loop as it is written: fields and counters updated while bytes are consumed. */
  method DecodeProperties(props: seq<Prop>, initial: Slots, bytes: seq<byte>, length: nat) returns (r: PropsParsed)
    requires |initial| == |props|
    ensures r == PropLoop(props, initial, [], bytes, 0, length)
  {
    hide PropTurn;
    var slots, user, src, read: nat := initial, [], bytes, 0;
    while read < length
      invariant |slots| == |props|
      invariant PropLoop(props, slots, user, src, read, length) == PropLoop(props, initial, [], bytes, 0, length)
      decreases |src|
    {
      match PropTurn(props, slots, user, src) {
        case TurnFailed(e) =>
          return PropsFailed(e);
        case Turn(slots', user', rest, counted) =>
          slots, user, src, read := slots', user', rest, read + counted;
      }
    }
    r := PropsParsed(slots, user, src, read);
  }

  //
  // Reading entries back
  //

  lemma FindAt(props: seq<Prop>, i: nat)
    requires PropsWellFormed(props) && i < |props|
    ensures Find(props, props[i].id) == i
  {
  }

  /** One turn on an entry the encoder wrote. */
  lemma TurnOnEntry(props: seq<Prop>, slots: Slots, user: seq<Pair>, w: Entry, tail: seq<byte>)
    requires PropsWellFormed(props) && |slots| == |props| && EntryOk(props, w)
    ensures PropTurn(props, slots, user, EncEntry(props, w) + tail) ==
            if EntryReadable(props, w) then Turn(slots[w.i := Some(w.v)], user, tail, |EncEntry(props, w)|)
            else TurnFailed(MalformedPacket)
  {
    var src := EncEntry(props, w) + tail;
    var data := Enc(props[w.i].ty, w.v);
    assert src[0] == props[w.i].id && src[1..] == data + tail;
    FindAt(props, w.i);
    DecEnc(props[w.i].ty, w.v, tail);
  }

  function Apply(slots: Slots, ws: seq<Entry>): (r: Slots)
    requires forall j :: 0 <= j < |ws| ==> ws[j].i < |slots|
    ensures |r| == |slots|
    decreases ws
  {
    if ws == [] then slots else Apply(slots[ws[0].i := Some(ws[0].v)], ws[1..])
  }

  predicate AllReadable(props: seq<Prop>, ws: seq<Entry>) {
    forall j :: 0 <= j < |ws| ==> EntryReadable(props, ws[j])
  }

  /** The loop runs through entries in any order and number, then goes on with what follows them. */
  lemma {:induction false} LoopOverEntries(props: seq<Prop>, slots: Slots, user: seq<Pair>, ws: seq<Entry>,
                                           tail: seq<byte>, read: nat, length: nat)
    requires PropsWellFormed(props) && |slots| == |props| && EntriesOk(props, ws)
    requires read + EntriesSize(props, ws) <= length
    ensures forall j :: 0 <= j < |ws| ==> ws[j].i < |slots|
    ensures PropLoop(props, slots, user, EncEntries(props, ws) + tail, read, length) ==
            if AllReadable(props, ws) then
              PropLoop(props, Apply(slots, ws), user, tail, read + EntriesSize(props, ws), length)
            else PropsFailed(MalformedPacket)
    decreases ws
  {
    hide PropTurn, EncEntry, EntryReadable;
    forall j | 0 <= j < |ws| ensures ws[j].i < |slots| {
      assert EntryOk(props, ws[j]);
    }
    var src := EncEntries(props, ws) + tail;
    if ws == [] {
      assert src == tail;
    } else {
      assert EntryOk(props, ws[0]) && EntriesOk(props, ws[1..]);
      var first, others := EncEntry(props, ws[0]), EncEntries(props, ws[1..]);
      Rotate(first, others, tail);
      TurnOnEntry(props, slots, user, ws[0], others + tail);
      assert AllReadable(props, ws) <==> EntryReadable(props, ws[0]) && AllReadable(props, ws[1..]);
      if EntryReadable(props, ws[0]) {
        ReadableSize(props, ws[0]);
        LoopOverEntries(props, slots[ws[0].i := Some(ws[0].v)], user, ws[1..], tail, read + |first|, length);
      }
    }
  }

  lemma ReadableSize(props: seq<Prop>, w: Entry)
    requires EntryOk(props, w) && EntryReadable(props, w)
    ensures |EncEntry(props, w)| == 1 + ValSize(props[w.i].ty, w.v)
  {
    EncSize(props[w.i].ty, w.v);
  }

  ghost predicate DistinctPositions(ws: seq<Entry>) {
    forall j, k :: 0 <= j < k < |ws| ==> ws[j].i != ws[k].i
  }

  /** Applying entries with distinct positions sets just those positions. */
  lemma {:induction false} ApplyAt(slots: Slots, ws: seq<Entry>, i: nat)
    requires (forall j :: 0 <= j < |ws| ==> ws[j].i < |slots|) && DistinctPositions(ws) && i < |slots|
    ensures forall j :: 0 <= j < |ws| && ws[j].i == i ==> Apply(slots, ws)[i] == Some(ws[j].v)
    ensures (forall j :: 0 <= j < |ws| ==> ws[j].i != i) ==> Apply(slots, ws)[i] == slots[i]
    decreases ws
  {
    if ws != [] {
      var slots' := slots[ws[0].i := Some(ws[0].v)];
      ApplyAt(slots', ws[1..], i);
      forall j | 0 <= j < |ws| && ws[j].i == i ensures Apply(slots, ws)[i] == Some(ws[j].v) {
        if j > 0 {
          assert ws[1..][j - 1] == ws[j];
        } else {
          assert forall k :: 0 <= k < |ws[1..]| ==> ws[1..][k] == ws[k + 1] && ws[k + 1].i != i;
        }
      }
    }
  }

  /** Reordering entries with distinct positions changes nothing (section 2.2.2.2 of MQTT Version 5.0). */
  lemma ApplyOrder(slots: Slots, ws: seq<Entry>, ws': seq<Entry>)
    requires forall j :: 0 <= j < |ws| ==> ws[j].i < |slots|
    requires DistinctPositions(ws) && DistinctPositions(ws') && forall w :: w in ws <==> w in ws'
    ensures forall j :: 0 <= j < |ws'| ==> ws'[j].i < |slots|
    ensures Apply(slots, ws) == Apply(slots, ws')
  {
    forall j | 0 <= j < |ws'| ensures ws'[j].i < |slots| {
      assert ws'[j] in ws;
    }
    forall i | 0 <= i < |slots| ensures Apply(slots, ws)[i] == Apply(slots, ws')[i] {
      ApplyAt(slots, ws, i);
      ApplyAt(slots, ws', i);
      if j :| 0 <= j < |ws| && ws[j].i == i {
        assert ws[j] in ws';
      } else if j :| 0 <= j < |ws'| && ws'[j].i == i {
        assert ws'[j] in ws;
      }
    }
  }

  /** What the encoder's entries are: the present properties, in order. */
  lemma {:induction false} EntriesAre(props: seq<Prop>, slots: Slots, k: nat)
    requires PropsOk(props, slots) && k <= |props|
    ensures EntriesOk(props, Entries(props, slots, k)) && DistinctPositions(Entries(props, slots, k))
    ensures forall w :: w in Entries(props, slots, k) <==>
                        k <= w.i < |props| && Present(props[w.i], slots[w.i]) && w.v == slots[w.i].value
    decreases |props| - k
  {
    if k < |props| {
      EntriesAre(props, slots, k + 1);
      var rest, ws := Entries(props, slots, k + 1), Entries(props, slots, k);
      if Present(props[k], slots[k]) {
        PresentOk(props, slots, k);
        hide EntryOk, Present, PropsOk;
        assert ws == [Entry(k, slots[k].value)] + rest;
        forall j | 0 <= j < |rest| ensures rest[j].i != k {
          assert rest[j] in rest;
        }
        forall j | 0 <= j < |ws| ensures EntryOk(props, ws[j]) {
          if j > 0 {
            assert EntryOk(props, rest[j - 1]);
          }
        }
      } else {
        assert ws == rest;
      }
    }
  }

  lemma PresentOk(props: seq<Prop>, slots: Slots, k: nat)
    requires PropsOk(props, slots) && k < |props| && Present(props[k], slots[k])
    ensures EntryOk(props, Entry(k, slots[k].value))
  {
    assert PropOk(props[k], slots[k]);
  }

  function Defaults(props: seq<Prop>): (r: Slots)
    ensures |r| == |props|
  {
    seq(|props|, i requires 0 <= i < |props| => Default(props[i]))
  }

  /** Applied to a fresh packet, the encoder's entries restore every property. */
  lemma EntriesRestore(props: seq<Prop>, slots: Slots)
    requires PropsOk(props, slots)
    ensures forall j :: 0 <= j < |Entries(props, slots, 0)| ==> Entries(props, slots, 0)[j].i < |props|
    ensures Apply(Defaults(props), Entries(props, slots, 0)) == slots
  {
    var ws := Entries(props, slots, 0);
    EntriesAre(props, slots, 0);
    forall j | 0 <= j < |ws| ensures ws[j].i < |props| {
      assert EntryOk(props, ws[j]);
    }
    forall i | 0 <= i < |props| ensures Apply(Defaults(props), ws)[i] == slots[i] {
      ApplyAt(Defaults(props), ws, i);
      assert PropOk(props[i], slots[i]);
      if Present(props[i], slots[i]) {
        var w := Entry(i, slots[i].value);
        assert w in ws;
        var j :| 0 <= j < |ws| && ws[j] == w;
        assert ws[j].i == i;
      } else {
        forall j | 0 <= j < |ws| ensures ws[j].i != i {
          assert ws[j] in ws;
        }
      }
    }
  }

  predicate AllSizable(props: seq<Prop>, ws: seq<Entry>) {
    forall j :: 0 <= j < |ws| ==> EntrySizable(props, ws[j])
  }

  /** The generated property size is never too large, and right iff no variable byte integer needs five bytes. */
  lemma {:induction false} EntriesSizeExact(props: seq<Prop>, ws: seq<Entry>)
    requires EntriesOk(props, ws)
    ensures |EncEntries(props, ws)| >= EntriesSize(props, ws)
    ensures |EncEntries(props, ws)| == EntriesSize(props, ws) <==> AllSizable(props, ws)
    decreases ws
  {
    if ws != [] {
      assert EntryOk(props, ws[0]) && EntriesOk(props, ws[1..]);
      EncSize(props[ws[0].i].ty, ws[0].v);
      EntriesSizeExact(props, ws[1..]);
      assert AllSizable(props, ws) <==> EntrySizable(props, ws[0]) && AllSizable(props, ws[1..]);
    }
  }

  lemma {:induction false} UserSizeExact(user: seq<Pair>)
    requires UserOk(user)
    ensures |EncUser(user)| == UserSize(user) && (user != [] <==> |EncUser(user)| > 0)
    decreases user
  {
    if user != [] {
      assert PairFits(user[0]);
      UserSizeExact(user[1..]);
    }
  }

  lemma DecPairEnc(p: Pair, tail: seq<byte>)
    requires PairFits(p)
    ensures DecPair(Enc(Text, Data(p.key)) + (Enc(Text, Data(p.value)) + tail)) ==
            PairParsed(p, |EncPair(p)| + 3, tail)
  {
    hide DecBytes;
    DecEncBytes(p.key, Enc(Text, Data(p.value)) + tail);
    DecEncBytes(p.value, tail);
  }

  lemma TurnOnPair(props: seq<Prop>, slots: Slots, user: seq<Pair>, p: Pair, tail: seq<byte>)
    requires |slots| == |props| && PairFits(p)
    ensures PropTurn(props, slots, user, EncPair(p) + tail) == Turn(slots, user + [p], tail, |EncPair(p)| + 4)
  {
    hide DecPair, Dec, Enc;
    var key, value := Enc(Text, Data(p.key)), Enc(Text, Data(p.value));
    var src := EncPair(p) + tail;
    assert src[0] == USER_PROPERTY && src[1..] == key + (value + tail);
    DecPairEnc(p, tail);
  }

  /** How many of the pairs the loop collects, when it enters them with an excess count of `over`. */
  function Kept(more: seq<Pair>, over: nat): (k: nat)
    requires UserOk(more)
    ensures k <= |more|
    decreases more
  {
    if more == [] || |EncUser(more)| <= over then 0 else 1 + Kept(more[1..], over + 4)
  }

  /** All of them exactly if at each pair the bytes still to come exceed the four counted too many for each before. */
  lemma {:induction false} KeptAllIff(more: seq<Pair>, over: nat)
    requires UserOk(more)
    ensures Kept(more, over) == |more| <==> forall j :: 0 <= j < |more| ==> |EncUser(more[j..])| > over + 4 * j
    decreases more
  {
    if more != [] {
      KeptAllIff(more[1..], over + 4);
      assert more[0..] == more;
      assert forall j :: 0 <= j < |more| - 1 ==> more[1..][j..] == more[j + 1..];
      if |EncUser(more)| > over && forall j :: 0 <= j < |more[1..]| ==> |EncUser(more[1..][j..])| > over + 4 + 4 * j {
        forall j | 0 <= j < |more| ensures |EncUser(more[j..])| > over + 4 * j {
          if j > 0 {
            assert more[1..][j - 1..] == more[j..];
          }
        }
      }
    }
  }

  /** One or two user properties are always collected, since a pair takes at least five bytes. */
  lemma FewKept(user: seq<Pair>)
    requires UserOk(user) && |user| <= 2
    ensures Kept(user, 0) == |user|
  {
    forall j | 0 <= j < |user| ensures |EncUser(user[j..])| > 4 * j {
      assert PairFits(user[j]) && user[j..][0] == user[j];
      assert |EncPair(user[j])| >= 5;
    }
    KeptAllIff(user, 0);
  }

  lemma OnePairMore(user: seq<Pair>, more: seq<Pair>, k: nat)
    requires UserOk(more) && k < |more|
    ensures user + [more[0]] + more[1..][..k] == user + more[..k + 1] && more[1..][k..] == more[k + 1..]
    ensures PairFits(more[0]) && |EncUser(more[..k + 1])| == |EncPair(more[0])| + |EncUser(more[1..][..k])|
  {
    assert more[..k + 1][1..] == more[1..][..k] && PairFits(more[0]);
  }

  lemma FirstPair(more: seq<Pair>, over: nat)
    requires UserOk(more) && more != []
    ensures UserOk(more[1..]) && PairFits(more[0]) && EncUser(more) == EncPair(more[0]) + EncUser(more[1..])
    ensures Kept(more, over) == if |EncUser(more)| <= over then 0 else 1 + Kept(more[1..], over + 4)
  {
    assert PairFits(more[0]);
  }

  lemma NoPairs(user: seq<Pair>, more: seq<Pair>, tail: seq<byte>)
    requires UserOk(more)
    ensures user + more[..0] == user && more[0..] == more && EncUser([]) == [] && [] + tail == tail
    ensures more[..0] == [] && forall over: nat :: Kept([], over) == 0
  {
  }

  /**
    User properties are overcounted by four each. The loop therefore collects the first `Kept` of them, leaves the
    others to the payload, and reports the bytes it consumed and the excess. `over` is the excess on entry.
   */
  lemma {:induction false} LoopOverUser(props: seq<Prop>, slots: Slots, user: seq<Pair>, more: seq<Pair>,
                                        tail: seq<byte>, read: nat, length: nat, over: nat)
    requires |slots| == |props| && UserOk(more) && read + |EncUser(more)| == length + over
    ensures var k := Kept(more, over);
            PropLoop(props, slots, user, EncUser(more) + tail, read, length) ==
              PropsParsed(slots, user + more[..k], EncUser(more[k..]) + tail, read + |EncUser(more[..k])| + 4 * k)
    decreases more
  {
    hide PropTurn, EncPair, EncUser, Kept, UserOk;
    NoPairs(user, more, tail);
    if more != [] {
      FirstPair(more, over);
      if read < length {
        var first, others := EncPair(more[0]), EncUser(more[1..]);
        Rotate(first, others, tail);
        TurnOnPair(props, slots, user, more[0], others + tail);
        LoopOverUser(props, slots, user + [more[0]], more[1..], tail, read + |first| + 4, length, over + 4);
        OnePairMore(user, more, Kept(more[1..], over + 4));
      }
    }
  }

  /** Whatever the input, the loop's count is the bytes it consumed plus four for each user property. */
  lemma {:induction false} LoopCount(props: seq<Prop>, slots: Slots, user: seq<Pair>, src: seq<byte>, read: nat,
                                     length: nat)
    requires |slots| == |props|
    ensures var r := PropLoop(props, slots, user, src, read, length);
            r.PropsParsed? ==> |r.user| >= |user| && r.read + |r.rest| == read + |src| + 4 * (|r.user| - |user|)
    decreases |src|
  {
    hide Dec, DecPair, Find, IsPropertyId;
    if read < length {
      var t := PropTurn(props, slots, user, src);
      if t.Turn? {
        LoopCount(props, t.slots, t.user, t.rest, read + t.counted, length);
      }
    }
  }

  lemma EncRemove(props: seq<Prop>, ws: seq<Entry>, j: nat)
    requires EntriesOk(props, ws) && j < |ws|
    ensures EntriesOk(props, ws[..j] + ws[j + 1..]) && EntryOk(props, ws[j])
    ensures |EncEntries(props, ws)| == |EncEntry(props, ws[j])| + |EncEntries(props, ws[..j] + ws[j + 1..])|
    decreases j
  {
    hide EncEntry, EntryOk;
    var others := ws[..j] + ws[j + 1..];
    assert EntryOk(props, ws[j]);
    forall k | 0 <= k < |others| ensures EntryOk(props, others[k]) {
      assert others[k] == if k < j then ws[k] else ws[k + 1];
    }
    if j == 0 {
      assert others == ws[1..];
    } else {
      assert EntriesOk(props, ws[1..]);
      EncRemove(props, ws[1..], j - 1);
      assert others[0] == ws[0] && others[1..] == ws[1..][..j - 1] + ws[1..][j..];
    }
  }

  /** Reordering entries keeps the length of the property block. */
  lemma {:induction false} EncLengthOrder(props: seq<Prop>, ws: seq<Entry>, ws': seq<Entry>)
    requires EntriesOk(props, ws) && EntriesOk(props, ws')
    requires DistinctPositions(ws) && DistinctPositions(ws') && forall w :: w in ws <==> w in ws'
    ensures |EncEntries(props, ws)| == |EncEntries(props, ws')|
    decreases ws
  {
    hide EncEntry, EntryOk;
    if ws' != [] {
      NonEmptyToo(ws, ws');
    }
    if ws != [] {
      assert ws[0] in ws';
      var j :| 0 <= j < |ws'| && ws'[j] == ws[0];
      var others := ws'[..j] + ws'[j + 1..];
      EncRemove(props, ws', j);
      EncRemove(props, ws, 0);
      assert ws[..0] + ws[1..] == ws[1..];
      SameWithout(ws, ws', j);
      EncLengthOrder(props, ws[1..], others);
    }
  }

  lemma NonEmptyToo(ws: seq<Entry>, ws': seq<Entry>)
    requires ws' != [] && forall w :: w in ws' ==> w in ws
    ensures ws != []
  {
    assert ws'[0] in ws;
  }

  lemma SameWithout(ws: seq<Entry>, ws': seq<Entry>, j: nat)
    requires ws != [] && j < |ws'| && ws'[j] == ws[0]
    requires DistinctPositions(ws) && DistinctPositions(ws') && forall w :: w in ws <==> w in ws'
    ensures DistinctPositions(ws[1..]) && DistinctPositions(ws'[..j] + ws'[j + 1..])
    ensures forall w :: w in ws[1..] <==> w in ws'[..j] + ws'[j + 1..]
  {
    var others := ws'[..j] + ws'[j + 1..];
    assert forall k :: 0 <= k < |others| ==> others[k] == if k < j then ws'[k] else ws'[k + 1];
    forall w | w in ws[1..] ensures w in others {
      var k :| 0 <= k < |ws[1..]| && ws[1..][k] == w;
      assert ws[k + 1].i != ws[0].i;
      assert w in ws';
      var i :| 0 <= i < |ws'| && ws'[i] == w;
      assert i != j;
      assert others[if i < j then i else i - 1] == w;
    }
    forall w | w in others ensures w in ws[1..] {
      var k :| 0 <= k < |others| && others[k] == w;
      var i := if k < j then k else k + 1;
      assert ws'[i] == w && w.i != ws[0].i;
      assert w in ws;
      var l :| 0 <= l < |ws| && ws[l] == w;
      assert ws[1..][l - 1] == w;
    }
  }
}
