/**
  Variable byte integers (section 1.5.5 of MQTT Version 5.0), as vaux-mqtt/src/codec/mod.rs writes and reads them.
  The reader refuses the four byte form, so it inverts the writer exactly below 2^21.
 */
module VarInt {
  import opened Mqtt

  const THREE_BYTES := 0x20_0000
  const FOUR_BYTES := 0x1000_0000

  datatype Decoded = Decoded(value: nat, size: nat, rest: seq<byte>) | Failed(error: CodecError)

  /** `variable_byte_int_size` */
  function Size(v: nat): nat {
    if v <= 127 then 1 else if v <= 16383 then 2 else if v <= 2097151 then 3 else 4
  }

  /** The bytes `encode_variable_byte_int` appends: seven bits at a time, high bit set on all but the last. */
  function Encode(v: nat): (bytes: seq<byte>)
    ensures |bytes| >= 1
  {
    if v < 0x80 then [v] else [0x80 + v % 0x80] + Encode(v / 0x80)
  }

  method EncodeLoop(v: nat) returns (dest: seq<byte>)
    ensures dest == Encode(v)
  {
    dest := [];
    var encode, input := true, v;
    while encode
      invariant encode ==> dest + Encode(input) == Encode(v)
      invariant !encode ==> dest == Encode(v)
      decreases encode, input
    {
      var low := input % 0x80;
      var high := input / 0x80;
      assert high > 0 ==> Encode(input) == [0x80 + low] + Encode(high);
      var next: byte := low;
      if high > 0 {
        next := low + 0x80;
      } else {
        encode := false;
      }
      input := high;
      dest := dest + [next];
    }
  }

  /** `digit << shift`, where the `shift` of the decode loop is 7 * n. */
  function Shift(digit: nat, n: nat): nat {
    if n == 0 then digit
    else if n == 1 then digit * 0x80
    else if n == 2 then digit * 0x4000
    else digit * 0x20_0000
  }

  /** One turn of the decode loop: `next` has been read, `n` bytes were added to `result` before it. */
  function Turn(next: byte, src: seq<byte>, result: nat, n: nat): (r: Decoded)
    requires n <= 3
    ensures r.Decoded? ==> n < r.size <= 3 && r.size + |r.rest| == n + 1 + |src|
    decreases 3 - n
  {
    var sum := result + Shift(next % 0x80, n);
    if next < 0x80 then
      if n + 1 > 3 then Failed(MalformedPacket) else Decoded(sum, n + 1, src)
    else if src == [] then Failed(InsufficientData)
    else if n + 1 > 3 then Failed(MalformedPacket)
    else Turn(src[0], src[1..], sum, n + 1)
  }

  function Decode(src: seq<byte>): (r: Decoded)
    ensures r.Decoded? ==> 1 <= r.size <= 3 && r.size + |r.rest| == |src|
  {
    if src == [] then Failed(InsufficientData) else Turn(src[0], src[1..], 0, 0)
  }

  method DecodeLoop(bytes: seq<byte>) returns (r: Decoded)
    ensures r == Decode(bytes)
  {
    var src := bytes;
    if src == [] {
      return Failed(InsufficientData);
    }
    var result: nat, n: nat, next: byte, decode := 0, 0, src[0], true;
    src := src[1..];
    while decode
      invariant decode ==> n <= 3 && Turn(next, src, result, n) == Decode(bytes)
      invariant !decode ==> n <= 3 && Decode(bytes) == Decoded(result, n, src)
      decreases decode, 3 - n
    {
      result := result + Shift(next % 0x80, n);
      n := n + 1;
      if next < 0x80 {
        decode := false;
      } else {
        if src == [] {
          return Failed(InsufficientData);
        }
        next, src := src[0], src[1..];
      }
      if n > 3 {
        return Failed(MalformedPacket);
      }
    }
    r := Decoded(result, n, src);
  }

  //
  // Length, form and minimality of the encoding
  //

  /** The reference form: continuation bits on all bytes but the last. */
  ghost predicate WellFormed(bytes: seq<byte>) {
    && bytes != []
    && bytes[|bytes| - 1] < 0x80
    && forall i :: 0 <= i < |bytes| - 1 ==> bytes[i] >= 0x80
  }

  ghost function Value(bytes: seq<byte>): nat {
    if bytes == [] then 0 else bytes[0] % 0x80 + 0x80 * Value(bytes[1..])
  }

  /** Number of base-128 digits of v, the least length any encoding can have. */
  lemma {:induction false} Minimal(v: nat, bytes: seq<byte>)
    requires bytes != [] && Value(bytes) == v
    ensures WellFormed(Encode(v)) && Value(Encode(v)) == v && |Encode(v)| <= |bytes|
    decreases v
  {
    EncodeForm(v);
    if v >= 0x80 {
      assert |bytes| > 1 && Value(bytes[1..]) == v / 0x80;
      Minimal(v / 0x80, bytes[1..]);
    }
  }

  lemma Prepended(b: byte, tail: seq<byte>)
    requires WellFormed(tail) && b >= 0x80
    ensures WellFormed([b] + tail) && Value([b] + tail) == b - 0x80 + 0x80 * Value(tail)
  {
    assert ([b] + tail)[1..] == tail;
  }

  lemma {:induction false} EncodeForm(v: nat)
    ensures WellFormed(Encode(v)) && Value(Encode(v)) == v
    ensures Encode(v)[0] == 0 <==> v == 0
    decreases v
  {
    if v < 0x80 {
      assert Value([]) == 0 && Encode(v)[1..] == [];
    } else {
      hide WellFormed, Value;
      EncodeForm(v / 0x80);
      Prepended(0x80 + v % 0x80, Encode(v / 0x80));
    }
  }

  /** The size function is exact below 2^28 and one short above. */
  lemma EncodeLength(v: nat)
    requires v < 0x1_0000_0000
    ensures |Encode(v)| == if v < FOUR_BYTES then Size(v) else Size(v) + 1
    ensures |Encode(v)| <= 3 <==> v < THREE_BYTES
  {
    var a, b, c, d := v / 0x80, v / 0x80 / 0x80, v / 0x80 / 0x80 / 0x80, v / 0x80 / 0x80 / 0x80 / 0x80;
    assert |Encode(d)| == 1;
    assert c >= 0x80 ==> |Encode(c)| == 1 + |Encode(d)|;
    assert b >= 0x80 ==> |Encode(b)| == 1 + |Encode(c)|;
    assert a >= 0x80 ==> |Encode(a)| == 1 + |Encode(b)|;
  }

  //
  // The reader inverts the writer exactly below 2^21
  //

  lemma ShiftDigits(low: nat, high: nat, n: nat)
    requires n < 3
    ensures Shift(low, n) + Shift(high, n + 1) == Shift(low + 0x80 * high, n)
  {
  }

  /** The reader accepts every well-formed sequence of at most three bytes, minimal or not, and no longer one. */
  lemma {:induction false} TurnReads(bytes: seq<byte>, rest: seq<byte>, result: nat, n: nat)
    requires WellFormed(bytes) && n <= 3
    ensures Turn(bytes[0], bytes[1..] + rest, result, n) ==
            if n + |bytes| <= 3 then Decoded(result + Shift(Value(bytes), n), n + |bytes|, rest)
            else Failed(MalformedPacket)
    decreases |bytes|
  {
    var tail := bytes[1..];
    if tail == [] {
      assert tail + rest == rest && Value(tail) == 0;
    } else {
      assert WellFormed(tail);
      assert (tail + rest)[0] == tail[0] && (tail + rest)[1..] == tail[1..] + rest;
      if n < 3 {
        TurnReads(tail, rest, result + Shift(bytes[0] % 0x80, n), n + 1);
        ShiftDigits(bytes[0] % 0x80, Value(tail), n);
      }
    }
  }

  lemma DecodeEncode(v: nat, rest: seq<byte>)
    ensures Decode(Encode(v) + rest) ==
            if |Encode(v)| <= 3 then Decoded(v, |Encode(v)|, rest) else Failed(MalformedPacket)
  {
    hide Encode, Turn, Value, WellFormed;
    var bytes := Encode(v);
    EncodeForm(v);
    TurnReads(bytes, rest, 0, 0);
    assert (bytes + rest)[0] == bytes[0] && (bytes + rest)[1..] == bytes[1..] + rest;
  }

  /** For every u32 and every suffix: decoding undoes encoding iff the value is below 2^21. */
  lemma RoundTrip(v: nat, rest: seq<byte>)
    requires v < 0x1_0000_0000
    ensures Decode(Encode(v) + rest) ==
            if v < THREE_BYTES then Decoded(v, Size(v), rest) else Failed(MalformedPacket)
  {
    EncodeLength(v);
    DecodeEncode(v, rest);
  }
}
