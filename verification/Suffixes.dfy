/**
  Readers and what follows their input: a reader that succeeds within its input does the same when more bytes follow,
  and one that consumes no more than its input when more bytes follow succeeds without them.
 */
module Suffixes {
  import opened Mqtt
  import opened Codec
  import VarInt

  lemma {:induction false} VarTurnSuffix(next: byte, src: seq<byte>, tail: seq<byte>, result: nat, n: nat)
    requires n <= 3
    ensures var a, b := VarInt.Turn(next, src, result, n), VarInt.Turn(next, src + tail, result, n);
            && (a.Decoded? ==> b == VarInt.Decoded(a.value, a.size, a.rest + tail))
            && (b.Decoded? && |b.rest| >= |tail| ==> a.Decoded?)
    decreases 3 - n
  {
    hide VarInt.Shift;
    if next >= 0x80 && n < 3 && src != [] {
      assert (src + tail)[1..] == src[1..] + tail;
      VarTurnSuffix(src[0], src[1..], tail, result + VarInt.Shift(next % 0x80, n), n + 1);
    }
  }

  lemma VarSuffix(src: seq<byte>, tail: seq<byte>)
    ensures var a, b := VarInt.Decode(src), VarInt.Decode(src + tail);
            && (a.Decoded? ==> b == VarInt.Decoded(a.value, a.size, a.rest + tail))
            && (b.Decoded? && |b.rest| >= |tail| ==> a.Decoded?)
  {
    hide VarInt.Turn;
    if src != [] {
      assert (src + tail)[1..] == src[1..] + tail;
      VarTurnSuffix(src[0], src[1..], tail, 0, 0);
    }
  }

  lemma BytesSuffix(src: seq<byte>, tail: seq<byte>)
    ensures var a, b := DecBytes(src), DecBytes(src + tail);
            && (a.Parsed? ==> b == Parsed(a.v, a.size, a.rest + tail))
            && (b.Parsed? && |b.rest| >= |tail| ==> a.Parsed?)
  {
    if |src| >= 2 {
      var len := Get16(src);
      if |src| - 2 >= len {
        assert (src + tail)[2..2 + len] == src[2..2 + len] && (src + tail)[2 + len..] == src[2 + len..] + tail;
      }
    }
  }

  lemma DecSuffix(t: Ty, src: seq<byte>, tail: seq<byte>)
    ensures var a, b := Dec(t, src), Dec(t, src + tail);
            && (a.Parsed? ==> b == Parsed(a.v, a.size, a.rest + tail))
            && (b.Parsed? && |b.rest| >= |tail| ==> a.Parsed?)
  {
    hide VarInt.Decode, DecBytes;
    var n := match t case U16 => 2 case U32 => 4 case _ => 1;
    if |src| >= n {
      assert (src + tail)[n..] == src[n..] + tail;
    }
    VarSuffix(src, tail);
    BytesSuffix(src, tail);
  }

  lemma PairSuffix(src: seq<byte>, tail: seq<byte>)
    ensures var a, b := DecPair(src), DecPair(src + tail);
            && (a.PairParsed? ==> b == PairParsed(a.pair, a.counted, a.rest + tail))
            && (b.PairParsed? && |b.rest| >= |tail| ==> a.PairParsed?)
  {
    hide DecBytes;
    BytesSuffix(src, tail);
    var key := DecBytes(src);
    if key.Parsed? {
      BytesSuffix(key.rest, tail);
    }
  }

  lemma TurnSuffix(props: seq<Prop>, slots: Slots, user: seq<Pair>, src: seq<byte>, tail: seq<byte>)
    requires |slots| == |props|
    ensures var a, b := PropTurn(props, slots, user, src), PropTurn(props, slots, user, src + tail);
            && (a.Turn? ==> b == Turn(a.slots, a.user, a.rest + tail, a.counted))
            && (b.Turn? && |b.rest| >= |tail| ==> a.Turn?)
  {
    hide Dec, DecPair, Find, IsPropertyId;
    if src != [] {
      assert (src + tail)[1..] == src[1..] + tail;
      PairSuffix(src[1..], tail);
      var i := Find(props, src[0]);
      if i < |props| {
        DecSuffix(props[i].ty, src[1..], tail);
      }
    }
  }

  lemma {:induction false} LoopShrinks(props: seq<Prop>, slots: Slots, user: seq<Pair>, src: seq<byte>, read: nat,
                                       length: nat)
    requires |slots| == |props|
    ensures var r := PropLoop(props, slots, user, src, read, length); r.PropsParsed? ==> |r.rest| <= |src|
    decreases |src|
  {
    hide PropTurn;
    var t := PropTurn(props, slots, user, src);
    if read < length && t.Turn? {
      LoopShrinks(props, t.slots, t.user, t.rest, read + t.counted, length);
    }
  }

  lemma {:induction false} LoopSuffix(props: seq<Prop>, slots: Slots, user: seq<Pair>, src: seq<byte>, tail: seq<byte>,
                                      read: nat, length: nat)
    requires |slots| == |props|
    ensures var a := PropLoop(props, slots, user, src, read, length);
            var b := PropLoop(props, slots, user, src + tail, read, length);
            && (a.PropsParsed? ==> b == PropsParsed(a.slots, a.user, a.rest + tail, a.read))
            && (b.PropsParsed? && |b.rest| >= |tail| ==> a.PropsParsed?)
    decreases |src|
  {
    hide PropTurn;
    if read < length {
      TurnSuffix(props, slots, user, src, tail);
      var a, b := PropTurn(props, slots, user, src), PropTurn(props, slots, user, src + tail);
      if a.Turn? {
        LoopSuffix(props, a.slots, a.user, a.rest, tail, read + a.counted, length);
      } else if b.Turn? {
        LoopShrinks(props, b.slots, b.user, b.rest, read + b.counted, length);
      }
    }
  }
}
