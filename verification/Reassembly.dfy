/** The packet codec meets the contract of the stream, so any split of encoded packets is reassembled. */
module Reassembly {
  import opened Mqtt
  import Packets
  import Streams

  /** `decode` as the stream uses it. */
  function Classify(src: seq<byte>): Streams.Outcome<Packets.Packet> {
    match Packets.Decode(src)
    case DecodedPacket(p, len) => Streams.Complete(p, len)
    case DecodeFailed(e) => if e == InsufficientData then Streams.Incomplete else Streams.Corrupt
  }

  ghost predicate Sendable(packets: seq<Packets.Packet>, limit: nat) {
    forall i :: 0 <= i < |packets| ==>
      Packets.PacketOk(packets[i]) && Packets.CanRestore(packets[i]) && |Packets.Frame(packets[i])| <= limit
  }

  ghost function Frames(packets: seq<Packets.Packet>, limit: nat): seq<seq<byte>>
    requires Sendable(packets, limit)
  {
    seq(|packets|, i requires 0 <= i < |packets| => Packets.Frame(packets[i]))
  }

  ghost function Restored(packets: seq<Packets.Packet>, limit: nat): seq<Packets.Packet>
    requires Sendable(packets, limit)
  {
    seq(|packets|, i requires 0 <= i < |packets| => Packets.Restored(packets[i]))
  }

  lemma FrameRecognised(p: Packets.Packet)
    requires Packets.PacketOk(p) && Packets.CanRestore(p)
    ensures Streams.Recognises(Classify, Packets.Restored(p), Packets.Frame(p))
  {
    hide Packets.Decode, Packets.CanRestore, Packets.BodyBytes, Packets.BodySize, Packets.Restored,
      Packets.Representable;
    var frame := Packets.Frame(p);
    forall rest ensures Classify(frame + rest) == Streams.Complete(Packets.Restored(p), |frame|) {
      Packets.RoundTrip(p, rest);
    }
    Packets.RestorableSizable(p);
    Packets.FrameSize(p);
    forall n | 0 < n < |frame| ensures Classify(frame[..n]) == Streams.Incomplete {
      Packets.PrefixInsufficient(p, n);
    }
  }

  /** The contract the stream was given, discharged by the codec. */
  lemma CodecContract(packets: seq<Packets.Packet>, limit: nat)
    requires Sendable(packets, limit)
    ensures Streams.Contract(Classify, Restored(packets, limit), Frames(packets, limit), limit)
  {
    hide Streams.Recognises, Packets.PacketOk, Packets.CanRestore, Packets.Frame, Packets.Restored;
    forall i | 0 <= i < |packets|
      ensures Streams.Recognises(Classify, Packets.Restored(packets[i]), Packets.Frame(packets[i]))
    {
      FrameRecognised(packets[i]);
    }
  }

  /** End to end: the bytes of any packets, split in any way, are read back as those packets in order. */
  method Transmit(ghost packets: seq<Packets.Packet>, count: nat, bytes: seq<byte>, initialSize: nat, maxSize: nat,
                  events: seq<Streams.Event>)
    returns (out: seq<Packets.Packet>)
    requires 0 < initialSize <= maxSize && Sendable(packets, maxSize) && count == |packets|
    requires bytes == Streams.Flatten(Frames(packets, maxSize))
    requires Streams.AllReady(events) && |events| >= |bytes|
    ensures out == Restored(packets, maxSize)
  {
    CodecContract(packets, maxSize);
    var stream := new Streams.PacketStream(Classify, initialSize, maxSize, events, bytes,
                                           Restored(packets, maxSize), Frames(packets, maxSize));
    out := stream.ReadAll(count);
  }

  /** A packet with user properties is returned, and four bytes of what follows it are discarded for each of them. */
  lemma NextFrameCut(p: Packets.Packet, next: seq<byte>)
    requires Packets.PacketOk(p) && Packets.UserCollected(p)
    ensures var r, excess := Packets.Decode(Packets.Frame(p) + next), 4 * |p.m.user|;
            && excess > 0 && r.DecodedPacket? && r.p == Packets.Restored(p)
            && Streams.Leftover(Packets.Frame(p) + next, r.len) == if excess < |next| then next[excess..] else []
  {
    hide Packets.Decode, Packets.Restored, Packets.PacketOk, Packets.Frame;
    Packets.UserPropertiesOvercounted(p, next);
  }
}
