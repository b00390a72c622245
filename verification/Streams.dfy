/**
  Reassembly of packets from socket reads (vaux-async/src/stream/packet.rs, `read_internal` without raw bytes).
  The stream knows of `decode` only that it recognises complete frames and asks for more on strict prefixes;
  Reassembly.dfy discharges that for the packet codec.
 */
module Streams {
  import opened Mqtt

  /** What the stream sees of `decode`: a packet and its length, a request for more data, or another error. */
  datatype Outcome<+P> = Complete(p: P, len: nat) | Incomplete | Corrupt

  /**
    What the socket does at one await point: hand over at most `n` bytes, report end of stream, time out, fail,
    or let the caller drop the pending read.
   */
  datatype Event = Ready(n: nat) | Closed | TimedOut | Broken | Dropped

  /** `Pending` is a read that is still waiting; `Spinning` a loop that repeats without changing its state. */
  datatype ReadResult<+P> =
    | GotPacket(p: P) | EndOfStream | ReadTimeout | IoError | BufferFull | CodecFailure | Pending | Spinning

  ghost function Flatten(frames: seq<seq<byte>>): seq<byte> {
    if frames == [] then [] else frames[0] + Flatten(frames[1..])
  }

  lemma {:induction false} FlattenSplit(frames: seq<seq<byte>>, k: nat)
    requires k <= |frames|
    ensures Flatten(frames) == Flatten(frames[..k]) + Flatten(frames[k..])
    decreases k
  {
    if k == 0 {
      assert frames[..0] == [] && frames[0..] == frames;
    } else {
      FlattenSplit(frames[1..], k - 1);
      assert frames[..k][1..] == frames[1..][..k - 1] && frames[1..][k - 1..] == frames[k..];
      assert Flatten(frames[..k]) == frames[0] + Flatten(frames[1..][..k - 1]);
    }
  }

  lemma FlattenStep(frames: seq<seq<byte>>, k: nat)
    requires k < |frames|
    ensures Flatten(frames[..k + 1]) == Flatten(frames[..k]) + frames[k]
    ensures Flatten(frames[k..]) == frames[k] + Flatten(frames[k + 1..])
  {
    FlattenSplit(frames[..k + 1], k);
    assert frames[..k + 1][..k] == frames[..k] && frames[..k + 1][k..] == [frames[k]];
    assert Flatten([frames[k]]) == frames[k] + Flatten([]);
    assert frames[k..][1..] == frames[k + 1..];
  }

  lemma CancelLeft(a: seq<byte>, b: seq<byte>, c: seq<byte>)
    requires a + b == a + c
    ensures b == c
  {
    assert (a + b)[|a|..] == b && (a + c)[|a|..] == c;
  }

  lemma CancelRight(a: seq<byte>, b: seq<byte>, c: seq<byte>)
    requires a + c == b + c
    ensures a == b
  {
    assert |a| == |b|;
    assert (a + c)[..|a|] == a && (b + c)[..|b|] == b;
  }

  /** The contract of `decode` for one packet and its frame. */
  ghost predicate Recognises<P(!new)>(decode: seq<byte> -> Outcome<P>, p: P, frame: seq<byte>) {
    && frame != []
    && (forall rest :: decode(frame + rest) == Complete(p, |frame|))
    && (forall n :: 0 < n < |frame| ==> decode(frame[..n]) == Incomplete)
  }

  ghost predicate Contract<P(!new)>(decode: seq<byte> -> Outcome<P>, packets: seq<P>, frames: seq<seq<byte>>,
                                    limit: nat) {
    && |packets| == |frames|
    && forall i :: 0 <= i < |frames| ==> |frames[i]| <= limit && Recognises(decode, packets[i], frames[i])
  }

  /** The bytes after the frames already returned start with the next frame, in full or in part. */
  lemma NextFrame<P(!new)>(decode: seq<byte> -> Outcome<P>, packets: seq<P>, frames: seq<seq<byte>>, limit: nat, k: nat,
                           buffered: seq<byte>, more: seq<byte>)
    requires Contract(decode, packets, frames, limit) && k <= |frames|
    requires Flatten(frames[..k]) + buffered + more == Flatten(frames) && buffered != []
    ensures k < |frames| == |packets| && |frames[k]| <= limit
    ensures if |buffered| < |frames[k]| then decode(buffered) == Incomplete
            else decode(buffered) == Complete(packets[k], |frames[k]|)
                 && Flatten(frames[..k + 1]) + buffered[|frames[k]|..] + more == Flatten(frames)
  {
    FlattenSplit(frames, k);
    var done, rest := Flatten(frames[..k]), Flatten(frames[k..]);
    assert done + (buffered + more) == done + rest;
    CancelLeft(done, buffered + more, rest);
    assert frames[|frames|..] == [];
    FlattenStep(frames, k);
    assert Recognises(decode, packets[k], frames[k]);
    var frame := frames[k];
    if |buffered| < |frame| {
      assert buffered == rest[..|buffered|] == frame[..|buffered|];
    } else {
      assert buffered[..|frame|] == rest[..|frame|] == frame;
      assert buffered == frame + buffered[|frame|..];
    }
  }

  predicate AllReady(events: seq<Event>) {
    forall i :: 0 <= i < |events| ==> events[i].Ready? && events[i].n > 0
  }

  predicate OnlyReads(events: seq<Event>) {
    forall i :: 0 <= i < |events| ==> events[i].Ready?
  }

  /** What a read answers when it has taken some events and `left` are left. */
  predicate Answered<P>(taken: seq<Event>, left: seq<Event>, r: ReadResult<P>) {
    if r.GotPacket? then OnlyReads(taken)
    else if taken == [] || taken[|taken| - 1].Ready? then OnlyReads(taken) && left == [] && r == Pending
    else
      && OnlyReads(taken[..|taken| - 1])
      && match taken[|taken| - 1]
         case TimedOut => r == ReadTimeout
         case Broken => r == IoError
         case Dropped => r == Pending
         case _ => r == EndOfStream || r == Spinning
  }

  lemma Nothing(events: seq<Event>)
    ensures events == events[0..] && OnlyReads(events[..0])
  {
  }

  /** One more event is taken. */
  lemma OneTaken(events: seq<Event>, taken: nat)
    requires taken < |events|
    ensures events[taken..][0] == events[taken] && events[taken..][1..] == events[taken + 1..]
    ensures OnlyReads(events[..taken]) && events[taken].Ready? ==> OnlyReads(events[..taken + 1])
    ensures AllReady(events) ==> events[taken].Ready? && events[taken].n > 0
  {
    assert events[..taken + 1] == events[..taken] + [events[taken]];
  }

  lemma ReadyLeft(events: seq<Event>, taken: nat)
    requires taken <= |events|
    ensures AllReady(events) ==> AllReady(events[taken..])
  {
  }

  lemma Finished<P>(events: seq<Event>, taken: nat, r: ReadResult<P>)
    requires taken <= |events|
    requires if r.GotPacket? then OnlyReads(events[..taken])
             else if taken == 0 || events[taken - 1].Ready? then
               OnlyReads(events[..taken]) && events[taken..] == [] && r == Pending
             else
               && OnlyReads(events[..taken - 1])
               && match events[taken - 1]
                  case TimedOut => r == ReadTimeout
                  case Broken => r == IoError
                  case Dropped => r == Pending
                  case _ => r == EndOfStream || r == Spinning
    ensures Answered(events[..taken], events[taken..], r)
    ensures taken == |events| - |events[taken..]|
  {
    assert taken > 0 ==> events[..taken][..taken - 1] == events[..taken - 1];
  }

  /** What stays in the buffer after a packet of reported length `len`. */
  function Leftover(buffer: seq<byte>, len: nat): seq<byte> {
    if len < |buffer| then buffer[len..] else []
  }

  class PacketStream<P(!new)> {
    var readBuffer: seq<byte>
    var readOffset: nat
    const maxBufferSize: nat
    const decode: seq<byte> -> Outcome<P>
    /** The socket: bytes not yet read, and what it will do at each await point. */
    var incoming: seq<byte>
    var events: seq<Event>

    /** The packets the peer sends, with their frames; how many were returned; all bytes received. */
    ghost const packets: seq<P>
    ghost const frames: seq<seq<byte>>
    ghost var k: nat
    ghost var received: seq<byte>

    ghost predicate Buffered()
      reads this
    {
      && 0 < |readBuffer| <= maxBufferSize
      && readOffset <= |readBuffer|
      && (readOffset < |readBuffer| || |readBuffer| == maxBufferSize)
    }

    /** At every await point: bytes received = frames returned, then the start of the buffer. */
    ghost predicate Valid()
      reads this
    {
      && Buffered()
      && Contract(decode, packets, frames, maxBufferSize)
      && k <= |frames|
      && received == Flatten(frames[..k]) + readBuffer[..readOffset]
      && received + incoming == Flatten(frames)
    }

    constructor (decode: seq<byte> -> Outcome<P>, initialSize: nat, maxSize: nat, events: seq<Event>,
                 incoming: seq<byte>, ghost packets: seq<P>, ghost frames: seq<seq<byte>>)
      requires 0 < initialSize <= maxSize
      requires Contract(decode, packets, frames, maxSize) && incoming == Flatten(frames)
      ensures Valid() && k == 0 && received == []
      ensures this.packets == packets && this.frames == frames && this.events == events && this.incoming == incoming
    {
      readBuffer, readOffset, maxBufferSize := seq(initialSize, i => 0), 0, maxSize;
      this.decode, this.events, this.incoming := decode, events, incoming;
      this.packets, this.frames, k, received := packets, frames, 0, [];
    }

    /** `stream.read(&mut read_buffer[read_offset..])` followed by the growth of a full buffer. */
    method Fill(n: nat)
      requires Valid() && readOffset < |readBuffer|
      modifies this`readBuffer, this`readOffset, this`incoming, this`received
      ensures Valid()
      ensures var got := Min(n, Min(old(|readBuffer|) - old(readOffset), old(|incoming|)));
              && incoming == old(incoming)[got..] && received == old(received) + old(incoming)[..got]
              && readOffset == old(readOffset) + got
    {
      var got := Min(n, Min(|readBuffer| - readOffset, |incoming|));
      ghost var before, done := readBuffer[..readOffset], Flatten(frames[..k]);
      ghost var chunk, later := incoming[..got], incoming[got..];
      assert incoming == chunk + later;
      assert done + before + chunk == done + (before + chunk);
      assert received + chunk + later == received + (chunk + later);
      readBuffer := readBuffer[..readOffset] + incoming[..got] + readBuffer[readOffset + got..];
      readOffset := readOffset + got;
      received := received + chunk;
      incoming := incoming[got..];
      assert readBuffer[..readOffset] == before + chunk;
      if readOffset >= |readBuffer| {
        var newSize := Min(|readBuffer| * 2, maxBufferSize);
        ghost var full := readBuffer;
        readBuffer := readBuffer + seq(newSize - |readBuffer|, i => 0);
        assert readBuffer[..readOffset] == full[..readOffset];
      }
    }

    /** A whole frame is waiting in the buffer. */
    ghost predicate FrameWaits()
      reads this
    {
      0 < readOffset <= |readBuffer| && decode(readBuffer[..readOffset]).Complete?
    }

    method Read() returns (r: ReadResult<P>)
      requires Valid()
      modifies this`readBuffer, this`readOffset, this`incoming, this`events, this`k, this`received
      ensures Valid() && old(received) <= received
      // packets come out in order, one for each successful read
      ensures r.GotPacket? ==> old(k) < |packets| && r.p == packets[old(k)] && k == old(k) + 1
      ensures !r.GotPacket? ==> k == old(k)
      // no frame that fits the buffer limit is ever refused
      ensures r != BufferFull && r != CodecFailure
      // a whole frame that waits is returned without a look at the socket
      ensures old(FrameWaits()) <==> r.GotPacket? && events == old(events)
      ensures events == old(events) ==> incoming == old(incoming) && received == old(received)
      // otherwise events are taken one by one, and any but a successful read is the last
      ensures |events| <= |old(events)| && events == old(events)[|old(events)| - |events|..]
      ensures Answered(old(events)[..|old(events)| - |events|], events, r)
      ensures !r.GotPacket? ==> !FrameWaits()
      // end of stream is reported between packets, and goes unnoticed inside one
      ensures r == EndOfStream ==> readOffset == 0
      ensures r == Spinning ==> readOffset > 0
      ensures !old(FrameWaits()) && old(events) != [] && old(events)[0] == Closed ==>
                r == if old(readOffset) == 0 then EndOfStream else Spinning
      // nothing is read after the frame is complete: what is left is part of the last read
      ensures r.GotPacket? && |events| < |old(events)| ==>
                |received| < |Flatten(frames[..k])| + old(events)[|old(events)| - |events| - 1].n
      // given enough ready events, the next packet arrives
      ensures AllReady(old(events)) && |old(events)| >= |old(incoming)| ==>
                && AllReady(events) && |events| >= |incoming|
                && (old(k) < |packets| ==> r.GotPacket?)
    {
      hide Flatten, Contract, Recognises, PacketStream.Valid, AllReady, Answered, OnlyReads;
      ghost var taken := 0;
      Nothing(events);
      while true
        invariant Valid() && k == old(k) && old(received) <= received
        invariant 0 <= taken <= |old(events)| && events == old(events)[taken..] && OnlyReads(old(events)[..taken])
        invariant taken == 0 ==> readBuffer == old(readBuffer) && readOffset == old(readOffset)
        invariant taken == 0 ==> incoming == old(incoming) && received == old(received)
        invariant taken > 0 ==> !old(FrameWaits()) && old(events)[0].Ready? && old(events)[taken - 1].Ready?
        invariant taken > 0 && k < |frames| ==> |received| < |Flatten(frames[..k + 1])| + old(events)[taken - 1].n
        invariant AllReady(old(events)) && |old(events)| >= |old(incoming)| ==> |events| >= |incoming|
        decreases |events|
      {
        SameLength();
        ReadyLeft(old(events), taken);
        var done := Examine();
        if done.Some? {
          Finished(old(events), taken, done.value);
          return done.value;
        }
        if events == [] {
          Finished<P>(old(events), taken, Pending);
          return Pending;
        }
        OneTaken(old(events), taken);
        var answer := Await();
        if answer.Some? {
          Finished(old(events), taken + 1, answer.value);
          return answer.value;
        }
        taken := taken + 1;
      }
    }

    /** The head of the loop: a whole frame in the buffer is decoded and taken off. */
    method Examine() returns (done: Option<ReadResult<P>>)
      requires Valid()
      modifies this`readBuffer, this`readOffset, this`k
      ensures Valid() && (done.Some? <==> old(FrameWaits()))
      ensures done.Some? ==> old(k) < |packets| && done.value == GotPacket(packets[old(k)]) && k == old(k) + 1
      ensures done.None? ==>
                && readBuffer == old(readBuffer) && readOffset == old(readOffset) && k == old(k)
                && readOffset < |readBuffer| && (k < |packets| ==> incoming != [])
                && |packets| == |frames| && (k < |frames| ==> |received| < |Flatten(frames[..k + 1])|)
    {
      hide Flatten, Contract, Recognises;
      LastFrames();
      SameLength();
      if k < |frames| {
        FlattenStep(frames, k);
      }
      if readOffset > 0 {
        NextFrame(decode, packets, frames, maxBufferSize, k, readBuffer[..readOffset], incoming);
        match decode(readBuffer[..readOffset]) {
          case Complete(packet, len) =>
            Take(readOffset, len);
            return Some(GotPacket(packet));
          case Incomplete =>
            if readOffset >= maxBufferSize {
              return Some(BufferFull);
            }
          case Corrupt =>
            return Some(CodecFailure);
        }
      }
      done := None;
    }

    lemma SameLength()
      requires Valid()
      ensures |packets| == |frames| && (k < |frames| ==> frames[k] != [])
    {
      if k < |frames| {
        assert Recognises(decode, packets[k], frames[k]);
      }
    }

    /** The tail of the loop: one event of the socket. */
    method Await() returns (answer: Option<ReadResult<P>>)
      requires Valid() && readOffset < |readBuffer| && events != []
      modifies this`readBuffer, this`readOffset, this`incoming, this`events, this`received
      ensures Valid() && events == old(events)[1..] && old(received) <= received
      ensures answer == match old(events)[0]
                        case Ready(_) => None
                        case Closed => Some(if old(readOffset) == 0 then EndOfStream else Spinning)
                        case TimedOut => Some(ReadTimeout)
                        case Broken => Some(IoError)
                        case Dropped => Some(Pending)
      ensures answer.Some? ==>
                && readBuffer == old(readBuffer) && readOffset == old(readOffset)
                && incoming == old(incoming) && received == old(received)
      ensures old(events)[0].Ready? ==>
                && |received| <= |old(received)| + old(events)[0].n
                && (old(events)[0].n > 0 && old(incoming) != [] ==> |incoming| < |old(incoming)|)
                && |incoming| <= |old(incoming)|
    {
      hide Flatten, Contract, Recognises;
      var event := events[0];
      events := events[1..];
      match event {
        case Ready(n) =>
          Fill(n);
          answer := None;
        case Closed =>
          answer := Some(if readOffset == 0 then EndOfStream else Spinning);
        case TimedOut => answer := Some(ReadTimeout);
        case Broken => answer := Some(IoError);
        case Dropped => answer := Some(Pending);
      }
    }

    /** Returns a packet: the bytes after it move to the front of the buffer. */
    method Take(bytesRead: nat, len: nat)
      requires Valid() && bytesRead == readOffset > 0 && k < |frames| && len == |frames[k]| <= bytesRead
      requires Flatten(frames[..k + 1]) + readBuffer[..bytesRead][len..] + incoming == Flatten(frames)
      modifies this`readBuffer, this`readOffset, this`k
      ensures Valid() && k == old(k) + 1
      ensures readBuffer[..readOffset] == Leftover(old(readBuffer)[..bytesRead], len)
    {
      assert Recognises(decode, packets[k], frames[k]);
      ghost var left := readBuffer[..bytesRead][len..];
      if len < bytesRead {
        readBuffer := readBuffer[len..bytesRead] + readBuffer[bytesRead - len..];
        readOffset := bytesRead - len;
      } else {
        readOffset := 0;
      }
      assert readBuffer[..readOffset] == left;
      CancelRight(received, Flatten(frames[..k + 1]) + left, incoming);
      k := k + 1;
    }

    /** Once the socket is exhausted, the buffer holds every outstanding packet. */
    lemma LastFrames()
      requires Valid()
      ensures k < |packets| && incoming == [] ==> readOffset > 0 && decode(readBuffer[..readOffset]).Complete?
    {
      if k < |packets| && incoming == [] {
        FlattenSplit(frames, k);
        FlattenStep(frames, k);
        assert Recognises(decode, packets[k], frames[k]);
        var done, left := Flatten(frames[..k]), readBuffer[..readOffset];
        assert received + incoming == done + left;
        CancelLeft(done, left, Flatten(frames[k..]));
        assert left == frames[k] + Flatten(frames[k + 1..]);
      }
    }

    /** Repeated reads return exactly the packets sent, in order, however the bytes are split. */
    method ReadAll(count: nat) returns (out: seq<P>)
      requires Valid() && count == |packets| && k == 0 && AllReady(events) && |events| >= |incoming|
      modifies this`readBuffer, this`readOffset, this`incoming, this`events, this`k, this`received
      ensures Valid() && out == packets
    {
      hide Flatten, Recognises, Answered, AllReady, PacketStream.FrameWaits;
      out := [];
      while |out| < count
        invariant Valid() && AllReady(events) && |events| >= |incoming|
        invariant |out| == k && out == packets[..k]
      {
        var r := Read();
        out := out + [r.p];
      }
    }
  }

  function Min(a: nat, b: nat): nat {
    if a <= b then a else b
  }
}
