/**
 * Reassembling Modbus TCP replies from a byte stream. Frames are those of the MODBUS Messaging on TCP/IP
 * Implementation Guide V1.0b, section 3.1.3: a length in bytes 4 and 5 counts everything behind it.
 */
module Framing {
  type Byte = x: int | 0 <= x < 256

  const PREFIX: nat := 6
  const MAX: nat := 260

  datatype Failure = NoFailure | ResponseTimeout | ConnectionClosed | ReceiveFailed | InvalidResponse

  /** What one call to receive does: at most that many bytes, the end of the stream, an error, or nothing
      before the deadline. */
  datatype Fate = Gives(most: nat) | Closes | Fails(error: Failure) | Stalls

  method Deliver(buf: array<Byte>, at: nat, bytes: seq<Byte>)
    requires at + |bytes| <= buf.Length
    modifies buf
    ensures buf[at..at + |bytes|] == bytes && buf[..at] == old(buf[..at])
  {
    for i := 0 to |bytes|
      invariant forall k | 0 <= k < i :: buf[at + k] == bytes[k]
      invariant buf[..at] == old(buf[..at])
    {
      buf[at + i] := bytes[i];
    }
  }

  /** A socket: the bytes still to come, and how they will be handed over. */
  class Socket {
    var stream: seq<Byte>
    var fates: seq<Fate>

    /** The bytes one call yields, into `buf` at `at`, at most `n`. */
    method Receive(buf: array<Byte>, at: nat, n: nat) returns (r: nat, failure: Failure)
      requires n > 0 && at + n <= buf.Length
      modifies this, buf
      ensures failure == NoFailure ==> 0 < r <= n && r <= |old(stream)|
      ensures failure == NoFailure ==> buf[at..at + r] == old(stream)[..r] && stream == old(stream)[r..]
      ensures failure != NoFailure ==> stream == old(stream) && failure != InvalidResponse
      ensures |fates| < |old(fates)| || failure == ResponseTimeout
      ensures buf[..at] == old(buf[..at])
    {
      if fates == [] {
        return 0, ResponseTimeout;
      }
      var fate := fates[0];
      fates := fates[1..];
      match fate
      case Stalls => return 0, ResponseTimeout;
      case Closes => return 0, ConnectionClosed;
      case Fails(error) => return 0, if error == NoFailure || error == InvalidResponse then ReceiveFailed else error;
      case Gives(most) =>
        if |stream| == 0 {
          return 0, ResponseTimeout;
        }
        r := if most == 0 then 1 else most;
        r := if r > n then n else r;
        r := if r > |stream| then |stream| else r;
        var bytes := stream[..r];
        stream := stream[r..];
        Deliver(buf, at, bytes);
        failure := NoFailure;
    }

    /** Exactly `n` bytes, however the stream is cut up, or a failure. */
    method ReceiveAll(buf: array<Byte>, at: nat, n: nat) returns (failure: Failure)
      requires at + n <= buf.Length
      modifies this, buf
      ensures failure == NoFailure ==> n <= |old(stream)|
      ensures failure == NoFailure ==> buf[at..at + n] == old(stream)[..n] && stream == old(stream)[n..]
      ensures failure != InvalidResponse
      ensures buf[..at] == old(buf[..at])
    {
      var got := 0;
      while got < n
        invariant 0 <= got <= n && got <= |old(stream)|
        invariant buf[at..at + got] == old(stream)[..got] && stream == old(stream)[got..]
        invariant buf[..at] == old(buf[..at])
        decreases n - got
      {
        ghost var head := buf[..at + got];
        var r, f := Receive(buf, at + got, n - got);
        if f != NoFailure {
          assert buf[..at] == head[..at];
          return f;
        }
        assert buf[..at + got] == head;
        assert buf[at..at + got] == head[at..];
        assert buf[at..at + got + r] == buf[at..at + got] + buf[at + got..at + got + r];
        assert buf[..at] == head[..at];
        got := got + r;
      }
      return NoFailure;
    }

    /** One frame at the front of the buffer, and nothing beyond it taken from the stream. */
    method ReceiveFrame(buf: array<Byte>) returns (total: nat, failure: Failure)
      requires buf.Length == MAX
      modifies this, buf
      ensures failure == NoFailure ==>
        && PREFIX <= |old(stream)| && Framed(old(stream), MAX)
        && total == FrameLength(old(stream)) <= |old(stream)|
        && buf[..total] == old(stream)[..total] && stream == old(stream)[total..]
      ensures failure == InvalidResponse ==> PREFIX <= |old(stream)| && !Framed(old(stream), MAX)
    {
      failure := ReceiveAll(buf, 0, PREFIX);
      if failure != NoFailure {
        return 0, failure;
      }
      ghost var prefix := buf[0..PREFIX];
      assert buf[4] == prefix[4] && buf[5] == prefix[5];
      var length := Two(buf[4], buf[5]);
      if length < 2 || PREFIX + length > MAX {
        return 0, InvalidResponse;
      }
      failure := ReceiveAll(buf, PREFIX, length);
      total := PREFIX + length;
      if failure == NoFailure {
        assert buf[..total] == buf[..PREFIX] + buf[PREFIX..total];
        assert buf[..PREFIX] == prefix;
      }
    }
  }

  function Two(hi: Byte, lo: Byte): nat {
    var h: int := hi;
    h * 256 + lo
  }

  function FrameLength(stream: seq<Byte>): nat
    requires PREFIX <= |stream|
  {
    PREFIX + Two(stream[4], stream[5])
  }

  /** The stream's length field is plausible. */
  predicate Framed(stream: seq<Byte>, limit: nat)
    requires PREFIX <= |stream|
  {
    PREFIX + 2 <= FrameLength(stream) <= limit
  }

  predicate Frame(bytes: seq<Byte>) {
    PREFIX + 2 <= |bytes| <= MAX && FrameLength(bytes) == |bytes|
  }

  function Joined(frames: seq<seq<Byte>>): seq<Byte> {
    if frames == [] then [] else frames[0] + Joined(frames[1..])
  }

  /** The frames a reader takes from a stream, one after another, until one is missing or implausible. */
  function Taken(stream: seq<Byte>): (frames: seq<seq<Byte>>)
    decreases |stream|
  {
    if |stream| < PREFIX || !Framed(stream, MAX) || FrameLength(stream) > |stream| then []
    else [stream[..FrameLength(stream)]] + Taken(stream[FrameLength(stream)..])
  }

  /** A stream of frames is taken apart into exactly those frames. */
  lemma {:induction false} FramesComeBack(frames: seq<seq<Byte>>)
    requires forall i | 0 <= i < |frames| :: Frame(frames[i])
    ensures Taken(Joined(frames)) == frames
    decreases |frames|
  {
    if frames != [] {
      var first, stream := frames[0], Joined(frames);
      assert stream[4] == first[4] && stream[5] == first[5];
      assert stream[..|first|] == first && stream[|first|..] == Joined(frames[1..]);
      FramesComeBack(frames[1..]);
      assert frames == [first] + frames[1..];
    }
  }
}
