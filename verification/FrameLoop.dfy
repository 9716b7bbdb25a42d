/**
 The device's end of the forward stream (VideoStream.kt `session`, Protocol.kt readers): every read may return
 fewer bytes than asked for, and the frames handed on are still exactly those of `ForwardStream.Parse`.
 */
module FrameLoop {
  import opened Bytes
  import opened Wrappers
  import opened ForwardProtocol
  import opened ForwardStream
  import ForwardTransport
  import opened Sequences

  /** The receiving end of a connection; `bytes` is everything that arrives before it closes. */
  class Input {
    const bytes: seq<byte>
    var pos: nat

    ghost predicate Valid()
      reads this
    {
      pos <= |bytes|
    }

    ghost function Left(): seq<byte>
      requires Valid()
      reads this
    {
      bytes[pos..]
    }

    constructor (bytes: seq<byte>)
      ensures Valid() && this.bytes == bytes && pos == 0
    {
      this.bytes, pos := bytes, 0;
    }

    /** Some of the bytes asked for, at least one; or -1 when the stream has ended. */
    method Read(buffer: array<byte>, off: nat, len: nat) returns (n: int)
      requires Valid() && off + len <= buffer.Length && len > 0
      modifies this`pos, buffer
      ensures Valid() && (n < 0 <==> old(pos) == |bytes|)
      ensures n < 0 ==> pos == old(pos) && buffer[..] == old(buffer[..])
      ensures n >= 0 ==> 0 < n <= len && pos == old(pos) + n
      ensures n >= 0 ==> buffer[..off + n] == old(buffer[..off]) + bytes[old(pos)..pos]
    {
      if pos == |bytes| {
        return -1;
      }
      n :| 0 < n <= len && n <= |bytes| - pos;
      forall i | 0 <= i < n {
        buffer[off + i] := bytes[pos + i];
      }
      pos := pos + n;
    }
  }

  /** Fill the first `length` cells, however little each read returns; fail only if the stream ends first. */
  method ReadFully(input: Input, buffer: array<byte>, length: nat) returns (ok: bool)
    requires input.Valid() && length <= buffer.Length
    modifies input`pos, buffer
    ensures input.Valid() && (ok <==> old(input.pos) + length <= |input.bytes|)
    ensures ok ==> input.pos == old(input.pos) + length && buffer[..length] == input.bytes[old(input.pos)..input.pos]
  {
    var read: nat := 0;
    while read < length
      invariant read <= length && input.Valid() && input.pos == old(input.pos) + read
      invariant buffer[..read] == input.bytes[old(input.pos)..input.pos]
    {
      ghost var from := input.pos;
      var n := input.Read(buffer, read, length - read);
      if n < 0 {
        return false;
      }
      assert input.bytes[old(input.pos)..input.pos] == input.bytes[old(input.pos)..from] + input.bytes[from..input.pos];
      read := read + n;
    }
    ok := true;
  }

  /** One field of `k` bytes, as `readInt` and its kind take it. */
  method Take(input: Input, k: nat) returns (field: Option<seq<byte>>)
    requires input.Valid()
    modifies input`pos
    ensures input.Valid() && (field.Some? <==> old(input.pos) + k <= |input.bytes|)
    ensures field.Some? ==> input.pos == old(input.pos) + k && field.value == input.bytes[old(input.pos)..input.pos]
  {
    var buffer := new byte[k](_ => 0);
    var ok := ReadFully(input, buffer, k);
    field := if ok then Some(buffer[..k]) else None;
  }

  method ReadFrameHeader(input: Input) returns (header: Option<FrameHeader>)
    requires input.Valid()
    modifies input`pos
    ensures input.Valid() && header == FrontHeader(old(input.Left()))
    ensures header.Some? ==> input.pos == old(input.pos) + FRAME_HEADER_LEN
  {
    ghost var left := input.Left();
    var length := Take(input, 4);
    if length == None {
      return None;
    }
    assert length.value == left[..4];
    if Join(length.value) > MAX_FRAME_BYTES {
      assert |left| >= FRAME_HEADER_LEN ==> left[..FRAME_HEADER_LEN][..4] == left[..4];
      return None;
    }
    var pts := Take(input, 8);
    if pts == None {
      return None;
    }
    var flags := Take(input, 1);
    if flags == None {
      return None;
    }
    var reserved := Take(input, 3);
    if reserved == None {
      return None;
    }
    assert left[..FRAME_HEADER_LEN][..4] == length.value;
    assert left[..FRAME_HEADER_LEN][4..12] == left[4..12] == pts.value;
    assert left[..FRAME_HEADER_LEN][12] == flags.value[0];
    header := Some(FrameHeader(Join(length.value), Join(pts.value),
                               flags.value[0] % 2 == 1, flags.value[0] / 2 % 2 == 1));
  }

  method ReadStreamHeader(input: Input) returns (header: Option<StreamHeader>)
    requires input.Valid()
    modifies input`pos
    ensures input.Valid()
    ensures header == StreamHeaderOf(old(input.Left()))
    ensures header.Some? ==> input.pos == old(input.pos) + STREAM_HEADER_LEN
  {
    ghost var left := input.Left();
    var fields := Take(input, STREAM_HEADER_LEN);
    match fields {
      case None => header := None;
      case Some(s) =>
        assert s == left[..STREAM_HEADER_LEN];
        header := DecodeStreamHeader(s);
    }
  }

  function StreamHeaderOf(bytes: seq<byte>): Option<StreamHeader> {
    if |bytes| < STREAM_HEADER_LEN then None else DecodeStreamHeader(bytes[..STREAM_HEADER_LEN])
  }

  /** The frames a connection delivers: none unless its stream header is accepted. */
  function Delivered(bytes: seq<byte>): seq<Received> {
    if StreamHeaderOf(bytes) == None then [] else Parse(bytes[STREAM_HEADER_LEN..])
  }

  class Session {
    var scratch: array<byte>
    var received: seq<Received>

    constructor ()
      ensures fresh(scratch) && received == []
    {
      scratch, received := new byte[256 * 1024](_ => 0), [];
    }

    /** One turn of the frame loop; false once the stream has ended or its framing was rejected. */
    method NextFrame(input: Input) returns (more: bool)
      requires input.Valid()
      modifies this, scratch, input`pos
      ensures input.Valid() && (scratch == old(scratch) || fresh(scratch))
      ensures var front := Front(old(input.Left()));
              && (more <==> front.Some?)
              && (more ==> input.pos == old(input.pos) + FRAME_HEADER_LEN + front.value.length)
              && received == old(received) + (if more then [front.value] else [])
    {
      ghost var left := input.Left();
      var frame := ReadFrameHeader(input);
      if frame == None {
        return false;
      }
      if frame.value.length > scratch.Length {
        scratch := new byte[frame.value.length](_ => 0);
      }
      more := ReadFully(input, scratch, frame.value.length);
      if more {
        ghost var n := FRAME_HEADER_LEN + frame.value.length;
        SliceOfDrop(input.bytes, old(input.pos), FRAME_HEADER_LEN, n);
        received := received + [ReceivedAs(frame.value, scratch[..frame.value.length])];
      }
    }

    /** One turn of the frame loop, as progress through the frames of `all`. */
    method Turn(input: Input, ghost all: seq<byte>) returns (more: bool)
      requires input.Valid() && Level(all, received, input.Left())
      modifies this, scratch, input`pos
      ensures input.Valid() && (scratch == old(scratch) || fresh(scratch))
      ensures Level(all, received, if more then input.Left() else [])
      ensures more ==> input.pos > old(input.pos)
    {
      ghost var left := input.Left();
      FrontTaken(all, received, left);
      more := NextFrame(input);
      assert more ==> input.Left() == left[FRAME_HEADER_LEN + Front(left).value.length..];
    }

    /** A whole connection, under every fragmentation of its bytes. */
    method Run(input: Input)
      requires input.Valid() && input.pos == 0 && received == []
      modifies this, scratch, input`pos
      ensures received == Delivered(input.bytes)
    {
      assert input.Left() == input.bytes;
      var header := ReadStreamHeader(input);
      if header == None {
        return;
      }
      ghost var all := input.bytes[STREAM_HEADER_LEN..];
      NothingAdded(Parse(all));
      var more := true;
      while more
        invariant input.Valid() && (scratch == old(scratch) || fresh(scratch))
        invariant Level(all, received, if more then input.Left() else [])
        decreases more, |input.bytes| - input.pos
      {
        more := Turn(input, all);
      }
      NothingAdded(received);
    }
  }

  /** The frames handed on, and those still to be parsed, are all there are. */
  predicate Level(all: seq<byte>, received: seq<Received>, left: seq<byte>) {
    Parse(all) == received + Parse(left)
  }

  lemma FrontTaken(all: seq<byte>, received: seq<Received>, left: seq<byte>)
    requires Level(all, received, left)
    ensures match Front(left)
            case Some(r) => Level(all, received + [r], left[FRAME_HEADER_LEN + r.length..])
            case None => Level(all, received + [], [])
  {
    if Front(left).Some? {
      var r := Front(left).value;
      Regroup(received, [r], Parse(left[FRAME_HEADER_LEN + r.length..]));
    } else {
      NothingAdded(received);
    }
  }

  /**
   Host to device over a whole session: everything meant arrives, in order and unaltered, exactly when every payload
   fits.
   */
  lemma SessionRoundTrip(header: StreamHeader, cs: seq<Call>)
    ensures var wire := ForwardTransport.SessionWire(header, cs);
            && StreamHeaderOf(wire) == Some(header)
            && (Delivered(wire) == MeantAll(cs) <==> AllFit(cs))
  {
    var wire := ForwardTransport.SessionWire(header, cs);
    assert wire[..STREAM_HEADER_LEN] == EncodeStreamHeader(header);
    assert wire[STREAM_HEADER_LEN..] == Wires(cs);
    StreamHeaderRoundTrip(header, EncodeStreamHeader(header));
    StreamRoundTrip(cs);
  }

  /**
   A session cut short by a failed write still delivers the calls that succeeded and no part of the one that failed.
   */
  lemma FailedCallDeliversNothing(header: StreamHeader, cs: seq<Call>, c: Call, sent: nat)
    requires AllFit(cs) && Fits(c) && sent < |Wire(c)|
    ensures Delivered(ForwardTransport.SessionWire(header, cs) + Wire(c)[..sent]) == MeantAll(cs)
  {
    var session := ForwardTransport.SessionWire(header, cs);
    var wire := session + Wire(c)[..sent];
    assert wire[..STREAM_HEADER_LEN] == session[..STREAM_HEADER_LEN];
    assert session[..STREAM_HEADER_LEN] == EncodeStreamHeader(header);
    AfterHeader(EncodeStreamHeader(header), Wires(cs), Wire(c)[..sent]);
    StreamHeaderRoundTrip(header, EncodeStreamHeader(header));
    CutInLast(cs, c, sent);
  }

  lemma AfterHeader(header: seq<byte>, a: seq<byte>, b: seq<byte>)
    ensures (header + a + b)[|header|..] == a + b
  {
  }

  /** The control messages among the frames handed on, as the device's listener decodes them. */
  function ControlsIn(received: seq<Received>): seq<Option<ControlMessage>> {
    if received == [] then [] else
      var r := received[|received| - 1];
      ControlsIn(received[..|received| - 1]) + if r.control then [DecodeControl(r.payload)] else []
  }

  /** The control messages sent. */
  function ControlsSent(cs: seq<Call>): seq<Option<ControlMessage>> {
    if cs == [] then [] else
      var c := cs[|cs| - 1];
      ControlsSent(cs[..|cs| - 1]) + if c.SendControl? then [Some(c.message)] else []
  }

  /** Every control message sent is decoded as it was meant, in order, and no video frame is taken for one. */
  lemma {:induction false} ControlsArrive(cs: seq<Call>)
    ensures ControlsIn(MeantAll(cs)) == ControlsSent(cs)
  {
    if cs != [] {
      var init, c := cs[..|cs| - 1], cs[|cs| - 1];
      ControlsArrive(init);
      LastMeant(cs);
      BackOfSnoc(MeantAll(init), Meant(c));
      if c.SendControl? {
        ControlRoundTrip(c.message, []);
        NothingAdded(EncodeControl(c.message));
      }
    }
  }

  /** The wire after these calls have succeeded and `sent` bytes of one more have been accepted. */
  predicate Stopped(wire: seq<byte>, header: StreamHeader, cs: seq<Call>, c: Call, sent: nat) {
    sent < |Wire(c)| && wire == ForwardTransport.SessionWire(header, cs) + Wire(c)[..sent]
  }

  method SendOne(sender: ForwardTransport.Sender, c: Call) returns (ok: bool, ghost sent: nat)
    requires sender.Valid()
    modifies sender, sender.socket
    ensures ok <==> sender.socket.refusals == old(sender.socket.refusals)
    ensures ok ==> sender.Valid() && sender.calls == old(sender.calls) + [c]
    ensures !ok ==> Stopped(sender.socket.wire, sender.header, old(sender.calls), c, sent)
  {
    match c {
      case SendFrame(data, pts, keyframe) => ok, sent := sender.SendFrame(data, pts, keyframe);
      case SendControl(message) => ok, sent := sender.SendControl(message);
    }
  }

  /** The wire after `made` calls have succeeded and, if that is not all of them, `sent` bytes of the next. */
  predicate OnWire(wire: seq<byte>, header: StreamHeader, cs: seq<Call>, made: nat, sent: nat) {
    if made >= |cs| then made == |cs| && wire == ForwardTransport.SessionWire(header, cs)
    else Stopped(wire, header, cs[..made], cs[made], sent)
  }

  method SendNext(sender: ForwardTransport.Sender, cs: seq<Call>, i: nat) returns (ok: bool, ghost sent: nat)
    requires i < |cs| && sender.Valid() && sender.calls == cs[..i]
    modifies sender, sender.socket
    ensures ok <==> sender.socket.refusals == old(sender.socket.refusals)
    ensures ok ==> sender.Valid() && sender.calls == cs[..i + 1]
    ensures !ok ==> OnWire(sender.socket.wire, sender.header, cs, i, sent)
  {
    assert cs[..i] + [cs[i]] == cs[..i + 1];
    ok, sent := SendOne(sender, cs[i]);
  }

  /** The host's calls, one after another, until one fails; `made` is how many succeeded. */
  method SendAll(sender: ForwardTransport.Sender, cs: seq<Call>) returns (ghost made: nat, ghost sent: nat)
    requires sender.Valid() && sender.calls == []
    modifies sender, sender.socket
    ensures OnWire(sender.socket.wire, sender.header, cs, made, sent)
    ensures made == |cs| <==> sender.socket.refusals == old(sender.socket.refusals)
  {
    made, sent := 0, 0;
    for i := 0 to |cs|
      invariant made == i && sender.Valid() && sender.calls == cs[..i]
      invariant sender.socket.refusals == old(sender.socket.refusals)
    {
      var ok;
      ok, sent := SendNext(sender, cs, i);
      if !ok {
        return;
      }
      made := i + 1;
    }
    assert cs[..|cs|] == cs;
  }

  lemma DeliveredFromWire(wire: seq<byte>, header: StreamHeader, cs: seq<Call>, made: nat, sent: nat)
    requires OnWire(wire, header, cs, made, sent)
    ensures made <= |cs|
    ensures made == |cs| ==> (Delivered(wire) == MeantAll(cs) <==> AllFit(cs))
    ensures AllFit(cs) ==> Delivered(wire) == MeantAll(cs[..made])
  {
    if made == |cs| {
      SessionRoundTrip(header, cs);
      assert cs[..made] == cs;
    } else if AllFit(cs) {
      FailedCallDeliversNothing(header, cs[..made], cs[made], sent);
    }
  }

  lemma CutHeader(header: StreamHeader, wire: seq<byte>)
    requires wire < EncodeStreamHeader(header)
    ensures Delivered(wire) == []
  {
  }

  /**
   A whole session from the host's calls to the device's frames, under every schedule of partial writes and partial
   reads: with no refusal the device hands on exactly what was meant if and only if every payload fits; and if every
   payload fits, a refusal costs exactly the calls that had not succeeded.
   */
  method Relay(socket: ForwardTransport.Socket, header: StreamHeader, cs: seq<Call>)
    returns (session: Session, ghost made: nat)
    requires socket.wire == []
    modifies socket
    ensures made <= |cs| && (socket.refusals == old(socket.refusals) ==> made == |cs|)
    ensures socket.refusals == old(socket.refusals) ==> (session.received == MeantAll(cs) <==> AllFit(cs))
    ensures AllFit(cs) ==> session.received == MeantAll(cs[..made])
    ensures AllFit(cs) ==> ControlsIn(session.received) == ControlsSent(cs[..made])
  {
    made := 0;
    ghost var sent;
    var sender := ForwardTransport.Sender.Connect(socket, header);
    if sender == null {
      CutHeader(header, socket.wire);
    } else {
      made, sent := SendAll(sender, cs);
      DeliveredFromWire(socket.wire, header, cs, made, sent);
    }
    ControlsArrive(cs[..made]);
    session := new Session();
    var input := new Input(socket.wire);
    session.Run(input);
  }
}
