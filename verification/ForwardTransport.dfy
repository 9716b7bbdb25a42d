/**
 The two ends of the forward stream as the programs run them: the host's `Sender` writing through a socket that
 accepts as much as it likes at a time, and the device's loop reading from one that returns as little as it likes.
 */
module ForwardTransport {
  import opened Bytes
  import opened Wrappers
  import opened ForwardProtocol
  import opened ForwardStream
  import opened Sequences

  function Concat(slices: seq<seq<byte>>): seq<byte> {
    if slices == [] then [] else slices[0] + Concat(slices[1..])
  }

  /** A connected socket: every byte it has accepted, and how often it has failed or accepted nothing. */
  class Socket {
    var wire: seq<byte>
    ghost var refusals: nat

    constructor ()
      ensures wire == [] && refusals == 0
    {
      wire, refusals := [], 0;
    }

    /** The environment accepts any number of the bytes offered, or fails and accepts none. */
    method WriteVectored(slices: seq<seq<byte>>) returns (written: Option<nat>)
      modifies this
      ensures written == None ==> wire == old(wire)
      ensures written.Some? ==> written.value <= |Concat(slices)|
      ensures written.Some? ==> wire == old(wire) + Concat(slices)[..written.value]
      ensures refusals == old(refusals) + if written == None || written == Some(0) then 1 else 0
    {
      if * {
        written := None;
        refusals := refusals + 1;
      } else {
        var n: nat :| n <= |Concat(slices)|;
        wire := wire + Concat(slices)[..n];
        written := Some(n);
        refusals := refusals + if n == 0 then 1 else 0;
      }
    }
  }

  /** Drop the first `n` bytes, leaving no empty slice at the front. */
  method AdvanceSlices(slices: seq<seq<byte>>, n: nat) returns (rest: seq<seq<byte>>)
    requires n <= |Concat(slices)|
    ensures Concat(rest) == Concat(slices)[n..]
    ensures rest != [] ==> rest[0] != []
  {
    var left := n;
    rest := slices;
    ghost var wanted := Concat(slices)[n..];
    while rest != [] && |rest[0]| <= left
      invariant 0 <= left <= |Concat(rest)|
      invariant Concat(rest)[left..] == wanted
      decreases |rest|
    {
      assert Concat(rest)[left..] == Concat(rest[1..])[left - |rest[0]|..];
      left := left - |rest[0]|;
      rest := rest[1..];
    }
    if rest != [] {
      ghost var was := rest;
      rest := [rest[0][left..]] + rest[1..];
      assert rest[1..] == was[1..];
    }
  }

  /**
   Under every schedule of positive writes, however small, all of the bytes reach the socket; the call fails exactly
   when the socket has refused, with the bytes accepted until then on the wire.
   */
  method WriteAllVectored(socket: Socket, slices: seq<seq<byte>>) returns (ok: bool, ghost sent: nat)
    modifies socket
    ensures sent <= |Concat(slices)| && socket.wire == old(socket.wire) + Concat(slices)[..sent]
    ensures ok ==> sent == |Concat(slices)|
    ensures !ok ==> sent < |Concat(slices)| || Concat(slices) == []
    ensures ok <==> socket.refusals == old(socket.refusals)
  {
    var rest := slices;
    sent := 0;
    while rest != []
      invariant socket.refusals == old(socket.refusals)
      invariant sent <= |Concat(slices)| && Concat(rest) == Concat(slices)[sent..]
      invariant socket.wire == old(socket.wire) + Concat(slices)[..sent]
      invariant sent > 0 && rest != [] ==> rest[0] != []
      decreases |Concat(rest)|
    {
      var written := socket.WriteVectored(rest);
      if written == None || written.value == 0 {
        return false, sent;
      }
      assert Concat(slices)[sent..][..written.value] == Concat(slices)[sent..sent + written.value];
      sent := sent + written.value;
      rest := AdvanceSlices(rest, written.value);
    }
    ok := true;
  }

  /** The library's `write_all`: the same for a single slice. */
  method WriteAll(socket: Socket, bytes: seq<byte>) returns (ok: bool, ghost sent: nat)
    modifies socket
    ensures sent <= |bytes| && socket.wire == old(socket.wire) + bytes[..sent]
    ensures ok <==> sent == |bytes|
    ensures ok <==> socket.refusals == old(socket.refusals)
  {
    var rest := bytes;
    sent := 0;
    while rest != []
      invariant socket.refusals == old(socket.refusals)
      invariant sent <= |bytes| && rest == bytes[sent..]
      invariant socket.wire == old(socket.wire) + bytes[..sent]
      decreases |rest|
    {
      assert Concat([rest]) == rest;
      var written := socket.WriteVectored([rest]);
      if written == None || written.value == 0 {
        return false, sent;
      }
      assert bytes[sent..][..written.value] == bytes[sent..sent + written.value];
      sent := sent + written.value;
      rest := rest[written.value..];
    }
    ok := true;
  }

  /** One `write_all` after another. */
  method WriteBoth(socket: Socket, first: seq<byte>, second: seq<byte>) returns (ok: bool, ghost sent: nat)
    modifies socket
    ensures sent <= |first + second| && socket.wire == old(socket.wire) + (first + second)[..sent]
    ensures ok <==> sent == |first + second|
    ensures !ok ==> sent < |first + second|
    ensures ok <==> socket.refusals == old(socket.refusals)
  {
    ghost var wire := socket.wire;
    ok, sent := WriteAll(socket, first);
    TwoPieces(wire, first, second, sent);
    if !ok {
      return;
    }
    ghost var more;
    ok, more := WriteAll(socket, second);
    sent := |first| + more;
    TwoPieces(wire, first, second, sent);
  }

  function FramesIn(cs: seq<Call>): nat {
    if cs == [] then 0 else FramesIn(cs[..|cs| - 1]) + (if cs[|cs| - 1].SendFrame? then 1 else 0)
  }

  /** What a connection that has made these calls has put on the wire. */
  function SessionWire(header: StreamHeader, cs: seq<Call>): seq<byte> {
    EncodeStreamHeader(header) + Wires(cs)
  }

  /** The wire and both counters are what the calls made so far come to. */
  predicate Accounts(wire: seq<byte>, header: StreamHeader, cs: seq<Call>, bytes: nat, frames: nat) {
    wire == SessionWire(header, cs) && bytes == |wire| && frames == FramesIn(cs)
  }

  lemma WireGrows(header: StreamHeader, cs: seq<Call>, c: Call)
    ensures SessionWire(header, cs + [c]) == SessionWire(header, cs) + Wire(c)
    ensures FramesIn(cs + [c]) == FramesIn(cs) + if c.SendFrame? then 1 else 0
  {
    BackOfSnoc(cs, c);
    Regroup(EncodeStreamHeader(header), Wires(cs), Wire(c));
  }

  lemma AccountsGrow(wire: seq<byte>, header: StreamHeader, cs: seq<Call>, bytes: nat, frames: nat, c: Call)
    requires Accounts(wire, header, cs, bytes, frames)
    ensures Accounts(wire + Wire(c), header, cs + [c], bytes + Size(c), frames + if c.SendFrame? then 1 else 0)
    ensures Wire(c)[..Size(c)] == Wire(c)
  {
    WireGrows(header, cs, c);
  }

  lemma FrameSlices(c: Call, encoded: seq<byte>)
    requires c.SendFrame? && encoded == EncodeFrameHeader(HeaderOf(c))
    ensures Concat([encoded, c.data]) == Wire(c)
  {
    TwoSlices(encoded, c.data);
  }

  class Sender {
    const socket: Socket
    var framesSent: nat
    var bytesSent: nat
    ghost const header: StreamHeader
    ghost var calls: seq<Call>

    ghost predicate Valid()
      reads this, socket
    {
      Accounts(socket.wire, header, calls, bytesSent, framesSent)
    }

    constructor (socket: Socket, header: StreamHeader)
      requires socket.wire == EncodeStreamHeader(header)
      ensures Valid() && this.socket == socket && this.header == header && calls == []
    {
      this.socket, this.header, calls := socket, header, [];
      framesSent, bytesSent := 0, STREAM_HEADER_LEN;
    }

    static method Connect(socket: Socket, header: StreamHeader) returns (r: Sender?)
      requires socket.wire == []
      modifies socket
      ensures r != null <==> socket.refusals == old(socket.refusals)
      ensures r != null ==> r.Valid() && fresh(r) && r.socket == socket && r.header == header && r.calls == []
      ensures r == null ==> socket.wire < EncodeStreamHeader(header)
    {
      r := null;
      var ok, sent := WriteAll(socket, EncodeStreamHeader(header));
      if ok {
        r := new Sender(socket, header);
      }
    }

    /**
     The call succeeds, with all of its bytes on the wire, exactly when the socket does not refuse; otherwise some of
     them are there and no counter has moved.
     */
    method SendFrame(data: seq<byte>, pts: u64, keyframe: bool) returns (ok: bool, ghost sent: nat)
      requires Valid()
      modifies this, socket
      ensures ok <==> socket.refusals == old(socket.refusals)
      ensures ok ==> Valid() && calls == old(calls) + [Call.SendFrame(data, pts, keyframe)]
      ensures !ok ==> unchanged(this) && sent < |Wire(Call.SendFrame(data, pts, keyframe))|
      ensures !ok ==> socket.wire == SessionWire(header, calls) + Wire(Call.SendFrame(data, pts, keyframe))[..sent]
    {
      ghost var c := Call.SendFrame(data, pts, keyframe);
      var encoded := EncodeFrameHeader(FrameHeader(AsU32(|data|), pts, keyframe, false));
      FrameSlices(c, encoded);
      AccountsGrow(socket.wire, header, calls, bytesSent, framesSent, c);
      ok, sent := WriteAllVectored(socket, [encoded, data]);
      if ok {
        calls := calls + [c];
        framesSent := framesSent + 1;
        bytesSent := bytesSent + (|encoded| + |data|);
      }
    }

    /** Likewise for a control message, written in two pieces. */
    method SendControl(message: ControlMessage) returns (ok: bool, ghost sent: nat)
      requires Valid()
      modifies this, socket
      ensures ok <==> socket.refusals == old(socket.refusals)
      ensures ok ==> Valid() && calls == old(calls) + [Call.SendControl(message)]
      ensures !ok ==> unchanged(this) && sent < |Wire(Call.SendControl(message))|
      ensures !ok ==> socket.wire == SessionWire(header, calls) + Wire(Call.SendControl(message))[..sent]
    {
      ghost var c := Call.SendControl(message);
      var payload := EncodeControl(message);
      var encoded := EncodeFrameHeader(FrameHeader(AsU32(|payload|), 0, false, true));
      assert encoded + payload == Wire(c);
      AccountsGrow(socket.wire, header, calls, bytesSent, framesSent, c);
      ok, sent := WriteBoth(socket, encoded, payload);
      if ok {
        calls := calls + [c];
        bytesSent := bytesSent + (FRAME_HEADER_LEN + |payload|);
      }
    }
  }

  lemma TwoSlices(a: seq<byte>, b: seq<byte>)
    ensures Concat([a, b]) == a + b
  {
    assert [a, b][1..] == [b] && [b][1..] == [];
    assert Concat([b]) == b + Concat([]) == b;
  }

  lemma TwoPieces(wire: seq<byte>, a: seq<byte>, b: seq<byte>, n: nat)
    requires n <= |a| + |b|
    ensures wire + (a + b)[..n] == if n <= |a| then wire + a[..n] else wire + a + b[..n - |a|]
  {
  }
}
