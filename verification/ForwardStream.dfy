/**
 The forward stream: what the host's `Sender` (crates/transport/src/lib.rs) puts on the socket through partial
 vectored writes, what the device's frame loop (VideoStream.kt, Protocol.kt) takes out of it through partial
 reads, and when the two agree.
 */
module ForwardStream {
  import opened Bytes
  import opened Wrappers
  import opened ForwardProtocol
  import opened Sequences

  /** One successful call on the sender. */
  datatype Call = SendFrame(data: seq<byte>, pts: u64, keyframe: bool) | SendControl(message: ControlMessage)

  /** One frame as the device's loop hands it on. */
  datatype Received = Received(length: nat, pts: u64, keyframe: bool, control: bool, payload: seq<byte>)

  function PayloadOf(c: Call): seq<byte> {
    if c.SendFrame? then c.data else EncodeControl(c.message)
  }

  /** The length field is a narrowing cast of the payload's length. */
  function HeaderOf(c: Call): FrameHeader {
    var length := AsU32(|PayloadOf(c)|);
    if c.SendFrame? then FrameHeader(length, c.pts, c.keyframe, false) else FrameHeader(length, 0, false, true)
  }

  /** The bytes a call takes on the wire. */
  function Size(c: Call): nat {
    FRAME_HEADER_LEN + |PayloadOf(c)|
  }

  function Sizes(cs: seq<Call>): nat {
    if cs == [] then 0 else Sizes(cs[..|cs| - 1]) + Size(cs[|cs| - 1])
  }

  function Wire(c: Call): (s: seq<byte>)
    ensures |s| == Size(c)
  {
    EncodeFrameHeader(HeaderOf(c)) + PayloadOf(c)
  }

  function Wires(cs: seq<Call>): (s: seq<byte>)
    ensures |s| == Sizes(cs)
  {
    if cs == [] then [] else Wires(cs[..|cs| - 1]) + Wire(cs[|cs| - 1])
  }

  /** What the caller of the sender meant the device to receive. */
  function Meant(c: Call): Received {
    var p := PayloadOf(c);
    if c.SendFrame? then Received(|p|, c.pts, c.keyframe, false, p) else Received(|p|, 0, false, true, p)
  }

  function MeantAll(cs: seq<Call>): (r: seq<Received>)
    ensures |r| == |cs|
  {
    seq(|cs|, i requires 0 <= i < |cs| => Meant(cs[i]))
  }

  predicate Fits(c: Call) {
    |PayloadOf(c)| <= 8 * 1024 * 1024
  }

  predicate AllFit(cs: seq<Call>) {
    forall i :: 0 <= i < |cs| ==> Fits(cs[i])
  }

  /** The header at the front of a byte stream, if it is whole and its length is plausible. */
  function FrontHeader(bytes: seq<byte>): Option<FrameHeader> {
    if |bytes| < FRAME_HEADER_LEN then None else
    var h := DecodeFrameHeader(bytes[..FRAME_HEADER_LEN]);
    if h.length > MAX_FRAME_BYTES then None else Some(h)
  }

  function ReceivedAs(h: FrameHeader, payload: seq<byte>): Received {
    Received(h.length, h.pts, h.keyframe, h.control, payload)
  }

  /** The frame at the front of a byte stream, if it is whole. */
  function Front(bytes: seq<byte>): Option<Received> {
    match FrontHeader(bytes)
    case None => None
    case Some(h) =>
      if |bytes| < FRAME_HEADER_LEN + h.length then None
      else Some(ReceivedAs(h, bytes[FRAME_HEADER_LEN..FRAME_HEADER_LEN + h.length]))
  }

  /** The frames a device reads from a byte stream before the stream ends or its framing is rejected. */
  function Parse(bytes: seq<byte>): seq<Received> {
    match Front(bytes)
    case None => []
    case Some(r) => [r] + Parse(bytes[FRAME_HEADER_LEN + r.length..])
  }

  /** What the device makes of one call's bytes and whatever follows them: exact if and only if the payload fits. */
  lemma FrontOfWire(c: Call, rest: seq<byte>)
    ensures Front(Wire(c) + rest) == Some(Meant(c)) <==> Fits(c)
  {
    var h := HeaderOf(c);
    var e := EncodeFrameHeader(h);
    FrameHeaderRoundTrip(h, e);
    FrontOfParts(e, PayloadOf(c), rest);
  }

  lemma FrontOfParts(header: seq<byte>, payload: seq<byte>, rest: seq<byte>)
    requires |header| == FRAME_HEADER_LEN
    ensures var h := DecodeFrameHeader(header);
            var front := Front(header + payload + rest);
            && (h.length == |payload| <= MAX_FRAME_BYTES ==>
                  front == Some(ReceivedAs(h, payload)))
            && (h.length > MAX_FRAME_BYTES ==> front == None)
            && (front.Some? ==> front.value.length == h.length)
  {
    var bytes := header + payload + rest;
    assert bytes[..FRAME_HEADER_LEN] == header;
    assert bytes[FRAME_HEADER_LEN..FRAME_HEADER_LEN + |payload|] == payload;
  }

  lemma ParseOneMore(c: Call, rest: seq<byte>)
    requires Fits(c)
    ensures Parse(Wire(c) + rest) == [Meant(c)] + Parse(rest)
  {
    FrontOfWire(c, rest);
    assert (Wire(c) + rest)[|Wire(c)|..] == rest;
  }

  /** A stream cut short inside a call's bytes yields nothing for that call. */
  lemma CutShort(c: Call, n: nat)
    requires Fits(c) && n < |Wire(c)|
    ensures Parse(Wire(c)[..n]) == []
  {
    if n >= FRAME_HEADER_LEN {
      var h := HeaderOf(c);
      assert Wire(c)[..n][..FRAME_HEADER_LEN] == EncodeFrameHeader(h);
      FrameHeaderRoundTrip(h, EncodeFrameHeader(h));
    }
  }

  /** The last call's bytes may be read as the beginning of what follows the others. */
  lemma LastCall(cs: seq<Call>, rest: seq<byte>)
    requires cs != []
    ensures var n := |cs| - 1; Wires(cs) + rest == Wires(cs[..n]) + (Wire(cs[n]) + rest)
  {
    Regroup(Wires(cs[..|cs| - 1]), Wire(cs[|cs| - 1]), rest);
  }

  lemma LastMeant(cs: seq<Call>)
    requires cs != []
    ensures var n := |cs| - 1; MeantAll(cs) == MeantAll(cs[..n]) + [Meant(cs[n])]
  {
  }

  /** The calls that fit come out one for one, whatever follows them. */
  lemma {:induction false} ParseOfWires(cs: seq<Call>, rest: seq<byte>)
    requires AllFit(cs)
    ensures Parse(Wires(cs) + rest) == MeantAll(cs) + Parse(rest)
  {
    if cs == [] {
      assert Wires(cs) + rest == rest;
    } else {
      var init, c := cs[..|cs| - 1], cs[|cs| - 1];
      LastCall(cs, rest);
      LastMeant(cs);
      ParseOfWires(init, Wire(c) + rest);
      ParseOneMore(c, rest);
      Regroup(MeantAll(init), [Meant(c)], Parse(rest));
    }
  }

  lemma MisfitFirst(c: Call, rest: seq<byte>)
    requires !Fits(c)
    ensures !([Meant(c)] <= Parse(Wire(c) + rest))
  {
    FrontOfWire(c, rest);
    var parsed := Parse(Wire(c) + rest);
    assert parsed != [] ==> Some(parsed[0]) == Front(Wire(c) + rest);
  }

  lemma NotAPrefix<T>(a: seq<T>, x: T, b: seq<T>)
    ensures !([x] <= b) ==> !(a + [x] <= a + b)
    ensures !(a <= b) ==> !(a + [x] <= b)
  {
    if a + [x] <= a + b {
      assert (a + b)[|a|] == x;
    }
    if a + [x] <= b {
      assert a == (a + [x])[..|a|] == b[..|a|];
    }
  }

  lemma MisfitHere(cs: seq<Call>, c: Call, rest: seq<byte>)
    requires AllFit(cs) && !Fits(c)
    ensures !(MeantAll(cs) + [Meant(c)] <= Parse(Wires(cs) + (Wire(c) + rest)))
  {
    var tail := Wire(c) + rest;
    ParseOfWires(cs, tail);
    MisfitFirst(c, rest);
    NotAPrefix(MeantAll(cs), Meant(c), Parse(tail));
  }

  lemma LastMisfit(cs: seq<Call>)
    requires !AllFit(cs)
    ensures !AllFit(cs[..|cs| - 1]) || !Fits(cs[|cs| - 1])
  {
  }

  lemma {:induction false} MisfitSpoils(cs: seq<Call>, rest: seq<byte>)
    requires !AllFit(cs)
    ensures !(MeantAll(cs) <= Parse(Wires(cs) + rest))
  {
    var init, c := cs[..|cs| - 1], cs[|cs| - 1];
    LastMisfit(cs);
    LastCall(cs, rest);
    LastMeant(cs);
    if AllFit(init) {
      MisfitHere(init, c, rest);
    } else {
      MisfitSpoils(init, Wire(c) + rest);
      NotAPrefix(MeantAll(init), Meant(c), Parse(Wires(cs) + rest));
    }
  }

  /** The device recovers exactly the calls made if and only if every payload is at most 8 MiB. */
  lemma StreamRoundTrip(cs: seq<Call>)
    ensures Parse(Wires(cs)) == MeantAll(cs) <==> AllFit(cs)
  {
    assert Wires(cs) + [] == Wires(cs);
    if AllFit(cs) {
      ParseOfWires(cs, []);
    } else {
      MisfitSpoils(cs, []);
    }
  }

  /** The first `k` calls are those whose bytes lie wholly within the first `n`. */
  predicate WhollyWithin(cs: seq<Call>, n: nat, k: nat) {
    k <= |cs| && Sizes(cs[..k]) <= n && (k < |cs| ==> n < Sizes(cs[..k]) + Size(cs[k]))
  }

  lemma CutInLast(cs: seq<Call>, c: Call, r: nat)
    requires AllFit(cs) && Fits(c) && r < |Wire(c)|
    ensures Parse(Wires(cs) + Wire(c)[..r]) == MeantAll(cs)
  {
    ParseOfWires(cs, Wire(c)[..r]);
    CutShort(c, r);
  }

  lemma WithinAll(cs: seq<Call>, n: nat, k: nat)
    requires cs != [] && n < Sizes(cs) && WhollyWithin(cs[..|cs| - 1], n, k)
    ensures WhollyWithin(cs, n, k)
  {
    PrefixOfPrefix(cs, |cs| - 1, k);
    if k == |cs| - 1 {
      assert Sizes(cs) == Sizes(cs[..k]) + Size(cs[k]);
    }
  }

  /** Cut anywhere, the stream delivers the calls whose bytes have all arrived and nothing of the others. */
  lemma {:induction false} PrefixDelivers(cs: seq<Call>, n: nat) returns (k: nat)
    requires AllFit(cs) && n <= |Wires(cs)|
    ensures WhollyWithin(cs, n, k)
    ensures Parse(Wires(cs)[..n]) == MeantAll(cs[..k])
  {
    if n == |Wires(cs)| {
      k := |cs|;
      assert cs[..k] == cs && Wires(cs)[..n] == Wires(cs);
      StreamRoundTrip(cs);
    } else {
      k := PrefixOfLonger(cs, n);
    }
  }

  lemma {:induction false} PrefixOfLonger(cs: seq<Call>, n: nat) returns (k: nat)
    requires AllFit(cs) && n < |Wires(cs)|
    ensures WhollyWithin(cs, n, k)
    ensures Parse(Wires(cs)[..n]) == MeantAll(cs[..k])
  {
    var init, c := cs[..|cs| - 1], cs[|cs| - 1];
    if n < |Wires(init)| {
      k := PrefixOfLonger(init, n);
      CutWithin(Wires(init), Wire(c), n);
      PrefixOfPrefix(cs, |cs| - 1, k);
      WithinAll(cs, n, k);
    } else {
      k := |init|;
      CutBeyond(Wires(init), Wire(c), n);
      CutInLast(init, c, n - |Wires(init)|);
    }
  }
}
