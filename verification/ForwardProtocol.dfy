/**
 The host-to-device half of the wire format: the stream header, the frame envelope and the control payload.
 The host encodes (crates/protocol/src/lib.rs), the device decodes (Protocol.kt).
 */
module ForwardProtocol {
  import opened Bytes
  import opened Wrappers

  const STREAM_HEADER_LEN := 16
  const FRAME_HEADER_LEN := 16
  const CONTROL_LEN := 2
  /** "MRLD" */
  const MAGIC: seq<byte> := [0x4D, 0x52, 0x4C, 0x44]
  const VERSION: u16 := 3
  const MAX_FRAME_BYTES := 8 * 1024 * 1024

  datatype Codec = H264 | H265
  datatype StreamHeader = StreamHeader(width: u16, height: u16, framerate: u16, codec: Codec)
  datatype FrameHeader = FrameHeader(length: u32, pts: u64, keyframe: bool, control: bool)
  datatype ControlKind = Brightness | Rotation
  datatype ControlMessage = ControlMessage(kind: ControlKind, value: byte)

  lemma Powers()
    ensures Pow256(2) == 0x1_0000 && Pow256(4) == 0x1_0000_0000 && Pow256(8) == 0x1_0000_0000_0000_0000
  {
    assert Pow256(3) == 0x100_0000;
    assert Pow256(6) == 0x1_0000_0000_0000;
  }

  function Join(s: seq<byte>): (x: nat)
    ensures |s| == 2 ==> x < 0x1_0000
    ensures |s| == 4 ==> x < 0x1_0000_0000
    ensures |s| == 8 ==> x < 0x1_0000_0000_0000_0000
  {
    Powers();
    FromBigEndian(s)
  }

  function Two(x: u16): (s: seq<byte>)
    ensures |s| == 2 && Join(s) == x
  {
    Powers();
    BigEndian(x, 2)
  }

  function Four(x: u32): (s: seq<byte>)
    ensures |s| == 4 && Join(s) == x
  {
    Powers();
    BigEndian(x, 4)
  }

  function Eight(x: u64): (s: seq<byte>)
    ensures |s| == 8 && Join(s) == x
  {
    Powers();
    BigEndian(x, 8)
  }

  function EncodeStreamHeader(h: StreamHeader): (s: seq<byte>)
    ensures |s| == STREAM_HEADER_LEN
  {
    MAGIC + Two(VERSION) + Two(h.width) + Two(h.height) + Two(h.framerate) + [if h.codec.H264? then 0 else 1, 0, 0, 0]
  }

  /** What either end makes of the first 16 bytes of a connection. */
  function DecodeStreamHeader(s: seq<byte>): Option<StreamHeader>
    requires |s| == STREAM_HEADER_LEN
  {
    if s[..4] != MAGIC || Join(s[4..6]) != VERSION || s[12] > 1 then None
    else Some(StreamHeader(Join(s[6..8]), Join(s[8..10]), Join(s[10..12]), if s[12] == 0 then H264 else H265))
  }

  function Flags(h: FrameHeader): byte {
    (if h.keyframe then 1 else 0) + (if h.control then 2 else 0)
  }

  function EncodeFrameHeader(h: FrameHeader): (s: seq<byte>)
    ensures |s| == FRAME_HEADER_LEN
  {
    Four(h.length) + Eight(h.pts) + [Flags(h), 0, 0, 0]
  }

  /** Bits 0 and 1 of the flag byte; the other six and the reserved bytes are ignored. */
  function DecodeFrameHeader(s: seq<byte>): FrameHeader
    requires |s| == FRAME_HEADER_LEN
  {
    FrameHeader(Join(s[..4]), Join(s[4..12]), s[12] % 2 == 1, s[12] / 2 % 2 == 1)
  }

  function EncodeControl(m: ControlMessage): (s: seq<byte>)
    ensures |s| == CONTROL_LEN
  {
    [if m.kind.Brightness? then 1 else 2, m.value]
  }

  function DecodeControl(payload: seq<byte>): Option<ControlMessage> {
    if |payload| < CONTROL_LEN then None
    else if payload[0] == 1 then Some(ControlMessage(Brightness, payload[1]))
    else if payload[0] == 2 then Some(ControlMessage(Rotation, payload[1]))
    else None
  }

  lemma JoinOnto(s: seq<byte>)
    ensures |s| == 2 ==> Two(Join(s)) == s
    ensures |s| == 4 ==> Four(Join(s)) == s
    ensures |s| == 8 ==> Eight(Join(s)) == s
  {
    Powers();
    BigEndianOfFrom(s);
  }

  /**
   Decoding inverts encoding; and 16 bytes are an encoded header exactly when they decode and the reserved ones are
   zero.
   */
  lemma StreamHeaderRoundTrip(h: StreamHeader, s: seq<byte>)
    requires |s| == STREAM_HEADER_LEN
    ensures DecodeStreamHeader(EncodeStreamHeader(h)) == Some(h)
    ensures s == EncodeStreamHeader(h) <==> DecodeStreamHeader(s) == Some(h) && s[13..] == [0, 0, 0]
  {
    StreamHeaderDecodes(h);
    if DecodeStreamHeader(s) == Some(h) && s[13..] == [0, 0, 0] {
      JoinOnto(s[4..6]);
      JoinOnto(s[6..8]);
      JoinOnto(s[8..10]);
      JoinOnto(s[10..12]);
      assert s == s[..4] + s[4..6] + s[6..8] + s[8..10] + s[10..12] + [s[12]] + s[13..];
    }
  }

  lemma StreamHeaderDecodes(h: StreamHeader)
    ensures var e := EncodeStreamHeader(h); DecodeStreamHeader(e) == Some(h) && e[13..] == [0, 0, 0]
  {
    var e := EncodeStreamHeader(h);
    assert e[..4] == MAGIC && e[4..6] == Two(VERSION) && e[6..8] == Two(h.width) && e[8..10] == Two(h.height);
    assert e[10..12] == Two(h.framerate) && e[13..] == [0, 0, 0];
  }

  lemma FrameHeaderDecodes(h: FrameHeader)
    ensures var e := EncodeFrameHeader(h); DecodeFrameHeader(e) == h && e[12] < 4 && e[13..] == [0, 0, 0]
  {
    var e := EncodeFrameHeader(h);
    assert e[..4] == Four(h.length) && e[4..12] == Eight(h.pts) && e[13..] == [0, 0, 0];
  }

  /**
   Decoding inverts encoding; and 16 bytes are an encoded header exactly when they decode to it with no stray bit set.
   */
  lemma FrameHeaderRoundTrip(h: FrameHeader, s: seq<byte>)
    requires |s| == FRAME_HEADER_LEN
    ensures DecodeFrameHeader(EncodeFrameHeader(h)) == h
    ensures s == EncodeFrameHeader(h) <==> DecodeFrameHeader(s) == h && s[12] < 4 && s[13..] == [0, 0, 0]
  {
    FrameHeaderDecodes(h);
    if DecodeFrameHeader(s) == h && s[12] < 4 && s[13..] == [0, 0, 0] {
      FrameHeaderOnto(s);
    }
  }

  lemma FrameHeaderOnto(s: seq<byte>)
    requires |s| == FRAME_HEADER_LEN && s[12] < 4 && s[13..] == [0, 0, 0]
    ensures EncodeFrameHeader(DecodeFrameHeader(s)) == s
  {
    var h := DecodeFrameHeader(s);
    JoinOnto(s[..4]);
    JoinOnto(s[4..12]);
    assert Flags(h) == s[12];
    FrameFields(s);
  }

  lemma FrameFields(s: seq<byte>)
    requires |s| == FRAME_HEADER_LEN && s[13..] == [0, 0, 0]
    ensures s == s[..4] + s[4..12] + [s[12], 0, 0, 0]
  {
    assert s == s[..4] + s[4..12] + [s[12]] + s[13..];
  }

  lemma ControlRoundTrip(m: ControlMessage, payload: seq<byte>)
    ensures DecodeControl(EncodeControl(m) + payload) == Some(m)
    ensures DecodeControl(payload) == Some(m) <==> EncodeControl(m) <= payload
  {
  }

  lemma TwoDigits(s: seq<byte>)
    requires |s| == 2
    ensures Join(s) / 256 == s[0] && Join(s) % 256 == s[1]
  {
    DigitsAre(s, 0);
    DigitsAre(s, 1);
    assert Pow256(1) == 256;
  }

  /** The stream header, byte by byte; the reserved ones say nothing. */
  lemma StreamHeaderSays(s: seq<byte>)
    requires |s| == STREAM_HEADER_LEN
    ensures match DecodeStreamHeader(s)
            case Some(h) =>
              && s[..4] == [0x4D, 0x52, 0x4C, 0x44] && s[4] == 0 && s[5] == 3
              && h.width / 256 == s[6] && h.width % 256 == s[7] && h.height / 256 == s[8] && h.height % 256 == s[9]
              && h.framerate / 256 == s[10] && h.framerate % 256 == s[11]
              && s[12] == if h.codec.H264? then 0 else 1
            case None => s[..4] != [0x4D, 0x52, 0x4C, 0x44] || s[4] != 0 || s[5] != 3 || s[12] > 1
  {
    TwoDigits(s[4..6]);
    TwoDigits(s[6..8]);
    TwoDigits(s[8..10]);
    TwoDigits(s[10..12]);
  }

  /** The frame header, byte by byte; the stray flag bits and the reserved bytes say nothing. */
  lemma FrameHeaderSays(s: seq<byte>)
    requires |s| == FRAME_HEADER_LEN
    ensures var h := DecodeFrameHeader(s);
            && (forall k :: 0 <= k < 4 ==> s[k] == h.length / Pow256(3 - k) % 256)
            && (forall k :: 4 <= k < 12 ==> s[k] == h.pts / Pow256(11 - k) % 256)
            && (h.keyframe <==> s[12] % 4 == 1 || s[12] % 4 == 3)
            && (h.control <==> s[12] % 4 == 2 || s[12] % 4 == 3)
  {
    forall k | 0 <= k < 4 ensures s[k] == Join(s[..4]) / Pow256(3 - k) % 256 {
      DigitsAre(s[..4], k);
    }
    forall k | 4 <= k < 12 ensures s[k] == Join(s[4..12]) / Pow256(11 - k) % 256 {
      DigitsAre(s[4..12], k - 4);
    }
  }

  /** The control payload, byte by byte; a longer one says no more. */
  lemma ControlSays(payload: seq<byte>)
    ensures match DecodeControl(payload)
            case Some(m) =>
              |payload| >= 2 && payload[0] == (if m.kind.Brightness? then 1 else 2) && payload[1] == m.value
            case None => |payload| < 2 || payload[0] < 1 || payload[0] > 2
  {
  }
}
