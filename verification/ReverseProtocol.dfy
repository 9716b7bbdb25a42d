/**
 The 9-byte device-to-host message: one type byte and eight payload bytes.
 The device encodes (Protocol.kt), the host decodes (crates/protocol/src/lib.rs).
 */
module ReverseProtocol {
  import opened Bytes
  import opened Wrappers

  const REVERSE_MSG_LEN := 9
  const MSG_ACK: byte := 1
  const MSG_TOUCH: byte := 2

  datatype TouchAction = Down | Move | Up | Cancel
  datatype TouchMessage = TouchMessage(action: TouchAction, x: u16, y: u16)
  datatype ReverseMessage = Ack(pts: u64) | Touch(touch: TouchMessage)

  function ActionId(a: TouchAction): byte {
    match a
    case Down => 0
    case Move => 1
    case Up => 2
    case Cancel => 3
  }

  function ActionFromId(id: byte): Option<TouchAction> {
    if id == 0 then Some(Down) else
    if id == 1 then Some(Move) else
    if id == 2 then Some(Up) else
    if id == 3 then Some(Cancel) else None
  }

  function Join16(hi: byte, lo: byte): (r: u16)
    ensures r / 256 == hi && r % 256 == lo
  {
    var h: int := hi;
    h * 256 + lo
  }

  function Encode(m: ReverseMessage): (s: seq<byte>)
    ensures |s| == REVERSE_MSG_LEN
  {
    match m
    case Ack(pts) =>
      assert Pow256(8) == 0x1_0000_0000_0000_0000;
      [MSG_ACK] + BigEndian(pts, 8)
    case Touch(t) =>
      [MSG_TOUCH, ActionId(t.action), 0, t.x / 256, t.x % 256, t.y / 256, t.y % 256, 0, 0]
  }

  /** What the host makes of a full block; `None` is a malformed message. */
  function Decode(block: seq<byte>): Option<ReverseMessage> {
    if |block| != REVERSE_MSG_LEN then None
    else if block[0] == MSG_ACK then
      assert Pow256(8) == 0x1_0000_0000_0000_0000;
      Some(Ack(FromBigEndian(block[1..])))
    else if block[0] == MSG_TOUCH then
      match ActionFromId(block[1])
      case Some(a) => Some(Touch(TouchMessage(a, Join16(block[3], block[4]), Join16(block[5], block[6]))))
      case None => None
    else None
  }

  /** The format, byte by byte; those of a touch that are reserved say nothing. */
  lemma BlockSays(block: seq<byte>)
    ensures match Decode(block)
            case Some(Ack(pts)) =>
              |block| == 9 && block[0] == 1 && forall k :: 1 <= k < 9 ==> block[k] == pts / Pow256(8 - k) % 256
            case Some(Touch(t)) =>
              && |block| == 9 && block[0] == 2
              && block[1] == (match t.action case Down => 0 case Move => 1 case Up => 2 case Cancel => 3)
              && t.x / 256 == block[3] && t.x % 256 == block[4] && t.y / 256 == block[5] && t.y % 256 == block[6]
            case None => |block| != 9 || block[0] < 1 || block[0] > 2 || (block[0] == 2 && block[1] > 3)
  {
    if |block| == 9 && block[0] == 1 {
      forall k | 1 <= k < 9 ensures block[k] == FromBigEndian(block[1..]) / Pow256(8 - k) % 256 {
        DigitsAre(block[1..], k - 1);
      }
    }
  }

  predicate ReservedZero(block: seq<byte>)
    requires |block| == REVERSE_MSG_LEN
  {
    block[0] == MSG_TOUCH ==> block[2] == block[7] == block[8] == 0
  }

  /** Decoding inverts encoding; and a block is an encoding exactly when it decodes with its reserved bytes zero. */
  lemma DecodeEncode(m: ReverseMessage, block: seq<byte>)
    requires |block| == REVERSE_MSG_LEN
    ensures Decode(Encode(m)) == Some(m)
    ensures block == Encode(m) <==> Decode(block) == Some(m) && ReservedZero(block)
  {
    assert Pow256(8) == 0x1_0000_0000_0000_0000;
    if m.Ack? {
      assert Encode(m)[1..] == BigEndian(m.pts, 8);
    }
    if Decode(block) == Some(m) && ReservedZero(block) {
      if m.Ack? {
        BigEndianOfFrom(block[1..]);
        assert block == [block[0]] + block[1..];
      } else {
        assert block == Encode(m);
      }
    }
  }

  method EncodeAckMessage(ptsNs: u64) returns (buf: array<byte>)
    ensures fresh(buf) && buf[..] == Encode(Ack(ptsNs))
  {
    assert Pow256(8) == 0x1_0000_0000_0000_0000;
    buf := new byte[REVERSE_MSG_LEN](_ => 0);
    buf[0] := MSG_ACK;
    for i := 0 to 8
      invariant buf[0] == MSG_ACK
      invariant forall j :: 0 <= j < i ==> buf[1 + j] == BigEndian(ptsNs, 8)[j]
    {
      BigEndianDigit(ptsNs, 8, i);
      buf[1 + i] := ptsNs / Pow256(7 - i) % 256;
    }
    assert buf[..] == [MSG_ACK] + BigEndian(ptsNs, 8);
  }

  method EncodeTouchMessage(msg: TouchMessage) returns (buf: array<byte>)
    ensures fresh(buf) && buf[..] == Encode(Touch(msg))
  {
    buf := new byte[REVERSE_MSG_LEN](_ => 0);
    buf[0] := MSG_TOUCH;
    buf[1] := ActionId(msg.action);
    buf[2] := 0;
    buf[3] := msg.x / 256 % 256;
    buf[4] := msg.x % 256;
    buf[5] := msg.y / 256 % 256;
    buf[6] := msg.y % 256;
    buf[7] := 0;
    buf[8] := 0;
    assert msg.x / 256 % 256 == msg.x / 256 && msg.y / 256 % 256 == msg.y / 256;
    assert buf[..] == [MSG_TOUCH, ActionId(msg.action), 0, msg.x / 256, msg.x % 256, msg.y / 256, msg.y % 256, 0, 0];
  }
}
