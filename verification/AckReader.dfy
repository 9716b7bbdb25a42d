/**
 The host's reverse-channel reader (session.rs): it gathers 9-byte messages out of arbitrary read fragments,
 matches acks to sends first in, first out, and hands touches to the input worker.
 */
module AckReader {
  import opened Bytes
  import opened Wrappers
  import opened ReverseProtocol
  import RC = ReverseChannel
  import VideoStream
  import opened Sequences

  /** The complete 9-byte blocks of a byte stream. */
  function Blocks(bytes: seq<byte>): seq<seq<byte>> {
    seq(|bytes| / 9, i requires 0 <= i < |bytes| / 9 => bytes[9 * i..9 * i + 9])
  }

  /** The messages among some blocks, in order; a block that does not decode contributes nothing. */
  function DecodeAll(blocks: seq<seq<byte>>): seq<ReverseMessage> {
    if blocks == [] then [] else DecodeAll(blocks[..|blocks| - 1]) + DecodeOne(blocks[|blocks| - 1])
  }

  function DecodeOne(block: seq<byte>): seq<ReverseMessage> {
    match Decode(block) case Some(m) => [m] case None => []
  }

  /** What a byte stream says. */
  function Messages(bytes: seq<byte>): seq<ReverseMessage> {
    DecodeAll(Blocks(bytes))
  }

  lemma {:induction false} DecodeAllConcat(a: seq<seq<byte>>, b: seq<seq<byte>>)
    ensures DecodeAll(a + b) == DecodeAll(a) + DecodeAll(b)
  {
    if b == [] {
      NothingAdded(a);
    } else {
      BackOfConcat(a, b);
      DecodeAllConcat(a, b[..|b| - 1]);
      Regroup(DecodeAll(a), DecodeAll(b[..|b| - 1]), DecodeOne(b[|b| - 1]));
    }
  }

  lemma UndecodedIgnored(a: seq<seq<byte>>, block: seq<byte>, b: seq<seq<byte>>)
    requires Decode(block) == None
    ensures DecodeAll(a + [block] + b) == DecodeAll(a + b)
  {
    DecodeAllConcat(a + [block], b);
    DecodeAllConcat(a, b);
    BackOfSnoc(a, block);
    NothingAdded(DecodeAll(a));
  }

  /** Whole blocks can be read on their own: what follows them never changes how they are read. */
  lemma BlocksConcat(a: seq<byte>, b: seq<byte>)
    requires |a| % REVERSE_MSG_LEN == 0
    ensures Blocks(a + b) == Blocks(a) + Blocks(b)
  {
    var n := |a| / 9;
    assert |a| == 9 * n;
    forall i | 0 <= i < |a + b| / 9
      ensures Blocks(a + b)[i] == (Blocks(a) + Blocks(b))[i]
    {
      if i < n {
        SliceOfFront(a, b, 9 * i, 9 * i + 9);
      } else {
        SliceOfBack(a, b, 9 * (i - n), 9 * (i - n) + 9);
      }
    }
  }

  lemma OneBlock(block: seq<byte>)
    requires |block| <= REVERSE_MSG_LEN
    ensures Blocks(block) == Completed(block)
  {
    if |block| == REVERSE_MSG_LEN {
      assert block[..REVERSE_MSG_LEN] == block;
    }
  }

  lemma WholeBlock(before: seq<byte>, block: seq<byte>, after: seq<byte>)
    requires |before| % REVERSE_MSG_LEN == 0 && |block| == REVERSE_MSG_LEN
    ensures Blocks(before + block + after) == Blocks(before) + [block] + Blocks(after)
  {
    BlocksConcat(before + block, after);
    BlocksConcat(before, block);
    OneBlock(block);
  }

  /** A block that does not decode is dropped, and nothing before or after it is disturbed. */
  lemma MalformedBlockSkipped(before: seq<byte>, block: seq<byte>, after: seq<byte>)
    requires |before| % REVERSE_MSG_LEN == 0 && |block| == REVERSE_MSG_LEN && Decode(block) == None
    ensures Messages(before + block + after) == Messages(before + after)
  {
    WholeBlock(before, block, after);
    BlocksConcat(before, after);
    UndecodedIgnored(Blocks(before), block, Blocks(after));
  }

  /** The block, if any, that a partial block and the bytes just read make up. */
  function Completed(partial: seq<byte>): seq<seq<byte>> {
    if |partial| == REVERSE_MSG_LEN then [partial] else []
  }

  function WholeOf(received: seq<byte>): (whole: seq<byte>)
    ensures |whole| % REVERSE_MSG_LEN == 0 && received == whole + PartialOf(received)
  {
    received[..|received| - |received| % REVERSE_MSG_LEN]
  }

  function PartialOf(received: seq<byte>): (partial: seq<byte>)
    ensures |partial| == |received| % REVERSE_MSG_LEN
  {
    received[|received| - |received| % REVERSE_MSG_LEN..]
  }

  /** A fragment that does not run past the current block adds what that block completes. */
  lemma BlocksGrow(received: seq<byte>, chunk: seq<byte>)
    requires |received| % REVERSE_MSG_LEN + |chunk| <= REVERSE_MSG_LEN
    ensures Blocks(received + chunk) == Blocks(received) + Completed(PartialOf(received) + chunk)
  {
    BlocksGrowAfter(WholeOf(received), PartialOf(received), chunk);
  }

  lemma PartialGrows(received: seq<byte>, chunk: seq<byte>)
    requires |received| % REVERSE_MSG_LEN + |chunk| <= REVERSE_MSG_LEN
    ensures var partial := PartialOf(received) + chunk;
            PartialOf(received + chunk) == if |partial| == REVERSE_MSG_LEN then [] else partial
  {
  }

  lemma BlocksGrowAfter(whole: seq<byte>, partial: seq<byte>, chunk: seq<byte>)
    requires |whole| % REVERSE_MSG_LEN == 0 && |partial| + |chunk| <= REVERSE_MSG_LEN
    requires |partial| < REVERSE_MSG_LEN
    ensures Blocks(whole + partial + chunk) == Blocks(whole + partial) + Completed(partial + chunk)
  {
    BlocksOfTail(whole, partial);
    BlocksOfTail(whole, partial + chunk);
    assert whole + partial + chunk == whole + (partial + chunk);
  }

  lemma BlocksOfTail(whole: seq<byte>, tail: seq<byte>)
    requires |whole| % REVERSE_MSG_LEN == 0 && |tail| <= REVERSE_MSG_LEN
    ensures Blocks(whole + tail) == Blocks(whole) + Completed(tail)
  {
    BlocksConcat(whole, tail);
    OneBlock(tail);
  }

  function EncodedBlocks(ms: seq<ReverseMessage>): seq<seq<byte>> {
    seq(|ms|, i requires 0 <= i < |ms| => Encode(ms[i]))
  }

  lemma LastEncoded(ms: seq<ReverseMessage>)
    requires ms != []
    ensures var n := |ms| - 1; EncodedBlocks(ms) == EncodedBlocks(ms[..n]) + [Encode(ms[n])]
  {
  }

  lemma {:induction false} BlocksOfEncoded(ms: seq<ReverseMessage>, rest: seq<byte>)
    requires |rest| < REVERSE_MSG_LEN
    ensures Blocks(VideoStream.EncodeAll(ms) + rest) == EncodedBlocks(ms)
  {
    if ms == [] {
      NothingAdded(rest);
    } else {
      var init, last := ms[..|ms| - 1], Encode(ms[|ms| - 1]);
      BlocksOfEncoded(init, []);
      NothingAdded(VideoStream.EncodeAll(init));
      Regroup(VideoStream.EncodeAll(init), last, rest);
      BlocksConcat(VideoStream.EncodeAll(init), last + rest);
      BlocksConcat(last, rest);
      OneBlock(last);
      LastEncoded(ms);
    }
  }

  lemma {:induction false} DecodeEncodedBlocks(ms: seq<ReverseMessage>)
    ensures DecodeAll(EncodedBlocks(ms)) == ms
  {
    if ms != [] {
      var n := |ms| - 1;
      DecodeEncodedBlocks(ms[..n]);
      DecodeEncode(ms[n], Encode(ms[n]));
      assert EncodedBlocks(ms)[..n] == EncodedBlocks(ms[..n]);
      SplitBack(ms);
    }
  }

  /** However much of the encoding of `ms` has arrived, it reads as the messages that are completely there. */
  lemma MessagesOfPrefix(ms: seq<ReverseMessage>, k: nat)
    requires k <= |VideoStream.EncodeAll(ms)|
    ensures Messages(VideoStream.EncodeAll(ms)[..k]) == ms[..k / REVERSE_MSG_LEN]
  {
    hide Decode, Encode, DecodeAll;
    var n := k / REVERSE_MSG_LEN;
    assert ms == ms[..n] + ms[n..];
    VideoStream.EncodeAllConcat(ms[..n], ms[n..]);
    var whole, more := VideoStream.EncodeAll(ms[..n]), VideoStream.EncodeAll(ms[n..]);
    CutBeyond(whole, more, k);
    var rest := more[..k - |whole|];
    BlocksOfEncoded(ms[..n], rest);
    DecodeEncodedBlocks(ms[..n]);
  }

  /** What the reader has done with the messages so far. */
  datatype Host = Host(sentAt: seq<int>, roundTrips: seq<int>, touches: seq<TouchMessage>)

  /**
   An ack takes the oldest unmatched send, whatever timestamp it carries; a touch goes to the worker if there is one.
   */
  function Dispatch(h: Host, m: ReverseMessage, now: int, touchEnabled: bool): Host {
    match m
    case Ack(_) =>
      if h.sentAt == [] then h
      else h.(sentAt := h.sentAt[1..], roundTrips := h.roundTrips + [now - h.sentAt[0]])
    case Touch(t) => if touchEnabled then h.(touches := h.touches + [t]) else h
  }

  function TouchIn(m: ReverseMessage): seq<TouchMessage> {
    if m.Touch? then [m.touch] else []
  }

  function TouchesIn(ms: seq<ReverseMessage>): seq<TouchMessage> {
    if ms == [] then [] else TouchesIn(ms[..|ms| - 1]) + TouchIn(ms[|ms| - 1])
  }

  // ------------------------------------------------------------ what the host does, in order

  /** The drain thread notes a send; the reader thread handles a message. */
  datatype Happening = Sent(now: int) | Handled(m: ReverseMessage, now: int)

  function Handle(h: Host, e: Happening, touchEnabled: bool): Host {
    match e
    case Sent(now) => h.(sentAt := h.sentAt + [now])
    case Handled(m, now) => Dispatch(h, m, now, touchEnabled)
  }

  function HostAfter(log: seq<Happening>, touchEnabled: bool): Host {
    if log == [] then Host([], [], []) else
      Handle(HostAfter(log[..|log| - 1], touchEnabled), log[|log| - 1], touchEnabled)
  }

  function MessageIn(e: Happening): seq<ReverseMessage> {
    if e.Handled? then [e.m] else []
  }

  function MessagesIn(log: seq<Happening>): seq<ReverseMessage> {
    if log == [] then [] else MessagesIn(log[..|log| - 1]) + MessageIn(log[|log| - 1])
  }

  /** The times at which sends were noted. */
  function Sends(log: seq<Happening>): seq<int> {
    if log == [] then [] else
      Sends(log[..|log| - 1]) + if log[|log| - 1].Sent? then [log[|log| - 1].now] else []
  }

  /** The times at which acks were handled. */
  function AckTimes(log: seq<Happening>): seq<int> {
    if log == [] then [] else
      var e := log[|log| - 1];
      AckTimes(log[..|log| - 1]) + if e.Handled? && e.m.Ack? then [e.now] else []
  }

  lemma TouchesGrow(h: Host, ms: seq<ReverseMessage>, e: Happening, touchEnabled: bool)
    requires h.touches == if touchEnabled then TouchesIn(ms) else []
    ensures Handle(h, e, touchEnabled).touches == if touchEnabled then TouchesIn(ms + MessageIn(e)) else []
  {
    NothingAdded(ms);
    if e.Handled? {
      BackOfSnoc(ms, e.m);
      NothingAdded(TouchesIn(ms));
    }
  }

  /** The touches handed on are those handled, or none if there is no worker. */
  lemma {:induction false} TouchesHandedOn(log: seq<Happening>, touchEnabled: bool)
    ensures HostAfter(log, touchEnabled).touches == if touchEnabled then TouchesIn(MessagesIn(log)) else []
  {
    if log != [] {
      var init, e := log[..|log| - 1], log[|log| - 1];
      TouchesHandedOn(init, touchEnabled);
      TouchesGrow(HostAfter(init, touchEnabled), MessagesIn(init), e, touchEnabled);
    }
  }

  /** What the host has made of these sends and acks. */
  predicate IsFifo(h: Host, sends: seq<int>, acks: seq<int>) {
    var trips := |h.roundTrips|;
    && trips <= |sends| && h.sentAt == sends[trips..] && trips <= |acks|
    && (trips == |acks| ==> forall k :: 0 <= k < trips ==> h.roundTrips[k] == acks[k] - sends[k])
  }

  lemma FifoStep(h: Host, sends: seq<int>, acks: seq<int>, e: Happening, touchEnabled: bool)
    requires IsFifo(h, sends, acks)
    ensures IsFifo(Handle(h, e, touchEnabled), sends + if e.Sent? then [e.now] else [],
                   acks + if e.Handled? && e.m.Ack? then [e.now] else [])
  {
    if e.Handled? {
      NothingAdded(sends);
      if !e.m.Ack? {
        NothingAdded(acks);
      }
    } else {
      NothingAdded(acks);
    }
  }

  /**
   Send times are matched first in, first out: those left are the latest, and unless some ack found none waiting the
   k-th trip runs from the k-th send to the k-th ack.
   */
  lemma {:induction false} TripsAreFifo(log: seq<Happening>, touchEnabled: bool)
    ensures IsFifo(HostAfter(log, touchEnabled), Sends(log), AckTimes(log))
  {
    if log != [] {
      var init, e := log[..|log| - 1], log[|log| - 1];
      TripsAreFifo(init, touchEnabled);
      FifoStep(HostAfter(init, touchEnabled), Sends(init), AckTimes(init), e, touchEnabled);
    }
  }

  /** How many acks more than sends there had been when `k` things had happened. */
  function Excess(log: seq<Happening>, k: nat): int
    requires k <= |log|
  {
    |AckTimes(log[..k])| - |Sends(log[..k])|
  }

  /** The most that acks have ever been ahead of sends. */
  ghost predicate IsShortfall(log: seq<Happening>, n: int) {
    && (exists k :: 0 <= k <= |log| && Excess(log, k) == n)
    && (forall k :: 0 <= k <= |log| ==> Excess(log, k) <= n)
  }

  lemma ExcessBefore(log: seq<Happening>, k: nat)
    requires log != [] && k < |log|
    ensures Excess(log, k) == Excess(log[..|log| - 1], k)
  {
    PrefixOfPrefix(log, |log| - 1, k);
  }

  lemma ExcessNow(log: seq<Happening>)
    ensures Excess(log, |log|) == |AckTimes(log)| - |Sends(log)|
  {
    assert log[..|log|] == log;
  }

  lemma ShortfallGrows(log: seq<Happening>, before: int, n: int)
    requires log != [] && IsShortfall(log[..|log| - 1], before)
    requires n == if Excess(log, |log|) > before then Excess(log, |log|) else before
    ensures IsShortfall(log, n)
  {
    var init := log[..|log| - 1];
    forall k | 0 <= k <= |log| ensures Excess(log, k) <= n {
      if k < |log| {
        ExcessBefore(log, k);
        assert Excess(init, k) <= before;
      }
    }
    var k :| 0 <= k <= |init| && Excess(init, k) == before;
    ExcessBefore(log, k);
    assert Excess(log, if n == before then k else |log|) == n;
  }

  /** Whatever its timestamp, an ack makes a trip unless no send waits: as many make none as acks were ever ahead. */
  lemma {:induction false} AcksMakeTrips(log: seq<Happening>, touchEnabled: bool)
    ensures IsShortfall(log, |AckTimes(log)| - |HostAfter(log, touchEnabled).roundTrips|)
  {
    TripsAreFifo(log, touchEnabled);
    ExcessNow(log);
    if log == [] {
      assert Excess(log, 0) == 0;
    } else {
      var init := log[..|log| - 1];
      AcksMakeTrips(init, touchEnabled);
      TripsAreFifo(init, touchEnabled);
      ShortfallGrows(log, |AckTimes(init)| - |HostAfter(init, touchEnabled).roundTrips|,
                     |AckTimes(log)| - |HostAfter(log, touchEnabled).roundTrips|);
    }
  }

  /** Every ack makes a trip if and only if at no moment there had been more acks than sends. */
  lemma EveryAckMakesATrip(log: seq<Happening>, touchEnabled: bool)
    ensures |HostAfter(log, touchEnabled).roundTrips| == |AckTimes(log)| <==>
            forall k :: 0 <= k <= |log| ==> |AckTimes(log[..k])| <= |Sends(log[..k])|
  {
    var trips := |HostAfter(log, touchEnabled).roundTrips|;
    AcksMakeTrips(log, touchEnabled);
    TripsAreFifo(log, touchEnabled);
    assert Excess(log, 0) == 0;
    if trips == |AckTimes(log)| {
      forall k | 0 <= k <= |log| ensures |AckTimes(log[..k])| <= |Sends(log[..k])| {
        assert Excess(log, k) <= 0;
      }
    } else {
      var k :| 0 <= k <= |log| && Excess(log, k) == |AckTimes(log)| - trips;
      assert |AckTimes(log[..k])| > |Sends(log[..k])|;
    }
  }

  // ------------------------------------------------------------ what a schedule makes happen

  /**
   One event of the host: a send is noted; at most `upTo` bytes are there to read; a read times out; or the socket is
   closed or fails, which ends the reader.
   */
  datatype ReadEvent = Noted(now: int) | Arrives(upTo: nat, now: int) | TimedOut | Closed

  function Min(a: int, b: int): int {
    if a < b then a else b
  }

  /** A read takes what is there, but no more than the current block still lacks. */
  function ReadSize(upTo: nat, position: nat, total: nat): (n: nat)
    requires position <= total
    ensures n <= total - position && position % REVERSE_MSG_LEN + n <= REVERSE_MSG_LEN
  {
    Min(Min(upTo, REVERSE_MSG_LEN - position % REVERSE_MSG_LEN), total - position)
  }

  /** How many of `total` bytes a schedule reads. */
  function BytesRead(total: nat, schedule: seq<ReadEvent>): (position: nat)
    ensures position <= total
  {
    if schedule == [] then 0 else
      var init, e := schedule[..|schedule| - 1], schedule[|schedule| - 1];
      var before := BytesRead(total, init);
      if e.Arrives? && Closed !in init then before + ReadSize(e.upTo, before, total) else before
  }

  /** The message, if any, that a block now complete holds. */
  function HandledIn(block: seq<byte>, now: int): seq<Happening> {
    if |block| == REVERSE_MSG_LEN && Decode(block).Some? then [Handled(Decode(block).value, now)] else []
  }

  /** What one event makes happen when `from` bytes have been read before it and `to` after it. */
  function Happens(wire: seq<byte>, e: ReadEvent, from: nat, to: nat): seq<Happening>
    requires from <= to <= |wire|
  {
    match e
    case Noted(now) => [Sent(now)]
    case Arrives(_, now) => HandledIn(PartialOf(wire[..from]) + wire[from..to], now)
    case _ => []
  }

  /** What happens when a schedule of reads meets a wire. */
  function LogOf(wire: seq<byte>, schedule: seq<ReadEvent>): seq<Happening> {
    if schedule == [] then [] else
      var init, e := schedule[..|schedule| - 1], schedule[|schedule| - 1];
      LogOf(wire, init) + Happens(wire, e, BytesRead(|wire|, init), BytesRead(|wire|, schedule))
  }

  /** Where `from` bytes, these happenings and an open or closed socket are what the schedule comes to. */
  predicate Reached(wire: seq<byte>, schedule: seq<ReadEvent>, from: nat, log: seq<Happening>, reading: bool) {
    from == BytesRead(|wire|, schedule) && log == LogOf(wire, schedule) && reading == (Closed !in schedule)
  }

  function NextPosition(e: ReadEvent, from: nat, total: nat, reading: bool): (to: nat)
    requires from <= total
    ensures from <= to <= total
  {
    if e.Arrives? && reading then from + ReadSize(e.upTo, from, total) else from
  }

  lemma OneMoreEvent(wire: seq<byte>, schedule: seq<ReadEvent>, i: nat, from: nat, log: seq<Happening>, reading: bool)
    requires i < |schedule| && from <= |wire| && Reached(wire, schedule[..i], from, log, reading)
    ensures var e := schedule[i];
            var to := NextPosition(e, from, |wire|, reading);
            Reached(wire, schedule[..i + 1], to, log + Happens(wire, e, from, to), reading && !e.Closed?)
  {
    assert schedule[..i + 1] == schedule[..i] + [schedule[i]];
    BackOfSnoc(schedule[..i], schedule[i]);
  }

  lemma DecodeGrows(blocks: seq<seq<byte>>, block: seq<byte>)
    ensures DecodeAll(blocks + [block]) == DecodeAll(blocks) + DecodeOne(block)
  {
    BackOfSnoc(blocks, block);
  }

  lemma MessagesGrow(log: seq<Happening>, block: seq<byte>, now: int)
    ensures MessagesIn(log + HandledIn(block, now)) ==
            MessagesIn(log) + if |block| == REVERSE_MSG_LEN then DecodeOne(block) else []
  {
    if HandledIn(block, now) == [] {
      NothingAdded(log);
      NothingAdded(MessagesIn(log));
    } else {
      BackOfSnoc(log, HandledIn(block, now)[0]);
    }
  }

  /** A read within the current block keeps the log level with the bytes. */
  lemma ReadKeepsLevel(log: seq<Happening>, received: seq<byte>, chunk: seq<byte>, now: int)
    requires MessagesIn(log) == Messages(received) && |received| % REVERSE_MSG_LEN + |chunk| <= REVERSE_MSG_LEN
    ensures MessagesIn(log + HandledIn(PartialOf(received) + chunk, now)) == Messages(received + chunk)
  {
    var block := PartialOf(received) + chunk;
    BlocksGrow(received, chunk);
    MessagesGrow(log, block, now);
    if |block| == REVERSE_MSG_LEN {
      DecodeGrows(Blocks(received), block);
    } else {
      NothingAdded(Blocks(received));
      NothingAdded(MessagesIn(log));
    }
  }

  lemma EventKeepsLevel(wire: seq<byte>, log: seq<Happening>, e: ReadEvent, from: nat, to: nat)
    requires from <= to <= |wire| && from % REVERSE_MSG_LEN + (to - from) <= REVERSE_MSG_LEN
    requires MessagesIn(log) == Messages(wire[..from]) && (!e.Arrives? ==> to == from)
    ensures MessagesIn(log + Happens(wire, e, from, to)) == Messages(wire[..to])
  {
    match e
    case Noted(now) =>
      BackOfSnoc(log, Sent(now));
      NothingAdded(MessagesIn(log));
    case Arrives(_, now) =>
      ReadKeepsLevel(log, wire[..from], wire[from..to], now);
      assert wire[..from] + wire[from..to] == wire[..to];
    case _ =>
      NothingAdded(log);
  }

  /** The messages handled are exactly the complete ones among the bytes read. */
  lemma {:induction false} LogIsLevel(wire: seq<byte>, schedule: seq<ReadEvent>)
    ensures MessagesIn(LogOf(wire, schedule)) == Messages(wire[..BytesRead(|wire|, schedule)])
  {
    if schedule != [] {
      var init, e := schedule[..|schedule| - 1], schedule[|schedule| - 1];
      var from, to := BytesRead(|wire|, init), BytesRead(|wire|, schedule);
      var log := LogOf(wire, init);
      LogIsLevel(wire, init);
      EventKeepsLevel(wire, log, e, from, to);
    }
  }

  /** How many messages are complete when `position` bytes have been read. */
  function Complete(position: nat): nat {
    position / REVERSE_MSG_LEN
  }

  /** A block not yet complete holds nothing to handle; a complete one holds the next message. */
  lemma NextComplete(received: seq<byte>, chunk: seq<byte>, ms: seq<ReverseMessage>, now: int)
    requires |received| % REVERSE_MSG_LEN + |chunk| <= REVERSE_MSG_LEN
    requires Complete(|received|) <= Complete(|received + chunk|) <= |ms|
    requires Messages(received) == ms[..Complete(|received|)]
    requires Messages(received + chunk) == ms[..Complete(|received + chunk|)]
    ensures HandledIn(PartialOf(received) + chunk, now) ==
            if Complete(|received + chunk|) > Complete(|received|)
            then [Handled(ms[Complete(|received + chunk|) - 1], now)] else []
  {
    hide Blocks, DecodeAll, Decode, WholeOf;
    var block := PartialOf(received) + chunk;
    if |block| == REVERSE_MSG_LEN {
      BlocksGrow(received, chunk);
      DecodeGrows(Blocks(received), block);
      var n := Complete(|received|);
      assert Complete(|received + chunk|) == n + 1;
      assert ms[..n + 1] == ms[..n] + [ms[n]];
      assert DecodeOne(block) == [ms[n]];
    }
  }

  lemma HandledNow(ms: seq<ReverseMessage>, from: nat, to: nat, now: int)
    requires from <= to <= |VideoStream.EncodeAll(ms)| && from % REVERSE_MSG_LEN + (to - from) <= REVERSE_MSG_LEN
    ensures Complete(from) <= Complete(to) <= |ms|
    ensures var wire := VideoStream.EncodeAll(ms);
            HandledIn(PartialOf(wire[..from]) + wire[from..to], now) ==
            if Complete(to) > Complete(from) then [Handled(ms[Complete(to) - 1], now)] else []
  {
    hide Messages, Decode, PartialOf, HandledIn, VideoStream.EncodeAll;
    var wire := VideoStream.EncodeAll(ms);
    MessagesOfPrefix(ms, from);
    MessagesOfPrefix(ms, to);
    assert wire[..from] + wire[from..to] == wire[..to];
    NextComplete(wire[..from], wire[from..to], ms, now);
  }

  lemma OneMoreHappens(wire: seq<byte>, schedule: seq<ReadEvent>, i: nat)
    requires i < |schedule|
    ensures var from, to := BytesRead(|wire|, schedule[..i]), BytesRead(|wire|, schedule[..i + 1]);
            && from <= to <= |wire| && from % REVERSE_MSG_LEN + (to - from) <= REVERSE_MSG_LEN
            && LogOf(wire, schedule[..i + 1]) ==
               LogOf(wire, schedule[..i]) + Happens(wire, schedule[i], from, to)
  {
    hide LogOf, BytesRead, Happens;
    var from := BytesRead(|wire|, schedule[..i]);
    OneMoreEvent(wire, schedule, i, from, LogOf(wire, schedule[..i]), Closed !in schedule[..i]);
  }

  /**
   When things happen: a send is in the log at the time it was noted, and each message of the wire at the time of the
   arrival that completed it, in the order of the schedule; nothing else is.
   */
  lemma {:induction false} LogKeepsTime(ms: seq<ReverseMessage>, schedule: seq<ReadEvent>, i: nat)
    requires i < |schedule|
    ensures var wire := VideoStream.EncodeAll(ms);
            var from, to := BytesRead(|wire|, schedule[..i]), BytesRead(|wire|, schedule[..i + 1]);
            && Complete(from) <= Complete(to) <= |ms|
            && LogOf(wire, schedule[..i + 1]) == LogOf(wire, schedule[..i]) +
               match schedule[i] {
                 case Noted(now) => [Sent(now)]
                 case Arrives(_, now) =>
                   if Complete(to) > Complete(from) then [Handled(ms[Complete(to) - 1], now)] else []
                 case _ => []
               }
  {
    hide LogOf, BytesRead, HandledIn, PartialOf, VideoStream.EncodeAll;
    var wire := VideoStream.EncodeAll(ms);
    OneMoreHappens(wire, schedule, i);
    var from, to := BytesRead(|wire|, schedule[..i]), BytesRead(|wire|, schedule[..i + 1]);
    HandledNow(ms, from, to, if schedule[i].Arrives? then schedule[i].now else 0);
  }

  /** Nonempty arrivals in a schedule. */
  function Arrivals(schedule: seq<ReadEvent>): nat {
    if schedule == [] then 0 else
      var e := schedule[|schedule| - 1];
      Arrivals(schedule[..|schedule| - 1]) + if e.Arrives? && e.upTo > 0 then 1 else 0
  }

  /** Short of a close, every nonempty arrival is progress: as many arrivals as there are bytes read them all. */
  lemma {:induction false} EverythingIsRead(total: nat, schedule: seq<ReadEvent>)
    requires Closed !in schedule
    ensures BytesRead(total, schedule) >= Min(total, Arrivals(schedule))
  {
    if schedule != [] {
      EverythingIsRead(total, schedule[..|schedule| - 1]);
    }
  }

  lemma {:induction false} NoneReadAfter(total: nat, a: seq<ReadEvent>, b: seq<ReadEvent>)
    ensures BytesRead(total, a + [Closed] + b) == BytesRead(total, a)
  {
    var all := a + [Closed] + b;
    if b == [] {
      NothingAdded(a + [Closed]);
      BackOfSnoc(a, Closed);
    } else {
      BackOfConcat(a + [Closed], b);
      NoneReadAfter(total, a, b[..|b| - 1]);
      assert (a + [Closed] + b[..|b| - 1])[|a|] == Closed;
    }
  }

  /** A close or a failed read ends the reader: whatever arrives later, no byte is read and no message handled. */
  lemma NothingAfterClose(wire: seq<byte>, a: seq<ReadEvent>, b: seq<ReadEvent>)
    ensures BytesRead(|wire|, a + [Closed] + b) == BytesRead(|wire|, a)
    ensures MessagesIn(LogOf(wire, a + [Closed] + b)) == MessagesIn(LogOf(wire, a))
  {
    NoneReadAfter(|wire|, a, b);
    LogIsLevel(wire, a);
    LogIsLevel(wire, a + [Closed] + b);
  }

  // ------------------------------------------------------------ the reader

  /** `partial` is the tail of what was received, all before it has been handled, and the host is as that leaves it. */
  predicate Tracks(received: seq<byte>, partial: seq<byte>, log: seq<Happening>, host: Host, touchEnabled: bool) {
    && partial == PartialOf(received)
    && MessagesIn(log) == Messages(received)
    && host == HostAfter(log, touchEnabled)
  }

  /** What a host makes of a block that may be complete. */
  function HandleBlock(h: Host, block: seq<byte>, now: int, touchEnabled: bool): Host {
    var done := HandledIn(block, now);
    if done == [] then h else Handle(h, done[0], touchEnabled)
  }

  lemma TracksRead(received: seq<byte>, partial: seq<byte>, log: seq<Happening>, host: Host, touchEnabled: bool,
                   chunk: seq<byte>, now: int)
    requires Tracks(received, partial, log, host, touchEnabled) && |partial| + |chunk| <= REVERSE_MSG_LEN
    ensures var block := partial + chunk;
            Tracks(received + chunk, if |block| == REVERSE_MSG_LEN then [] else block, log + HandledIn(block, now),
                   HandleBlock(host, block, now, touchEnabled), touchEnabled)
  {
    PartialGrows(received, chunk);
    ReadKeepsLevel(log, received, chunk, now);
    var done := HandledIn(partial + chunk, now);
    if done == [] {
      NothingAdded(log);
    } else {
      BackOfSnoc(log, done[0]);
    }
  }

  class Reader {
    const buf: array<byte>
    var filled: nat
    const touchEnabled: bool
    var sentAt: seq<int>
    var roundTrips: seq<int>
    var touches: seq<TouchMessage>
    ghost var received: seq<byte>
    ghost var log: seq<Happening>

    function Snapshot(): Host
      reads this
    {
      Host(sentAt, roundTrips, touches)
    }

    ghost predicate Valid()
      reads this, buf
    {
      && buf.Length == REVERSE_MSG_LEN
      && filled < REVERSE_MSG_LEN
      && Tracks(received, buf[..filled], log, Snapshot(), touchEnabled)
    }

    constructor (touchEnabled: bool)
      ensures Valid() && fresh(buf) && received == [] && log == []
      ensures this.touchEnabled == touchEnabled
    {
      buf := new byte[REVERSE_MSG_LEN](_ => 0);
      filled, this.touchEnabled, sentAt, roundTrips, touches := 0, touchEnabled, [], [], [];
      received, log := [], [];
    }

    /** The drain thread notes when it hands a frame to the socket. */
    method NoteSend(now: int)
      requires Valid()
      modifies this`sentAt, this`log
      ensures Valid() && log == old(log) + [Sent(now)]
    {
      BackOfSnoc(log, Sent(now));
      NothingAdded(MessagesIn(log));
      sentAt := sentAt + [now];
      log := log + [Sent(now)];
    }

    method OnMessage(m: ReverseMessage, now: int)
      modifies this`sentAt, this`roundTrips, this`touches
      ensures Snapshot() == Dispatch(old(Snapshot()), m, now, touchEnabled)
    {
      match m {
        case Ack(_) =>
          if sentAt != [] {
            roundTrips := roundTrips + [now - sentAt[0]];
            sentAt := sentAt[1..];
          }
        case Touch(t) =>
          if touchEnabled {
            touches := touches + [t];
          }
      }
    }

    /** One `read` into the free part of the buffer returned `chunk`; a buffer that is now full is one message. */
    method OnRead(chunk: seq<byte>, now: int)
      requires Valid() && 0 < |chunk| <= REVERSE_MSG_LEN - filled
      modifies this, buf
      ensures Valid() && received == old(received) + chunk
      ensures log == old(log) + HandledIn(PartialOf(old(received)) + chunk, now)
    {
      ghost var block := buf[..filled] + chunk;
      TracksRead(received, buf[..filled], log, Snapshot(), touchEnabled, chunk, now);
      Fill(chunk);
      received := received + chunk;
      log := log + HandledIn(block, now);
      if filled == REVERSE_MSG_LEN {
        filled := 0;
        assert buf[..] == block;
        Deliver(now);
      }
    }

    /** Decode the full buffer and act on it; a malformed block is only logged. */
    method Deliver(now: int)
      requires buf.Length == REVERSE_MSG_LEN
      modifies this`sentAt, this`roundTrips, this`touches
      ensures Snapshot() == HandleBlock(old(Snapshot()), buf[..], now, touchEnabled)
    {
      match Decode(buf[..]) {
        case Some(m) => OnMessage(m, now);
        case None =>
      }
    }

    /** What `read` does to the buffer. */
    method Fill(chunk: seq<byte>)
      requires filled + |chunk| <= buf.Length
      modifies this`filled, buf
      ensures filled == old(filled) + |chunk| && buf[..filled] == old(buf[..filled]) + chunk
    {
      forall i | 0 <= i < |chunk| {
        buf[filled + i] := chunk[i];
      }
      filled := filled + |chunk|;
    }

    /** One call of `read` when at most `upTo` bytes are there: it returns some of them, or nothing happens. */
    method Read(wire: seq<byte>, from: nat, upTo: nat, now: int) returns (to: nat)
      requires Valid() && from <= |wire| && received == wire[..from]
      modifies this, buf
      ensures to == from + ReadSize(upTo, from, |wire|)
      ensures Valid() && received == wire[..to]
      ensures log == old(log) + HandledIn(PartialOf(wire[..from]) + wire[from..to], now)
    {
      hide Messages, MessagesIn, HostAfter, Decode;
      var n := Min(Min(upTo, REVERSE_MSG_LEN - filled), |wire| - from);
      assert filled == |PartialOf(received)| == from % REVERSE_MSG_LEN;
      to := from + n;
      if n > 0 {
        assert wire[..from] + wire[from..to] == wire[..to];
        OnRead(wire[from..to], now);
      } else {
        NothingAdded(log);
      }
    }

    /** One event of either thread. */
    method OnEvent(wire: seq<byte>, e: ReadEvent, from: nat, reading: bool) returns (to: nat)
      requires Valid() && from <= |wire| && received == wire[..from]
      modifies this, buf
      ensures to == NextPosition(e, from, |wire|, reading)
      ensures Valid() && received == wire[..to]
      ensures log == old(log) + Happens(wire, e, from, to)
    {
      to := from;
      if e.Noted? {
        NoteSend(e.now);
      } else if e.Arrives? && reading {
        to := Read(wire, from, e.upTo, e.now);
      } else {
        NothingAdded(log);
      }
    }

    /** The host is where the schedule brings it on this wire. */
    ghost predicate Follows(wire: seq<byte>, schedule: seq<ReadEvent>, position: nat, reading: bool)
      reads this, buf
    {
      && Valid() && position <= |wire| && received == wire[..position]
      && Reached(wire, schedule, position, log, reading)
    }

    /** The next event of a schedule. */
    method Next(wire: seq<byte>, schedule: seq<ReadEvent>, i: nat, from: nat, reading: bool)
      returns (to: nat, still: bool)
      requires i < |schedule| && Follows(wire, schedule[..i], from, reading)
      modifies this, buf
      ensures Follows(wire, schedule[..i + 1], to, still)
    {
      OneMoreEvent(wire, schedule, i, from, log, reading);
      to := OnEvent(wire, schedule[i], from, reading);
      still := reading && !schedule[i].Closed?;
    }

    ghost method Begin(wire: seq<byte>, schedule: seq<ReadEvent>)
      requires Valid() && received == [] && log == []
      ensures Follows(wire, schedule[..0], 0, true)
    {
      assert schedule[..0] == [];
      assert wire[..0] == [];
    }

    /** The host over a wire and a schedule: both threads, until the schedule ends. */
    method Run(wire: seq<byte>, schedule: seq<ReadEvent>) returns (consumed: nat)
      requires Valid() && received == [] && log == []
      modifies this, buf
      ensures Valid() && consumed == BytesRead(|wire|, schedule) && received == wire[..consumed]
      ensures log == LogOf(wire, schedule)
      ensures Snapshot() == HostAfter(LogOf(wire, schedule), touchEnabled)
    {
      var reading: bool;
      consumed, reading := RunAll(wire, schedule);
    }

    method RunAll(wire: seq<byte>, schedule: seq<ReadEvent>) returns (consumed: nat, reading: bool)
      requires Valid() && received == [] && log == []
      modifies this, buf
      ensures Follows(wire, schedule, consumed, reading)
    {
      Begin(wire, schedule);
      consumed, reading := 0, true;
      for i := 0 to |schedule|
        invariant Follows(wire, schedule[..i], consumed, reading)
      {
        consumed, reading := Next(wire, schedule, i, consumed, reading);
      }
      assert schedule[..|schedule|] == schedule;
    }
  }

  lemma CarriedPrefix(es: seq<RC.Entry>, n: nat)
    requires n <= |es|
    ensures RC.Carried(es[..n]) <= RC.Carried(es)
  {
    SplitAt(es, n);
    RC.CarriedConcat(es[..n], es[n..]);
  }

  /** The host has handled the messages of these entries, and no part of a further one. */
  ghost predicate HasHandled(host: Host, log: seq<Happening>, touchEnabled: bool, ms: seq<ReverseMessage>) {
    && host == HostAfter(log, touchEnabled)
    && MessagesIn(log) == ms
    && host.touches == (if touchEnabled then TouchesIn(ms) else [])
    && |host.roundTrips| <= |Sends(log)| && host.sentAt == Sends(log)[|host.roundTrips|..]
  }

  /** The host has handled exactly the complete messages among the first `n` bytes of the encoded messages. */
  lemma HandledPrefix(ms: seq<ReverseMessage>, schedule: seq<ReadEvent>, touchEnabled: bool)
    ensures var wire := VideoStream.EncodeAll(ms);
            var n, log := BytesRead(|wire|, schedule) / REVERSE_MSG_LEN, LogOf(wire, schedule);
            n <= |ms| && HasHandled(HostAfter(log, touchEnabled), log, touchEnabled, ms[..n])
  {
    var wire := VideoStream.EncodeAll(ms);
    LogIsLevel(wire, schedule);
    MessagesOfPrefix(ms, BytesRead(|wire|, schedule));
    TouchesHandedOn(LogOf(wire, schedule), touchEnabled);
    TripsAreFifo(LogOf(wire, schedule), touchEnabled);
  }

  /**
   Device to host: for every interleaving on the device and every schedule of reads and sends, what the host has
   handled is exactly the complete messages among the bytes read, acks and touches in the order in which the writer
   wrote them; with MOVEs deleted they are a prefix of what the device's threads queued.
   */
  lemma EndToEnd(threads: nat, run: seq<RC.Action>, schedule: seq<ReadEvent>, touchEnabled: bool)
    ensures var s := RC.Exec(threads, run);
            && RC.Wake !in s.written
            && var ms := VideoStream.MessagesOf(s.written);
               var wire := VideoStream.EncodeAll(ms);
               var n, log := BytesRead(|wire|, schedule) / REVERSE_MSG_LEN, LogOf(wire, schedule);
            && n <= |ms| && HasHandled(HostAfter(log, touchEnabled), log, touchEnabled, ms[..n])
            && RC.Carried(s.written[..n]) <= RC.Carried(s.offered)
  {
    var s := RC.Exec(threads, run);
    RC.Reachable(threads, run);
    var ms := VideoStream.MessagesOf(s.written);
    HandledPrefix(ms, schedule, touchEnabled);
    RC.GestureOrderKept(threads, run);
    CarriedPrefix(s.written, BytesRead(|VideoStream.EncodeAll(ms)|, schedule) / REVERSE_MSG_LEN);
  }

  /** What a valid device has written is the encoding of whole messages. */
  lemma SocketIsEncoded(device: VideoStream.Stream)
    requires device.Valid()
    ensures RC.Wake !in device.model.written
    ensures device.socket == VideoStream.EncodeAll(VideoStream.MessagesOf(device.model.written))
  {
  }

  /** The two programs joined: a host reading what a device has put on its socket. */
  method ReadDevice(device: VideoStream.Stream, host: Reader, schedule: seq<ReadEvent>) returns (consumed: nat)
    requires device.Valid() && host.Valid() && host.received == [] && host.log == []
    requires host.buf != device.batch
    modifies host, host.buf
    ensures host.Valid() && consumed == BytesRead(|device.socket|, schedule)
    ensures RC.Wake !in device.model.written
    ensures var ms := VideoStream.MessagesOf(device.model.written);
            && consumed / REVERSE_MSG_LEN <= |ms|
            && HasHandled(host.Snapshot(), host.log, host.touchEnabled, ms[..consumed / REVERSE_MSG_LEN])
    ensures Closed !in schedule && Arrivals(schedule) >= |device.socket| ==> consumed == |device.socket|
  {
    hide LogOf, BytesRead, HostAfter, Messages, HasHandled, VideoStream.EncodeAll, VideoStream.MessagesOf;
    SocketIsEncoded(device);
    ghost var ms := VideoStream.MessagesOf(device.model.written);
    HandledPrefix(ms, schedule, host.touchEnabled);
    if Closed !in schedule {
      EverythingIsRead(|device.socket|, schedule);
    }
    consumed := host.Run(device.socket, schedule);
  }
}
