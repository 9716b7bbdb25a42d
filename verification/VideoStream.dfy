/**
 The device's sender and writer (VideoStream.kt) in their own form: a queue and a slot updated in place,
 and one batch array reused for every socket write. Each method is one atomic step of one thread, and each is
 proved to be a step of `ReverseChannel`, so what holds of every run there holds of the bytes written here.
 */
module VideoStream {
  import opened Bytes
  import opened Wrappers
  import opened ReverseProtocol
  import RC = ReverseChannel
  import opened Sequences

  datatype Outbound = OutAck(ptsNs: u64) | OutTouch(message: TouchMessage) | OutWake

  /** The messages a thread inside `sendTouch` has yet to put on the queue. */
  type PendingCall = seq<Outbound>

  function Plain(e: RC.Entry): Outbound {
    match e
    case AckEntry(pts) => OutAck(pts)
    case TouchEntry(t) => OutTouch(t.msg)
    case Wake => OutWake
  }

  function PlainAll(es: seq<RC.Entry>): (r: seq<Outbound>)
    ensures |r| == |es|
  {
    seq(|es|, i requires 0 <= i < |es| => Plain(es[i]))
  }

  function PlainCall(c: RC.Call): PendingCall {
    match c
    case Idle => []
    case OfferWake => [OutWake]
    case OfferTouch(t) => [OutTouch(t.msg)]
    case OfferFlush(pm, t) => [OutTouch(pm.msg), OutTouch(t.msg)]
  }

  function MessageOf(e: RC.Entry): ReverseMessage
    requires !e.Wake?
  {
    if e.AckEntry? then Ack(e.pts) else Touch(e.t.msg)
  }

  function MessagesOf(es: seq<RC.Entry>): seq<ReverseMessage>
    requires RC.Wake !in es
  {
    seq(|es|, i requires 0 <= i < |es| => MessageOf(es[i]))
  }

  function EncodeAll(ms: seq<ReverseMessage>): (s: seq<byte>)
    ensures |s| == REVERSE_MSG_LEN * |ms|
  {
    if ms == [] then [] else EncodeAll(ms[..|ms| - 1]) + Encode(ms[|ms| - 1])
  }

  lemma {:induction false} EncodeAllConcat(a: seq<ReverseMessage>, b: seq<ReverseMessage>)
    ensures EncodeAll(a + b) == EncodeAll(a) + EncodeAll(b)
  {
    if b == [] {
      NothingAdded(a);
      NothingAdded(EncodeAll(a));
    } else {
      BackOfConcat(a, b);
      EncodeAllConcat(a, b[..|b| - 1]);
      Regroup(EncodeAll(a), EncodeAll(b[..|b| - 1]), Encode(b[|b| - 1]));
    }
  }

  /** The fields are `m` with the numbering and the histories forgotten and the messages encoded. */
  predicate Represents(m: RC.State, queue: seq<Outbound>, slot: Option<TouchMessage>, calls: seq<PendingCall>,
                       pc: RC.WriterPc, used: seq<byte>, socket: seq<byte>)
  {
    && RC.WellFormed(m) && |m.senders| == |calls|
    && queue == PlainAll(m.queue)
    && slot == (if m.slot.Some? then Some(m.slot.value.msg) else None)
    && (forall i :: 0 <= i < |calls| ==> calls[i] == PlainCall(m.senders[i]))
    && pc == m.pc
    && used == EncodeAll(MessagesOf(m.batch))
    && socket == EncodeAll(MessagesOf(m.written))
  }

  /** What the writer puts on the wire for one message of the queue. */
  function EncodedOrNothing(msg: Outbound): seq<byte> {
    match msg
    case OutAck(pts) => Encode(Ack(pts))
    case OutTouch(t) => Encode(Touch(t))
    case OutWake => []
  }

  /** What a call owes the queue after its first step. */
  function Owes(slot: Option<TouchMessage>, msg: TouchMessage): PendingCall {
    match msg.action
    case Move => if slot == None then [OutWake] else []
    case Down => [OutTouch(msg)]
    case _ => if slot == None then [OutTouch(msg)] else [OutTouch(slot.value), OutTouch(msg)]
  }

  lemma CallOwes(m: RC.State, slot: Option<TouchMessage>, thread: nat, msg: TouchMessage)
    requires thread < |m.senders| && m.senders[thread].Idle?
    requires slot == (if m.slot.Some? then Some(m.slot.value.msg) else None)
    ensures PlainCall(RC.BeginSend(m, thread, msg).senders[thread]) == Owes(slot, msg)
  {
  }

  lemma BeginRepresented(m: RC.State, queue: seq<Outbound>, slot: Option<TouchMessage>, calls: seq<PendingCall>,
                         pc: RC.WriterPc, used: seq<byte>, socket: seq<byte>, thread: nat, msg: TouchMessage)
    requires Represents(m, queue, slot, calls, pc, used, socket) && thread < |calls| && calls[thread] == []
    ensures Represents(RC.BeginSend(m, thread, msg), queue, if msg.action.Move? then Some(msg) else None,
                       calls[thread := Owes(slot, msg)], pc, used, socket)
  {
    assert m.senders[thread].Idle?;
    RC.WellFormedStep(m, RC.SendTouch(thread, msg));
    CallOwes(m, slot, thread, msg);
  }

  lemma PlainAppends(es: seq<RC.Entry>, e: RC.Entry)
    ensures PlainAll(es + [e]) == PlainAll(es) + [Plain(e)]
  {
  }

  /** A call that goes on offers the first message it owes and owes the rest. */
  lemma CallGoesOn(m: RC.State, thread: nat)
    requires thread < |m.senders| && PlainCall(m.senders[thread]) != []
    ensures var owed, m' := PlainCall(m.senders[thread]), RC.ContinueSend(m, thread);
            && |m'.senders| == |m.senders| && PlainAll(m'.queue) == PlainAll(m.queue) + [owed[0]]
            && PlainCall(m'.senders[thread]) == owed[1..]
            && m'.slot == m.slot && m'.pc == m.pc && m'.batch == m.batch && m'.written == m.written
            && forall i :: 0 <= i < |m.senders| && i != thread ==> m'.senders[i] == m.senders[i]
  {
    match m.senders[thread]
    case Idle =>
    case OfferWake => PlainAppends(m.queue, RC.Wake);
    case OfferTouch(t) => PlainAppends(m.queue, RC.TouchEntry(t));
    case OfferFlush(pm, _) => PlainAppends(m.queue, RC.TouchEntry(pm));
  }

  lemma ContinueRepresented(m: RC.State, queue: seq<Outbound>, slot: Option<TouchMessage>, calls: seq<PendingCall>,
                            pc: RC.WriterPc, used: seq<byte>, socket: seq<byte>, thread: nat)
    requires Represents(m, queue, slot, calls, pc, used, socket) && thread < |calls| && calls[thread] != []
    ensures Represents(RC.ContinueSend(m, thread), queue + [calls[thread][0]], slot,
                       calls[thread := calls[thread][1..]], pc, used, socket)
  {
    RC.WellFormedStep(m, RC.Continue(thread));
    CallGoesOn(m, thread);
  }

  /** Taking the head of the queue, given that the batch's bytes now encode it too. */
  lemma HeadRepresented(m: RC.State, queue: seq<Outbound>, slot: Option<TouchMessage>, calls: seq<PendingCall>,
                        pc: RC.WriterPc, used: seq<byte>, socket: seq<byte>, used': seq<byte>)
    requires Represents(m, queue, slot, calls, pc, used, socket) && queue != []
    requires pc.Poll? || (pc.Drain? && |m.batch| < RC.BATCH_MAX_MESSAGES)
    requires var b := RC.AppendOrSkip(m.batch, m.queue[0]); RC.Wake !in b && used' == EncodeAll(MessagesOf(b))
    ensures Represents(RC.WriterNext(m), PlainAll(m.queue[1..]), slot, calls, RC.Drain, used', socket)
  {
    RC.WellFormedStep(m, RC.WriterStep);
  }

  lemma SlotAppended(m: RC.State, queue: seq<Outbound>, move: TouchMessage, calls: seq<PendingCall>,
                     used: seq<byte>, socket: seq<byte>)
    requires Represents(m, queue, Some(move), calls, RC.Take, used, socket) && |m.batch| < RC.BATCH_MAX_MESSAGES
    ensures Represents(RC.WriterNext(m), queue, None, calls, RC.Write, used + Encode(Touch(move)), socket)
  {
    RC.WellFormedStep(m, RC.WriterStep);
    EncodedAppend(m.batch, RC.TouchEntry(m.slot.value));
  }

  lemma SlotDropped(m: RC.State, queue: seq<Outbound>, slot: Option<TouchMessage>, calls: seq<PendingCall>,
                    used: seq<byte>, socket: seq<byte>)
    requires Represents(m, queue, slot, calls, RC.Take, used, socket)
    requires slot == None || |m.batch| >= RC.BATCH_MAX_MESSAGES
    ensures Represents(RC.WriterNext(m), queue, None, calls, RC.Write, used, socket)
  {
    RC.WellFormedStep(m, RC.WriterStep);
  }

  lemma HeadEncoded(m: RC.State)
    requires RC.Wake !in m.batch && m.queue != []
    ensures PlainAll(m.queue)[0] == Plain(m.queue[0]) && PlainAll(m.queue)[1..] == PlainAll(m.queue[1..])
    ensures var b := RC.AppendOrSkip(m.batch, m.queue[0]);
            && RC.Wake !in b
            && |b| == |m.batch| + (if m.queue[0].Wake? then 0 else 1)
            && EncodeAll(MessagesOf(b)) == EncodeAll(MessagesOf(m.batch)) + EncodedOrNothing(Plain(m.queue[0]))
  {
    if m.queue[0].Wake? {
      NothingAdded(EncodeAll(MessagesOf(m.batch)));
    } else {
      EncodedAppend(m.batch, m.queue[0]);
    }
  }

  class Stream {
    var pendingOutbound: seq<Outbound>
    var pendingMove: Option<TouchMessage>
    var calls: seq<PendingCall>
    var pc: RC.WriterPc
    const batch: array<byte>
    var offset: nat
    var socket: seq<byte>
    ghost var run: seq<RC.Action>
    ghost var model: RC.State

    /** The fields show `m`. */
    ghost predicate Shows(m: RC.State)
      reads this, batch
    {
      && batch.Length == REVERSE_MSG_LEN * RC.BATCH_MAX_MESSAGES
      && offset <= batch.Length
      && Represents(m, pendingOutbound, pendingMove, calls, pc, batch[..offset], socket)
    }

    ghost predicate Valid()
      reads this, batch
    {
      Shows(model) && model == RC.Exec(|calls|, run)
    }

    /** Record that the fields have taken step `a` of the model. */
    ghost method Advance(a: RC.Action)
      requires Shows(RC.Step(model, a)) && model == RC.Exec(|calls|, run)
      modifies this`run, this`model
      ensures Valid() && run == old(run) + [a]
    {
      RC.Snoc(|calls|, run, a);
      model := RC.Step(model, a);
      run := run + [a];
    }

    /** A session that has just cleared the queue and the slot. */
    constructor (threads: nat)
      ensures Valid() && fresh(batch) && |calls| == threads && run == [] && socket == []
    {
      pendingOutbound, pendingMove, calls := [], None, seq(threads, _ => []);
      pc, offset, socket, run := RC.Poll, 0, [], [];
      model := RC.Init(threads);
      batch := new byte[REVERSE_MSG_LEN * RC.BATCH_MAX_MESSAGES](_ => 0);
    }

    /** MOVE: overwrite the slot, and owe a Wake if it was empty. */
    method SendMove(thread: nat, msg: TouchMessage)
      requires Valid() && thread < |calls| && calls[thread] == [] && msg.action.Move?
      modifies this`pendingMove, this`calls
      ensures Shows(RC.BeginSend(model, thread, msg)) && |calls| == old(|calls|)
    {
      BeginRepresented(model, pendingOutbound, pendingMove, calls, pc, batch[..offset], socket, thread, msg);
      var previous := pendingMove;
      pendingMove := Some(msg);
      if previous == None {
        calls := calls[thread := [OutWake]];
      } else {
        assert calls == calls[thread := []];
      }
    }

    /** DOWN: discard the slot, and owe the DOWN. */
    method SendDown(thread: nat, msg: TouchMessage)
      requires Valid() && thread < |calls| && calls[thread] == [] && msg.action.Down?
      modifies this`pendingMove, this`calls
      ensures Shows(RC.BeginSend(model, thread, msg)) && |calls| == old(|calls|)
    {
      BeginRepresented(model, pendingOutbound, pendingMove, calls, pc, batch[..offset], socket, thread, msg);
      pendingMove := None;
      calls := calls[thread := [OutTouch(msg)]];
    }

    /** UP and CANCEL: owe what the slot held, then the release itself. */
    method SendRelease(thread: nat, msg: TouchMessage)
      requires Valid() && thread < |calls| && calls[thread] == [] && (msg.action.Up? || msg.action.Cancel?)
      modifies this`pendingMove, this`calls
      ensures Shows(RC.BeginSend(model, thread, msg)) && |calls| == old(|calls|)
    {
      BeginRepresented(model, pendingOutbound, pendingMove, calls, pc, batch[..offset], socket, thread, msg);
      var pm := pendingMove;
      pendingMove := None;
      if pm.Some? {
        calls := calls[thread := [OutTouch(pm.value), OutTouch(msg)]];
      } else {
        calls := calls[thread := [OutTouch(msg)]];
      }
    }

    /** `sendTouch` up to and including its first access to shared state. */
    method SendTouch(thread: nat, action: TouchAction, x: u16, y: u16)
      requires Valid() && thread < |calls| && calls[thread] == []
      modifies this
      ensures Valid() && |calls| == old(|calls|)
      ensures run == old(run) + [RC.SendTouch(thread, TouchMessage(action, x, y))]
    {
      var msg := TouchMessage(action, x, y);
      assert model.senders[thread].Idle?;
      match action {
        case Move => SendMove(thread, msg);
        case Down => SendDown(thread, msg);
        case _ => SendRelease(thread, msg);
      }
      Advance(RC.SendTouch(thread, msg));
    }

    /** The next `offer` of a `sendTouch` call that has one left. */
    method ContinueSendTouch(thread: nat)
      requires Valid() && thread < |calls| && calls[thread] != []
      modifies this
      ensures Valid() && |calls| == old(|calls|) && run == old(run) + [RC.Continue(thread)]
    {
      ContinueRepresented(model, pendingOutbound, pendingMove, calls, pc, batch[..offset], socket, thread);
      pendingOutbound := pendingOutbound + [calls[thread][0]];
      calls := calls[thread := calls[thread][1..]];
      Advance(RC.Continue(thread));
    }

    /** The decoder hands over an output buffer; only a rendered one is acknowledged. */
    method OnOutputBufferAvailable(render: bool, presentationTimeUs: nat)
      requires Valid()
      modifies this
      ensures Valid() && |calls| == old(|calls|)
      ensures run == old(run) +
                     (if render then [RC.OfferAck(presentationTimeUs * 1000 % 0x1_0000_0000_0000_0000)] else [])
    {
      if render {
        var pts: u64 := presentationTimeUs * 1000 % 0x1_0000_0000_0000_0000;
        RC.WellFormedStep(model, RC.OfferAck(pts));
        pendingOutbound := pendingOutbound + [OutAck(pts)];
        Advance(RC.OfferAck(pts));
      }
    }

    /** Copy one encoded message into the batch; everything before it stays. */
    method Append(message: ReverseMessage)
      requires offset + REVERSE_MSG_LEN <= batch.Length
      modifies this`offset, batch
      ensures offset == old(offset) + REVERSE_MSG_LEN
      ensures batch[..offset] == old(batch[..offset]) + Encode(message)
    {
      var bytes: array<byte>;
      match message {
        case Ack(pts) => bytes := EncodeAckMessage(pts);
        case Touch(t) => bytes := EncodeTouchMessage(t);
      }
      forall i | 0 <= i < REVERSE_MSG_LEN {
        batch[offset + i] := bytes[i];
      }
      offset := offset + REVERSE_MSG_LEN;
      assert batch[..offset] == old(batch[..offset]) + bytes[..];
    }

    method AppendOrSkip(msg: Outbound)
      requires offset + REVERSE_MSG_LEN <= batch.Length
      modifies this`offset, batch
      ensures offset == old(offset) + (if msg.OutWake? then 0 else REVERSE_MSG_LEN)
      ensures batch[..offset] == old(batch[..offset]) + EncodedOrNothing(msg)
    {
      match msg {
        case OutAck(ptsNs) => Append(Ack(ptsNs));
        case OutTouch(message) => Append(Touch(message));
        case OutWake =>
      }
    }

    /** Take the head of the queue into the batch. */
    method TakeHead()
      requires Shows(model) && pendingOutbound != [] && offset + REVERSE_MSG_LEN <= batch.Length
      modifies this`pendingOutbound, this`offset, batch
      ensures pendingOutbound == PlainAll(model.queue[1..])
      ensures var b := RC.AppendOrSkip(model.batch, model.queue[0]);
              offset == REVERSE_MSG_LEN * |b| && RC.Wake !in b && batch[..offset] == EncodeAll(MessagesOf(b))
    {
      HeadEncoded(model);
      var next := pendingOutbound[0];
      pendingOutbound := pendingOutbound[1..];
      AppendOrSkip(next);
    }

    /** The blocking poll at the head of the loop; on a timeout nothing happens. */
    method PollFirst()
      requires Valid() && pc.Poll?
      modifies this, batch
      ensures Valid() && |calls| == old(|calls|) && run == old(run) + [RC.WriterStep]
    {
      if pendingOutbound != [] {
        ghost var used := batch[..offset];
        TakeHead();
        HeadRepresented(model, old(pendingOutbound), pendingMove, calls, pc, used, socket, batch[..offset]);
        pc := RC.Drain;
      }
      Advance(RC.WriterStep);
    }

    /** One turn of the drain loop. */
    method DrainNext()
      requires Valid() && pc.Drain?
      modifies this, batch
      ensures Valid() && |calls| == old(|calls|) && run == old(run) + [RC.WriterStep]
    {
      var room := offset + REVERSE_MSG_LEN <= batch.Length;
      assert room <==> |model.batch| < RC.BATCH_MAX_MESSAGES;
      if room && pendingOutbound != [] {
        ghost var used := batch[..offset];
        TakeHead();
        HeadRepresented(model, old(pendingOutbound), pendingMove, calls, pc, used, socket, batch[..offset]);
      } else {
        assert RC.WriterNext(model) == model.(pc := RC.Take);
        pc := RC.Take;
      }
      Advance(RC.WriterStep);
    }

    /** Append the MOVE just taken from the slot. */
    method AppendMove(move: TouchMessage)
      requires Valid() && pc.Take? && pendingMove == Some(move) && offset + REVERSE_MSG_LEN <= batch.Length
      modifies this, batch
      ensures Valid() && |calls| == old(|calls|) && run == old(run) + [RC.WriterStep]
    {
      ghost var used := batch[..offset];
      SlotAppended(model, pendingOutbound, move, calls, used, socket);
      pendingMove := None;
      Append(Touch(move));
      assert batch[..offset] == used + Encode(Touch(move));
      pc := RC.Write;
      Advance(RC.WriterStep);
    }

    /** Take the slot, and append what was in it if there is room. */
    method TakeSlot()
      requires Valid() && pc.Take?
      modifies this, batch
      ensures Valid() && |calls| == old(|calls|) && run == old(run) + [RC.WriterStep]
    {
      assert offset + REVERSE_MSG_LEN <= batch.Length <==> |model.batch| < RC.BATCH_MAX_MESSAGES;
      if pendingMove.Some? && offset + REVERSE_MSG_LEN <= batch.Length {
        AppendMove(pendingMove.value);
      } else {
        SlotDropped(model, pendingOutbound, pendingMove, calls, batch[..offset], socket);
        pendingMove := None;
        pc := RC.Write;
        Advance(RC.WriterStep);
      }
    }

    /** Write the used part of the batch to the socket. */
    method WriteOut()
      requires Valid() && pc.Write?
      modifies this, batch
      ensures Valid() && |calls| == old(|calls|) && run == old(run) + [RC.WriterStep]
      ensures socket == old(socket) + old(batch[..offset]) && offset == 0
    {
      ghost var used := batch[..offset];
      WrittenRepresented(model, pendingOutbound, pendingMove, calls, used, socket);
      NothingAdded(socket);
      if offset > 0 {
        socket := socket + batch[..offset];
      }
      assert socket == old(socket) + used;
      offset := 0;
      pc := RC.Poll;
      Advance(RC.WriterStep);
    }

    /** The writer thread's next step. */
    method WriterNext()
      requires Valid()
      modifies this, batch
      ensures Valid() && |calls| == old(|calls|) && run == old(run) + [RC.WriterStep]
    {
      match pc {
        case Poll => PollFirst();
        case Drain => DrainNext();
        case Take => TakeSlot();
        case Write => WriteOut();
      }
    }
  }

  lemma WrittenRepresented(m: RC.State, queue: seq<Outbound>, slot: Option<TouchMessage>, calls: seq<PendingCall>,
                           used: seq<byte>, socket: seq<byte>)
    requires Represents(m, queue, slot, calls, RC.Write, used, socket)
    ensures Represents(RC.WriterNext(m), queue, slot, calls, RC.Poll, [], socket + used)
  {
    RC.WellFormedStep(m, RC.WriterStep);
    assert RC.WriterNext(m) == m.(written := m.written + m.batch, batch := [], pc := RC.Poll);
    EncodedConcat(m.written, m.batch);
    assert MessagesOf([]) == [];
  }

  lemma EncodedConcat(a: seq<RC.Entry>, b: seq<RC.Entry>)
    requires RC.Wake !in a && RC.Wake !in b
    ensures RC.Wake !in a + b && EncodeAll(MessagesOf(a + b)) == EncodeAll(MessagesOf(a)) + EncodeAll(MessagesOf(b))
  {
    assert MessagesOf(a + b) == MessagesOf(a) + MessagesOf(b);
    EncodeAllConcat(MessagesOf(a), MessagesOf(b));
  }

  lemma EncodedAppend(es: seq<RC.Entry>, e: RC.Entry)
    requires RC.Wake !in es && !e.Wake?
    ensures RC.Wake !in es + [e] && EncodeAll(MessagesOf(es + [e])) == EncodeAll(MessagesOf(es)) + Encode(MessageOf(e))
  {
    assert MessagesOf(es + [e]) == MessagesOf(es) + [MessageOf(e)];
    assert (MessagesOf(es) + [MessageOf(e)])[..|es|] == MessagesOf(es);
  }
}
