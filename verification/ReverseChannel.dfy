/**
 The device-to-host channel as a transition system (VideoStream.kt).

 Any number of `sendTouch` threads, the decoder callback that offers acks, and the one writer thread
 share a FIFO queue and an atomic slot holding the latest MOVE. Each access to either is one step;
 every interleaving of the threads is one action sequence. A call's first step is also when it is
 numbered, so `sent` lists the calls in the order in which they first touch shared state.
 */
module ReverseChannel {
  import opened Bytes
  import opened Wrappers
  import opened ReverseProtocol
  import opened Sequences

  const BATCH_MAX_MESSAGES := 128

  /** A touch together with its number among all `sendTouch` calls of the session. */
  datatype Tagged = Tagged(tag: nat, thread: nat, msg: TouchMessage)

  datatype Entry = AckEntry(pts: u64) | TouchEntry(t: Tagged) | Wake

  /** What a `sendTouch` call still has to do after its first step. */
  datatype Call = Idle | OfferWake | OfferTouch(t: Tagged) | OfferFlush(pm: Tagged, t: Tagged)

  /** Where the writer is: blocked, draining the queue, about to take the slot, about to write. */
  datatype WriterPc = Poll | Drain | Take | Write

  /** Why a touch will never be written. */
  datatype Loss =
    | Overwritten(t: Tagged, cause: Tagged)
    | Discarded(t: Tagged, cause: Tagged)
    | BatchFull(t: Tagged)

  datatype State = State(
    senders: seq<Call>,
    queue: seq<Entry>,
    slot: Option<Tagged>,
    pc: WriterPc,
    batch: seq<Entry>,
    written: seq<Entry>,
    sent: seq<Tagged>,      // history: every call so far
    offered: seq<Entry>,    // history: everything but Wake ever put on the queue
    losses: seq<Loss>)      // history: every touch thrown away, and why

  datatype Action =
    | SendTouch(thread: nat, msg: TouchMessage)
    | Continue(thread: nat)
    | OfferAck(pts: u64)
    | WriterStep

  function Init(threads: nat): State {
    State(seq(threads, _ => Idle), [], None, Poll, [], [], [], [], [])
  }

  function BeginSend(s: State, thread: nat, msg: TouchMessage): State
    requires thread < |s.senders|
  {
    var t := Tagged(|s.sent|, thread, msg);
    var s1 := s.(sent := s.sent + [t]);
    match msg.action
    case Move =>
      s1.(slot := Some(t),
          senders := s.senders[thread := if s.slot.None? then OfferWake else Idle],
          losses := if s.slot.Some? then s.losses + [Overwritten(s.slot.value, t)] else s.losses)
    case Down =>
      s1.(slot := None,
          senders := s.senders[thread := OfferTouch(t)],
          losses := if s.slot.Some? then s.losses + [Discarded(s.slot.value, t)] else s.losses)
    case _ =>
      s1.(slot := None,
          senders := s.senders[thread := if s.slot.Some? then OfferFlush(s.slot.value, t) else OfferTouch(t)])
  }

  function Offer(s: State, e: Entry): State {
    s.(queue := s.queue + [e], offered := if e.Wake? then s.offered else s.offered + [e])
  }

  function ContinueSend(s: State, thread: nat): State
    requires thread < |s.senders|
  {
    match s.senders[thread]
    case Idle => s
    case OfferWake => Offer(s, Wake).(senders := s.senders[thread := Idle])
    case OfferTouch(t) => Offer(s, TouchEntry(t)).(senders := s.senders[thread := Idle])
    case OfferFlush(pm, t) => Offer(s, TouchEntry(pm)).(senders := s.senders[thread := OfferTouch(t)])
  }

  function AppendOrSkip(batch: seq<Entry>, e: Entry): seq<Entry> {
    if e.Wake? then batch else batch + [e]
  }

  function WriterNext(s: State): State {
    match s.pc
    case Poll =>
      if s.queue == [] then s else
        s.(queue := s.queue[1..], batch := AppendOrSkip(s.batch, s.queue[0]), pc := Drain)
    case Drain =>
      if |s.batch| < BATCH_MAX_MESSAGES && s.queue != [] then
        s.(queue := s.queue[1..], batch := AppendOrSkip(s.batch, s.queue[0]))
      else s.(pc := Take)
    case Take =>
      var s1 := s.(slot := None, pc := Write);
      if s.slot.None? then s1
      else if |s.batch| < BATCH_MAX_MESSAGES then s1.(batch := s.batch + [TouchEntry(s.slot.value)])
      else s1.(losses := s.losses + [BatchFull(s.slot.value)])
    case Write =>
      s.(written := s.written + s.batch, batch := [], pc := Poll)
  }

  /** One step of one thread; an action its thread cannot take leaves the state alone. */
  function Step(s: State, a: Action): State {
    match a
    case SendTouch(thread, msg) =>
      if thread < |s.senders| && s.senders[thread].Idle? then BeginSend(s, thread, msg) else s
    case Continue(thread) => if thread < |s.senders| then ContinueSend(s, thread) else s
    case OfferAck(pts) => Offer(s, AckEntry(pts))
    case WriterStep => WriterNext(s)
  }

  function Exec(threads: nat, run: seq<Action>): State {
    if run == [] then Init(threads) else Step(Exec(threads, run[..|run| - 1]), run[|run| - 1])
  }

  lemma Snoc(threads: nat, run: seq<Action>, a: Action)
    ensures Exec(threads, run + [a]) == Step(Exec(threads, run), a)
  {
    assert (run + [a])[..|run|] == run;
  }

  function TouchIn(e: Entry): seq<Tagged> {
    if e.TouchEntry? then [e.t] else []
  }

  function Touches(es: seq<Entry>): seq<Tagged> {
    if es == [] then [] else TouchIn(es[0]) + Touches(es[1..])
  }

  lemma {:induction false} TouchesConcat(a: seq<Entry>, b: seq<Entry>)
    ensures Touches(a + b) == Touches(a) + Touches(b)
  {
    if a == [] {
      NothingAdded(b);
    } else {
      FrontOfConcat(a, b);
      TouchesConcat(a[1..], b);
      Regroup(TouchIn(a[0]), Touches(a[1..]), Touches(b));
    }
  }

  /** An entry whose place is part of the gesture: an ack or any touch but a MOVE. */
  predicate IsCarried(e: Entry) {
    e.AckEntry? || (e.TouchEntry? && !e.t.msg.action.Move?)
  }

  function CarriedIn(e: Entry): seq<Entry> {
    if IsCarried(e) then [e] else []
  }

  function Carried(es: seq<Entry>): seq<Entry> {
    if es == [] then [] else CarriedIn(es[0]) + Carried(es[1..])
  }

  lemma {:induction false} CarriedConcat(a: seq<Entry>, b: seq<Entry>)
    ensures Carried(a + b) == Carried(a) + Carried(b)
  {
    if a == [] {
      NothingAdded(b);
    } else {
      FrontOfConcat(a, b);
      CarriedConcat(a[1..], b);
      Regroup(CarriedIn(a[0]), Carried(a[1..]), Carried(b));
    }
  }

  lemma CarriedOne(e: Entry)
    ensures Carried([e]) == CarriedIn(e)
  {
    assert [e][1..] == [];
  }

  lemma CarriedSnoc(es: seq<Entry>, e: Entry)
    ensures Carried(es + [e]) == Carried(es) + CarriedIn(e)
  {
    CarriedConcat(es, [e]);
    CarriedOne(e);
  }

  lemma CarriedIgnores(a: seq<Entry>, e: Entry, b: seq<Entry>)
    requires !IsCarried(e)
    ensures Carried(a + ([e] + b)) == Carried(a + b)
  {
    CarriedConcat(a, [e] + b);
    CarriedConcat([e], b);
    CarriedOne(e);
    NothingAdded(Carried(b));
    CarriedConcat(a, b);
  }

  /** Everything on its way to the socket, oldest first. */
  function Pipeline(s: State): seq<Entry> {
    s.written + s.batch + s.queue
  }

  /**
   What one step does to the pipeline: nothing, one entry more at its tail, a Wake removed, or the slot slipped in.
   */
  datatype Effect = Same | Append(e: Entry) | DropWake | Insert(t: Tagged)

  function EffectOf(s: State, a: Action): Effect {
    match a
    case SendTouch(_, _) => Same
    case OfferAck(pts) => Append(AckEntry(pts))
    case Continue(thread) =>
      if thread >= |s.senders| then Same else
        (match s.senders[thread]
         case Idle => Same
         case OfferWake => Append(Wake)
         case OfferTouch(t) => Append(TouchEntry(t))
         case OfferFlush(pm, _) => Append(TouchEntry(pm)))
    case WriterStep =>
      if (s.pc.Poll? || (s.pc.Drain? && |s.batch| < BATCH_MAX_MESSAGES)) && s.queue != [] && s.queue[0].Wake?
      then DropWake
      else if s.pc.Take? && |s.batch| < BATCH_MAX_MESSAGES && s.slot.Some? then Insert(s.slot.value)
      else Same
  }

  /** An effect seen on the pipeline and on what was ever queued. */
  predicate Shows(s: State, s': State, f: Effect) {
    var front := s.written + s.batch;
    match f
    case Same => Pipeline(s') == Pipeline(s) && s'.offered == s.offered
    case Append(e) => Pipeline(s') == Pipeline(s) + [e] && s'.offered == s.offered + if e.Wake? then [] else [e]
    case DropWake =>
      && s'.offered == s.offered && s.queue != []
      && Pipeline(s') == front + s.queue[1..] && Pipeline(s) == front + ([Wake] + s.queue[1..])
    case Insert(t) => s'.offered == s.offered && Pipeline(s') == front + ([TouchEntry(t)] + s.queue)
  }

  lemma OfferShows(s: State, e: Entry)
    ensures Shows(s, Offer(s, e), Append(e))
  {
    Regroup(s.written + s.batch, s.queue, [e]);
    NothingAdded(s.offered);
  }

  /** The head of the queue goes into the batch, or is a Wake and is dropped. */
  lemma HeadShows(s: State)
    requires s.queue != [] && (s.pc.Poll? || (s.pc.Drain? && |s.batch| < BATCH_MAX_MESSAGES))
    ensures Shows(s, WriterNext(s), EffectOf(s, WriterStep))
  {
    var front, head, rest := s.written + s.batch, s.queue[0], s.queue[1..];
    assert s.queue == [head] + rest;
    Regroup(front, [head], rest);
    Regroup(s.written, s.batch, [head]);
  }

  lemma WriterShows(s: State)
    ensures Shows(s, WriterNext(s), EffectOf(s, WriterStep))
  {
    match s.pc
    case Poll =>
      if s.queue != [] {
        HeadShows(s);
      }
    case Drain =>
      if s.queue != [] && |s.batch| < BATCH_MAX_MESSAGES {
        HeadShows(s);
      }
    case Take =>
      if s.slot.Some? {
        Regroup(s.written, s.batch, [TouchEntry(s.slot.value)]);
        Regroup(s.written + s.batch, [TouchEntry(s.slot.value)], s.queue);
      }
    case Write =>
      NothingAdded(s.written + s.batch);
  }

  /** Every step of every thread shows the effect it is said to have. */
  lemma PipelineStep(s: State, a: Action)
    ensures Shows(s, Step(s, a), EffectOf(s, a))
  {
    match a
    case SendTouch(_, _) =>
    case Continue(thread) =>
      if thread < |s.senders| && EffectOf(s, a).Append? {
        OfferShows(s, EffectOf(s, a).e);
      }
    case OfferAck(pts) => OfferShows(s, AckEntry(pts));
    case WriterStep => WriterShows(s);
  }

  lemma CarriedStep(s: State, a: Action)
    requires s.slot.Some? ==> s.slot.value.msg.action.Move?
    requires Carried(Pipeline(s)) == Carried(s.offered)
    ensures Carried(Pipeline(Step(s, a))) == Carried(Step(s, a).offered)
  {
    PipelineStep(s, a);
    match EffectOf(s, a)
    case Same =>
    case Append(e) =>
      CarriedSnoc(Pipeline(s), e);
      CarriedSnoc(s.offered, e);
      NothingAdded(s.offered);
      NothingAdded(Carried(s.offered));
    case DropWake =>
      CarriedIgnores(s.written + s.batch, Wake, s.queue[1..]);
    case Insert(t) =>
      CarriedIgnores(s.written + s.batch, TouchEntry(t), s.queue);
  }

  // ------------------------------------------------------------ conservation

  /** The touches a call still has to put on the queue. */
  function Owed(c: Call): seq<Tagged> {
    match c
    case OfferTouch(t) => [t]
    case OfferFlush(pm, t) => [pm, t]
    case _ => []
  }

  function One(b: bool): nat {
    if b then 1 else 0
  }

  function OwedBy(c: Call, t: Tagged): nat {
    match c
    case OfferTouch(u) => One(u == t)
    case OfferFlush(pm, u) => One(pm == t) + One(u == t)
    case _ => 0
  }

  function OwedByAll(calls: seq<Call>, t: Tagged): nat {
    if calls == [] then 0 else OwedByAll(calls[..|calls| - 1], t) + OwedBy(calls[|calls| - 1], t)
  }

  lemma {:induction false} OwedUpdate(calls: seq<Call>, i: nat, c: Call, t: Tagged)
    requires i < |calls|
    ensures OwedByAll(calls[i := c], t) + OwedBy(calls[i], t) == OwedByAll(calls, t) + OwedBy(c, t)
  {
    var n := |calls| - 1;
    if i < n {
      assert calls[i := c][..n] == calls[..n][i := c];
      OwedUpdate(calls[..n], i, c, t);
    } else {
      assert calls[i := c][..n] == calls[..n];
    }
  }

  /** How many losses are losses of `t`. */
  function LossesOf(losses: seq<Loss>, t: Tagged): nat {
    if losses == [] then 0 else LossesOf(losses[..|losses| - 1], t) + One(losses[|losses| - 1].t == t)
  }

  function InPipeline(s: State, t: Tagged): nat {
    multiset(Pipeline(s))[TouchEntry(t)]
  }

  /** What is not in the pipeline. */
  function Beside(s: State, t: Tagged): nat {
    One(s.slot == Some(t)) + OwedByAll(s.senders, t) + LossesOf(s.losses, t)
  }

  /** How often `t` occurs in all the places a touch can be: the pipeline, the slot, a running call, the losses. */
  function Everywhere(s: State, t: Tagged): nat {
    InPipeline(s, t) + Beside(s, t)
  }

  /** Places of `t` minus sends of `t`. */
  function Balance(s: State, t: Tagged): int {
    Everywhere(s, t) - multiset(s.sent)[t]
  }

  /** A MOVE is lost only to a later MOVE, to a later DOWN, or to a full batch. */
  predicate Justified(l: Loss) {
    && l.t.msg.action.Move?
    && (l.Overwritten? ==> l.cause.msg.action.Move? && l.t.tag < l.cause.tag)
    && (l.Discarded? ==> l.cause.msg.action.Down? && l.t.tag < l.cause.tag)
  }

  predicate WellFormed(s: State) {
    && (forall i :: 0 <= i < |s.sent| ==> s.sent[i].tag == i && s.sent[i].thread < |s.senders|)
    && (s.slot.Some? ==> s.slot.value.msg.action.Move? && s.slot.value.tag < |s.sent|)
    && (forall c :: c in s.senders && c.OfferFlush? ==> c.pm.msg.action.Move?)
    && (forall l :: l in s.losses ==> Justified(l))
    && |s.batch| <= 128
    && (s.pc.Poll? ==> s.batch == [])
    && Wake !in s.batch && Wake !in s.written
  }

  lemma BeginSendWellFormed(s: State, thread: nat, msg: TouchMessage)
    requires WellFormed(s) && thread < |s.senders|
    ensures WellFormed(BeginSend(s, thread, msg))
  {
  }

  lemma WriterWellFormed(s: State)
    requires WellFormed(s)
    ensures WellFormed(WriterNext(s))
  {
  }

  lemma WellFormedStep(s: State, a: Action)
    requires WellFormed(s)
    ensures WellFormed(Step(s, a))
  {
    match a
    case SendTouch(thread, msg) =>
      if thread < |s.senders| && s.senders[thread].Idle? {
        BeginSendWellFormed(s, thread, msg);
      }
    case Continue(_) =>
    case OfferAck(_) =>
    case WriterStep => WriterWellFormed(s);
  }

  /** How many copies of `t` an effect adds to the pipeline. */
  function Gain(f: Effect, t: Tagged): nat {
    match f
    case Append(e) => One(e == TouchEntry(t))
    case Insert(m) => One(m == t)
    case _ => 0
  }

  lemma CountAppended(p: seq<Entry>, e: Entry, x: Entry)
    ensures multiset(p + [e])[x] == multiset(p)[x] + One(e == x)
  {
  }

  lemma CountInserted(front: seq<Entry>, e: Entry, rear: seq<Entry>, x: Entry)
    ensures multiset(front + ([e] + rear))[x] == multiset(front + rear)[x] + One(e == x)
  {
  }

  lemma ShowsGain(s: State, s': State, f: Effect, t: Tagged)
    requires Shows(s, s', f)
    ensures InPipeline(s', t) == InPipeline(s, t) + Gain(f, t)
  {
    match f
    case Same =>
    case Append(e) => CountAppended(Pipeline(s), e, TouchEntry(t));
    case DropWake => CountInserted(s.written + s.batch, Wake, s.queue[1..], TouchEntry(t));
    case Insert(m) => CountInserted(s.written + s.batch, TouchEntry(m), s.queue, TouchEntry(t));
  }

  lemma PipelineGain(s: State, a: Action, t: Tagged)
    ensures InPipeline(Step(s, a), t) == InPipeline(s, t) + Gain(EffectOf(s, a), t)
  {
    PipelineStep(s, a);
    ShowsGain(s, Step(s, a), EffectOf(s, a), t);
  }

  lemma LostGrows(losses: seq<Loss>, l: Loss, t: Tagged)
    ensures LossesOf(losses + [l], t) == LossesOf(losses, t) + One(l.t == t)
  {
    assert (losses + [l])[..|losses|] == losses;
  }

  lemma SentGrows(sent: seq<Tagged>, call: Tagged, t: Tagged)
    ensures multiset(sent + [call])[t] == multiset(sent)[t] + One(call == t)
  {
  }

  lemma BeginSendBeside(s: State, thread: nat, msg: TouchMessage, t: Tagged)
    requires thread < |s.senders| && s.senders[thread].Idle?
    ensures Beside(BeginSend(s, thread, msg), t) == Beside(s, t) + One(Tagged(|s.sent|, thread, msg) == t)
  {
    var call := Tagged(|s.sent|, thread, msg);
    OwedUpdate(s.senders, thread, BeginSend(s, thread, msg).senders[thread], t);
    if s.slot.Some? {
      var m := s.slot.value;
      LostGrows(s.losses, if msg.action.Move? then Overwritten(m, call) else Discarded(m, call), t);
    }
  }

  lemma BeginSendConserves(s: State, thread: nat, msg: TouchMessage, t: Tagged)
    requires thread < |s.senders| && s.senders[thread].Idle?
    ensures Balance(BeginSend(s, thread, msg), t) == Balance(s, t)
  {
    var s' := BeginSend(s, thread, msg);
    var call := Tagged(|s.sent|, thread, msg);
    BeginSendBeside(s, thread, msg, t);
    SentGrows(s.sent, call, t);
    assert s'.sent == s.sent + [call];
    assert Pipeline(s') == Pipeline(s);
  }

  /** What the pipeline gains comes from beside it. */
  lemma BalanceKept(s: State, s': State, t: Tagged, gain: nat)
    requires InPipeline(s', t) == InPipeline(s, t) + gain && Beside(s, t) == Beside(s', t) + gain && s'.sent == s.sent
    ensures Balance(s', t) == Balance(s, t)
  {
  }

  lemma ContinueBeside(s: State, thread: nat, t: Tagged)
    requires thread < |s.senders|
    ensures Beside(s, t) == Beside(ContinueSend(s, thread), t) + Gain(EffectOf(s, Continue(thread)), t)
    ensures ContinueSend(s, thread).sent == s.sent
  {
    OwedUpdate(s.senders, thread, ContinueSend(s, thread).senders[thread], t);
  }

  lemma ContinueConserves(s: State, thread: nat, t: Tagged)
    requires thread < |s.senders|
    ensures Balance(ContinueSend(s, thread), t) == Balance(s, t)
  {
    PipelineGain(s, Continue(thread), t);
    ContinueBeside(s, thread, t);
    BalanceKept(s, ContinueSend(s, thread), t, Gain(EffectOf(s, Continue(thread)), t));
  }

  lemma WriterBeside(s: State, t: Tagged)
    ensures Beside(s, t) == Beside(WriterNext(s), t) + Gain(EffectOf(s, WriterStep), t)
  {
    if s.pc.Take? && s.slot.Some? {
      if |s.batch| >= BATCH_MAX_MESSAGES {
        LostGrows(s.losses, BatchFull(s.slot.value), t);
      }
    }
  }

  lemma WriterSendsNothing(s: State)
    ensures WriterNext(s).sent == s.sent
  {
  }

  lemma WriterConserves(s: State, t: Tagged)
    ensures Balance(WriterNext(s), t) == Balance(s, t)
  {
    PipelineGain(s, WriterStep, t);
    WriterBeside(s, t);
    WriterSendsNothing(s);
    BalanceKept(s, WriterNext(s), t, Gain(EffectOf(s, WriterStep), t));
  }

  lemma OfferAckConserves(s: State, pts: u64, t: Tagged)
    ensures Balance(Offer(s, AckEntry(pts)), t) == Balance(s, t)
  {
    PipelineGain(s, OfferAck(pts), t);
  }

  lemma ConservationStep(s: State, a: Action, t: Tagged)
    ensures Balance(Step(s, a), t) == Balance(s, t)
  {
    match a
    case SendTouch(thread, msg) =>
      if thread < |s.senders| && s.senders[thread].Idle? {
        assert Step(s, a) == BeginSend(s, thread, msg);
        BeginSendConserves(s, thread, msg, t);
      } else {
        assert Step(s, a) == s;
      }
    case Continue(thread) =>
      if thread < |s.senders| {
        assert Step(s, a) == ContinueSend(s, thread);
        ContinueConserves(s, thread, t);
      } else {
        assert Step(s, a) == s;
      }
    case OfferAck(pts) =>
      assert Step(s, a) == Offer(s, AckEntry(pts));
      OfferAckConserves(s, pts, t);
    case WriterStep =>
      assert Step(s, a) == WriterNext(s);
      WriterConserves(s, t);
  }

  // ------------------------------------------------------ theorems over all runs

  lemma SendersKept(s: State, a: Action)
    ensures |Step(s, a).senders| == |s.senders|
  {
  }

  lemma {:induction false} Reachable(threads: nat, run: seq<Action>)
    ensures var s := Exec(threads, run);
            WellFormed(s) && |s.senders| == threads && Carried(Pipeline(s)) == Carried(s.offered)
  {
    if run != [] {
      var before := Exec(threads, run[..|run| - 1]);
      Reachable(threads, run[..|run| - 1]);
      SendersKept(before, run[|run| - 1]);
      WellFormedStep(before, run[|run| - 1]);
      CarriedStep(before, run[|run| - 1]);
    }
  }

  /**
   Under every interleaving, what reaches the socket with MOVEs deleted is a prefix of what the callers
   put on the queue with MOVEs deleted, and the batch and the queue hold exactly the rest.
   */
  lemma GestureOrderKept(threads: nat, run: seq<Action>)
    ensures var s := Exec(threads, run);
            && Carried(s.offered) == Carried(s.written) + Carried(s.batch + s.queue)
            && Carried(s.written) <= Carried(s.offered)
  {
    var s := Exec(threads, run);
    Reachable(threads, run);
    Regroup(s.written, s.batch, s.queue);
    CarriedConcat(s.written, s.batch + s.queue);
    CutWithin(Carried(s.written), Carried(s.batch + s.queue), |Carried(s.written)|);
  }

  lemma {:induction false} NumberedOnce(ts: seq<Tagged>, t: Tagged)
    requires forall i :: 0 <= i < |ts| ==> ts[i].tag == i
    ensures multiset(ts)[t] == One(t in ts)
  {
    if ts != [] {
      NumberedOnce(ts[..|ts| - 1], t);
      assert ts == ts[..|ts| - 1] + [ts[|ts| - 1]];
    }
  }

  lemma {:induction false} NothingOwed(calls: seq<Call>, t: Tagged)
    requires forall c :: c in calls ==> c.Idle?
    ensures OwedByAll(calls, t) == 0
  {
    if calls != [] {
      NothingOwed(calls[..|calls| - 1], t);
    }
  }

  lemma {:induction false} EverywhereIsSent(threads: nat, run: seq<Action>, t: Tagged)
    ensures var s := Exec(threads, run); Everywhere(s, t) == multiset(s.sent)[t]
  {
    if run != [] {
      EverywhereIsSent(threads, run[..|run| - 1], t);
      ConservationStep(Exec(threads, run[..|run| - 1]), run[|run| - 1], t);
    } else {
      NothingOwed(Init(threads).senders, t);
    }
  }

  /**
   Conservation: at every moment each touch ever sent is in exactly one place, once - the pipeline, the slot,
   a running call or the losses - and nothing that was not sent is anywhere. Every loss is a MOVE lost to a
   later MOVE, a later DOWN or a full batch.
   */
  lemma TouchesConserved(threads: nat, run: seq<Action>, t: Tagged)
    ensures var s := Exec(threads, run);
            && Everywhere(s, t) == One(t in s.sent)
            && (forall l :: l in s.losses ==> Justified(l))
  {
    Reachable(threads, run);
    EverywhereIsSent(threads, run, t);
    NumberedOnce(Exec(threads, run).sent, t);
  }

  lemma {:induction false} LostIffRecorded(losses: seq<Loss>, t: Tagged)
    ensures LossesOf(losses, t) > 0 <==> exists l :: l in losses && l.t == t
  {
    if losses != [] {
      var last := losses[|losses| - 1];
      LostIffRecorded(losses[..|losses| - 1], t);
      assert losses == losses[..|losses| - 1] + [last];
      assert last in losses;
    }
  }

  /**
   Once every call has returned and the writer has caught up, each DOWN, UP and CANCEL has been written exactly once.
   */
  lemma EveryGestureWritten(threads: nat, run: seq<Action>, t: Tagged)
    requires var s := Exec(threads, run);
             && t in s.sent && !t.msg.action.Move? && s.queue == [] && s.batch == []
             && forall c :: c in s.senders ==> c.Idle?
    ensures multiset(Exec(threads, run).written)[TouchEntry(t)] == 1
  {
    var s := Exec(threads, run);
    Reachable(threads, run);
    TouchesConserved(threads, run, t);
    NothingOwed(s.senders, t);
    LostIffRecorded(s.losses, t);
    assert Pipeline(s) == s.written;
  }

  predicate IsGesture(e: Entry) {
    e.TouchEntry? && !e.t.msg.action.Move?
  }

  /** Each thread's DOWNs, UPs and CANCELs stand in the order in which it sent them. */
  predicate InProgramOrder(es: seq<Entry>) {
    forall i, j :: 0 <= i < j < |es| && IsGesture(es[i]) && IsGesture(es[j]) && es[i].t.thread == es[j].t.thread ==>
      es[i].t.tag < es[j].t.tag
  }

  /** The DOWN, UP or CANCEL that thread `k` is in the middle of sending comes after everything it queued before. */
  predicate CallIsLatest(s: State, k: nat)
    requires k < |s.senders|
  {
    var c := s.senders[k];
    c.OfferTouch? || c.OfferFlush? ==>
      && c.t.thread == k && c.t.tag < |s.sent|
      && (forall e :: e in Pipeline(s) && IsGesture(e) && e.t.thread == k ==> e.t.tag < c.t.tag)
  }

  predicate ThreadsInOrder(s: State) {
    && InProgramOrder(Pipeline(s))
    && (forall e :: e in Pipeline(s) && IsGesture(e) ==> e.t.tag < |s.sent|)
    && (forall k :: 0 <= k < |s.senders| ==> CallIsLatest(s, k))
  }

  lemma RemovalKeepsOrder(a: seq<Entry>, e: Entry, b: seq<Entry>)
    requires InProgramOrder(a + ([e] + b))
    ensures InProgramOrder(a + b)
  {
    var with, without := a + ([e] + b), a + b;
    forall i, j | 0 <= i < j < |without| && IsGesture(without[i]) && IsGesture(without[j])
                  && without[i].t.thread == without[j].t.thread
      ensures without[i].t.tag < without[j].t.tag
    {
      var x, y := if i < |a| then i else i + 1, if j < |a| then j else j + 1;
      assert with[x] == without[i] && with[y] == without[j];
    }
  }

  lemma InsertionKeepsOrder(a: seq<Entry>, e: Entry, b: seq<Entry>)
    requires !IsGesture(e) && InProgramOrder(a + b)
    ensures InProgramOrder(a + ([e] + b))
  {
    var with, without := a + ([e] + b), a + b;
    forall i, j | 0 <= i < j < |with| && IsGesture(with[i]) && IsGesture(with[j])
                  && with[i].t.thread == with[j].t.thread
      ensures with[i].t.tag < with[j].t.tag
    {
      var x, y := if i < |a| then i else i - 1, if j < |a| then j else j - 1;
      assert with[|a|] == e;
      assert without[x] == with[i] && without[y] == with[j];
    }
  }

  lemma PipelineInOrderStep(s: State, a: Action)
    requires WellFormed(s) && ThreadsInOrder(s)
    ensures InProgramOrder(Pipeline(Step(s, a)))
    ensures forall e :: e in Pipeline(Step(s, a)) && IsGesture(e) ==> e in Pipeline(s) || EffectOf(s, a) == Append(e)
  {
    PipelineStep(s, a);
    match EffectOf(s, a) {
      case DropWake => RemovalKeepsOrder(s.written + s.batch, Wake, s.queue[1..]);
      case Insert(t) => InsertionKeepsOrder(s.written + s.batch, TouchEntry(t), s.queue);
      case Append(e) =>
        if IsGesture(e) {
          assert CallIsLatest(s, a.thread);
          assert s.senders[a.thread] in s.senders;
        }
      case Same =>
    }
  }

  /** The thread that goes on queues nothing later than what it still has to queue. */
  lemma OwnCallIsLatest(s: State, k: nat)
    requires WellFormed(s) && ThreadsInOrder(s) && k < |s.senders|
    ensures CallIsLatest(Step(s, Continue(k)), k)
  {
    PipelineInOrderStep(s, Continue(k));
    assert CallIsLatest(s, k);
    assert s.senders[k] in s.senders;
  }

  /** What another thread or the writer does is no gesture of this one's. */
  lemma OtherCallIsLatest(s: State, a: Action, k: nat)
    requires WellFormed(s) && ThreadsInOrder(s) && k < |s.senders| && a != Continue(k) && !a.SendTouch?
    ensures CallIsLatest(Step(s, a), k)
  {
    PipelineInOrderStep(s, a);
    assert CallIsLatest(s, k);
    if a.Continue? && a.thread < |s.senders| {
      assert CallIsLatest(s, a.thread);
    }
  }

  lemma CallIsLatestStep(s: State, a: Action, k: nat)
    requires WellFormed(s) && ThreadsInOrder(s) && k < |s.senders|
    ensures k < |Step(s, a).senders| && CallIsLatest(Step(s, a), k)
  {
    SendersKept(s, a);
    if a.SendTouch? {
      assert CallIsLatest(s, k);
      assert Pipeline(Step(s, a)) == Pipeline(s);
    } else if a == Continue(k) {
      OwnCallIsLatest(s, k);
    } else {
      OtherCallIsLatest(s, a, k);
    }
  }

  lemma GesturesAreSent(s: State, a: Action)
    requires WellFormed(s) && ThreadsInOrder(s)
    ensures var s' := Step(s, a); forall e :: e in Pipeline(s') && IsGesture(e) ==> e.t.tag < |s'.sent|
  {
    PipelineInOrderStep(s, a);
    if a.Continue? && a.thread < |s.senders| {
      assert CallIsLatest(s, a.thread);
      assert s.senders[a.thread] in s.senders;
    }
  }

  lemma ThreadsInOrderStep(s: State, a: Action)
    requires WellFormed(s) && ThreadsInOrder(s)
    ensures ThreadsInOrder(Step(s, a))
  {
    var s' := Step(s, a);
    PipelineInOrderStep(s, a);
    GesturesAreSent(s, a);
    forall k | 0 <= k < |s'.senders| ensures CallIsLatest(s', k) {
      CallIsLatestStep(s, a, k);
    }
  }

  lemma {:induction false} ThreadOrderInvariant(threads: nat, run: seq<Action>)
    ensures ThreadsInOrder(Exec(threads, run))
  {
    if run != [] {
      Reachable(threads, run[..|run| - 1]);
      ThreadOrderInvariant(threads, run[..|run| - 1]);
      ThreadsInOrderStep(Exec(threads, run[..|run| - 1]), run[|run| - 1]);
    }
  }

  /** However the threads interleave, the socket carries each thread's own gesture in the order in which it sent it. */
  lemma ThreadOrderKept(threads: nat, run: seq<Action>)
    ensures InProgramOrder(Exec(threads, run).written)
  {
    ThreadOrderInvariant(threads, run);
    var s := Exec(threads, run);
    assert forall i :: 0 <= i < |s.written| ==> Pipeline(s)[i] == s.written[i];
  }
}
