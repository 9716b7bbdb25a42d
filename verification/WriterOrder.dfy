/**
 The order of one sender's touches on the socket (VideoStream.kt).

 The writer's comment says that a MOVE found in the slot after the queue has been drained follows everything
 the drain produced. With one sender thread that is so exactly in the runs in which nothing is queued in the
 window between the drain and the slot; this module proves both directions.
 */
module WriterOrder {
  import opened Wrappers
  import opened ReverseProtocol
  import opened ReverseChannel
  import opened Sequences

  /** Every touch the sender has committed to the socket, in the order in which it will appear there. */
  function Line(s: State): seq<Tagged>
    requires |s.senders| == 1
  {
    Touches(Pipeline(s)) + Owed(s.senders[0])
  }

  predicate Increasing(ts: seq<Tagged>) {
    forall i, j :: 0 <= i < j < |ts| ==> ts[i].tag < ts[j].tag
  }

  /** The writer is about to append the slot's MOVE although a touch entered the queue after it was drained. */
  predicate Overtakes(s: State, a: Action) {
    a.WriterStep? && s.pc.Take? && |s.batch| < BATCH_MAX_MESSAGES && s.slot.Some? && Touches(s.queue) != []
  }

  predicate AnyOvertake(threads: nat, run: seq<Action>) {
    run != [] && (AnyOvertake(threads, run[..|run| - 1]) || Overtakes(Exec(threads, run[..|run| - 1]), run[|run| - 1]))
  }

  predicate SlotIsNewest(s: State) {
    && |s.senders| == 1
    && (forall t :: t in Line(s) ==> t.tag < |s.sent|)
    && (s.slot.Some? ==> Owed(s.senders[0]) == [] && forall t :: t in Line(s) ==> t.tag < s.slot.value.tag)
  }

  /** A new call adds what it owes to the end of the line. */
  lemma LineSend(s: State, msg: TouchMessage)
    requires |s.senders| == 1 && s.senders[0].Idle?
    ensures var s' := BeginSend(s, 0, msg); Line(s') == Line(s) + Owed(s'.senders[0])
  {
  }

  lemma TouchesAround(front: seq<Entry>, m: Tagged, rear: seq<Entry>)
    ensures Touches(front + ([TouchEntry(m)] + rear)) == Touches(front) + [m] + Touches(rear)
  {
    TouchesConcat(front, [TouchEntry(m)]);
    TouchesConcat(front + [TouchEntry(m)], rear);
    Regroup(front, [TouchEntry(m)], rear);
  }

  /** The slot goes in front of what is queued. */
  lemma LineInsert(s: State)
    requires |s.senders| == 1 && EffectOf(s, WriterStep).Insert? && Owed(s.senders[0]) == []
    ensures Line(s) == Touches(s.written + s.batch) + Touches(s.queue)
    ensures Line(WriterNext(s)) == Touches(s.written + s.batch) + [s.slot.value] + Touches(s.queue)
  {
    PipelineStep(s, WriterStep);
    TouchesConcat(s.written + s.batch, s.queue);
    TouchesAround(s.written + s.batch, s.slot.value, s.queue);
    NothingAdded(Touches(Pipeline(s)));
    NothingAdded(Touches(Pipeline(WriterNext(s))));
  }

  lemma TouchesAppended(s: State, a: Action)
    requires !EffectOf(s, a).Insert?
    ensures Touches(Pipeline(Step(s, a))) ==
            Touches(Pipeline(s)) + (if EffectOf(s, a).Append? then Touches([EffectOf(s, a).e]) else [])
  {
    PipelineStep(s, a);
    match EffectOf(s, a)
    case Same =>
    case Append(e) =>
      TouchesConcat(Pipeline(s), [e]);
    case DropWake =>
      var front, rest := s.written + s.batch, s.queue[1..];
      TouchesConcat(front, rest);
      TouchesConcat(front, [Wake] + rest);
      TouchesConcat([Wake], rest);
      assert Touches([Wake]) == [] && Touches([Wake] + rest) == Touches(rest);
  }

  /** What a call puts on the queue is what it then no longer owes. */
  lemma OfferedIsOwed(s: State, a: Action)
    requires |s.senders| == 1 && !EffectOf(s, a).Insert? && !a.SendTouch?
    ensures |Step(s, a).senders| == 1
    ensures Owed(s.senders[0]) ==
            (if EffectOf(s, a).Append? then Touches([EffectOf(s, a).e]) else []) + Owed(Step(s, a).senders[0])
  {
  }

  /** Every other step leaves the line alone. */
  lemma LineKept(s: State, a: Action)
    requires |s.senders| == 1 && !EffectOf(s, a).Insert? && !a.SendTouch?
    ensures |Step(s, a).senders| == 1 && Line(Step(s, a)) == Line(s)
  {
    var s' := Step(s, a);
    TouchesAppended(s, a);
    OfferedIsOwed(s, a);
    Regroup(Touches(Pipeline(s)), if EffectOf(s, a).Append? then Touches([EffectOf(s, a).e]) else [],
            Owed(s'.senders[0]));
  }

  lemma PrefixInOrder(a: seq<Tagged>, b: seq<Tagged>)
    requires Increasing(a + b)
    ensures Increasing(a)
  {
    assert forall i :: 0 <= i < |a| ==> (a + b)[i] == a[i];
  }

  lemma LaterAppended(line: seq<Tagged>, more: seq<Tagged>)
    requires Increasing(more) && forall t, u :: t in line && u in more ==> t.tag < u.tag
    ensures Increasing(line + more) <==> Increasing(line)
  {
    if Increasing(line + more) {
      PrefixInOrder(line, more);
    }
  }

  /** What a call owes is the slot's MOVE, if any, and then the newest touch of all. */
  lemma OwedIsNewest(s: State, msg: TouchMessage)
    requires WellFormed(s) && SlotIsNewest(s) && s.senders[0].Idle?
    ensures var more := Owed(BeginSend(s, 0, msg).senders[0]);
            Increasing(more) && forall t, u :: t in Line(s) && u in more ==> t.tag < u.tag
  {
    var more := Owed(BeginSend(s, 0, msg).senders[0]);
    assert forall u :: u in more ==> s.slot == Some(u) || u.tag == |s.sent|;
  }

  lemma SendKeepsNewest(s: State, msg: TouchMessage)
    requires WellFormed(s) && SlotIsNewest(s) && s.senders[0].Idle?
    ensures SlotIsNewest(BeginSend(s, 0, msg))
  {
    var s' := BeginSend(s, 0, msg);
    LineSend(s, msg);
    forall t | t in Line(s') ensures t.tag < |s'.sent| {
      assert t in Line(s) || t in Owed(s'.senders[0]);
    }
    if s'.slot.Some? {
      assert Owed(s'.senders[0]) == [] && s'.slot.value.tag == |s.sent|;
      NothingAdded(Line(s));
    }
  }

  lemma SendKeepsOrder(s: State, msg: TouchMessage)
    requires WellFormed(s) && SlotIsNewest(s) && s.senders[0].Idle?
    ensures var s' := BeginSend(s, 0, msg); SlotIsNewest(s') && (Increasing(Line(s')) <==> Increasing(Line(s)))
  {
    SendKeepsNewest(s, msg);
    OwedIsNewest(s, msg);
    LineSend(s, msg);
    LaterAppended(Line(s), Owed(BeginSend(s, 0, msg).senders[0]));
  }

  lemma NewestAtTheEnd(line: seq<Tagged>, m: Tagged)
    requires forall t :: t in line ==> t.tag < m.tag
    ensures Increasing(line + [m]) <==> Increasing(line)
  {
    if Increasing(line + [m]) {
      PrefixInOrder(line, [m]);
    }
  }

  lemma NewestInTheMiddle(front: seq<Tagged>, m: Tagged, rear: seq<Tagged>)
    requires rear != [] && rear[0].tag < m.tag
    ensures !Increasing(front + [m] + rear)
  {
    var line := front + [m] + rear;
    assert line[|front|] == m && line[|front| + 1] == rear[0];
  }

  /** The newest touch of all is in order at the end of the line, and nowhere else. */
  lemma NewestInserted(front: seq<Tagged>, m: Tagged, rear: seq<Tagged>)
    requires forall t :: t in front + rear ==> t.tag < m.tag
    ensures Increasing(front + [m] + rear) <==> Increasing(front + rear) && rear == []
  {
    if rear == [] {
      NothingAdded(front);
      NothingAdded(front + [m]);
      NewestAtTheEnd(front, m);
    } else {
      assert rear[0] in front + rear;
      NewestInTheMiddle(front, m, rear);
    }
  }

  lemma BelowInserted(front: seq<Tagged>, m: Tagged, rear: seq<Tagged>, n: nat)
    requires m.tag < n && forall t :: t in front + rear ==> t.tag < n
    ensures forall t :: t in front + [m] + rear ==> t.tag < n
  {
    assert forall t :: t in front + [m] + rear ==> t in front + rear || t == m;
  }

  lemma TakeKeepsNewest(s: State)
    requires WellFormed(s) && SlotIsNewest(s) && EffectOf(s, WriterStep).Insert?
    ensures SlotIsNewest(WriterNext(s))
  {
    LineInsert(s);
    BelowInserted(Touches(s.written + s.batch), s.slot.value, Touches(s.queue), |s.sent|);
  }

  lemma TakeKeepsOrderOrOvertakes(s: State)
    requires WellFormed(s) && SlotIsNewest(s) && EffectOf(s, WriterStep).Insert?
    ensures var s' := WriterNext(s);
            SlotIsNewest(s') && (Increasing(Line(s')) <==> Increasing(Line(s)) && !Overtakes(s, WriterStep))
  {
    TakeKeepsNewest(s);
    LineInsert(s);
    NewestInserted(Touches(s.written + s.batch), s.slot.value, Touches(s.queue));
  }

  /** A step that neither sends nor takes the slot leaves the line, and what is newest, alone. */
  lemma OtherKeepsOrder(s: State, a: Action)
    requires SlotIsNewest(s) && !EffectOf(s, a).Insert? && !a.SendTouch?
    ensures SlotIsNewest(Step(s, a)) && Line(Step(s, a)) == Line(s)
  {
    LineKept(s, a);
    OthersSendNothing(s, a);
  }

  lemma OthersSendNothing(s: State, a: Action)
    requires |s.senders| == 1 && !a.SendTouch?
    ensures var s' := Step(s, a);
            && s'.sent == s.sent && |s'.senders| == 1
            && (s'.slot.Some? ==> s'.slot == s.slot)
            && (Owed(s.senders[0]) == [] ==> Owed(s'.senders[0]) == [])
  {
  }

  lemma OrderStep(s: State, a: Action)
    requires WellFormed(s) && SlotIsNewest(s)
    ensures SlotIsNewest(Step(s, a))
    ensures Increasing(Line(Step(s, a))) <==> Increasing(Line(s)) && !Overtakes(s, a)
  {
    if a.SendTouch? {
      if a.thread == 0 && s.senders[0].Idle? {
        SendKeepsOrder(s, a.msg);
      }
    } else if EffectOf(s, a).Insert? {
      TakeKeepsOrderOrOvertakes(s);
    } else {
      OtherKeepsOrder(s, a);
      assert !Overtakes(s, a);
    }
  }

  lemma {:induction false} OrderInvariant(run: seq<Action>)
    ensures var s := Exec(1, run); SlotIsNewest(s) && (Increasing(Line(s)) <==> !AnyOvertake(1, run))
  {
    if run != [] {
      var before := Exec(1, run[..|run| - 1]);
      Reachable(1, run[..|run| - 1]);
      OrderInvariant(run[..|run| - 1]);
      OrderStep(before, run[|run| - 1]);
    } else {
      assert Line(Init(1)) == [];
    }
  }

  lemma {:induction false} TouchesIn(es: seq<Entry>, t: Tagged)
    ensures t in Touches(es) <==> TouchEntry(t) in es
  {
    if es != [] {
      TouchesIn(es[1..], t);
      assert es == [es[0]] + es[1..];
    }
  }

  predicate LostOrPending(s: State, t: Tagged) {
    t.msg.action.Move? && (s.slot == Some(t) || exists l :: l in s.losses && l.t == t && Justified(l))
  }

  lemma OffTheLine(run: seq<Action>, t: Tagged)
    requires var s := Exec(1, run); |s.senders| == 1 && t in s.sent && t !in Line(s)
    ensures LostOrPending(Exec(1, run), t)
  {
    var s := Exec(1, run);
    Reachable(1, run);
    TouchesConserved(1, run, t);
    TouchesIn(Pipeline(s), t);
    assert OwedByAll(s.senders, t) == OwedByAll(s.senders[..0], t) + OwedBy(s.senders[0], t) == 0;
    LostIffRecorded(s.losses, t);
  }

  /**
   For one sender, the touches written, batched and queued are in the order in which they were sent if and only if
   the writer never appended the slot's MOVE past a touch queued after its drain. In such a run a sent touch that is
   not on its way is the MOVE now in the slot, or a MOVE with a recorded loss.
   */
  lemma SentOrderKept(run: seq<Action>)
    ensures var s := Exec(1, run);
            && |s.senders| == 1
            && (Increasing(Line(s)) <==> !AnyOvertake(1, run))
            && (forall t :: t in s.sent && t !in Line(s) ==> LostOrPending(s, t))
  {
    var s := Exec(1, run);
    OrderInvariant(run);
    forall t | t in s.sent && t !in Line(s)
      ensures LostOrPending(s, t)
    {
      OffTheLine(run, t);
    }
  }

  /** A touch enters the queue after the writer found it empty and before it takes the slot. */
  predicate HitsWindow(s: State, a: Action) {
    s.pc.Take? && |s.batch| < BATCH_MAX_MESSAGES && EffectOf(s, a).Append? && EffectOf(s, a).e.TouchEntry?
  }

  predicate AnyWindowHit(threads: nat, run: seq<Action>) {
    && run != []
    && (AnyWindowHit(threads, run[..|run| - 1]) || HitsWindow(Exec(threads, run[..|run| - 1]), run[|run| - 1]))
  }

  /** No touch is queued behind the slot the writer is about to take. */
  predicate WindowClear(s: State) {
    s.pc.Take? && |s.batch| < BATCH_MAX_MESSAGES ==> Touches(s.queue) == []
  }

  lemma WindowStep(s: State, a: Action)
    requires WindowClear(s) && !HitsWindow(s, a)
    ensures WindowClear(Step(s, a))
  {
    if EffectOf(s, a).Append? {
      TouchesConcat(s.queue, [EffectOf(s, a).e]);
      assert Step(s, a).queue == s.queue + [EffectOf(s, a).e];
    }
  }

  /** Without such a touch nothing overtakes, whatever the number of threads. */
  lemma {:induction false} OvertakingNeedsWindow(threads: nat, run: seq<Action>)
    requires !AnyWindowHit(threads, run)
    ensures !AnyOvertake(threads, run) && WindowClear(Exec(threads, run))
  {
    if run != [] {
      OvertakingNeedsWindow(threads, run[..|run| - 1]);
      WindowStep(Exec(threads, run[..|run| - 1]), run[|run| - 1]);
    }
  }

  const DOWN := TouchMessage(Down, 0, 0)
  const MOVE := TouchMessage(Move, 0, 0)

  /** A DOWN is queued in the window: the writer has found the queue empty and not yet taken the slot. */
  lemma DownInWindow() returns (run: seq<Action>)
    ensures var s := Exec(1, run);
            && s.pc.Take? && s.slot == None && s.batch == [AckEntry(0)] && s.written == []
            && s.senders == [Idle] && s.sent == [Tagged(0, 0, DOWN)] && s.queue == [TouchEntry(s.sent[0])]
  {
    run := [];
    Snoc(1, run, OfferAck(0)); run := run + [OfferAck(0)];
    Snoc(1, run, WriterStep); run := run + [WriterStep];
    Snoc(1, run, WriterStep); run := run + [WriterStep];
    Snoc(1, run, SendTouch(0, DOWN)); run := run + [SendTouch(0, DOWN)];
    Snoc(1, run, Continue(0)); run := run + [Continue(0)];
  }

  /** The window is real: the DOWN's first MOVE reaches the socket while the DOWN is still queued. */
  lemma MoveOvertakesDown() returns (run: seq<Action>)
    ensures var s := Exec(1, run);
            && |s.sent| == 2 && s.sent[0].msg == DOWN && s.sent[1].msg == MOVE
            && s.written == [AckEntry(0), TouchEntry(s.sent[1])] && s.queue == [TouchEntry(s.sent[0]), Wake]
  {
    run := DownInWindow();
    Snoc(1, run, SendTouch(0, MOVE)); run := run + [SendTouch(0, MOVE)];
    Snoc(1, run, Continue(0)); run := run + [Continue(0)];
    Snoc(1, run, WriterStep); run := run + [WriterStep];
    Snoc(1, run, WriterStep); run := run + [WriterStep];
  }
}
