/**
 What goes out ahead of an UP or a CANCEL (VideoStream.kt): a release flushes the slot before it queues itself, so that
 the finger's last position is not left behind. Under every interleaving that fails only when the writer has thrown that
 position away for want of room in its batch.
 */
module WriterRelease {
  import opened Wrappers
  import opened ReverseProtocol
  import opened ReverseChannel
  import opened Sequences
  import opened WriterWakeups

  predicate IsRelease(msg: TouchMessage) {
    msg.action.Up? || msg.action.Cancel?
  }

  /** Touch `k` is a release sent directly after a MOVE. */
  predicate Releases(s: State, k: nat) {
    0 < k < |s.sent| && IsRelease(s.sent[k].msg) && s.sent[k - 1].msg.action.Move?
  }

  predicate Before<T(==)>(es: seq<T>, a: T, b: T) {
    exists i, j :: 0 <= i < j < |es| && es[i] == a && es[j] == b
  }

  lemma BeforeAppended<T>(es: seq<T>, x: T, a: T, b: T)
    requires Before(es, a, b) || (a in es && x == b)
    ensures Before(es + [x], a, b)
  {
    if Before(es, a, b) {
      var i, j :| 0 <= i < j < |es| && es[i] == a && es[j] == b;
      assert (es + [x])[i] == a && (es + [x])[j] == b;
    } else {
      var i :| 0 <= i < |es| && es[i] == a;
      assert (es + [x])[i] == a && (es + [x])[|es|] == b;
    }
  }

  lemma BeforeInserted<T>(front: seq<T>, x: T, rear: seq<T>, a: T, b: T)
    requires Before(front + rear, a, b)
    ensures Before(front + ([x] + rear), a, b)
  {
    var i, j :| 0 <= i < j < |front + rear| && (front + rear)[i] == a && (front + rear)[j] == b;
    var i', j' := if i < |front| then i else i + 1, if j < |front| then j else j + 1;
    assert (front + ([x] + rear))[i'] == a && (front + ([x] + rear))[j'] == b;
  }

  lemma BeforeRemoved<T>(front: seq<T>, x: T, rear: seq<T>, a: T, b: T)
    requires Before(front + ([x] + rear), a, b) && x != a && x != b
    ensures Before(front + rear, a, b)
  {
    var es := front + ([x] + rear);
    var i, j :| 0 <= i < j < |es| && es[i] == a && es[j] == b;
    assert es[|front|] == x;
    var i', j' := if i < |front| then i else i - 1, if j < |front| then j else j - 1;
    assert (front + rear)[i'] == a && (front + rear)[j'] == b;
  }

  // ------------------------------------------------------------ what is newest

  /** The slot's MOVE is the touch sent last, and what a call is in the middle of sending knows its predecessor. */
  predicate CallFits(s: State, c: Call) {
    match c
    case OfferTouch(t) => t in s.sent && !t.msg.action.Move?
    case OfferFlush(pm, t) => pm in s.sent && t in s.sent && !t.msg.action.Move? && pm.tag + 1 == t.tag
    case _ => true
  }

  /** A MOVE overwritten or discarded is so by the touch sent directly after it. */
  predicate LossFits(s: State, l: Loss) {
    l.BatchFull? || (l.cause in s.sent && l.t.tag + 1 == l.cause.tag && !IsRelease(l.cause.msg))
  }

  predicate Newest(s: State) {
    && WellFormed(s)
    && (s.slot.Some? ==> s.slot.value in s.sent && s.slot.value.tag + 1 == |s.sent|)
    && (forall c :: c in s.senders ==> CallFits(s, c))
    && (forall l :: l in s.losses ==> LossFits(s, l))
  }

  lemma BeginNewest(s: State, thread: nat, msg: TouchMessage)
    requires Newest(s) && thread < |s.senders|
    ensures Newest(BeginSend(s, thread, msg))
  {
    var s' := BeginSend(s, thread, msg);
    BeginSendWellFormed(s, thread, msg);
    assert forall t :: t in s.sent ==> t in s'.sent;
    assert s'.sent[|s.sent|] in s'.sent;
    forall c | c in s'.senders ensures CallFits(s', c) {
      assert c in s.senders || c == s'.senders[thread];
    }
  }

  lemma NewestStep(s: State, a: Action)
    requires Newest(s)
    ensures Newest(Step(s, a))
  {
    WellFormedStep(s, a);
    match a
    case SendTouch(thread, msg) =>
      if thread < |s.senders| && s.senders[thread].Idle? {
        BeginNewest(s, thread, msg);
      }
    case Continue(thread) =>
      if thread < |s.senders| {
        var s' := Step(s, a);
        assert s.senders[thread] in s.senders;
        forall c | c in s'.senders ensures CallFits(s', c) {
          assert c in s.senders || c == s'.senders[thread];
        }
      }
    case _ =>
  }

  lemma {:induction false} NewestAlways(threads: nat, run: seq<Action>)
    ensures Newest(Exec(threads, run))
  {
    if run != [] {
      NewestAlways(threads, run[..|run| - 1]);
      NewestStep(Exec(threads, run[..|run| - 1]), run[|run| - 1]);
    }
  }

  // ------------------------------------------------------------ where the MOVE before a release is

  predicate Gone(s: State, t: Tagged) {
    BatchFull(t) in s.losses
  }

  predicate Placed(s: State, t: Tagged) {
    TouchEntry(t) in Pipeline(s) || Gone(s, t)
  }

  lemma {:induction false} NotOwed(calls: seq<Call>, t: Tagged)
    requires forall c :: c in calls ==> OwedBy(c, t) == 0
    ensures OwedByAll(calls, t) == 0
  {
    if calls != [] {
      NotOwed(calls[..|calls| - 1], t);
      assert calls[|calls| - 1] in calls;
    }
  }

  /** Nobody is in the middle of sending the MOVE sent last. */
  lemma LastIsNotOwed(s: State)
    requires Newest(s) && s.sent != [] && s.sent[|s.sent| - 1].msg.action.Move?
    ensures OwedByAll(s.senders, s.sent[|s.sent| - 1]) == 0
  {
    var m := s.sent[|s.sent| - 1];
    forall c | c in s.senders ensures OwedBy(c, m) == 0 {
      assert CallFits(s, c);
    }
    NotOwed(s.senders, m);
  }

  /** The MOVE sent last, once out of the slot, is on its way or was lost to a full batch. */
  lemma LastIsPlaced(threads: nat, run: seq<Action>)
    requires var s := Exec(threads, run); s.sent != [] && s.sent[|s.sent| - 1].msg.action.Move? && s.slot == None
    ensures var s := Exec(threads, run); Placed(s, s.sent[|s.sent| - 1])
  {
    var s := Exec(threads, run);
    var m := s.sent[|s.sent| - 1];
    NewestAlways(threads, run);
    TouchesConserved(threads, run, m);
    LastIsNotOwed(s);
    LostIffRecorded(s.losses, m);
    if InPipeline(s, m) == 0 {
      var l :| l in s.losses && l.t == m;
      assert LossFits(s, l);
    }
  }

  lemma UnsentIsNowhere(threads: nat, run: seq<Action>, t: Tagged)
    requires t !in Exec(threads, run).sent
    ensures TouchEntry(t) !in Pipeline(Exec(threads, run))
  {
    TouchesConserved(threads, run, t);
  }

  /** Where the MOVE `m` sent directly before the release `r` is. */
  predicate Ahead(s: State, m: Tagged, r: Tagged) {
    && (TouchEntry(r) in Pipeline(s) ==> Before(Pipeline(s), TouchEntry(m), TouchEntry(r)) || Gone(s, m))
    && (OfferTouch(r) in s.senders ==> Placed(s, m))
  }

  /** What an effect leaves of the order of the pipeline. */
  lemma OrderShown(s: State, s': State, f: Effect, m: Tagged, r: Tagged)
    requires Shows(s, s', f)
    ensures TouchEntry(m) in Pipeline(s) ==> TouchEntry(m) in Pipeline(s')
    ensures Before(Pipeline(s), TouchEntry(m), TouchEntry(r)) ==> Before(Pipeline(s'), TouchEntry(m), TouchEntry(r))
    ensures TouchEntry(r) in Pipeline(s') ==>
              TouchEntry(r) in Pipeline(s) || f == Append(TouchEntry(r)) || f == Insert(r)
  {
    var a, b, front := TouchEntry(m), TouchEntry(r), s.written + s.batch;
    if Before(Pipeline(s), a, b) {
      match f
      case Same =>
      case Append(e) => BeforeAppended(Pipeline(s), e, a, b);
      case DropWake => BeforeRemoved(front, Wake, s.queue[1..], a, b);
      case Insert(t) => BeforeInserted(front, TouchEntry(t), s.queue, a, b);
    }
  }

  /** A step that queues no touch keeps the MOVE ahead. */
  lemma OthersKeepAhead(s: State, a: Action, m: Tagged, r: Tagged)
    requires Newest(s) && Ahead(s, m, r) && !r.msg.action.Move? && (a.WriterStep? || a.OfferAck?)
    ensures Ahead(Step(s, a), m, r)
  {
    PipelineStep(s, a);
    OrderShown(s, Step(s, a), EffectOf(s, a), m, r);
  }

  lemma ContinueKeepsAhead(s: State, thread: nat, m: Tagged, r: Tagged)
    requires Newest(s) && Ahead(s, m, r) && thread < |s.senders|
    requires m in s.sent && r in s.sent && m.tag + 1 == r.tag && !r.msg.action.Move?
    ensures Ahead(ContinueSend(s, thread), m, r)
  {
    var s', c := ContinueSend(s, thread), s.senders[thread];
    assert c in s.senders && CallFits(s, c);
    PipelineStep(s, Continue(thread));
    OrderShown(s, s', EffectOf(s, Continue(thread)), m, r);
    assert OfferTouch(r) in s'.senders ==> OfferTouch(r) in s.senders || s'.senders[thread] == OfferTouch(r);
    if c == OfferTouch(r) {
      if TouchEntry(m) in Pipeline(s) {
        BeforeAppended(Pipeline(s), TouchEntry(r), TouchEntry(m), TouchEntry(r));
      }
    } else if c.OfferFlush? && c.t == r {
      assert c.pm == m;
    }
  }

  predicate AheadAt(s: State, k: nat) {
    Releases(s, k) ==> Ahead(s, s.sent[k - 1], s.sent[k])
  }

  lemma SendKeepsAhead(threads: nat, run: seq<Action>, thread: nat, msg: TouchMessage, k: nat)
    requires var s := Exec(threads, run); thread < |s.senders| && s.senders[thread].Idle? && AheadAt(s, k)
    ensures AheadAt(BeginSend(Exec(threads, run), thread, msg), k)
  {
    var s := Exec(threads, run);
    var s' := BeginSend(s, thread, msg);
    NewestAlways(threads, run);
    if Releases(s', k) {
      var m, r := s'.sent[k - 1], s'.sent[k];
      assert Pipeline(s') == Pipeline(s);
      assert OfferTouch(r) in s'.senders ==> OfferTouch(r) in s.senders || s'.senders[thread] == OfferTouch(r);
      assert OfferTouch(r) in s.senders ==> CallFits(s, OfferTouch(r));
      if k == |s.sent| {
        UnsentIsNowhere(threads, run, r);
        if s.slot == None {
          LastIsPlaced(threads, run);
        }
      }
    }
  }

  lemma {:induction false} AheadAlways(threads: nat, run: seq<Action>, k: nat)
    ensures AheadAt(Exec(threads, run), k)
  {
    if run != [] {
      var init, a := run[..|run| - 1], run[|run| - 1];
      var s := Exec(threads, init);
      AheadAlways(threads, init, k);
      NewestAlways(threads, init);
      if a.SendTouch? {
        if a.thread < |s.senders| && s.senders[a.thread].Idle? {
          SendKeepsAhead(threads, init, a.thread, a.msg, k);
        }
      } else if Releases(s, k) {
        if !a.Continue? {
          OthersKeepAhead(s, a, s.sent[k - 1], s.sent[k]);
        } else if a.thread < |s.senders| {
          ContinueKeepsAhead(s, a.thread, s.sent[k - 1], s.sent[k]);
        }
      }
    }
  }

  lemma OnlyPlace<T>(es: seq<T>, x: T, i: nat, j: nat)
    requires multiset(es)[x] == 1 && i < j < |es| && es[i] == x
    ensures es[j] != x
  {
    assert es == es[..j] + es[j..];
    assert multiset(es) == multiset(es[..j]) + multiset(es[j..]);
    assert es[..j][i] == x && es[j..][0] == es[j];
    assert es[j] in es[j..];
  }

  lemma BeforeInFront<T>(front: seq<T>, rear: seq<T>, a: T, b: T)
    requires Before(front + rear, a, b) && b in front && multiset(front + rear)[b] == 1
    ensures Before(front, a, b)
  {
    var es := front + rear;
    var i, j :| 0 <= i < j < |es| && es[i] == a && es[j] == b;
    var n :| 0 <= n < |front| && front[n] == b;
    assert es[n] == b;
    if j > n {
      OnlyPlace(es, b, n, j);
    }
    assert front[i] == a && front[j] == b;
  }

  /**
   Under every interleaving of any number of threads, an UP or CANCEL that has been written and was sent directly after
   a MOVE has that MOVE ahead of it on the socket if and only if the MOVE was not thrown away for want of room.
   */
  lemma ReleaseFollowsItsMove(threads: nat, run: seq<Action>, k: nat)
    requires var s := Exec(threads, run); Releases(s, k) && TouchEntry(s.sent[k]) in s.written
    ensures var s := Exec(threads, run);
            var m, r := s.sent[k - 1], s.sent[k];
            Before(s.written, TouchEntry(m), TouchEntry(r)) <==> BatchFull(m) !in s.losses
  {
    var s := Exec(threads, run);
    var m, r := s.sent[k - 1], s.sent[k];
    AheadAlways(threads, run, k);
    TouchesConserved(threads, run, m);
    TouchesConserved(threads, run, r);
    LostIffRecorded(s.losses, m);
    Regroup(s.written, s.batch, s.queue);
    if BatchFull(m) in s.losses {
      assert InPipeline(s, m) == 0;
      assert TouchEntry(m) in s.written ==> TouchEntry(m) in Pipeline(s);
    } else {
      BeforeInFront(s.written, s.batch + s.queue, TouchEntry(m), TouchEntry(r));
    }
  }

  // ------------------------------------------------------------ a release without its MOVE

  const UP := TouchMessage(Up, 0, 0)

  /** The writer has gone once round with an ack. */
  lemma OnceRound() returns (run: seq<Action>)
    ensures At(run, Write, false, Idle, 1, [], 0)
  {
    run := FirstRound();
    SnocFull(run, WriterStep);
    run := run + [WriterStep];
  }

  /** The writer is about to take a MOVE with its batch full of acks, and only the MOVE's Wake is queued. */
  lemma FullBeforeMove() returns (run: seq<Action>)
    ensures At(run, Take, true, Idle, BATCH_MAX_MESSAGES, [Wake], 0)
  {
    run := OnceRound();
    run := QueueAcks(run, Write, Idle, 1, BATCH_MAX_MESSAGES);
    var q := Acks(BATCH_MAX_MESSAGES);
    MoveAt(run, Write, 1, q, 0);
    run := run + [MOVE];
    WakeAt(run, Write, true, 1, q, 0);
    run := RefillBatch(run + [GO_ON], 1, 0, [Wake], 0);
    NothingAdded([Wake]);
    FullAt(run, true, Idle, [Wake], 0);
    run := run + [WriterStep];
  }

  /** Touch `k` is a release sent directly after a MOVE that a full batch has cost. */
  predicate MoveIsLost(s: State, k: nat) {
    Releases(s, k) && BatchFull(s.sent[k - 1]) in s.losses
  }

  lemma LastIsLost() returns (run: seq<Action>)
    ensures var s := Exec(1, run);
            && s.pc.Write? && s.slot == None && s.senders == [Idle] && s.queue == [Wake]
            && s.sent != [] && s.sent[|s.sent| - 1].msg.action.Move? && BatchFull(s.sent[|s.sent| - 1]) in s.losses
  {
    run := FullBeforeMove();
    NewestAlways(1, run);
    Snoc(1, run, WriterStep);
    run := run + [WriterStep];
  }

  lemma ReleaseQueued() returns (run: seq<Action>, k: nat)
    ensures var s := Exec(1, run);
            MoveIsLost(s, k) && s.pc.Write? && s.slot == None && s.queue == [Wake, TouchEntry(s.sent[k])]
  {
    run := LastIsLost();
    k := |Exec(1, run).sent|;
    Snoc(1, run, SendTouch(0, UP));
    run := run + [SendTouch(0, UP)];
    Snoc(1, run, Continue(0));
    run := run + [Continue(0)];
  }

  /** The writer's next two steps: what it has is written, and the Wake at the head of the queue dropped. */
  lemma WakeDropped(s: State, e: Entry)
    requires s.pc.Write? && s.queue == [Wake, e]
    ensures WriterNext(WriterNext(s)) == s.(written := s.written + s.batch, batch := [], queue := [e], pc := Drain)
  {
    assert [Wake, e][1..] == [e];
  }

  /** And the four after: a last entry is drained, found to be the last, followed by nothing from the slot, written. */
  lemma LastWritten(s: State, e: Entry)
    requires s.pc.Drain? && s.queue == [e] && !e.Wake? && s.batch == [] && s.slot == None
    ensures WriterNext(WriterNext(WriterNext(WriterNext(s)))) == s.(written := s.written + [e], queue := [], pc := Poll)
  {
    assert [e][1..] == [] && [] + [e] == [e];
  }

  lemma FourSteps(run: seq<Action>)
    ensures Exec(1, run + [WriterStep] + [WriterStep] + [WriterStep] + [WriterStep]) ==
            WriterNext(WriterNext(WriterNext(WriterNext(Exec(1, run)))))
  {
    Snoc(1, run, WriterStep);
    Snoc(1, run + [WriterStep], WriterStep);
    Snoc(1, run + [WriterStep] + [WriterStep], WriterStep);
    Snoc(1, run + [WriterStep] + [WriterStep] + [WriterStep], WriterStep);
  }

  /** The UP that follows such a MOVE is written without it. */
  lemma ReleaseWithoutItsMove() returns (run: seq<Action>, k: nat)
    ensures MoveIsLost(Exec(1, run), k) && TouchEntry(Exec(1, run).sent[k]) in Exec(1, run).written
  {
    run, k := ReleaseQueued();
    var s := Exec(1, run);
    var up := TouchEntry(s.sent[k]);
    WakeDropped(s, up);
    Snoc(1, run, WriterStep);
    Snoc(1, run + [WriterStep], WriterStep);
    run := run + [WriterStep] + [WriterStep];
    LastWritten(Exec(1, run), up);
    FourSteps(run);
    run := run + [WriterStep] + [WriterStep] + [WriterStep] + [WriterStep];
  }
}
