/** The Wake sentinel (VideoStream.kt): no wakeup is lost, and sentinels do not pile up. */
module WriterWakeups {
  import opened Wrappers
  import opened ReverseProtocol
  import opened ReverseChannel
  import opened Sequences

  /**
   A MOVE in the slot is never forgotten: the writer is already on its way to it, or a Wake is queued or being queued.
   */
  predicate MoveIsAnnounced(s: State) {
    s.slot.Some? ==> s.pc.Drain? || s.pc.Take? || Wake in s.queue || OfferWake in s.senders
  }

  lemma AnnouncedStep(s: State, a: Action)
    requires MoveIsAnnounced(s)
    ensures MoveIsAnnounced(Step(s, a))
  {
    var s' := Step(s, a);
    if a.SendTouch? && a.thread < |s.senders| && s.senders[a.thread].Idle? {
      assert s'.senders[a.thread] in s'.senders;
      assert forall i :: 0 <= i < |s.senders| && s.senders[i].OfferWake? ==> s'.senders[i] == OfferWake;
    } else if a.Continue? && a.thread < |s.senders| {
      assert forall e :: e in s.queue ==> e in s'.queue;
      if s.senders[a.thread].OfferWake? {
        assert s'.queue[|s.queue|] == Wake;
      } else {
        assert forall i :: 0 <= i < |s.senders| && s.senders[i].OfferWake? ==> s'.senders[i] == OfferWake;
      }
    } else if a.OfferAck? {
      assert forall e :: e in s.queue ==> e in s'.queue;
    }
  }

  lemma {:induction false} Announced(threads: nat, run: seq<Action>)
    ensures MoveIsAnnounced(Exec(threads, run))
  {
    if run != [] {
      Announced(threads, run[..|run| - 1]);
      AnnouncedStep(Exec(threads, run[..|run| - 1]), run[|run| - 1]);
    }
  }

  /**
   No lost wakeup, safety half: whenever the writer is blocked on an empty queue while a MOVE waits in the
   slot, some `sendTouch` is between filling the slot and offering its Wake.
   */
  lemma NoLostWakeup(threads: nat, run: seq<Action>)
    ensures var s := Exec(threads, run);
            s.pc.Poll? && s.queue == [] && s.slot.Some? ==> OfferWake in s.senders
  {
    Announced(threads, run);
    Reachable(threads, run);
  }

  function WriterRun(s: State, steps: nat): State
    decreases steps
  {
    if steps == 0 then s else WriterRun(WriterNext(s), steps - 1)
  }

  /** How many of its own steps the writer needs at most before it takes the slot. */
  function StepsToTake(s: State): nat {
    match s.pc
    case Write => |s.queue| + 4
    case Poll => |s.queue| + 3
    case Drain => |s.queue| + 2
    case Take => 1
  }

  /**
   In any reachable state with no call about to offer a Wake, the writer's own steps, whatever is queued and with nobody
   else moving, empty the slot within |queue| + 4 of them.
   */
  lemma {:induction false} WriterAloneReachesSlot(s: State)
    requires MoveIsAnnounced(s) && s.slot.Some? && OfferWake !in s.senders
    ensures exists n :: 0 < n <= |s.queue| + 4 && WriterRun(s, n).slot == None
  {
    WriterReachesSlotIn(s);
  }

  lemma {:induction false} WriterReachesSlotIn(s: State)
    requires MoveIsAnnounced(s) && s.slot.Some? && OfferWake !in s.senders
    ensures exists n :: 0 < n <= StepsToTake(s) && WriterRun(s, n).slot == None
    decreases StepsToTake(s)
  {
    var s' := WriterNext(s);
    AnnouncedStep(s, WriterStep);
    if s.pc.Take? {
      assert WriterRun(s, 1) == WriterRun(s', 0) == s';
    } else {
      WriterReachesSlotIn(s');
      var n :| 0 < n <= StepsToTake(s') && WriterRun(s', n).slot == None;
      assert WriterRun(s, n + 1) == WriterRun(s', n);
    }
  }

  function Wakes(q: seq<Entry>): nat {
    if q == [] then 0 else (if q[0].Wake? then 1 else 0) + Wakes(q[1..])
  }

  lemma {:induction false} WakesAppend(q: seq<Entry>, e: Entry)
    ensures Wakes(q + [e]) == Wakes(q) + (if e.Wake? then 1 else 0)
  {
    if q == [] {
      assert q + [e] == [e];
    } else {
      assert (q + [e])[1..] == q[1..] + [e];
      WakesAppend(q[1..], e);
    }
  }

  // ------------------------------------------------------------- how soon the slot is taken

  /** How many of its own steps the writer needs at most before it takes the slot, whatever the others add meanwhile. */
  function Pace(s: State): int {
    match s.pc
    case Write => Wakes(s.queue) + 128 + 4
    case Poll => Wakes(s.queue) + 128 + 3
    case Drain => Wakes(s.queue) + 128 - |s.batch| + 2
    case Take => 1
  }

  /** Only the writer changes its pace, and each of its steps brings the slot nearer. */
  lemma PaceStep(s: State, a: Action)
    requires WellFormed(s) && MoveIsAnnounced(s) && s.slot.Some? && OfferWake !in s.senders && Step(s, a).slot.Some?
    ensures OfferWake !in Step(s, a).senders
    ensures Pace(Step(s, a)) <= Pace(s) - if a.WriterStep? then 1 else 0
  {
    if a.WriterStep? {
      assert s.pc.Poll? ==> Wake in s.queue;
    } else {
      OthersKeepWakes(s, a);
    }
  }

  lemma OthersKeepWakes(s: State, a: Action)
    requires !a.WriterStep? && OfferWake !in s.senders
    ensures Wakes(Step(s, a).queue) == Wakes(s.queue)
  {
    var s' := Step(s, a);
    if a.OfferAck? {
      WakesAppend(s.queue, AckEntry(a.pts));
    } else if a.Continue? && EffectOf(s, a).Append? {
      assert s.senders[a.thread] in s.senders;
      WakesAppend(s.queue, EffectOf(s, a).e);
    }
  }

  function WriterSteps(actions: seq<Action>): nat {
    if actions == [] then 0 else
      WriterSteps(actions[..|actions| - 1]) + if actions[|actions| - 1].WriterStep? then 1 else 0
  }

  /** The slot holds a MOVE at the end of `run` and after every action of `more`. */
  predicate SlotStaysFull(threads: nat, run: seq<Action>, more: seq<Action>) {
    Exec(threads, run + more).slot.Some? && (more != [] ==> SlotStaysFull(threads, run, more[..|more| - 1]))
  }

  lemma PaceOfOneMore(threads: nat, run: seq<Action>, a: Action)
    requires var s := Exec(threads, run); s.slot.Some? && OfferWake !in s.senders && Step(s, a).slot.Some?
    ensures var s := Exec(threads, run);
            && WellFormed(Step(s, a)) && OfferWake !in Step(s, a).senders
            && Pace(Step(s, a)) <= Pace(s) - if a.WriterStep? then 1 else 0
  {
    Reachable(threads, run);
    Announced(threads, run);
    WellFormedStep(Exec(threads, run), a);
    PaceStep(Exec(threads, run), a);
  }

  /**
   No lost wakeup, progress half: from any reachable state with a MOVE in the slot and no call about to offer a Wake,
   however the other threads interleave and however many acks and touches they queue, the writer takes the slot, or
   someone else empties it, within the number of Wakes queued plus one batch plus four of the writer's steps.
   */
  lemma {:induction false} WriterReachesSlot(threads: nat, run: seq<Action>, more: seq<Action>)
    requires SlotStaysFull(threads, run, more) && OfferWake !in Exec(threads, run).senders
    ensures var s := Exec(threads, run);
            && OfferWake !in Exec(threads, run + more).senders
            && Pace(Exec(threads, run + more)) <= Pace(s) - WriterSteps(more)
            && WriterSteps(more) < Wakes(s.queue) + 128 + 4
  {
    if more == [] {
      NothingAdded(run);
      Reachable(threads, run);
    } else {
      var init, a := more[..|more| - 1], more[|more| - 1];
      WriterReachesSlot(threads, run, init);
      Regroup(run, init, [a]);
      SplitBack(more);
      Snoc(threads, run + init, a);
      PaceOfOneMore(threads, run + init, a);
    }
    PaceIsPositive(Exec(threads, run + more));
  }

  lemma PaceIsPositive(s: State)
    requires WellFormed(s)
    ensures 0 < Pace(s) <= Wakes(s.queue) + 128 + 4
  {
  }

  // ------------------------------------------------------------- how soon an entry is drained

  /** How many of its own steps the writer needs at most to take the first `n` entries off the queue. */
  function StepsToDrain(s: State, n: nat): int {
    match s.pc
    case Poll => n + 3 * ((n - 1) / 128)
    case Drain => n + 3 * ((|s.batch| + n - 1) / 128)
    case Take => n + 3 * ((n - 1) / 128) + 2
    case Write => n + 3 * ((n - 1) / 128) + 1
  }

  predicate TakesHead(s: State, a: Action) {
    a.WriterStep? && s.queue != [] && (s.pc.Poll? || (s.pc.Drain? && |s.batch| < BATCH_MAX_MESSAGES))
  }

  /** How many entries the writer takes off the queue in the course of `more`. */
  function Taken(threads: nat, run: seq<Action>, more: seq<Action>): nat {
    if more == [] then 0 else
    var init := more[..|more| - 1];
    Taken(threads, run, init) + if TakesHead(Exec(threads, run + init), more[|more| - 1]) then 1 else 0
  }

  /** The writer alone takes from the queue, and it takes the head; everybody else adds at the tail. */
  lemma HeadsAreTaken(s: State, a: Action)
    ensures if TakesHead(s, a) then Step(s, a).queue == s.queue[1..] else s.queue <= Step(s, a).queue
  {
  }

  /** Others leave the writer where it is. */
  lemma OthersLeaveWriter(s: State, a: Action)
    requires !a.WriterStep?
    ensures Step(s, a).pc == s.pc && Step(s, a).batch == s.batch
  {
  }

  lemma OneCloser(s: State, n: nat)
    requires WellFormed(s) && 0 < n <= |s.queue|
    ensures var m := if TakesHead(s, WriterStep) then n - 1 else n;
            if m > 0 then StepsToDrain(WriterNext(s), m) <= StepsToDrain(s, n) - 1 else 1 <= StepsToDrain(s, n)
  {
  }

  /** Each of the writer's steps takes an entry or brings it nearer to one, and nobody else's takes it further away. */
  lemma DrainStep(s: State, a: Action, n: nat)
    requires WellFormed(s) && 0 < n <= |s.queue|
    ensures var s', m := Step(s, a), if TakesHead(s, a) then n - 1 else n;
            && m <= |s'.queue|
            && (m > 0 ==> StepsToDrain(s', m) <= StepsToDrain(s, n) - if a.WriterStep? then 1 else 0)
  {
    HeadsAreTaken(s, a);
    if a.WriterStep? {
      OneCloser(s, n);
    } else {
      OthersLeaveWriter(s, a);
    }
  }

  /** The first `n` entries have been taken, or those that have not are so much nearer. */
  predicate Draining(threads: nat, run: seq<Action>, more: seq<Action>, n: nat) {
    var s, s', taken := Exec(threads, run), Exec(threads, run + more), Taken(threads, run, more);
    taken < n ==>
      && taken <= n <= |s.queue| && s.queue[taken..] <= s'.queue
      && StepsToDrain(s', n - taken) <= StepsToDrain(s, n) - WriterSteps(more)
  }

  /** What is left of the entries stays at the head, whoever moves, and is no further away. */
  lemma LeftAtHead(s: State, a: Action, q: seq<Entry>, taken: nat, n: nat)
    requires WellFormed(s) && taken < n <= |q| && q[taken..] <= s.queue
    ensures var t := taken + if TakesHead(s, a) then 1 else 0;
            t < n ==>
              && q[t..] <= Step(s, a).queue
              && StepsToDrain(Step(s, a), n - t) <= StepsToDrain(s, n - taken) - if a.WriterStep? then 1 else 0
  {
    hide StepsToDrain, Step, TakesHead;
    HeadsAreTaken(s, a);
    DrainStep(s, a, n - taken);
    assert q[taken..][1..] == q[taken + 1..];
  }

  lemma CountOneMore(threads: nat, run: seq<Action>, init: seq<Action>, a: Action)
    ensures var head := TakesHead(Exec(threads, run + init), a);
            Taken(threads, run, init + [a]) == Taken(threads, run, init) + if head then 1 else 0
    ensures WriterSteps(init + [a]) == WriterSteps(init) + if a.WriterStep? then 1 else 0
    ensures Exec(threads, run + (init + [a])) == Step(Exec(threads, run + init), a)
  {
    hide StepsToDrain, Step, TakesHead;
    BackOfSnoc(init, a);
    Regroup(run, init, [a]);
    Snoc(threads, run + init, a);
  }

  lemma DrainOneMore(threads: nat, run: seq<Action>, init: seq<Action>, a: Action, n: nat)
    requires Draining(threads, run, init, n) && 0 < n <= |Exec(threads, run).queue|
    ensures Draining(threads, run, init + [a], n)
  {
    hide StepsToDrain, Step, TakesHead, WellFormed, Exec, Taken, WriterSteps;
    CountOneMore(threads, run, init, a);
    Reachable(threads, run + init);
    var taken := Taken(threads, run, init);
    if taken < n {
      LeftAtHead(Exec(threads, run + init), a, Exec(threads, run).queue, taken, n);
    }
  }

  lemma {:induction false} DrainsAlways(threads: nat, run: seq<Action>, more: seq<Action>, n: nat)
    requires 0 < n <= |Exec(threads, run).queue|
    ensures Draining(threads, run, more, n)
  {
    if more == [] {
      NothingAdded(run);
    } else {
      DrainsAlways(threads, run, more[..|more| - 1], n);
      DrainOneMore(threads, run, more[..|more| - 1], more[|more| - 1], n);
      SplitBack(more);
    }
  }

  /** One for each entry, and three more for each full batch on the way. */
  function MostSteps(n: nat): nat {
    n + 3 * ((128 + n - 1) / 128)
  }

  lemma StepsAreFew(s: State, n: nat)
    requires WellFormed(s) && n > 0
    ensures 0 < StepsToDrain(s, n) <= MostSteps(n)
  {
  }

  /**
   However the other threads interleave and whatever they add, the first `n` entries of the queue are taken, in order,
   within `n` of the writer's steps and three more for each full batch on the way.
   */
  lemma EntriesAreTaken(threads: nat, run: seq<Action>, more: seq<Action>, n: nat)
    requires 0 < n <= |Exec(threads, run).queue|
    ensures var q, taken := Exec(threads, run).queue, Taken(threads, run, more);
            taken < n ==> q[taken..] <= Exec(threads, run + more).queue
    ensures WriterSteps(more) >= MostSteps(n) ==> Taken(threads, run, more) >= n
  {
    hide StepsToDrain, MostSteps, Exec, Taken, WriterSteps, WellFormed;
    Reachable(threads, run);
    Reachable(threads, run + more);
    DrainsAlways(threads, run, more, n);
    StepsAreFew(Exec(threads, run), n);
    if Taken(threads, run, more) < n {
      StepsAreFew(Exec(threads, run + more), n - Taken(threads, run, more));
    }
  }

  // ------------------------------------------------------------- how many Wakes

  /** Wakes queued or about to be, in a system with one sender thread. */
  function WakesDue(s: State): nat
    requires |s.senders| == 1
  {
    Wakes(s.queue) + (if s.senders[0].OfferWake? then 1 else 0)
  }

  predicate OnlyMoves(run: seq<Action>) {
    forall i :: 0 <= i < |run| && run[i].SendTouch? ==> run[i].msg.action.Move?
  }

  predicate NoAcks(run: seq<Action>) {
    forall i :: 0 <= i < |run| ==> !run[i].OfferAck?
  }

  /** How often the writer has taken the slot with a full batch since it last found the queue empty. */
  function FullTakes(threads: nat, run: seq<Action>): nat {
    if run == [] then 0 else
      NextFullTakes(FullTakes(threads, run[..|run| - 1]), Exec(threads, run[..|run| - 1]), run[|run| - 1])
  }

  function NextFullTakes(full: nat, s: State, a: Action): nat {
    if !a.WriterStep? then full
    else if s.pc.Drain? && |s.batch| < BATCH_MAX_MESSAGES && s.queue == [] then 0
    else if s.pc.Take? && |s.batch| == BATCH_MAX_MESSAGES then full + 1
    else full
  }

  predicate WakesBounded(s: State, full: nat)
    requires |s.senders| == 1
  {
    var held := if s.slot.Some? then 1 else 0;
    && !s.senders[0].OfferTouch? && !s.senders[0].OfferFlush?
    && WakesDue(s) <= 2 + full + held
    && (s.pc.Take? && |s.batch| < BATCH_MAX_MESSAGES ==> full == 0 && WakesDue(s) <= 1 + held)
  }

  lemma WakesDueStep(s: State, a: Action)
    requires |s.senders| == 1
    ensures var s' := Step(s, a);
            |s'.senders| == 1 && WakesDue(s') ==
            WakesDue(s) + (if a.SendTouch? && a.thread == 0 && s.senders[0].Idle?
                              && a.msg.action.Move? && s.slot.None? then 1 else 0)
                        - (if a.WriterStep? && EffectOf(s, a).DropWake? then 1 else 0)
  {
    var s' := Step(s, a);
    if a.OfferAck? {
      WakesAppend(s.queue, AckEntry(a.pts));
    } else if a.Continue? && EffectOf(s, a).Append? {
      WakesAppend(s.queue, EffectOf(s, a).e);
    }
  }

  lemma WakesBoundedStep(s: State, full: nat, a: Action)
    requires WellFormed(s) && |s.senders| == 1 && WakesBounded(s, full)
    requires a.SendTouch? ==> a.msg.action.Move?
    ensures |Step(s, a).senders| == 1 && WakesBounded(Step(s, a), NextFullTakes(full, s, a))
  {
    WakesDueStep(s, a);
  }

  lemma {:induction false} WakesBoundedOver(run: seq<Action>)
    requires OnlyMoves(run)
    ensures |Exec(1, run).senders| == 1 && WakesBounded(Exec(1, run), FullTakes(1, run))
  {
    if run != [] {
      Reachable(1, run[..|run| - 1]);
      WakesBoundedOver(run[..|run| - 1]);
      WakesBoundedStep(Exec(1, run[..|run| - 1]), FullTakes(1, run[..|run| - 1]), run[|run| - 1]);
    }
  }

  /**
   During a drag of MOVEs from one thread, with acks arriving at will, at most three Wakes are ever queued,
   plus one for each time in a row that a full batch kept the writer from reaching the end of the queue.
   */
  lemma WakesDoNotPileUp(run: seq<Action>)
    requires OnlyMoves(run)
    ensures Wakes(Exec(1, run).queue) <= 3 + FullTakes(1, run)
  {
    WakesBoundedOver(run);
  }

  predicate OneWake(s: State) {
    && |s.senders| == 1 && !s.senders[0].OfferTouch? && !s.senders[0].OfferFlush?
    && (forall e :: e in s.queue ==> e.Wake?)
    && (s.pc.Write? || s.batch == [])
    && WakesDue(s) == (if s.slot.Some? && (s.pc.Poll? || s.pc.Write?) then 1 else 0)
    && (s.pc.Drain? || s.pc.Take? ==> s.slot.Some?)
  }

  lemma OneWakeStep(s: State, a: Action)
    requires OneWake(s) && !a.OfferAck? && (a.SendTouch? ==> a.msg.action.Move?)
    ensures OneWake(Step(s, a))
  {
    WakesDueStep(s, a);
  }

  /** Without acks a Wake is due exactly while a MOVE waits that the writer has not yet been woken for: never two. */
  lemma {:induction false} OneWakeWithoutAcks(run: seq<Action>)
    requires OnlyMoves(run) && NoAcks(run)
    ensures OneWake(Exec(1, run)) && Wakes(Exec(1, run).queue) <= 1
  {
    if run != [] {
      OneWakeWithoutAcks(run[..|run| - 1]);
      OneWakeStep(Exec(1, run[..|run| - 1]), run[|run| - 1]);
    }
  }

  lemma SnocFull(run: seq<Action>, a: Action)
    ensures Exec(1, run + [a]) == Step(Exec(1, run), a)
    ensures FullTakes(1, run + [a]) == NextFullTakes(FullTakes(1, run), Exec(1, run), a)
  {
    Snoc(1, run, a);
    assert (run + [a])[..|run|] == run;
  }

  // ------------------------------------------------------------- the bound is reached

  const MOVE := SendTouch(0, TouchMessage(Move, 0, 0))
  const GO_ON := Continue(0)

  /** Where a run of one thread's MOVEs has got to. */
  ghost predicate At(run: seq<Action>, pc: WriterPc, held: bool, call: Call, batch: nat, queue: seq<Entry>, full: nat) {
    var s := Exec(1, run);
    && OnlyMoves(run) && FullTakes(1, run) == full
    && s.pc == pc && s.slot.Some? == held && s.senders == [call] && |s.batch| == batch && s.queue == queue
  }

  lemma AckAt(run: seq<Action>, pc: WriterPc, held: bool, call: Call, batch: nat, queue: seq<Entry>, full: nat)
    requires At(run, pc, held, call, batch, queue, full)
    ensures At(run + [OfferAck(0)], pc, held, call, batch, queue + [AckEntry(0)], full)
  {
    SnocFull(run, OfferAck(0));
  }

  /** A MOVE fills the empty slot, and its call goes on to offer a Wake. */
  lemma MoveAt(run: seq<Action>, pc: WriterPc, batch: nat, queue: seq<Entry>, full: nat)
    requires At(run, pc, false, Idle, batch, queue, full)
    ensures At(run + [MOVE], pc, true, OfferWake, batch, queue, full)
  {
    SnocFull(run, MOVE);
  }

  lemma WakeAt(run: seq<Action>, pc: WriterPc, held: bool, batch: nat, queue: seq<Entry>, full: nat)
    requires At(run, pc, held, OfferWake, batch, queue, full)
    ensures At(run + [GO_ON], pc, held, Idle, batch, queue + [Wake], full)
  {
    SnocFull(run, GO_ON);
  }

  lemma WriteAt(run: seq<Action>, held: bool, call: Call, batch: nat, queue: seq<Entry>, full: nat)
    requires At(run, Write, held, call, batch, queue, full)
    ensures At(run + [WriterStep], Poll, held, call, 0, queue, full)
  {
    SnocFull(run, WriterStep);
  }

  /** Either poll takes an ack into a batch with room. */
  lemma PollAt(run: seq<Action>, pc: WriterPc, held: bool, call: Call, batch: nat, rest: seq<Entry>, full: nat)
    requires pc.Poll? || (pc.Drain? && batch < BATCH_MAX_MESSAGES)
    requires At(run, pc, held, call, batch, [AckEntry(0)] + rest, full)
    ensures At(run + [WriterStep], Drain, held, call, batch + 1, rest, full)
  {
    SnocFull(run, WriterStep);
    assert ([AckEntry(0)] + rest)[1..] == rest;
  }

  lemma DrainedAt(run: seq<Action>, held: bool, call: Call, batch: nat, queue: seq<Entry>)
    requires At(run, Drain, held, call, batch, queue, 0) && batch < BATCH_MAX_MESSAGES && queue == []
    ensures At(run + [WriterStep], Take, held, call, batch, queue, 0)
  {
    SnocFull(run, WriterStep);
  }

  lemma FullAt(run: seq<Action>, held: bool, call: Call, queue: seq<Entry>, full: nat)
    requires At(run, Drain, held, call, BATCH_MAX_MESSAGES, queue, full)
    ensures At(run + [WriterStep], Take, held, call, BATCH_MAX_MESSAGES, queue, full)
  {
    SnocFull(run, WriterStep);
  }

  /** The slot is emptied; its MOVE joins a batch with room and is lost to a full one. */
  lemma TakeAt(run: seq<Action>, call: Call, batch: nat, queue: seq<Entry>, full: nat)
    requires At(run, Take, true, call, batch, queue, full) && batch <= BATCH_MAX_MESSAGES
    ensures if batch < BATCH_MAX_MESSAGES then At(run + [WriterStep], Write, false, call, batch + 1, queue, full)
            else At(run + [WriterStep], Write, false, call, batch, queue, full + 1)
  {
    SnocFull(run, WriterStep);
  }

  function Acks(n: nat): (q: seq<Entry>)
    ensures |q| == n
  {
    seq(n, _ => AckEntry(0))
  }

  function Sentinels(n: nat): (q: seq<Entry>)
    ensures |q| == n
  {
    seq(n, _ => Wake)
  }

  lemma {:induction false} CountSentinels(n: nat)
    ensures Wakes(Sentinels(n)) == n
  {
    if n > 0 {
      CountSentinels(n - 1);
      assert Sentinels(n)[1..] == Sentinels(n - 1);
    }
  }

  lemma {:induction false} QueueAcks(run: seq<Action>, pc: WriterPc, call: Call, batch: nat, n: nat)
    returns (run': seq<Action>)
    requires At(run, pc, false, call, batch, [], 0)
    ensures At(run', pc, false, call, batch, Acks(n), 0)
  {
    if n == 0 {
      run' := run;
    } else {
      run' := QueueAcks(run, pc, call, batch, n - 1);
      AckAt(run', pc, false, call, batch, Acks(n - 1), 0);
      run' := run' + [OfferAck(0)];
      assert Acks(n) == Acks(n - 1) + [AckEntry(0)];
    }
  }

  lemma FirstAck(n: nat, rest: seq<Entry>)
    ensures Acks(n + 1) + rest == [AckEntry(0)] + (Acks(n) + rest)
  {
  }

  /** The drain loop fills the batch with acks from the head of the queue. */
  lemma {:induction false} FillBatch(run: seq<Action>, batch: nat, n: nat, rest: seq<Entry>, full: nat)
    returns (run': seq<Action>)
    requires batch <= BATCH_MAX_MESSAGES
    requires At(run, Drain, true, Idle, batch, Acks(BATCH_MAX_MESSAGES - batch + n) + rest, full)
    ensures At(run', Drain, true, Idle, BATCH_MAX_MESSAGES, Acks(n) + rest, full)
    decreases BATCH_MAX_MESSAGES - batch
  {
    if batch == BATCH_MAX_MESSAGES {
      run' := run;
    } else {
      var left := BATCH_MAX_MESSAGES - batch - 1 + n;
      FirstAck(left, rest);
      PollAt(run, Drain, true, Idle, batch, Acks(left) + rest, full);
      run' := FillBatch(run + [WriterStep], batch + 1, n, rest, full);
    }
  }

  lemma RefillBatch(run: seq<Action>, batch: nat, n: nat, rest: seq<Entry>, full: nat) returns (run': seq<Action>)
    requires At(run, Write, true, Idle, batch, Acks(BATCH_MAX_MESSAGES + n) + rest, full)
    ensures At(run', Drain, true, Idle, BATCH_MAX_MESSAGES, Acks(n) + rest, full)
  {
    FirstAck(BATCH_MAX_MESSAGES - 1 + n, rest);
    WriteAt(run, true, Idle, batch, Acks(BATCH_MAX_MESSAGES + n) + rest, full);
    PollAt(run + [WriterStep], Poll, true, Idle, 0, Acks(BATCH_MAX_MESSAGES - 1 + n) + rest, full);
    run' := FillBatch(run + [WriterStep] + [WriterStep], 1, n, rest, full);
  }

  /** One more full batch costs the MOVE in the slot, and the next MOVE queues one more Wake. */
  lemma FullCycle(run: seq<Action>, batch: nat, n: nat, wakes: nat, full: nat) returns (run': seq<Action>)
    requires At(run, Write, true, Idle, batch, Acks(BATCH_MAX_MESSAGES + n) + Sentinels(wakes), full)
    ensures At(run', Write, true, Idle, BATCH_MAX_MESSAGES, Acks(n) + Sentinels(wakes + 1), full + 1)
  {
    var rest := Acks(n) + Sentinels(wakes);
    run' := RefillBatch(run, batch, n, Sentinels(wakes), full);
    FullAt(run', true, Idle, rest, full);
    run' := run' + [WriterStep];
    TakeAt(run', Idle, BATCH_MAX_MESSAGES, rest, full);
    run' := run' + [WriterStep];
    MoveAt(run', Write, BATCH_MAX_MESSAGES, rest, full + 1);
    run' := run' + [MOVE];
    WakeAt(run', Write, true, BATCH_MAX_MESSAGES, rest, full + 1);
    run' := run' + [GO_ON];
    assert Acks(n) + Sentinels(wakes + 1) == rest + [Wake];
  }

  lemma {:induction false} FullCycles(run: seq<Action>, batch: nat, k: nat, wakes: nat, full: nat)
    returns (run': seq<Action>, batch': nat)
    requires At(run, Write, true, Idle, batch, Acks(BATCH_MAX_MESSAGES * k) + Sentinels(wakes), full)
    ensures At(run', Write, true, Idle, batch', Sentinels(wakes + k), full + k)
    decreases k
  {
    if k == 0 {
      run', batch' := run, batch;
      assert Acks(0) + Sentinels(wakes) == Sentinels(wakes);
    } else {
      var next := FullCycle(run, batch, BATCH_MAX_MESSAGES * (k - 1), wakes, full);
      run', batch' := FullCycles(next, BATCH_MAX_MESSAGES, k - 1, wakes + 1, full + 1);
    }
  }

  /** With nothing else to do the writer drains one ack. */
  lemma AckRound(run: seq<Action>, call: Call) returns (run': seq<Action>)
    requires At(run, Poll, false, call, 0, [], 0)
    ensures At(run', Take, false, call, 1, [], 0)
  {
    AckAt(run, Poll, false, call, 0, [], 0);
    run' := run + [OfferAck(0)];
    PollAt(run', Poll, false, call, 0, [], 0);
    run' := run' + [WriterStep];
    DrainedAt(run', false, call, 1, []);
    run' := run' + [WriterStep];
  }

  lemma FirstRound() returns (run: seq<Action>)
    ensures At(run, Take, false, Idle, 1, [], 0)
  {
    assert At([], Poll, false, Idle, 0, [], 0);
    run := AckRound([], Idle);
  }

  /** A call pauses before its Wake while the writer, woken by an ack, takes its MOVE; a second ack wakes it again. */
  lemma PausedCall() returns (run: seq<Action>)
    ensures At(run, Take, false, OfferWake, 1, [], 0)
  {
    run := FirstRound();
    MoveAt(run, Take, 1, [], 0);
    run := run + [MOVE];
    TakeAt(run, OfferWake, 1, [], 0);
    run := run + [WriterStep];
    WriteAt(run, false, OfferWake, 2, [], 0);
    run := AckRound(run + [WriterStep], OfferWake);
  }

  /** The paused call's Wake arrives beside those of two more MOVEs, behind as many acks as one likes. */
  lemma ThreeBehindAcks(n: nat) returns (run: seq<Action>)
    ensures At(run, Write, true, Idle, 2, Acks(n) + Sentinels(3), 0)
  {
    run := PausedCall();
    run := QueueAcks(run, Take, OfferWake, 1, n);
    var q := Acks(n);
    WakeAt(run, Take, false, 1, q, 0);
    run := run + [GO_ON];
    MoveAt(run, Take, 1, q + [Wake], 0);
    run := run + [MOVE];
    WakeAt(run, Take, true, 1, q + [Wake], 0);
    run := run + [GO_ON];
    TakeAt(run, Idle, 1, q + [Wake] + [Wake], 0);
    run := run + [WriterStep];
    MoveAt(run, Write, 2, q + [Wake] + [Wake], 0);
    run := run + [MOVE];
    WakeAt(run, Write, true, 2, q + [Wake] + [Wake], 0);
    run := run + [GO_ON];
    assert q + [Wake] + [Wake] + [Wake] == q + Sentinels(3);
  }

  /** The bound is reached: for every `k` a run with `k` full batches in a row has 3 + k Wakes queued. */
  lemma WakesDoPileUp(k: nat) returns (run: seq<Action>)
    ensures OnlyMoves(run) && FullTakes(1, run) == k && Wakes(Exec(1, run).queue) == 3 + k
  {
    run := ThreeBehindAcks(BATCH_MAX_MESSAGES * k);
    var batch;
    run, batch := FullCycles(run, 2, k, 3, 0);
    CountSentinels(3 + k);
  }
}
