/** The buttons of the relative pointer over whole runs of the worker (input.rs). */
module PointerButtons {
  import opened Bytes
  import opened Wrappers
  import opened ReverseProtocol
  import opened Pointer
  import opened Sequences

  /** Whether the device holds `b` after these packets. */
  predicate Held(log: seq<Packet>, b: Button) {
    log != [] &&
    (match log[|log| - 1]
     case Key(button, pressed) => if button == b then pressed else Held(log[..|log| - 1], b)
     case Motion(_, _) => Held(log[..|log| - 1], b))
  }

  /** No button is pressed while held or released while up. */
  predicate Alternates(log: seq<Packet>) {
    log != [] ==>
      && Alternates(log[..|log| - 1])
      && (log[|log| - 1].Key? ==> Held(log[..|log| - 1], log[|log| - 1].button) != log[|log| - 1].pressed)
  }

  lemma Append(log: seq<Packet>, k: Packet, b: Button)
    ensures Held(log + [k], b) == if k.Key? && k.button == b then k.pressed else Held(log, b)
    ensures Alternates(log + [k]) <==> Alternates(log) && (k.Key? ==> Held(log, k.button) != k.pressed)
  {
    assert (log + [k])[..|log|] == log;
  }

  /** A press and a release of one button with nothing in between. */
  lemma Click(log: seq<Packet>, b: Button)
    ensures var log' := log + [Key(b, true), Key(b, false)];
            && !Held(log', b) && (forall c :: c != b ==> Held(log', c) == Held(log, c))
            && (Alternates(log') <==> Alternates(log) && !Held(log, b))
  {
    var once := log + [Key(b, true)];
    assert log + [Key(b, true), Key(b, false)] == once + [Key(b, false)];
    Append(log, Key(b, true), Left);
    Append(log, Key(b, true), Right);
    Append(once, Key(b, false), Left);
    Append(once, Key(b, false), Right);
  }

  predicate IsDown(a: Arrival) {
    a.Contact? && a.action.Down?
  }

  /** No Down arrives while a drag is on. */
  predicate NoDownInDrag(p: Pointer, arrivals: seq<Arrival>, s: real) {
    arrivals != [] ==>
      && NoDownInDrag(p, arrivals[..|arrivals| - 1], s)
      && !(Run(p, arrivals[..|arrivals| - 1], s).p.state.Dragging? && IsDown(arrivals[|arrivals| - 1]))
  }

  predicate HeldIffDragging(o: Out) {
    Held(o.log, Left) <==> o.p.state.Dragging?
  }

  /** The button a step works, if it works one: nothing, motion, one press or release, or one click. */
  datatype Touching = Untouched | Turned(k: Packet) | Clicked(b: Button)

  function TouchingOf(p: Pointer, a: Arrival): Touching {
    match p.state
    case Idle => Untouched
    case Consumed => Untouched
    case Dragging(_) =>
      if a.Contact? && (a.action.Up? || a.action.Cancel?) then Turned(Key(Left, false)) else Untouched
    case Touched(_, down, _, pending, moved) =>
      if a.Quiet? then if LongPressDue(p, a.at) then Clicked(Right) else Untouched
      else match a.action
        case Down => Untouched
        case Move => if pending && (moved || Strayed(down, a.x, a.y)) then Turned(Key(Left, true)) else Untouched
        case _ => if moved || Strayed(down, a.x, a.y) then Untouched else Clicked(Left)
  }

  lemma StepTouches(p: Pointer, a: Arrival, s: real)
    ensures var log := Step(p, a, s).log;
            match TouchingOf(p, a)
            case Untouched => |log| <= 1 && forall k :: 0 <= k < |log| ==> log[k].Motion?
            case Turned(k) => log == [k]
            case Clicked(b) => log == [Key(b, true), Key(b, false)]
  {
  }

  lemma StepDrags(p: Pointer, a: Arrival, s: real)
    ensures Step(p, a, s).p.state.Dragging? <==>
            if TouchingOf(p, a).Turned? then TouchingOf(p, a).k.pressed else p.state.Dragging? && !IsDown(a)
  {
  }

  lemma LogGrows(log: seq<Packet>, p: Pointer, a: Arrival, s: real)
    ensures var log', touching := log + Step(p, a, s).log, TouchingOf(p, a);
            && (Held(log', Left) <==>
                  match touching case Turned(k) => k.pressed case Clicked(b) => b != Left && Held(log, Left)
                                 case Untouched => Held(log, Left))
            && (Held(log', Right) <==> !(touching.Clicked? && touching.b == Right) && Held(log, Right))
            && (Alternates(log') <==>
                  && Alternates(log)
                  && (touching.Turned? ==> Held(log, Left) != touching.k.pressed)
                  && (touching.Clicked? ==> !Held(log, touching.b)))
  {
    var more, touching := Step(p, a, s).log, TouchingOf(p, a);
    StepTouches(p, a, s);
    if touching.Clicked? {
      Click(log, touching.b);
    } else if more == [] {
      NothingAdded(log);
    } else {
      Append(log, more[0], Left);
      Append(log, more[0], Right);
      assert more == [more[0]];
    }
  }

  /** Held buttons follow the state through one step, unless it is a Down in a drag. */
  lemma ButtonStep(before: Out, a: Arrival, s: real)
    requires HeldIffDragging(before) && Alternates(before.log)
    ensures var step := Step(before.p, a, s);
            var o := Out(step.p, before.log + step.log);
            && (HeldIffDragging(o) <==> !(before.p.state.Dragging? && IsDown(a)))
            && (!Held(before.log, Right) ==> !Held(o.log, Right) && Alternates(o.log))
  {
    StepDrags(before.p, a, s);
    LogGrows(before.log, before.p, a, s);
  }

  lemma {:induction false} CleanRun(arrivals: seq<Arrival>, s: real)
    requires NoDownInDrag(START, arrivals, s)
    ensures var o := Run(START, arrivals, s); HeldIffDragging(o) && !Held(o.log, Right) && Alternates(o.log)
  {
    if arrivals != [] {
      CleanRun(arrivals[..|arrivals| - 1], s);
      ButtonStep(Run(START, arrivals[..|arrivals| - 1], s), arrivals[|arrivals| - 1], s);
    }
  }

  predicate HeldIffDraggingThroughout(arrivals: seq<Arrival>, s: real) {
    forall k :: 0 <= k <= |arrivals| ==> HeldIffDragging(Run(START, arrivals[..k], s))
  }

  lemma {:induction false} DirtyRun(arrivals: seq<Arrival>, s: real)
    requires !NoDownInDrag(START, arrivals, s)
    ensures !HeldIffDraggingThroughout(arrivals, s)
  {
    var n := |arrivals| - 1;
    var init := arrivals[..n];
    if !NoDownInDrag(START, init, s) {
      DirtyRun(init, s);
      var k :| 0 <= k <= n && !HeldIffDragging(Run(START, init[..k], s));
      assert init[..k] == arrivals[..k];
    } else {
      CleanRun(init, s);
      ButtonStep(Run(START, init, s), arrivals[n], s);
      assert arrivals[..n + 1] == arrivals;
      assert !HeldIffDragging(Run(START, arrivals[..n + 1], s));
    }
  }

  /** Past a Down in a drag: the button is held by no drag, until something presses it again. */
  predicate Stuck(o: Out) {
    !Alternates(o.log) || (Held(o.log, Left) && !o.p.state.Dragging?)
  }

  lemma StuckStep(before: Out, a: Arrival, s: real)
    requires Stuck(before)
    ensures var step := Step(before.p, a, s); Stuck(Out(step.p, before.log + step.log))
  {
    StepDrags(before.p, a, s);
    LogGrows(before.log, before.p, a, s);
  }

  lemma {:induction false} DirtyRunSticks(arrivals: seq<Arrival>, s: real)
    requires !NoDownInDrag(START, arrivals, s)
    ensures Stuck(Run(START, arrivals, s))
  {
    var init, a := arrivals[..|arrivals| - 1], arrivals[|arrivals| - 1];
    if NoDownInDrag(START, init, s) {
      CleanRun(init, s);
      ButtonStep(Run(START, init, s), a, s);
      StepDrags(Run(START, init, s).p, a, s);
    } else {
      DirtyRunSticks(init, s);
      StuckStep(Run(START, init, s), a, s);
    }
  }

  lemma TearDown(o: Out)
    ensures var all := o.log + AfterCancel(o.p).log;
            && (Held(all, Left) <==> Held(o.log, Left) && !o.p.state.Dragging?)
            && (Held(all, Right) <==> Held(o.log, Right))
            && (Alternates(all) <==> Alternates(o.log) && (o.p.state.Dragging? ==> Held(o.log, Left)))
  {
    if o.p.state.Dragging? {
      Append(o.log, Key(Left, false), Left);
      Append(o.log, Key(Left, false), Right);
    } else {
      NothingAdded(o.log);
    }
  }

  /**
   At every moment of a run the left button is held exactly while the machine is dragging, if and only if no Down
   arrives during a drag. Exactly those runs are clean to the end: every press is of a button that is up and every
   release of one that is down, and when the worker has torn down the left button is not held - nor is the right.
   */
  lemma HeldExactlyWhileDragging(arrivals: seq<Arrival>, s: real)
    ensures HeldIffDraggingThroughout(arrivals, s) <==> NoDownInDrag(START, arrivals, s)
    ensures var o := Run(START, arrivals, s);
            var all := o.log + AfterCancel(o.p).log;
            && (Alternates(all) && !Held(all, Left) <==> NoDownInDrag(START, arrivals, s))
            && (NoDownInDrag(START, arrivals, s) ==> !Held(all, Right))
  {
    if NoDownInDrag(START, arrivals, s) {
      forall k | 0 <= k <= |arrivals|
        ensures HeldIffDragging(Run(START, arrivals[..k], s))
      {
        CleanPrefix(arrivals, k, s);
        CleanRun(arrivals[..k], s);
      }
      CleanRun(arrivals, s);
    } else {
      DirtyRun(arrivals, s);
      DirtyRunSticks(arrivals, s);
    }
    TearDown(Run(START, arrivals, s));
  }

  lemma {:induction false} CleanPrefix(arrivals: seq<Arrival>, k: nat, s: real)
    requires k <= |arrivals| && NoDownInDrag(START, arrivals, s)
    ensures NoDownInDrag(START, arrivals[..k], s)
  {
    if k < |arrivals| {
      var init := arrivals[..|arrivals| - 1];
      CleanPrefix(init, k, s);
      assert init[..k] == arrivals[..k];
    } else {
      assert arrivals[..k] == arrivals;
    }
  }

  /** Whether a finger is down after these arrivals, by the tablet's own account. */
  predicate ContactOpen(arrivals: seq<Arrival>) {
    arrivals != [] &&
    (match arrivals[|arrivals| - 1]
     case Contact(_, Down, _, _) => true
     case Contact(_, Up, _, _) => false
     case Contact(_, Cancel, _, _) => false
     case _ => ContactOpen(arrivals[..|arrivals| - 1]))
  }

  /** A single finger: it cannot go down again before it has come up. */
  predicate OneFinger(arrivals: seq<Arrival>) {
    arrivals != [] ==>
      && OneFinger(arrivals[..|arrivals| - 1])
      && (IsDown(arrivals[|arrivals| - 1]) ==> !ContactOpen(arrivals[..|arrivals| - 1]))
  }

  /** What a single finger sends never has a Down during a drag. */
  lemma {:induction false} OneFingerIsClean(arrivals: seq<Arrival>, s: real)
    requires OneFinger(arrivals)
    ensures NoDownInDrag(START, arrivals, s)
    ensures Run(START, arrivals, s).p.state != Idle ==> ContactOpen(arrivals)
  {
    if arrivals != [] {
      OneFingerIsClean(arrivals[..|arrivals| - 1], s);
    }
  }

  /** And it matters: a Down in a drag leaves the left button held even after the worker has torn down. */
  lemma DownInDragSticks(arrivals: seq<Arrival>, down: Arrival, s: real)
    requires NoDownInDrag(START, arrivals, s) && Run(START, arrivals, s).p.state.Dragging? && IsDown(down)
    ensures var o := Run(START, arrivals + [down], s); Held(o.log + AfterCancel(o.p).log, Left)
  {
    CleanRun(arrivals, s);
    assert (arrivals + [down])[..|arrivals|] == arrivals;
    var o := Run(START, arrivals + [down], s);
    assert o.log + AfterCancel(o.p).log == Run(START, arrivals, s).log;
  }

  const TAP := [Contact(0, Down, 0, 0), Contact(0, Up, 0, 0)]
  const STRAY := [Contact(0, Down, 0, 0), Contact(0, Move, 2000, 0)]

  /** Tap, press again at once and stray: a drag is on, and a Down then leaves the button held for good. */
  lemma DragThenDown(s: real) returns (arrivals: seq<Arrival>, down: Arrival)
    ensures NoDownInDrag(START, arrivals, s) && Run(START, arrivals, s).p.state.Dragging? && IsDown(down)
    ensures var o := Run(START, arrivals + [down], s); Held(o.log + AfterCancel(o.p).log, Left)
  {
    var one, two, three := [TAP[0]], TAP, TAP + [STRAY[0]];
    arrivals, down := three + [STRAY[1]], STRAY[0];
    assert one[..0] == [] && two[..1] == one && three[..2] == two && arrivals[..3] == three;
    assert Run(START, [], s) == Out(START, []);
    assert Run(START, one, s).p == AfterDown(START, 0, 0, 0);
    assert Run(START, two, s).p == Pointer(Idle, Some(0), (0.0, 0.0));
    assert Run(START, three, s).p.state == Touched(0, (0, 0), (0, 0), true, false);
    assert Run(START, arrivals, s).p.state == Dragging((2000, 0));
    assert NoDownInDrag(START, one, s) && NoDownInDrag(START, two, s) && NoDownInDrag(START, three, s);
    DownInDragSticks(arrivals, down, s);
  }

  // -------------------------------------------------------------- right clicks

  predicate HarmlessSince(arrivals: seq<Arrival>, j: nat)
    requires j < |arrivals| && arrivals[j].Contact?
  {
    forall i :: j < i < |arrivals| && arrivals[i].Contact? ==>
      arrivals[i].action.Move? && Near((arrivals[j].x, arrivals[j].y), arrivals[i].x, arrivals[i].y)
  }

  /** The touch that is down went down at `j` and has seen no Move beyond the slop since. */
  ghost predicate HeldStill(arrivals: seq<Arrival>, state: PointerState) {
    exists j: nat :: j < |arrivals| && IsDown(arrivals[j]) && HarmlessSince(arrivals, j)
      && state.Touched? && state.downAt == arrivals[j].at && state.down == (arrivals[j].x, arrivals[j].y)
  }

  lemma StillHeld(p: Pointer, init: seq<Arrival>, a: Arrival, s: real)
    requires !IsDown(a) && (p.state.Touched? && !p.state.moved ==> HeldStill(init, p.state))
    requires var q := Step(p, a, s).p; q.state.Touched? && !q.state.moved
    ensures HeldStill(init + [a], Step(p, a, s).p.state)
  {
    var j: nat :| j < |init| && IsDown(init[j]) && HarmlessSince(init, j)
                  && p.state.downAt == init[j].at && p.state.down == (init[j].x, init[j].y);
    assert (init + [a])[j] == init[j];
    assert HarmlessSince(init + [a], j);
  }

  lemma {:induction false} UnmovedTouch(p: Pointer, arrivals: seq<Arrival>, s: real)
    requires !p.state.Touched?
    ensures var q := Run(p, arrivals, s).p; q.state.Touched? && !q.state.moved ==> HeldStill(arrivals, q.state)
  {
    if arrivals != [] {
      var n := |arrivals| - 1;
      var init, a := arrivals[..n], arrivals[n];
      UnmovedTouch(p, init, s);
      var before, q := Run(p, init, s).p, Run(p, arrivals, s).p;
      if q.state.Touched? && !q.state.moved {
        if IsDown(a) {
          assert HarmlessSince(arrivals, n);
        } else {
          StillHeld(before, init, a, s);
          SplitBack(arrivals);
        }
      }
    }
  }

  /**
   A right click is emitted only when the clock finds the touch held for 600 ms or more since a Down, with nothing
   since that Down but Moves within the slop; and what is emitted then is one press and one release.
   */
  lemma RightClickIsLongPress(arrivals: seq<Arrival>, a: Arrival, s: real)
    requires var step := Step(Run(START, arrivals, s).p, a, s);
             exists k :: 0 <= k < |step.log| && step.log[k].Key? && step.log[k].button == Right
    ensures a.Quiet? && Step(Run(START, arrivals, s).p, a, s).log == [Key(Right, true), Key(Right, false)]
    ensures exists j: nat :: j < |arrivals| && IsDown(arrivals[j]) && a.at - arrivals[j].at >= 600_000_000
                             && HarmlessSince(arrivals, j)
  {
    UnmovedTouch(START, arrivals, s);
    var q := Run(START, arrivals, s).p;
    var j: nat :| j < |arrivals| && IsDown(arrivals[j]) && HarmlessSince(arrivals, j)
                  && q.state.downAt == arrivals[j].at && q.state.down == (arrivals[j].x, arrivals[j].y);
  }

  /** After a right click nothing at all is emitted until the next Down. */
  lemma {:induction false} SilentUntilDown(p: Pointer, rest: seq<Arrival>, s: real)
    requires p.state.Consumed? || p.state.Idle?
    requires forall i :: 0 <= i < |rest| ==> !IsDown(rest[i])
    ensures var o := Run(p, rest, s); o.log == [] && (o.p.state.Consumed? || o.p.state.Idle?)
  {
    if rest != [] {
      SilentUntilDown(p, rest[..|rest| - 1], s);
    }
  }

  /** A touch that stays put is not missed: the first time the clock is found 600 ms past its Down, it right-clicks. */
  lemma LongPressFires(p: Pointer, at: int, x: u16, y: u16, moves: seq<Arrival>, due: int, s: real)
    requires due - at >= 600_000_000
    requires forall i :: 0 <= i < |moves| ==>
               if moves[i].Quiet? then moves[i].at - at < 600_000_000
               else moves[i].action.Move? && Near((x, y), moves[i].x, moves[i].y)
    ensures var o := Run(AfterDown(p, at, x, y), moves, s);
            Step(o.p, Quiet(due), s).log == [Key(Right, true), Key(Right, false)]
  {
    StillWaiting(p, at, x, y, moves, s);
  }

  lemma {:induction false} StillWaiting(p: Pointer, at: int, x: u16, y: u16, moves: seq<Arrival>, s: real)
    requires forall i :: 0 <= i < |moves| ==>
               if moves[i].Quiet? then moves[i].at - at < 600_000_000
               else moves[i].action.Move? && Near((x, y), moves[i].x, moves[i].y)
    ensures var q := Run(AfterDown(p, at, x, y), moves, s).p;
            q.state.Touched? && q.state.downAt == at && q.state.down == (x, y) && !q.state.moved
  {
    if moves != [] {
      StillWaiting(p, at, x, y, moves[..|moves| - 1], s);
    }
  }

  // ------------------------------------------------------------ the double-tap timer

  /** What arrival `k` of a run emits. */
  function Emitted(arrivals: seq<Arrival>, k: nat, s: real): seq<Packet>
    requires k < |arrivals|
  {
    Step(Run(START, arrivals[..k], s).p, arrivals[k], s).log
  }

  predicate IsRelease(a: Arrival) {
    a.Contact? && (a.action.Up? || a.action.Cancel?)
  }

  /** Arrival `k` ended a tap, and neither a release nor a right click has come since. */
  predicate TapEndedAt(arrivals: seq<Arrival>, k: nat, s: real) {
    && k < |arrivals| && IsRelease(arrivals[k])
    && Emitted(arrivals, k, s) == [Key(Left, true), Key(Left, false)]
    && forall i :: k < i < |arrivals| ==> !IsRelease(arrivals[i]) && Key(Right, true) !in Emitted(arrivals, i, s)
  }

  lemma TapStillEnded(init: seq<Arrival>, a: Arrival, k: nat, s: real)
    requires k < |init|
    ensures TapEndedAt(init + [a], k, s) <==>
            TapEndedAt(init, k, s) && !IsRelease(a) && Key(Right, true) !in Step(Run(START, init, s).p, a, s).log
  {
    var all := init + [a];
    BackOfSnoc(init, a);
    forall i | 0 <= i < |init| ensures Emitted(all, i, s) == Emitted(init, i, s) {
      CutWithin(init, [a], i);
    }
    assert Emitted(all, |init|, s) == Step(Run(START, init, s).p, a, s).log;
    if TapEndedAt(all, k, s) {
      assert forall i :: k < i < |init| ==> all[i] == init[i];
    }
  }

  lemma TapJustEnded(init: seq<Arrival>, a: Arrival, s: real)
    ensures TapEndedAt(init + [a], |init|, s) <==>
            IsRelease(a) && Step(Run(START, init, s).p, a, s).log == [Key(Left, true), Key(Left, false)]
  {
    BackOfSnoc(init, a);
  }

  /** What one arrival does to the double-tap timer. */
  lemma TimerStep(p: Pointer, a: Arrival, s: real)
    ensures var step := Step(p, a, s);
            step.p.lastTapEnd ==
              if IsRelease(a) then
                if step.log == [Key(Left, true), Key(Left, false)] then Some(a.at) else None
              else if Key(Right, true) in step.log then None else p.lastTapEnd
  {
    StepTouches(p, a, s);
  }

  /** The tap that set the timer is still the last one, or this arrival has ended one. */
  lemma TimerOneMore(init: seq<Arrival>, a: Arrival, t: int, s: real)
    requires Run(START, init, s).p.lastTapEnd == Some(t) <==>
             exists k: nat :: TapEndedAt(init, k, s) && init[k].at == t
    ensures Run(START, init + [a], s).p.lastTapEnd == Some(t) <==>
            exists k: nat :: TapEndedAt(init + [a], k, s) && (init + [a])[k].at == t
  {
    BackOfSnoc(init, a);
    TimerStep(Run(START, init, s).p, a, s);
    TapJustEnded(init, a, s);
    forall k: nat | k < |init|
      ensures TapEndedAt(init + [a], k, s) <==>
              TapEndedAt(init, k, s) && !IsRelease(a) && Key(Right, true) !in Step(Run(START, init, s).p, a, s).log
    {
      TapStillEnded(init, a, k, s);
    }
    hide Run, Step, TapEndedAt;
    if k: nat :| TapEndedAt(init, k, s) && init[k].at == t {
      assert (init + [a])[k] == init[k];
    }
  }

  /** In every run the timer holds the end of the last tap that no release and no right click has followed. */
  lemma {:induction false} TimerIsLastTap(arrivals: seq<Arrival>, t: int, s: real)
    ensures Run(START, arrivals, s).p.lastTapEnd == Some(t) <==>
            exists k: nat :: TapEndedAt(arrivals, k, s) && arrivals[k].at == t
  {
    if arrivals != [] {
      var n := |arrivals| - 1;
      TimerIsLastTap(arrivals[..n], t, s);
      TimerOneMore(arrivals[..n], arrivals[n], t, s);
      SplitBack(arrivals);
    }
  }
}
