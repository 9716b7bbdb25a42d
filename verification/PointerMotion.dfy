/** Where the cursor goes in one gesture (input.rs): motion conserved exactly, and the residual bounded. */
module PointerMotion {
  import opened Bytes
  import opened Wrappers
  import opened ReverseProtocol
  import opened Pointer
  import opened PointerGestures
  import opened Sequences

  function SumX(log: seq<Packet>): int {
    if log == [] then 0 else SumX(log[..|log| - 1]) + (if log[|log| - 1].Motion? then log[|log| - 1].dx else 0)
  }

  function SumY(log: seq<Packet>): int {
    if log == [] then 0 else SumY(log[..|log| - 1]) + (if log[|log| - 1].Motion? then log[|log| - 1].dy else 0)
  }

  lemma {:induction false} SumConcat(a: seq<Packet>, b: seq<Packet>)
    ensures SumX(a + b) == SumX(a) + SumX(b) && SumY(a + b) == SumY(a) + SumY(b)
  {
    if b == [] {
      assert a + b == a;
    } else {
      assert (a + b)[..|a + b| - 1] == a + b[..|b| - 1];
      SumConcat(a, b[..|b| - 1]);
    }
  }

  /** The position the cursor follows to: a long press stops following. */
  function Followed(press: Press, ins: seq<Arrival>): (u16, u16) {
    match Decide(press, ins)
    case LongPressAt(i) => if i <= |ins| then LastPos(press, ins[..i]) else Pos(press)
    case _ => LastPos(press, ins)
  }

  /** The finger travel the cursor does not follow: the one Move that turns a double tap into a drag. */
  function Skipped(press: Press, ins: seq<Arrival>): (int, int) {
    match Decide(press, ins)
    case DragFrom(i) =>
      if i < |ins| && ins[i].Contact? then
        (ins[i].x - LastPos(press, ins[..i]).0, ins[i].y - LastPos(press, ins[..i]).1)
      else (0, 0)
    case _ => (0, 0)
  }

  /** The finger travel, in normalized units, that the cursor has followed. */
  function Travel(press: Press, ins: seq<Arrival>): (int, int) {
    var to, skipped := Followed(press, ins), Skipped(press, ins);
    (to.0 - press.x - skipped.0, to.1 - press.y - skipped.1)
  }

  /** What the last arrival adds to the travel. */
  function NewTravel(press: Press, init: seq<Arrival>, a: Arrival): (int, int) {
    var d := Decide(press, init);
    if a.Quiet? || d.LongPressAt? || Decide(press, init + [a]) == DragFrom(|init|) then (0, 0)
    else (a.x - LastPos(press, init).0, a.y - LastPos(press, init).1)
  }

  lemma TravelGrows(press: Press, init: seq<Arrival>, a: Arrival)
    requires a.Contact? ==> a.action.Move?
    ensures var t, t', n := Travel(press, init), Travel(press, init + [a]), NewTravel(press, init, a);
            t' == (t.0 + n.0, t.1 + n.1)
  {
    var ins := init + [a];
    assert ins[..|init|] == init;
    DecisionIndex(press, init);
    DecisionIndex(press, ins);
    var d, d' := Decide(press, init), Decide(press, ins);
    if d'.DragFrom? || d'.LongPressAt? {
      assert d != Undecided ==> init[..d'.i] == ins[..d'.i] && init[d'.i] == ins[d'.i];
      assert d == Undecided ==> ins[..d'.i] == init;
    }
  }

  lemma SumOfRelative(dx: int, dy: int)
    ensures SumX(Relative(dx, dy)) == dx && SumY(Relative(dx, dy)) == dy
  {
    assert [Motion(dx, dy)][..0] == [];
  }

  lemma FollowConserves(p: Pointer, last: (u16, u16), x: u16, y: u16, sensitivity: real, state: PointerState,
                        n: (int, int))
    requires n == (x - last.0, y - last.1)
    ensures var o := Follow(p, last, x, y, sensitivity, state);
            && Delivered(o).0 == p.residual.0 + Scaled(n.0, sensitivity)
            && Delivered(o).1 == p.residual.1 + Scaled(n.1, sensitivity)
  {
    var o := Follow(p, last, x, y, sensitivity, state);
    var dx, dy := AxisDelta(last.0, x, sensitivity, p.residual.0).0, AxisDelta(last.1, y, sensitivity, p.residual.1).0;
    SumOfRelative(dx, dy);
  }

  /**
   The arrivals that move the cursor are followed from the last position; the others emit no motion and carry nothing.
   */
  lemma StepFollows(press: Press, p: Pointer, init: seq<Arrival>, a: Arrival, sensitivity: real)
    requires Interior(init) && press == Pressed(p, press.at, press.x, press.y)
    requires a.Contact? ==> a.action.Move?
    ensures var before := After(press, p, init, sensitivity).p;
            var o := Step(before, a, sensitivity);
            if a.Contact? && !Decide(press, init).LongPressAt? && Decide(press, init + [a]) != DragFrom(|init|)
            then o == Follow(before, LastPos(press, init), a.x, a.y, sensitivity, o.p.state)
            else o.p.residual == before.residual && |o.log| <= 2 && forall k :: 0 <= k < |o.log| ==> o.log[k].Key?
  {
    hide Run, AfterDown, AxisDelta, OnlyMotion, Strayed;
    MidwayAlways(press, p, init, sensitivity);
    assert (init + [a])[..|init|] == init;
  }

  lemma StepConserves(press: Press, p: Pointer, init: seq<Arrival>, a: Arrival, sensitivity: real)
    requires Interior(init) && press == Pressed(p, press.at, press.x, press.y)
    requires a.Contact? ==> a.action.Move?
    ensures var before, n := After(press, p, init, sensitivity).p, NewTravel(press, init, a);
            var o := Step(before, a, sensitivity);
            && Delivered(o).0 == before.residual.0 + Scaled(n.0, sensitivity)
            && Delivered(o).1 == before.residual.1 + Scaled(n.1, sensitivity)
  {
    var before := After(press, p, init, sensitivity).p;
    var o := Step(before, a, sensitivity);
    StepFollows(press, p, init, a, sensitivity);
    if a.Contact? && !Decide(press, init).LongPressAt? && Decide(press, init + [a]) != DragFrom(|init|) {
      FollowConserves(before, LastPos(press, init), a.x, a.y, sensitivity, o.p.state, NewTravel(press, init, a));
    } else {
      NoMotion(o.log);
    }
  }

  lemma NoMotion(log: seq<Packet>)
    requires |log| <= 2 && forall k :: 0 <= k < |log| ==> log[k].Key?
    ensures SumX(log) == SumY(log) == 0
  {
    if |log| == 2 {
      assert SumX(log[..1]) == SumX(log[..1][..0]) == 0 && SumY(log[..1]) == SumY(log[..1][..0]) == 0;
    }
  }

  lemma {:induction false} ScaledAdds(a: int, b: int, s: real)
    ensures Scaled(a + b, s) == Scaled(a, s) + Scaled(b, s)
    decreases if b < 0 then -b else b
  {
    if b > 0 {
      ScaledAdds(a, b - 1, s);
    } else if b < 0 {
      ScaledAdds(a, b + 1, s);
    }
  }

  /** Pixels emitted plus the residual carried. */
  function Delivered(o: Out): (real, real) {
    (SumX(o.log) as real + o.p.residual.0, SumY(o.log) as real + o.p.residual.1)
  }

  lemma DeliveredGrows(before: Out, step: Out)
    ensures var o := Out(step.p, before.log + step.log);
            && Delivered(o).0 == Delivered(before).0 - before.p.residual.0 + Delivered(step).0
            && Delivered(o).1 == Delivered(before).1 - before.p.residual.1 + Delivered(step).1
  {
    SumConcat(before.log, step.log);
  }

  /**
   Motion is conserved, whatever is rounded or clamped on the way: pixels emitted plus the residual carried are
   sensitivity times the finger's travel from the Down to the followed position, less the skipped delta.
   */
  lemma {:induction false} MotionConserved(press: Press, p: Pointer, ins: seq<Arrival>, sensitivity: real)
    requires Interior(ins) && press == Pressed(p, press.at, press.x, press.y)
    ensures Conserved(After(press, p, ins, sensitivity), Travel(press, ins), sensitivity)
  {
    if ins != [] {
      var init, a := ins[..|ins| - 1], ins[|ins| - 1];
      SplitBack(ins);
      MotionConserved(press, p, init, sensitivity);
      MotionConservedStep(press, p, init, a, sensitivity);
    }
  }

  lemma AfterOneMore(press: Press, p: Pointer, init: seq<Arrival>, a: Arrival, sensitivity: real)
    ensures var before := After(press, p, init, sensitivity);
            var step := Step(before.p, a, sensitivity);
            After(press, p, init + [a], sensitivity) == Out(step.p, before.log + step.log)
  {
    BackOfSnoc(init, a);
  }

  /** Pixels delivered are sensitivity times travel. */
  predicate Conserved(o: Out, travel: (int, int), s: real) {
    Delivered(o).0 == Scaled(travel.0, s) && Delivered(o).1 == Scaled(travel.1, s)
  }

  /** What a step delivers adds to what was delivered before it. */
  lemma DeliveredAdds(before: Out, step: Out, t: (int, int), n: (int, int), s: real, after: Out, t': (int, int))
    requires Conserved(before, t, s)
    requires Delivered(step).0 == before.p.residual.0 + Scaled(n.0, s)
    requires Delivered(step).1 == before.p.residual.1 + Scaled(n.1, s)
    requires after == Out(step.p, before.log + step.log) && t' == (t.0 + n.0, t.1 + n.1)
    ensures Conserved(after, t', s)
  {
    DeliveredGrows(before, step);
    ScaledAdds(t.0, n.0, s);
    ScaledAdds(t.1, n.1, s);
  }

  lemma MotionConservedStep(press: Press, p: Pointer, init: seq<Arrival>, a: Arrival, sensitivity: real)
    requires Interior(init) && press == Pressed(p, press.at, press.x, press.y) && (a.Contact? ==> a.action.Move?)
    requires Conserved(After(press, p, init, sensitivity), Travel(press, init), sensitivity)
    ensures Conserved(After(press, p, init + [a], sensitivity), Travel(press, init + [a]), sensitivity)
  {
    var before := After(press, p, init, sensitivity);
    AfterOneMore(press, p, init, a, sensitivity);
    StepConserves(press, p, init, a, sensitivity);
    TravelGrows(press, init, a);
    DeliveredAdds(before, Step(before.p, a, sensitivity), Travel(press, init), NewTravel(press, init, a), sensitivity,
                  After(press, p, init + [a], sensitivity), Travel(press, init + [a]));
  }

  // --------------------------------------------------- how large the residual is

  /** The widest sweep, a whole axis in one Move, still fits the 32-bit pixel count. */
  predicate SweepFits(sensitivity: real) {
    Scaled(65535, sensitivity) < 2147483648.0
  }

  predicate Small(residual: (real, real)) {
    -1.0 < residual.0 < 1.0 && -1.0 < residual.1 < 1.0
  }

  lemma {:induction false} ScaledMonotone(a: int, b: int, s: real)
    requires a <= b && s >= 0.0
    ensures Scaled(a, s) <= Scaled(b, s)
    decreases b - a
  {
    if a < b {
      ScaledMonotone(a + 1, b, s);
      ScaledAdds(a, 1, s);
    }
  }

  /** Rounding towards zero stays between where it starts and where it aims, and falls short by less than a pixel. */
  lemma TruncFallsShort(f: real)
    requires -2147483648.0 < f < 2147483648.0
    ensures var i := TruncI32(f);
            -1.0 < f - i as real < 1.0 && (f >= 0.0 ==> 0.0 <= i as real <= f) && (f <= 0.0 ==> f <= i as real <= 0.0)
  {
  }

  /** The total emitted on one axis is among the totals the finger itself can ask for. */
  predicate AxisInRange(down: u16, emitted: int, residual: real, s: real) {
    -1.0 < residual < 1.0 && Scaled(0 - down, s) <= emitted as real <= Scaled(65535 - down, s)
  }

  /** Rounding towards zero from a total in range on the way to another stays in range. */
  lemma RoundingStays(lo: real, hi: real, emitted: int, f: real)
    requires lo <= emitted as real <= hi && lo <= emitted as real + f <= hi
    requires -2147483648.0 < f < 2147483648.0
    ensures var i := TruncI32(f); lo <= (emitted + i) as real <= hi && -1.0 < f - i as real < 1.0
  {
    TruncFallsShort(f);
    assert (emitted + TruncI32(f)) as real == emitted as real + TruncI32(f) as real;
  }

  lemma SweepAdds(down: u16, last: u16, now: u16, s: real)
    ensures Scaled(now - down, s) == Scaled(last - down, s) + Scaled(now - last, s)
  {
    ScaledAdds(last - down, now - last, s);
  }

  lemma SweepWidth(down: u16, s: real)
    ensures Scaled(65535 - down, s) == Scaled(0 - down, s) + Scaled(65535, s)
  {
    ScaledAdds(0 - down, 65535, s);
  }

  lemma SweepBounds(down: u16, now: u16, s: real)
    requires s >= 0.0
    ensures Scaled(0 - down, s) <= Scaled(now - down, s) <= Scaled(65535 - down, s)
  {
    ScaledMonotone(0 - down, now - down, s);
    ScaledMonotone(now - down, 65535 - down, s);
  }

  lemma AxisStaysInRange(down: u16, emitted: int, residual: real, last: u16, now: u16, s: real)
    requires s >= 0.0 && SweepFits(s) && AxisInRange(down, emitted, residual, s)
    requires emitted as real + residual == Scaled(last - down, s)
    ensures var (i, r) := AxisDelta(last, now, s, residual); AxisInRange(down, emitted + i, r, s)
  {
    SweepAdds(down, last, now, s);
    SweepWidth(down, s);
    SweepBounds(down, now, s);
    RoundingStays(Scaled(0 - down, s), Scaled(65535 - down, s), emitted, Scaled(now - last, s) + residual);
  }

  predicate InRange(press: Press, o: Out, s: real) {
    AxisInRange(press.x, SumX(o.log), o.p.residual.0, s) && AxisInRange(press.y, SumY(o.log), o.p.residual.1, s)
  }

  lemma InRangeFollow(press: Press, before: Out, last: (u16, u16), x: u16, y: u16, s: real, state: PointerState)
    requires s >= 0.0 && SweepFits(s) && InRange(press, before, s)
    requires Delivered(before).0 == Scaled(last.0 - press.x, s) && Delivered(before).1 == Scaled(last.1 - press.y, s)
    ensures var step := Follow(before.p, last, x, y, s, state);
            InRange(press, Out(step.p, before.log + step.log), s)
  {
    AxisStaysInRange(press.x, SumX(before.log), before.p.residual.0, last.0, x, s);
    AxisStaysInRange(press.y, SumY(before.log), before.p.residual.1, last.1, y, s);
    FollowSums(before, last, x, y, s, state);
  }

  lemma FollowSums(before: Out, last: (u16, u16), x: u16, y: u16, s: real, state: PointerState)
    ensures var log := before.log + Follow(before.p, last, x, y, s, state).log;
            && SumX(log) == SumX(before.log) + AxisDelta(last.0, x, s, before.p.residual.0).0
            && SumY(log) == SumY(before.log) + AxisDelta(last.1, y, s, before.p.residual.1).0
  {
    var dx, dy := AxisDelta(last.0, x, s, before.p.residual.0).0, AxisDelta(last.1, y, s, before.p.residual.1).0;
    SumOfRelative(dx, dy);
    SumConcat(before.log, Relative(dx, dy));
  }

  /** A step that emits no motion and carries nothing leaves the totals alone. */
  lemma InRangeStill(press: Press, before: Out, step: Out, s: real)
    requires InRange(press, before, s) && step.p.residual == before.p.residual
    requires |step.log| <= 2 && forall k :: 0 <= k < |step.log| ==> step.log[k].Key?
    ensures InRange(press, Out(step.p, before.log + step.log), s)
  {
    NoMotion(step.log);
    SumConcat(before.log, step.log);
  }

  /** Neither a drag nor a long press has come of it. */
  predicate StillFollows(press: Press, ins: seq<Arrival>) {
    Decide(press, ins).Undecided? || Decide(press, ins).MovedAway?
  }

  /** What has been delivered, as the last position has it: nothing is skipped before a drag. */
  lemma DeliveredToLast(press: Press, p: Pointer, ins: seq<Arrival>, s: real)
    requires Interior(ins) && press == Pressed(p, press.at, press.x, press.y)
    requires StillFollows(press, ins)
    ensures var o, last := After(press, p, ins, s), LastPos(press, ins);
            Delivered(o).0 == Scaled(last.0 - press.x, s) && Delivered(o).1 == Scaled(last.1 - press.y, s)
  {
    MotionConserved(press, p, ins, s);
  }

  lemma InRangeMove(press: Press, p: Pointer, init: seq<Arrival>, a: Arrival, s: real)
    requires Interior(init) && press == Pressed(p, press.at, press.x, press.y)
    requires a.Contact? && a.action.Move? && StillFollows(press, init) && !Decide(press, init + [a]).DragFrom?
    requires s >= 0.0 && SweepFits(s) && InRange(press, After(press, p, init, s), s)
    ensures var before := After(press, p, init, s);
            var step := Step(before.p, a, s);
            InRange(press, Out(step.p, before.log + step.log), s)
  {
    var before := After(press, p, init, s);
    StepFollows(press, p, init, a, s);
    DeliveredToLast(press, p, init, s);
    InRangeFollow(press, before, LastPos(press, init), a.x, a.y, s, Step(before.p, a, s).p.state);
  }

  lemma InRangeStep(press: Press, p: Pointer, init: seq<Arrival>, a: Arrival, s: real)
    requires Interior(init) && press == Pressed(p, press.at, press.x, press.y)
    requires (a.Contact? ==> a.action.Move?) && !Decide(press, init + [a]).DragFrom?
    requires s >= 0.0 && SweepFits(s) && InRange(press, After(press, p, init, s), s)
    ensures InRange(press, After(press, p, init + [a], s), s)
  {
    var before := After(press, p, init, s);
    AfterOneMore(press, p, init, a, s);
    NotDraggedYet(press, init, a);
    if a.Contact? && !Decide(press, init).LongPressAt? {
      InRangeMove(press, p, init, a, s);
    } else {
      StepFollows(press, p, init, a, s);
      InRangeStill(press, before, Step(before.p, a, s), s);
    }
  }

  lemma NotDraggedYet(press: Press, init: seq<Arrival>, a: Arrival)
    requires !Decide(press, init + [a]).DragFrom?
    ensures !Decide(press, init).DragFrom?
  {
    BackOfSnoc(init, a);
  }

  lemma {:induction false} InRangeAlways(press: Press, p: Pointer, ins: seq<Arrival>, s: real)
    requires Interior(ins) && press == Pressed(p, press.at, press.x, press.y) && !Decide(press, ins).DragFrom?
    requires s >= 0.0 && SweepFits(s)
    ensures InRange(press, After(press, p, ins, s), s)
  {
    if ins == [] {
      ScaledMonotone(0 - press.x, 0, s);
      ScaledMonotone(0, 65535 - press.x, s);
      ScaledMonotone(0 - press.y, 0, s);
      ScaledMonotone(0, 65535 - press.y, s);
    } else {
      var init, a := ins[..|ins| - 1], ins[|ins| - 1];
      assert ins == init + [a];
      InRangeAlways(press, p, init, s);
      InRangeStep(press, p, init, a, s);
    }
  }

  /** One sweep across the tablet at a sensitivity that does not fit leaves a residual of a pixel or more. */
  lemma WideSweepOverflows(s: real) returns (press: Press, ins: seq<Arrival>)
    requires s > 0.0 && !SweepFits(s)
    ensures Interior(ins) && press == Pressed(START, press.at, press.x, press.y) && !Decide(press, ins).DragFrom?
    ensures !Small(After(press, START, ins, s).p.residual)
  {
    press, ins := Press(0, 0, 0, false), [Contact(0, Move, 65535, 0)];
    var p := AfterDown(START, 0, 0, 0);
    assert ins[..0] == [];
    assert Run(p, ins[..0], s) == Out(p, []);
    var o := Step(p, ins[0], s);
    assert o.p.residual.0 == Scaled(65535, s) - TruncI32(Scaled(65535, s)) as real;
    assert TruncI32(Scaled(65535, s)) <= 0x7fff_ffff;
  }

  ghost predicate ResidualAlwaysSmall(s: real) {
    forall press: Press, p, ins |
      Interior(ins) && press == Pressed(p, press.at, press.x, press.y) && !Decide(press, ins).DragFrom? ::
      Small(After(press, p, ins, s).p.residual)
  }

  /**
   Short of a drag, less than a pixel is ever held back, if and only if the widest sweep fits the 32-bit pixel count.
   */
  lemma ResidualSmallIffSweepFits(s: real)
    requires s > 0.0
    ensures ResidualAlwaysSmall(s) <==> SweepFits(s)
  {
    if SweepFits(s) {
      forall press: Press, p, ins |
        Interior(ins) && press == Pressed(p, press.at, press.x, press.y) && !Decide(press, ins).DragFrom?
        ensures Small(After(press, p, ins, s).p.residual)
      {
        InRangeAlways(press, p, ins, s);
      }
    } else {
      var press, ins := WideSweepOverflows(s);
    }
  }

  /** Two samplings of one gesture that end at the same position, however differently sampled, end within a pixel. */
  lemma SamplingWithinAPixel(press: Press, p: Pointer, p': Pointer, ins: seq<Arrival>, ins': seq<Arrival>, s: real)
    requires Interior(ins) && Interior(ins') && s >= 0.0 && SweepFits(s)
    requires press == Pressed(p, press.at, press.x, press.y) == Pressed(p', press.at, press.x, press.y)
    requires StillFollows(press, ins) && StillFollows(press, ins')
    requires LastPos(press, ins) == LastPos(press, ins')
    ensures WithinAPixel(After(press, p, ins, s).log, After(press, p', ins', s).log)
  {
    DeliveredToLast(press, p, ins, s);
    DeliveredToLast(press, p', ins', s);
    InRangeAlways(press, p, ins, s);
    InRangeAlways(press, p', ins', s);
    SameTotals(press, After(press, p, ins, s), After(press, p', ins', s), s);
  }

  /** Both leave the cursor at the same place to within a pixel on either axis. */
  predicate WithinAPixel(log: seq<Packet>, log': seq<Packet>) {
    -1 <= SumX(log) - SumX(log') <= 1 && -1 <= SumY(log) - SumY(log') <= 1
  }

  lemma SameTotals(press: Press, o: Out, o': Out, s: real)
    requires InRange(press, o, s) && InRange(press, o', s)
    requires Delivered(o).0 == Delivered(o').0 && Delivered(o).1 == Delivered(o').1
    ensures WithinAPixel(o.log, o'.log)
  {
    CloseTotals(SumX(o.log), SumX(o'.log), o.p.residual.0, o'.p.residual.0);
    CloseTotals(SumY(o.log), SumY(o'.log), o.p.residual.1, o'.p.residual.1);
  }

  lemma CloseTotals(a: int, b: int, r: real, r': real)
    requires a as real + r == b as real + r' && -1.0 < r < 1.0 && -1.0 < r' < 1.0
    ensures -1 <= a - b <= 1
  {
    assert a as real - b as real == (a - b) as real;
  }

  /** In any run whatever, drags included, the residual stays below a pixel if there is one pixel of room to spare. */
  lemma {:induction false} ResidualSmallInEveryRun(p: Pointer, arrivals: seq<Arrival>, s: real)
    requires s >= 0.0 && Scaled(65535, s) <= 2147483647.0 && Small(p.residual)
    ensures Small(Run(p, arrivals, s).p.residual)
  {
    if arrivals != [] {
      ResidualSmallInEveryRun(p, arrivals[..|arrivals| - 1], s);
      StepKeepsSmall(Run(p, arrivals[..|arrivals| - 1], s).p, arrivals[|arrivals| - 1], s);
    }
  }

  lemma StepKeepsSmall(p: Pointer, a: Arrival, s: real)
    requires s >= 0.0 && Scaled(65535, s) <= 2147483647.0 && Small(p.residual)
    ensures Small(Step(p, a, s).p.residual)
  {
    var o := Step(p, a, s);
    if a.Contact? && a.action.Move? && (p.state.Touched? || p.state.Dragging?) {
      FollowIsSmall(p, p.state.last, a.x, a.y, s, o.p.state);
    }
  }

  lemma FollowIsSmall(p: Pointer, last: (u16, u16), x: u16, y: u16, s: real, state: PointerState)
    requires s >= 0.0 && Scaled(65535, s) <= 2147483647.0 && Small(p.residual)
    ensures Small(Follow(p, last, x, y, s, state).p.residual)
  {
    FollowKeepsSmall(p.residual.0, x - last.0, s);
    FollowKeepsSmall(p.residual.1, y - last.1, s);
  }

  lemma FollowKeepsSmall(residual: real, n: int, s: real)
    requires -65535 <= n <= 65535 && s >= 0.0 && Scaled(65535, s) <= 2147483647.0 && -1.0 < residual < 1.0
    ensures var f := Scaled(n, s) + residual; -1.0 < f - TruncI32(f) as real < 1.0
  {
    ScaledMonotone(n, 65535, s);
    ScaledMonotone(-65535, n, s);
    ScaledAdds(-65535, 65535, s);
    TruncFallsShort(Scaled(n, s) + residual);
  }

  // ------------------------------------------------------------ one motion for a Move

  /** At most one motion, and not an empty one. */
  predicate MovesAtOnce(log: seq<Packet>) {
    && (forall k :: 0 <= k < |log| ==> log[k] != Motion(0, 0))
    && (forall k :: 0 <= k < |log| ==> log[k].Motion? ==> |log| == 1)
  }

  lemma StepMovesAtOnce(p: Pointer, a: Arrival, s: real)
    ensures MovesAtOnce(Step(p, a, s).log)
  {
    hide AxisDelta, Strayed;
  }

  /**
   In every run an arrival moves the cursor in one packet, both axes at once, or not at all: no motion is split, and
   none is empty.
   */
  lemma {:induction false} MotionInOnePacket(arrivals: seq<Arrival>, s: real)
    ensures forall k :: 0 <= k < |Run(START, arrivals, s).log| ==> Run(START, arrivals, s).log[k] != Motion(0, 0)
    ensures arrivals != [] ==>
              var n := |arrivals| - 1;
              exists more :: MovesAtOnce(more) && Run(START, arrivals, s).log == Run(START, arrivals[..n], s).log + more
  {
    if arrivals != [] {
      var n := |arrivals| - 1;
      MotionInOnePacket(arrivals[..n], s);
      StepMovesAtOnce(Run(START, arrivals[..n], s).p, arrivals[n], s);
    }
  }
}
