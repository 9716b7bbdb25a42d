/** What one gesture, Down ... Up or Cancel, does through the pointer machine (input.rs): its buttons and its motion. */
module PointerGestures {
  import opened Bytes
  import opened Wrappers
  import opened ReverseProtocol
  import opened Pointer

  /** A Down, and where the press before it left the double-tap timer. */
  datatype Press = Press(at: int, x: u16, y: u16, pending: bool)

  function Pos(press: Press): (u16, u16) {
    (press.x, press.y)
  }

  /** What can arrive between a Down and its Up or Cancel. */
  predicate Interior(ins: seq<Arrival>) {
    forall i :: 0 <= i < |ins| ==> ins[i].Contact? ==> ins[i].action.Move?
  }

  function LastPos(press: Press, ins: seq<Arrival>): (u16, u16) {
    if ins == [] then Pos(press)
    else if ins[|ins| - 1].Contact? then (ins[|ins| - 1].x, ins[|ins| - 1].y)
    else LastPos(press, ins[..|ins| - 1])
  }

  /**
   What the first deciding arrival makes of the gesture: a Move beyond the slop, or a due timer before any such Move.
   */
  datatype Decision = Undecided | MovedAway | DragFrom(i: nat) | LongPressAt(i: nat)

  function Decide(press: Press, ins: seq<Arrival>): Decision {
    if ins == [] then Undecided else
      var n := |ins| - 1;
      var before := Decide(press, ins[..n]);
      if before != Undecided then before
      else match ins[n]
        case Contact(_, _, x, y) =>
          if !Strayed(Pos(press), x, y) then Undecided else if press.pending then DragFrom(n) else MovedAway
        case Quiet(at) => if at - press.at >= LONG_PRESS then LongPressAt(n) else Undecided
  }

  predicate OnlyMotion(log: seq<Packet>) {
    forall k :: 0 <= k < |log| ==> log[k].Motion?
  }

  function Pressed(p: Pointer, at: int, x: u16, y: u16): Press {
    Press(at, x, y, p.lastTapEnd.Some? && at - p.lastTapEnd.value < DOUBLE_TAP_WINDOW)
  }

  function After(press: Press, p: Pointer, ins: seq<Arrival>, sensitivity: real): Out {
    Run(AfterDown(p, press.at, press.x, press.y), ins, sensitivity)
  }

  lemma {:induction false} DecisionIndex(press: Press, ins: seq<Arrival>)
    ensures var d := Decide(press, ins);
            && (d.DragFrom? || d.LongPressAt? ==> d.i < |ins| && Decide(press, ins[..d.i]) == Undecided)
            && (d.DragFrom? ==> press.pending && ins[d.i].Contact? && Strayed(Pos(press), ins[d.i].x, ins[d.i].y))
            && (d.LongPressAt? ==> ins[d.i].Quiet? && ins[d.i].at - press.at >= LONG_PRESS)
  {
    if ins != [] {
      var init := ins[..|ins| - 1];
      DecisionIndex(press, init);
      var d := Decide(press, init);
      if d.DragFrom? || d.LongPressAt? {
        assert init[..d.i] == ins[..d.i] && init[d.i] == ins[d.i];
      }
    }
  }

  /** The state and the packets in the middle of a gesture, by what has been decided so far. */
  ghost predicate Midway(press: Press, p: Pointer, ins: seq<Arrival>, sensitivity: real) {
    var o := After(press, p, ins, sensitivity);
    match Decide(press, ins)
    case Undecided =>
      o.p.state == Touched(press.at, Pos(press), LastPos(press, ins), press.pending, false) && OnlyMotion(o.log)
    case MovedAway =>
      o.p.state == Touched(press.at, Pos(press), LastPos(press, ins), false, true) && OnlyMotion(o.log)
    case DragFrom(i) =>
      i < |ins| && o.p.state == Dragging(LastPos(press, ins)) &&
      exists during :: OnlyMotion(during)
                       && o.log == After(press, p, ins[..i], sensitivity).log + [Key(Left, true)] + during
    case LongPressAt(i) =>
      i < |ins| && o.p.state == Consumed && o.p.lastTapEnd == None &&
      o.log == After(press, p, ins[..i], sensitivity).log + [Key(Right, true), Key(Right, false)]
  }

  lemma {:induction false} MidwayAlways(press: Press, p: Pointer, ins: seq<Arrival>, sensitivity: real)
    requires Interior(ins) && press == Pressed(p, press.at, press.x, press.y)
    ensures Midway(press, p, ins, sensitivity)
  {
    hide AxisDelta, Strayed;
    if ins != [] {
      var n := |ins| - 1;
      var init := ins[..n];
      MidwayAlways(press, p, init, sensitivity);
      DecisionIndex(press, init);
      var before := After(press, p, init, sensitivity);
      var step := Step(before.p, ins[n], sensitivity);
      match Decide(press, init)
      case Undecided =>
        if Decide(press, ins).DragFrom? {
          assert before.log + step.log == before.log + [Key(Left, true)] + [];
          assert OnlyMotion([]);
        }
      case MovedAway =>
      case DragFrom(i) =>
        assert init[..i] == ins[..i];
        var start := After(press, p, ins[..i], sensitivity).log + [Key(Left, true)];
        var during :| OnlyMotion(during) && before.log == start + during;
        assert before.log + step.log == start + (during + step.log);
        assert OnlyMotion(during + step.log);
      case LongPressAt(i) =>
        assert init[..i] == ins[..i];
        assert before.log + step.log == before.log;
    }
  }

  datatype Outcome = LeftClick | RightClick | Drag | MotionOnly

  /** The outcome of a gesture, read off its arrivals alone. */
  function OutcomeOf(press: Press, ins: seq<Arrival>, up: (u16, u16)): Outcome {
    match Decide(press, ins)
    case DragFrom(_) => Drag
    case LongPressAt(_) => RightClick
    case MovedAway => MotionOnly
    case Undecided => if Strayed(Pos(press), up.0, up.1) then MotionOnly else LeftClick
  }

  predicate StaysNear(press: Press, ins: seq<Arrival>) {
    forall i :: 0 <= i < |ins| && ins[i].Contact? ==> Near(Pos(press), ins[i].x, ins[i].y)
  }

  /** The clock was never looked at as late as 600 ms after the press. */
  predicate NeverDue(press: Press, ins: seq<Arrival>) {
    forall i :: 0 <= i < |ins| && ins[i].Quiet? ==> ins[i].at - press.at < 600_000_000
  }

  /** Arrival `i` is a Move away from the press before any due timer. */
  predicate LeavesAt(press: Press, ins: seq<Arrival>, i: nat) {
    i < |ins| && ins[i].Contact? && !Near(Pos(press), ins[i].x, ins[i].y) && NeverDue(press, ins[..i])
  }

  /** Arrival `i` is a timer due before any Move away from the press. */
  predicate DueAt(press: Press, ins: seq<Arrival>, i: nat) {
    i < |ins| && ins[i].Quiet? && ins[i].at - press.at >= 600_000_000 && StaysNear(press, ins[..i])
  }

  /** What an outcome takes: where the finger was, in units of the tablet, and when, in nanoseconds. */
  ghost predicate Takes(outcome: Outcome, press: Press, ins: seq<Arrival>, up: (u16, u16)) {
    match outcome
    case LeftClick => StaysNear(press, ins) && NeverDue(press, ins) && Near(Pos(press), up.0, up.1)
    case RightClick => exists i: nat :: DueAt(press, ins, i)
    case Drag => press.pending && exists i: nat :: LeavesAt(press, ins, i)
    case MotionOnly =>
      if StaysNear(press, ins) then NeverDue(press, ins) && !Near(Pos(press), up.0, up.1)
      else !press.pending && exists i: nat :: LeavesAt(press, ins, i)
  }

  /** What has been decided, in coordinates and times. */
  lemma {:induction false} DecidedBy(press: Press, ins: seq<Arrival>)
    ensures match Decide(press, ins)
            case Undecided => StaysNear(press, ins) && NeverDue(press, ins)
            case MovedAway => !press.pending && exists i: nat :: LeavesAt(press, ins, i)
            case DragFrom(i) => press.pending && LeavesAt(press, ins, i)
            case LongPressAt(i) => DueAt(press, ins, i)
  {
    if ins != [] {
      var n := |ins| - 1;
      DecidedBy(press, ins[..n]);
      match Decide(press, ins[..n])
      case Undecided => assert LeavesAt(press, ins, n) || DueAt(press, ins, n) || Decide(press, ins).Undecided?;
      case MovedAway =>
        var i: nat :| LeavesAt(press, ins[..n], i);
        assert ins[..n][..i] == ins[..i];
        assert LeavesAt(press, ins, i);
      case DragFrom(i) => assert ins[..n][..i] == ins[..i];
      case LongPressAt(i) => assert ins[..n][..i] == ins[..i];
    }
  }

  /** A Move away from the press and a due timer cannot each come before the other. */
  lemma NotBoth(press: Press, ins: seq<Arrival>, i: nat, j: nat)
    requires LeavesAt(press, ins, i)
    ensures !DueAt(press, ins, j) && !StaysNear(press, ins)
  {
    if i < j < |ins| {
      assert ins[..j][i] == ins[i];
    } else if j < i {
      assert ins[..i][j] == ins[j];
    }
  }

  lemma NotNeverDue(press: Press, ins: seq<Arrival>, i: nat)
    requires DueAt(press, ins, i)
    ensures !NeverDue(press, ins)
  {
  }

  /** Each outcome comes of exactly the gestures it takes. */
  lemma OutcomeTakes(press: Press, ins: seq<Arrival>, up: (u16, u16), outcome: Outcome)
    ensures outcome == OutcomeOf(press, ins, up) <==> Takes(outcome, press, ins, up)
  {
    DecidedBy(press, ins);
    forall i: nat, j: nat | LeavesAt(press, ins, i) ensures !DueAt(press, ins, j) && !StaysNear(press, ins) {
      NotBoth(press, ins, i, j);
    }
    forall i: nat | DueAt(press, ins, i) ensures !NeverDue(press, ins) {
      NotNeverDue(press, ins, i);
    }
  }

  /** The packets that make up an outcome, with motion where motion belongs. */
  ghost predicate Looks(outcome: Outcome, log: seq<Packet>) {
    match outcome
    case MotionOnly => OnlyMotion(log)
    case LeftClick => exists m :: OnlyMotion(m) && log == m + [Key(Left, true), Key(Left, false)]
    case RightClick => exists m :: OnlyMotion(m) && log == m + [Key(Right, true), Key(Right, false)]
    case Drag => exists m, d :: OnlyMotion(m) && OnlyMotion(d) && log == m + [Key(Left, true)] + d + [Key(Left, false)]
  }

  lemma LastPackets(outcome: Outcome, log: seq<Packet>)
    requires Looks(outcome, log)
    ensures outcome == MotionOnly <==> log == [] || log[|log| - 1].Motion?
    ensures outcome == RightClick <==> log != [] && log[|log| - 1] == Key(Right, false)
    ensures outcome == LeftClick ==>
              |log| > 1 && log[|log| - 2] == Key(Left, true) && log[|log| - 1] == Key(Left, false)
  {
    match outcome
    case MotionOnly =>
    case LeftClick => var m :| OnlyMotion(m) && log == m + [Key(Left, true), Key(Left, false)];
    case RightClick => var m :| OnlyMotion(m) && log == m + [Key(Right, true), Key(Right, false)];
    case Drag =>
      var m, d :| OnlyMotion(m) && OnlyMotion(d) && log == m + [Key(Left, true)] + d + [Key(Left, false)];
      assert log[|log| - 1] == Key(Left, false);
  }

  /**
   The packets tell the outcomes apart, but for a drag that moves nothing after its press, which looks like a left
   click; what tells those two apart is the arrivals, and the double-tap timer afterwards.
   */
  lemma PacketsTellApart(outcome: Outcome, other: Outcome, log: seq<Packet>)
    requires Looks(outcome, log) && Looks(other, log) && outcome != other
    ensures {outcome, other} == {LeftClick, Drag}
    ensures |log| > 1 && log[|log| - 2] == Key(Left, true) && log[|log| - 1] == Key(Left, false)
  {
    LastPackets(outcome, log);
    LastPackets(other, log);
  }

  /**
   From any state whatever, a complete gesture emits exactly the packets of one outcome, ends idle, and starts the
   double-tap timer if and only if that was a left click. A gesture that stays within 1500 units of its press on both
   axes is a right click if the clock was looked at 600 ms after the press or later, and else a left click; one that
   goes further before that is a drag if a tap had ended less than 300 ms before, and else motion only.
   */
  lemma GestureHasOneOutcome(p: Pointer, press: Press, ins: seq<Arrival>, end: Arrival, sensitivity: real)
    requires Interior(ins)
    requires press.pending <==> p.lastTapEnd.Some? && press.at - p.lastTapEnd.value < 300_000_000
    requires end.Contact? && (end.action.Up? || end.action.Cancel?)
    ensures var all := [Contact(press.at, Down, press.x, press.y)] + ins + [end];
            var o, outcome := Run(p, all, sensitivity), OutcomeOf(press, ins, (end.x, end.y));
            && Looks(outcome, o.log)
            && (forall other :: Takes(other, press, ins, (end.x, end.y)) <==> other == outcome)
            && o.p.state == Idle
            && o.p.lastTapEnd == (if outcome == LeftClick then Some(end.at) else None)
  {
    var down := Contact(press.at, Down, press.x, press.y);
    var mid := After(press, p, ins, sensitivity);
    forall other ensures Takes(other, press, ins, (end.x, end.y)) <==> other == OutcomeOf(press, ins, (end.x, end.y)) {
      OutcomeTakes(press, ins, (end.x, end.y), other);
    }
    RunFromDown(p, down, ins, sensitivity);
    assert ([down] + ins + [end])[..|ins| + 1] == [down] + ins;
    MidwayAlways(press, p, ins, sensitivity);
    DecisionIndex(press, ins);
    var o := Run(p, [down] + ins + [end], sensitivity);
    match Decide(press, ins)
    case Undecided =>
    case MovedAway =>
    case DragFrom(i) =>
      MidwayAlways(press, p, ins[..i], sensitivity);
      var before := After(press, p, ins[..i], sensitivity).log;
      var during :| OnlyMotion(during) && mid.log == before + [Key(Left, true)] + during;
      assert o.log == before + [Key(Left, true)] + during + [Key(Left, false)];
    case LongPressAt(i) =>
      MidwayAlways(press, p, ins[..i], sensitivity);
      assert o.log == mid.log;
  }

  lemma {:induction false} RunFromDown(p: Pointer, down: Arrival, ins: seq<Arrival>, sensitivity: real)
    requires down.Contact? && down.action.Down?
    ensures Run(p, [down] + ins, sensitivity) == Run(AfterDown(p, down.at, down.x, down.y), ins, sensitivity)
  {
    var all := [down] + ins;
    if ins == [] {
      assert all[..0] == [];
      assert Run(p, all, sensitivity).log == [];
    } else {
      assert all[..|ins|] == [down] + ins[..|ins| - 1];
      RunFromDown(p, down, ins[..|ins| - 1], sensitivity);
    }
  }
}
