/**
 The relative pointer (input.rs, `PointerInput` and `run_touch_worker`): a four-state gesture machine with timers,
 double-tap drag and sub-pixel residuals. The uinput device is a log of the packets emitted to it; time is whatever
 clock readings the arrivals carry, in nanoseconds; sensitivity and residual are exact reals.
 */
module Pointer {
  import opened Bytes
  import opened Wrappers
  import opened ReverseProtocol

  const TAP_MAX_MOVE := 1500
  const LONG_PRESS := 600_000_000
  const DOUBLE_TAP_WINDOW := 300_000_000

  datatype Button = Left | Right

  /** One packet as the compositor applies it: both axes of a motion at once, or a button. */
  datatype Packet = Motion(dx: int, dy: int) | Key(button: Button, pressed: bool)

  datatype PointerState =
    | Idle
    | Touched(downAt: int, down: (u16, u16), last: (u16, u16), pendingDrag: bool, moved: bool)
    | Dragging(last: (u16, u16))
    | Consumed

  datatype Pointer = Pointer(state: PointerState, lastTapEnd: Option<int>, residual: (real, real))

  const START := Pointer(Idle, None, (0.0, 0.0))

  /** What wakes the worker: a touch message, or the clock reaching `at` with no message there. */
  datatype Arrival = Contact(at: int, action: TouchAction, x: u16, y: u16) | Quiet(at: int)

  datatype Out = Out(p: Pointer, log: seq<Packet>)

  /** Rust's `trunc() as i32`: towards zero, saturating at the ends of the type. */
  function TruncI32(f: real): int {
    var t := if f >= 0.0 then f.Floor else -(-f).Floor;
    if t > 0x7fff_ffff then 0x7fff_ffff else if t < -0x8000_0000 then -0x8000_0000 else t
  }

  /** `units` steps of `sensitivity` pixels each: the product, spelt so that proofs about motion stay linear. */
  function Scaled(units: int, sensitivity: real): real
    decreases if units < 0 then -units else units
  {
    if units == 0 then 0.0
    else if units > 0 then Scaled(units - 1, sensitivity) + sensitivity
    else Scaled(units + 1, sensitivity) - sensitivity
  }

  lemma {:induction false} ScaledIsProduct(units: int, sensitivity: real)
    ensures Scaled(units, sensitivity) == units as real * sensitivity
    decreases if units < 0 then -units else units
  {
    if units > 0 {
      ScaledIsProduct(units - 1, sensitivity);
      assert units as real == (units - 1) as real + 1.0;
    } else if units < 0 {
      ScaledIsProduct(units + 1, sensitivity);
      assert units as real == (units + 1) as real - 1.0;
    }
  }

  /** The whole pixels in `f`, and what is left of it. */
  function Carry(f: real): (int, real) {
    (TruncI32(f), f - TruncI32(f) as real)
  }

  /** Pixels to emit on one axis, and what is carried over. */
  function AxisDelta(last: u16, now: u16, sensitivity: real, residual: real): (int, real) {
    Carry(Scaled(now - last, sensitivity) + residual)
  }

  lemma AxisDeltaIs(last: u16, now: u16, sensitivity: real, residual: real, f: real)
    requires f == (now - last) as real * sensitivity + residual
    ensures AxisDelta(last, now, sensitivity, residual) == Carry(f)
  {
    ScaledIsProduct(now - last, sensitivity);
    assert f == Scaled(now - last, sensitivity) + residual;
  }

  predicate Strayed(down: (u16, u16), x: u16, y: u16) {
    x - down.0 > TAP_MAX_MOVE || down.0 - x > TAP_MAX_MOVE || y - down.1 > TAP_MAX_MOVE || down.1 - y > TAP_MAX_MOVE
  }

  /** At most 1500 units from where the finger went down, on either axis. */
  predicate Near(down: (u16, u16), x: u16, y: u16) {
    -1500 <= x - down.0 <= 1500 && -1500 <= y - down.1 <= 1500
  }

  function Relative(dx: int, dy: int): seq<Packet> {
    if dx == 0 && dy == 0 then [] else [Motion(dx, dy)]
  }

  function AfterDown(p: Pointer, at: int, x: u16, y: u16): Pointer {
    var pending := p.lastTapEnd.Some? && at - p.lastTapEnd.value < DOUBLE_TAP_WINDOW;
    Pointer(Touched(at, (x, y), (x, y), pending, false), p.lastTapEnd, (0.0, 0.0))
  }

  /** Follow the finger from `last` to (x, y); the caller decides what state that leaves. */
  function Follow(p: Pointer, last: (u16, u16), x: u16, y: u16, sensitivity: real, state: PointerState): Out {
    var mx := AxisDelta(last.0, x, sensitivity, p.residual.0);
    var my := AxisDelta(last.1, y, sensitivity, p.residual.1);
    Out(Pointer(state, p.lastTapEnd, (mx.1, my.1)), Relative(mx.0, my.0))
  }

  function AfterMove(p: Pointer, x: u16, y: u16, sensitivity: real): Out {
    match p.state
    case Idle => Out(p, [])
    case Consumed => Out(p, [])
    case Touched(at, down, last, pending, moved) =>
      var nowMoved := moved || Strayed(down, x, y);
      if pending && nowMoved then Out(p.(state := Dragging((x, y))), [Key(Left, true)])
      else Follow(p, last, x, y, sensitivity, Touched(at, down, (x, y), pending, nowMoved))
    case Dragging(last) => Follow(p, last, x, y, sensitivity, Dragging((x, y)))
  }

  function AfterUp(p: Pointer, at: int, x: u16, y: u16): Out {
    match p.state
    case Touched(_, down, _, _, moved) =>
      if moved || Strayed(down, x, y) then Out(p.(state := Idle, lastTapEnd := None), [])
      else Out(p.(state := Idle, lastTapEnd := Some(at)), [Key(Left, true), Key(Left, false)])
    case Dragging(_) => Out(p.(state := Idle, lastTapEnd := None), [Key(Left, false)])
    case _ => Out(p.(state := Idle, lastTapEnd := None), [])
  }

  function AfterLongPress(p: Pointer): Out {
    if !p.state.Touched? then Out(p, [])
    else Out(p.(state := Consumed, lastTapEnd := None), [Key(Right, true), Key(Right, false)])
  }

  function AfterCancel(p: Pointer): Out {
    Out(START, if p.state.Dragging? then [Key(Left, false)] else [])
  }

  /** The worker's receive times out only for a touch that has not moved, once it has been held long enough. */
  predicate LongPressDue(p: Pointer, at: int) {
    p.state.Touched? && !p.state.moved && at - p.state.downAt >= LONG_PRESS
  }

  function Step(p: Pointer, a: Arrival, sensitivity: real): Out {
    match a
    case Contact(at, Down, x, y) => Out(AfterDown(p, at, x, y), [])
    case Contact(at, Move, x, y) => AfterMove(p, x, y, sensitivity)
    case Contact(at, _, x, y) => AfterUp(p, at, x, y)
    case Quiet(at) => if LongPressDue(p, at) then AfterLongPress(p) else Out(p, [])
  }

  function Run(p: Pointer, arrivals: seq<Arrival>, sensitivity: real): Out {
    if arrivals == [] then Out(p, []) else
      var before := Run(p, arrivals[..|arrivals| - 1], sensitivity);
      var last := Step(before.p, arrivals[|arrivals| - 1], sensitivity);
      Out(last.p, before.log + last.log)
  }

  // ------------------------------------------------------------ the device

  class PointerInput {
    var state: PointerState
    var lastTapEnd: Option<int>
    var residual: (real, real)
    const sensitivity: real
    var device: seq<Packet>

    function Snapshot(): Pointer
      reads this
    {
      Pointer(state, lastTapEnd, residual)
    }

    constructor (sensitivity: real)
      ensures Snapshot() == START && device == [] && this.sensitivity == sensitivity
    {
      state, lastTapEnd, residual, this.sensitivity, device := Idle, None, (0.0, 0.0), sensitivity, [];
    }

    method Emit(packets: seq<Packet>)
      modifies this`device
      ensures device == old(device) + packets
    {
      device := device + packets;
    }

    method OnDown(at: int, x: u16, y: u16)
      modifies this
      ensures Snapshot() == AfterDown(old(Snapshot()), at, x, y) && device == old(device)
    {
      var pendingDrag := lastTapEnd.Some? && at - lastTapEnd.value < DOUBLE_TAP_WINDOW;
      residual := (0.0, 0.0);
      state := Touched(at, (x, y), (x, y), pendingDrag, false);
    }

    method RelativeDelta(last: (u16, u16), x: u16, y: u16) returns (ix: int, iy: int)
      modifies this`residual
      ensures (ix, residual.0) == AxisDelta(last.0, x, sensitivity, old(residual).0)
      ensures (iy, residual.1) == AxisDelta(last.1, y, sensitivity, old(residual).1)
    {
      var fx := (x - last.0) as real * sensitivity + residual.0;
      var fy := (y - last.1) as real * sensitivity + residual.1;
      AxisDeltaIs(last.0, x, sensitivity, residual.0, fx);
      AxisDeltaIs(last.1, y, sensitivity, residual.1, fy);
      ix, iy := TruncI32(fx), TruncI32(fy);
      residual := (fx - ix as real, fy - iy as real);
    }

    method OnMove(x: u16, y: u16)
      modifies this
      ensures var o := AfterMove(old(Snapshot()), x, y, sensitivity);
              Snapshot() == o.p && device == old(device) + o.log
    {
      match state {
        case Idle =>
        case Consumed =>
        case Touched(downAt, down, last, pendingDrag, moved) =>
          var nowMoved := moved || Strayed(down, x, y);
          if pendingDrag && nowMoved {
            Emit([Key(Left, true)]);
            state := Dragging((x, y));
            return;
          }
          var dx, dy := RelativeDelta(last, x, y);
          Emit(Relative(dx, dy));
          state := Touched(downAt, down, (x, y), pendingDrag, nowMoved);
        case Dragging(last) =>
          var dx, dy := RelativeDelta(last, x, y);
          Emit(Relative(dx, dy));
          state := Dragging((x, y));
      }
    }

    method OnUp(at: int, x: u16, y: u16)
      modifies this
      ensures var o := AfterUp(old(Snapshot()), at, x, y);
              Snapshot() == o.p && device == old(device) + o.log
    {
      var prev := state;
      state := Idle;
      match prev {
        case Touched(_, down, _, _, moved) =>
          if moved || Strayed(down, x, y) {
            lastTapEnd := None;
            return;
          }
          Emit([Key(Left, true)]);
          Emit([Key(Left, false)]);
          lastTapEnd := Some(at);
        case Dragging(_) =>
          Emit([Key(Left, false)]);
          lastTapEnd := None;
        case _ =>
          lastTapEnd := None;
      }
    }

    method OnLongPress()
      modifies this
      ensures var o := AfterLongPress(old(Snapshot()));
              Snapshot() == o.p && device == old(device) + o.log
    {
      if !state.Touched? {
        return;
      }
      Emit([Key(Right, true)]);
      Emit([Key(Right, false)]);
      state := Consumed;
      lastTapEnd := None;
    }

    method Cancel()
      modifies this
      ensures var o := AfterCancel(old(Snapshot()));
              Snapshot() == o.p && device == old(device) + o.log
    {
      if state.Dragging? {
        Emit([Key(Left, false)]);
      }
      state, lastTapEnd, residual := Idle, None, (0.0, 0.0);
    }

    /** Time until the held touch is a long press, if it can still become one. */
    function TimeUntilLongPress(now: int): Option<int>
      reads this
    {
      if state.Touched? && !state.moved then
        var left := LONG_PRESS - (now - state.downAt);
        Some(if left < 0 then 0 else left)
      else None
    }

    /** One turn of the worker's loop. */
    method OnArrival(arrival: Arrival)
      modifies this
      ensures var o := Step(old(Snapshot()), arrival, sensitivity);
              Snapshot() == o.p && device == old(device) + o.log
    {
      match arrival {
        case Contact(at, Down, x, y) => OnDown(at, x, y);
        case Contact(_, Move, x, y) => OnMove(x, y);
        case Contact(at, _, x, y) => OnUp(at, x, y);
        case Quiet(at) =>
          if TimeUntilLongPress(at) == Some(0) {
            OnLongPress();
          }
      }
    }

    /** The worker: handle every arrival, then tear down. */
    method RunTouchWorker(arrivals: seq<Arrival>)
      modifies this
      ensures var o := Run(old(Snapshot()), arrivals, sensitivity);
              Snapshot() == START && device == old(device) + o.log + AfterCancel(o.p).log
    {
      for i := 0 to |arrivals|
        invariant var o := Run(old(Snapshot()), arrivals[..i], sensitivity);
                  Snapshot() == o.p && device == old(device) + o.log
      {
        assert arrivals[..i + 1][..i] == arrivals[..i];
        OnArrival(arrivals[i]);
      }
      assert arrivals[..|arrivals|] == arrivals;
      Cancel();
    }
  }
}
