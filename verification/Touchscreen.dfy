/**
 The virtual touchscreen (input.rs, `Touchscreen`): touch actions become the events of a single-slot stream in the
 Linux kernel's multi-touch protocol type B. The device is the log of events emitted to it.
 */
module Touchscreen {
  import opened Bytes
  import opened ReverseProtocol

  const ABS_RANGE := 32767
  const MAX_TRACKING_ID := 65535

  datatype Event =
    | Slot(n: int)
    | TrackingId(id: int)
    | MtX(v: int)
    | MtY(v: int)
    | AbsX(v: int)
    | AbsY(v: int)
    | BtnTouch(pressed: bool)
    | Syn

  datatype Touch = Touch(action: TouchAction, x: u16, y: u16)

  datatype Screen = Screen(contactOpen: bool, nextTrackingId: int, lastPos: (int, int))

  const NEW := Screen(false, 1, (0, 0))

  /** The position nearest below on the device's own scale: in range, and onto both of its ends. */
  function ScaleToRange(v: u16): (r: int)
    ensures 0 <= r <= 32767
    ensures 65535 * r <= v * 32767 < 65535 * (r + 1)
    ensures v == 0 ==> r == 0
    ensures v == 65535 ==> r == 32767
  {
    v * ABS_RANGE / 65535
  }

  function Position(x: int, y: int): seq<Event> {
    [MtX(x), MtY(y), AbsX(x), AbsY(y)]
  }

  function Release(pos: (int, int)): seq<Event> {
    [Slot(0)] + Position(pos.0, pos.1) + [TrackingId(-1), BtnTouch(false), Syn]
  }

  function Open(id: int, x: int, y: int): seq<Event> {
    [Slot(0), TrackingId(id)] + Position(x, y) + [BtnTouch(true), Syn]
  }

  function Respond(s: Screen, t: Touch): (Screen, seq<Event>) {
    var (x, y) := (ScaleToRange(t.x), ScaleToRange(t.y));
    match t.action
    case Down =>
      (Screen(true, if s.nextTrackingId >= MAX_TRACKING_ID then 1 else s.nextTrackingId + 1, (x, y)),
       (if s.contactOpen then Release(s.lastPos) else []) + Open(s.nextTrackingId, x, y))
    case Move =>
      if s.contactOpen then (s.(lastPos := (x, y)), Position(x, y) + [Syn]) else (s, [])
    case _ =>
      if !s.contactOpen then (s, []) else
        var pos := if (x, y) != (0, 0) then (x, y) else s.lastPos;
        (s.(contactOpen := false, lastPos := pos), Release(pos))
  }

  function RespondAll(touches: seq<Touch>): (Screen, seq<Event>) {
    if touches == [] then (NEW, []) else
      var (s, log) := RespondAll(touches[..|touches| - 1]);
      var (s', more) := Respond(s, touches[|touches| - 1]);
      (s', log + more)
  }

  class Device {
    var contactOpen: bool
    var nextTrackingId: int
    var lastPos: (int, int)
    var log: seq<Event>

    function Snapshot(): Screen
      reads this
    {
      Screen(contactOpen, nextTrackingId, lastPos)
    }

    constructor ()
      ensures Snapshot() == NEW && log == []
    {
      contactOpen, nextTrackingId, lastPos, log := false, 1, (0, 0), [];
    }

    method Emit(events: seq<Event>)
      modifies this`log
      ensures log == old(log) + events
    {
      log := log + events;
    }

    method EmitRelease()
      modifies this`log, this`contactOpen
      ensures !contactOpen && log == old(log) + Release(lastPos)
    {
      var (x, y) := lastPos;
      contactOpen := false;
      Emit([Slot(0), MtX(x), MtY(y), AbsX(x), AbsY(y), TrackingId(-1), BtnTouch(false), Syn]);
    }

    method AllocTrackingId() returns (id: int)
      modifies this`nextTrackingId
      ensures id == old(nextTrackingId)
      ensures nextTrackingId == if id >= MAX_TRACKING_ID then 1 else id + 1
    {
      id := nextTrackingId;
      nextTrackingId := if nextTrackingId >= MAX_TRACKING_ID then 1 else nextTrackingId + 1;
    }

    method Send(t: Touch)
      modifies this
      ensures var (s, events) := Respond(old(Snapshot()), t);
              Snapshot() == s && log == old(log) + events
    {
      var x, y := ScaleToRange(t.x), ScaleToRange(t.y);
      match t.action {
        case Down =>
          if contactOpen {
            EmitRelease();
          }
          contactOpen := true;
          lastPos := (x, y);
          var id := AllocTrackingId();
          Emit([Slot(0), TrackingId(id), MtX(x), MtY(y), AbsX(x), AbsY(y), BtnTouch(true), Syn]);
          assert [Slot(0), TrackingId(id), MtX(x), MtY(y), AbsX(x), AbsY(y), BtnTouch(true), Syn] == Open(id, x, y);
        case Move =>
          if !contactOpen {
            return;
          }
          lastPos := (x, y);
          Emit([MtX(x), MtY(y), AbsX(x), AbsY(y), Syn]);
          assert [MtX(x), MtY(y), AbsX(x), AbsY(y), Syn] == Position(x, y) + [Syn];
        case _ =>
          if contactOpen {
            if (x, y) != (0, 0) {
              lastPos := (x, y);
            }
            EmitRelease();
          }
      }
    }
  }

  // ----------------------------------------------- an independent reader of the log

  /** The slot's contact, the button, and the last position on either pair of axes. */
  datatype Contact = Contact(tracking: bool, button: bool, mt: (int, int), abs: (int, int))

  /** What the report so far amounts to, what the last whole one has shown, and whether this one has named its slot. */
  datatype Kernel = Kernel(pending: Contact, shown: Contact, named: bool) | Rejected

  function Showing(tracking: bool, pos: (int, int)): Kernel {
    var c := Contact(tracking, tracking, pos, pos);
    Kernel(c, c, false)
  }

  const IDLE := Showing(false, (0, 0))

  /**
   One event under protocol B with one slot: only slot 0, named before its contact opens or closes; a tracking id opens
   a closed slot and -1 closes an open one; positions belong to an open contact and stay in range; the button
   alternates; and nothing is shown before the end of the report, where contact and button must agree, and both pairs
   of axes.
   */
  function Read(k: Kernel, e: Event): Kernel {
    if k.Rejected? then Rejected else
      var c := k.pending;
      match e
      case Slot(n) => if n == 0 then k.(named := true) else Rejected
      case TrackingId(id) =>
        if !k.named then Rejected
        else if id == -1 then (if c.tracking then k.(pending := c.(tracking := false)) else Rejected)
        else if 1 <= id <= 65535 && !c.tracking then k.(pending := c.(tracking := true)) else Rejected
      case MtX(v) => if c.tracking && 0 <= v <= 32767 then k.(pending := c.(mt := (v, c.mt.1))) else Rejected
      case MtY(v) => if c.tracking && 0 <= v <= 32767 then k.(pending := c.(mt := (c.mt.0, v))) else Rejected
      case AbsX(v) => if c.tracking && 0 <= v <= 32767 then k.(pending := c.(abs := (v, c.abs.1))) else Rejected
      case AbsY(v) => if c.tracking && 0 <= v <= 32767 then k.(pending := c.(abs := (c.abs.0, v))) else Rejected
      case BtnTouch(pressed) => if c.button != pressed then k.(pending := c.(button := pressed)) else Rejected
      case Syn => if c.button == c.tracking && c.mt == c.abs then Kernel(c, c, false) else Rejected
  }

  function ReadAll(k: Kernel, log: seq<Event>): Kernel
    decreases |log|
  {
    if log == [] then k else ReadAll(Read(k, log[0]), log[1..])
  }

  lemma {:induction false} ReadAllConcat(k: Kernel, a: seq<Event>, b: seq<Event>)
    ensures ReadAll(k, a + b) == ReadAll(ReadAll(k, a), b)
    decreases |a|
  {
    if a == [] {
      assert a + b == b;
    } else {
      assert (a + b)[1..] == a[1..] + b;
      ReadAllConcat(Read(k, a[0]), a[1..], b);
    }
  }

  predicate InRange(pos: (int, int)) {
    0 <= pos.0 <= 32767 && 0 <= pos.1 <= 32767
  }

  lemma ReadFirst(k: Kernel, e: Event, rest: seq<Event>)
    ensures ReadAll(k, [e] + rest) == ReadAll(Read(k, e), rest)
  {
    assert ([e] + rest)[1..] == rest;
  }

  lemma ReadPosition(k: Kernel, x: int, y: int)
    requires k.Kernel? && k.pending.tracking && InRange((x, y))
    ensures ReadAll(k, Position(x, y)) == k.(pending := k.pending.(mt := (x, y), abs := (x, y)))
  {
    var c := k.pending;
    var k1 := k.(pending := c.(mt := (x, c.mt.1)));
    var k2 := k.(pending := c.(mt := (x, y)));
    var k3 := k.(pending := c.(mt := (x, y), abs := (x, c.abs.1)));
    assert Position(x, y) == [MtX(x)] + ([MtY(y)] + ([AbsX(x)] + ([AbsY(y)] + [])));
    ReadFirst(k, MtX(x), [MtY(y)] + ([AbsX(x)] + ([AbsY(y)] + [])));
    ReadFirst(k1, MtY(y), [AbsX(x)] + ([AbsY(y)] + []));
    ReadFirst(k2, AbsX(x), [AbsY(y)] + []);
    ReadFirst(k3, AbsY(y), []);
  }

  /** The tail of a report that opens or closes the contact. */
  lemma ReadEnd(k: Kernel, pressed: bool)
    requires k.Kernel? && k.pending.tracking == pressed && k.pending.button != pressed && k.pending.mt == k.pending.abs
    ensures ReadAll(k, [BtnTouch(pressed), Syn]) == Showing(pressed, k.pending.mt)
  {
    assert [BtnTouch(pressed), Syn] == [BtnTouch(pressed)] + ([Syn] + []);
    ReadFirst(k, BtnTouch(pressed), [Syn] + []);
    ReadFirst(Read(k, BtnTouch(pressed)), Syn, []);
  }

  lemma ReadOpen(id: int, x: int, y: int, pos: (int, int))
    requires 1 <= id <= MAX_TRACKING_ID && InRange((x, y))
    ensures ReadAll(Showing(false, pos), Open(id, x, y)) == Showing(true, (x, y))
  {
    var k := Showing(false, pos);
    var tail := [BtnTouch(true), Syn];
    assert Open(id, x, y) == [Slot(0)] + ([TrackingId(id)] + (Position(x, y) + tail));
    ReadFirst(k, Slot(0), [TrackingId(id)] + (Position(x, y) + tail));
    ReadFirst(k.(named := true), TrackingId(id), Position(x, y) + tail);
    var begun := k.(pending := k.pending.(tracking := true), named := true);
    ReadAllConcat(begun, Position(x, y), tail);
    ReadPosition(begun, x, y);
    ReadEnd(begun.(pending := begun.pending.(mt := (x, y), abs := (x, y))), true);
  }

  lemma ReadRelease(pos: (int, int), to: (int, int))
    requires InRange(to)
    ensures ReadAll(Showing(true, pos), Release(to)) == Showing(false, to)
  {
    var k := Showing(true, pos);
    var tail := [BtnTouch(false), Syn];
    assert Release(to) == [Slot(0)] + (Position(to.0, to.1) + ([TrackingId(-1)] + tail));
    ReadFirst(k, Slot(0), Position(to.0, to.1) + ([TrackingId(-1)] + tail));
    ReadAllConcat(k.(named := true), Position(to.0, to.1), [TrackingId(-1)] + tail);
    ReadPosition(k.(named := true), to.0, to.1);
    var moved := k.(pending := k.pending.(mt := to, abs := to), named := true);
    ReadFirst(moved, TrackingId(-1), tail);
    ReadEnd(moved.(pending := moved.pending.(tracking := false)), false);
  }

  lemma ReadMove(pos: (int, int), x: int, y: int)
    requires InRange((x, y))
    ensures ReadAll(Showing(true, pos), Position(x, y) + [Syn]) == Showing(true, (x, y))
  {
    var k := Showing(true, pos);
    ReadAllConcat(k, Position(x, y), [Syn]);
    ReadPosition(k, x, y);
    assert [Syn] == [Syn] + [];
    ReadFirst(k.(pending := k.pending.(mt := (x, y), abs := (x, y))), Syn, []);
  }

  /** Where the finger was last seen while in contact, scaled; a release at the origin says nothing about the place. */
  function LastSeen(touches: seq<Touch>): (bool, (int, int)) {
    if touches == [] then (false, (0, 0)) else
      var (open, pos) := LastSeen(touches[..|touches| - 1]);
      var t := touches[|touches| - 1];
      var here := (ScaleToRange(t.x), ScaleToRange(t.y));
      match t.action
      case Down => (true, here)
      case Move => (open, if open then here else pos)
      case _ => (false, if open && here != (0, 0) then here else pos)
  }

  /**
   Whatever actions arrive in whatever order, the event stream is well formed, and after each action the kernel shows
   the contact open exactly while a finger is down and at the place where it was last seen.
   */
  lemma {:induction false} StreamIsWellFormed(touches: seq<Touch>)
    ensures var (s, log), (open, pos) := RespondAll(touches), LastSeen(touches);
            && ReadAll(IDLE, log) == Showing(open, pos)
            && s.contactOpen == open && s.lastPos == pos && InRange(pos) && 1 <= s.nextTrackingId <= MAX_TRACKING_ID
  {
    if touches != [] {
      var init, t := touches[..|touches| - 1], touches[|touches| - 1];
      StreamIsWellFormed(init);
      var (s, log) := RespondAll(init);
      var (open, pos) := LastSeen(init);
      var (s', more) := Respond(s, t);
      var (x, y) := (ScaleToRange(t.x), ScaleToRange(t.y));
      ReadAllConcat(IDLE, log, more);
      match t.action
      case Down =>
        ReadOpen(s.nextTrackingId, x, y, pos);
        if s.contactOpen {
          ReadRelease(pos, pos);
          ReadAllConcat(Showing(open, pos), Release(pos), Open(s.nextTrackingId, x, y));
        } else {
          assert [] + Open(s.nextTrackingId, x, y) == Open(s.nextTrackingId, x, y);
        }
      case Move =>
        if open {
          ReadMove(pos, x, y);
        }
      case _ =>
        if open {
          ReadRelease(pos, s'.lastPos);
        }
    }
  }

  /** Both axes of `a` at or before those of `b`. */
  predicate AtOrBefore(a: (int, int), b: (int, int)) {
    a.0 <= b.0 && a.1 <= b.1
  }

  /** A finger that never turns back on either axis is never seen to: the kernel's positions keep the finger's order. */
  lemma SweepNeverTurnsBack(touches: seq<Touch>, t: Touch, u: Touch)
    requires LastSeen(touches).0 && t.action.Move? && u.action.Move? && t.x <= u.x && t.y <= u.y
    ensures var once, twice := touches + [t], touches + [t] + [u];
            var k, k' := ReadAll(IDLE, RespondAll(once).1), ReadAll(IDLE, RespondAll(twice).1);
            k.Kernel? && k'.Kernel? && AtOrBefore(k.shown.mt, k'.shown.mt) && AtOrBefore(k.shown.abs, k'.shown.abs)
  {
    var once, twice := touches + [t], touches + [t] + [u];
    assert once[..|touches|] == touches && twice[..|once|] == once;
    StreamIsWellFormed(once);
    StreamIsWellFormed(twice);
    assert LastSeen(once) == (true, (ScaleToRange(t.x), ScaleToRange(t.y)));
    assert LastSeen(twice) == (true, (ScaleToRange(u.x), ScaleToRange(u.y)));
  }

  // ---------------------------------------------------------------- tracking ids

  function Ids(log: seq<Event>): seq<int> {
    if log == [] then [] else
      Ids(log[..|log| - 1]) + (if log[|log| - 1].TrackingId? && log[|log| - 1].id >= 0 then [log[|log| - 1].id] else [])
  }

  lemma {:induction false} IdsConcat(a: seq<Event>, b: seq<Event>)
    ensures Ids(a + b) == Ids(a) + Ids(b)
  {
    if b == [] {
      assert a + b == a;
    } else {
      assert (a + b)[..|a + b| - 1] == a + b[..|b| - 1];
      IdsConcat(a, b[..|b| - 1]);
    }
  }

  lemma {:induction false} NoIds(log: seq<Event>)
    requires forall i :: 0 <= i < |log| ==> log[i].TrackingId? ==> log[i].id < 0
    ensures Ids(log) == []
  {
    if log != [] {
      NoIds(log[..|log| - 1]);
    }
  }

  function Downs(touches: seq<Touch>): nat {
    if touches == [] then 0 else
      Downs(touches[..|touches| - 1]) + (if touches[|touches| - 1].action.Down? then 1 else 0)
  }

  lemma RespondIds(s: Screen, t: Touch)
    ensures Ids(Respond(s, t).1) == if t.action.Down? && s.nextTrackingId >= 0 then [s.nextTrackingId] else []
  {
    if t.action.Down? {
      var head := (if s.contactOpen then Release(s.lastPos) else []) + [Slot(0)];
      var tail := Position(ScaleToRange(t.x), ScaleToRange(t.y)) + [BtnTouch(true), Syn];
      var id := TrackingId(s.nextTrackingId);
      assert Respond(s, t).1 == head + [id] + tail;
      IdsConcat(head + [id], tail);
      NoIds(head);
      NoIds(tail);
      assert (head + [id])[..|head|] == head;
    } else {
      NoIds(Respond(s, t).1);
    }
  }

  /** The id of the k-th contact. */
  function IdOf(k: nat): (id: int)
    ensures 1 <= id <= 65535
  {
    k % 65535 + 1
  }

  lemma NextId(k: nat)
    ensures IdOf(k + 1) == if IdOf(k) >= MAX_TRACKING_ID then 1 else IdOf(k) + 1
  {
  }

  /** The ids of `n` contacts, and the next. */
  predicate Counted(s: Screen, ids: seq<int>, n: nat) {
    |ids| == n && s.nextTrackingId == IdOf(n) && forall k :: 0 <= k < n ==> ids[k] == IdOf(k)
  }

  lemma CountedStep(s: Screen, ids: seq<int>, n: nat, t: Touch)
    requires Counted(s, ids, n)
    ensures var (s', more) := Respond(s, t);
            Counted(s', ids + Ids(more), n + if t.action.Down? then 1 else 0)
  {
    RespondIds(s, t);
    NextId(n);
  }

  /** The k-th contact has id k mod 65535 + 1, one for every Down. */
  lemma {:induction false} IdsCount(touches: seq<Touch>)
    ensures var (s, log) := RespondAll(touches); Counted(s, Ids(log), Downs(touches))
  {
    if touches != [] {
      var init, t := touches[..|touches| - 1], touches[|touches| - 1];
      IdsCount(init);
      var (s, log) := RespondAll(init);
      IdsConcat(log, Respond(s, t).1);
      CountedStep(s, Ids(log), Downs(init), t);
    }
  }

  /** Every Down opens a contact with an id of its own: any 65535 contacts in a row have different ids. */
  lemma IdsDistinct(touches: seq<Touch>, i: nat, j: nat)
    requires i < j < Downs(touches) && j - i < 65535
    ensures var ids := Ids(RespondAll(touches).1);
            |ids| == Downs(touches) && 1 <= ids[i] <= 65535 && ids[i] != ids[j]
  {
    IdsCount(touches);
  }
}
