/**
 What a compositor's constraint events amount to (crates/capture/src/session.rs): the capabilities they describe, how
 they add up when several sets arrive before a pool is built, and the format chosen from them.
 */
module CaptureCaps {
  import opened Bytes
  import opened Wrappers
  import opened Sequences

  datatype Caps = Caps(size: Option<(u32, u32)>, shm: seq<u32>, dmabuf: seq<(u32, seq<u64>)>, device: Option<u64>)

  const NO_CAPS := Caps(None, [], [], None)

  /** An unknown shm format and a device id too short to read are events that carry nothing. */
  datatype Event =
    | BufferSize(width: u32, height: u32)
    | ShmFormat(shm: Option<u32>)
    | DmabufDevice(device: Option<u64>)
    | DmabufFormat(fourcc: u32, modifiers: seq<u64>)
    | Done
    | Stopped

  predicate IsConstraint(e: Event) {
    !e.Done? && !e.Stopped?
  }

  predicate AnyConstraint(es: seq<Event>) {
    exists i :: 0 <= i < |es| && IsConstraint(es[i])
  }

  function LastSize(es: seq<Event>): Option<(u32, u32)> {
    if es == [] then None else
    var e := es[|es| - 1];
    if e.BufferSize? then Some((e.width, e.height)) else LastSize(es[..|es| - 1])
  }

  function LastDevice(es: seq<Event>): Option<u64> {
    if es == [] then None else
    var e := es[|es| - 1];
    if e.DmabufDevice? && e.device.Some? then e.device else LastDevice(es[..|es| - 1])
  }

  function ShmFormats(es: seq<Event>): seq<u32> {
    if es == [] then [] else
    var e := es[|es| - 1];
    ShmFormats(es[..|es| - 1]) + if e.ShmFormat? && e.shm.Some? then [e.shm.value] else []
  }

  function DmabufFormats(es: seq<Event>): seq<(u32, seq<u64>)> {
    if es == [] then [] else
    var e := es[|es| - 1];
    DmabufFormats(es[..|es| - 1]) + if e.DmabufFormat? then [(e.fourcc, e.modifiers)] else []
  }

  /** Kind by kind, so the order in which events of different kinds arrive does not matter. */
  function CapsOf(es: seq<Event>): Caps {
    Caps(LastSize(es), ShmFormats(es), DmabufFormats(es), LastDevice(es))
  }

  function Later<T>(a: Option<T>, b: Option<T>): Option<T> {
    if b.Some? then b else a
  }

  /** Two sets that arrive before either is used add up: the later size and device win, the format lists are joined. */
  lemma {:induction false} CapsAddUp(a: seq<Event>, b: seq<Event>)
    ensures LastSize(a + b) == Later(LastSize(a), LastSize(b))
    ensures LastDevice(a + b) == Later(LastDevice(a), LastDevice(b))
    ensures ShmFormats(a + b) == ShmFormats(a) + ShmFormats(b)
    ensures DmabufFormats(a + b) == DmabufFormats(a) + DmabufFormats(b)
  {
    if b == [] {
      NothingAdded(a);
    } else {
      BackOfConcat(a, b);
      CapsAddUp(a, b[..|b| - 1]);
    }
  }

  /**
   So a set counts alone among others exactly when they list no format, those before it set nothing it leaves out and
   those after it set nothing to another value.
   */
  lemma MiddleSetAlone(a: seq<Event>, b: seq<Event>, c: seq<Event>)
    ensures CapsOf(a + b + c) == CapsOf(b) <==>
            && ShmFormats(a) == ShmFormats(c) == [] && DmabufFormats(a) == DmabufFormats(c) == []
            && (LastSize(a).Some? ==> LastSize(b).Some?) && (LastDevice(a).Some? ==> LastDevice(b).Some?)
            && (LastSize(c).Some? ==> LastSize(c) == LastSize(b))
            && (LastDevice(c).Some? ==> LastDevice(c) == LastDevice(b))
  {
    CapsAddUp(a, b);
    CapsAddUp(a + b, c);
    MiddleAlone(ShmFormats(a), ShmFormats(b), ShmFormats(c));
    MiddleAlone(DmabufFormats(a), DmabufFormats(b), DmabufFormats(c));
  }

  lemma MiddleAlone<T>(a: seq<T>, b: seq<T>, c: seq<T>)
    ensures a + b + c == b <==> a == [] && c == []
  {
    if a + b + c == b {
      assert |a| + |b| + |c| == |b|;
    }
  }

  function Kind(e: Event): nat {
    match e
    case BufferSize(_, _) => 0
    case ShmFormat(_) => 1
    case DmabufDevice(_) => 2
    case DmabufFormat(_, _) => 3
    case Done => 4
    case Stopped => 5
  }

  /** One event of the current set, as the event handler records it. */
  function Note(caps: Caps, e: Event): Caps {
    match e
    case BufferSize(w, h) => caps.(size := Some((w, h)))
    case ShmFormat(f) => if f.Some? then caps.(shm := caps.shm + [f.value]) else caps
    case DmabufDevice(d) => if d.Some? then caps.(device := d) else caps
    case DmabufFormat(f, ms) => caps.(dmabuf := caps.dmabuf + [(f, ms)])
    case Done => caps
    case Stopped => caps
  }

  lemma NoteAdds(es: seq<Event>, e: Event)
    ensures CapsOf(es + [e]) == Note(CapsOf(es), e)
  {
    BackOfSnoc(es, e);
  }

  /** The events of one kind, in order. */
  function OfKind(es: seq<Event>, kind: nat): seq<Event> {
    if es == [] then [] else
      var e := es[|es| - 1];
      OfKind(es[..|es| - 1], kind) + if Kind(e) == kind then [e] else []
  }

  lemma {:induction false} SizesDecide(es: seq<Event>)
    ensures LastSize(es) == LastSize(OfKind(es, 0))
  {
    if es != [] {
      var init, e := es[..|es| - 1], es[|es| - 1];
      SizesDecide(init);
      BackOfSnoc(OfKind(init, 0), e);
      NothingAdded(OfKind(init, 0));
    }
  }

  lemma {:induction false} ShmFormatsDecide(es: seq<Event>)
    ensures ShmFormats(es) == ShmFormats(OfKind(es, 1))
  {
    if es != [] {
      var init, e := es[..|es| - 1], es[|es| - 1];
      ShmFormatsDecide(init);
      BackOfSnoc(OfKind(init, 1), e);
      NothingAdded(OfKind(init, 1));
      NothingAdded(ShmFormats(init));
    }
  }

  lemma {:induction false} DevicesDecide(es: seq<Event>)
    ensures LastDevice(es) == LastDevice(OfKind(es, 2))
  {
    if es != [] {
      var init, e := es[..|es| - 1], es[|es| - 1];
      DevicesDecide(init);
      BackOfSnoc(OfKind(init, 2), e);
      NothingAdded(OfKind(init, 2));
    }
  }

  lemma {:induction false} DmabufFormatsDecide(es: seq<Event>)
    ensures DmabufFormats(es) == DmabufFormats(OfKind(es, 3))
  {
    if es != [] {
      var init, e := es[..|es| - 1], es[|es| - 1];
      DmabufFormatsDecide(init);
      BackOfSnoc(OfKind(init, 3), e);
      NothingAdded(OfKind(init, 3));
      NothingAdded(DmabufFormats(init));
    }
  }

  lemma KindsDecide(es: seq<Event>)
    ensures CapsOf(es) == Caps(LastSize(OfKind(es, 0)), ShmFormats(OfKind(es, 1)),
                               DmabufFormats(OfKind(es, 3)), LastDevice(OfKind(es, 2)))
  {
    SizesDecide(es);
    ShmFormatsDecide(es);
    DevicesDecide(es);
    DmabufFormatsDecide(es);
  }

  /** Two sets with the same events of each kind in the same order amount to the same, however the kinds are mixed. */
  lemma KindsCommute(a: seq<Event>, b: seq<Event>)
    requires forall kind: nat :: kind < 4 ==> OfKind(a, kind) == OfKind(b, kind)
    ensures CapsOf(a) == CapsOf(b)
  {
    KindsDecide(a);
    KindsDecide(b);
    assert OfKind(a, 0) == OfKind(b, 0) && OfKind(a, 1) == OfKind(b, 1);
    assert OfKind(a, 2) == OfKind(b, 2) && OfKind(a, 3) == OfKind(b, 3);
  }

  const XR24: u32 := 0x34325258
  const AR24: u32 := 0x34325241

  /** The modifiers of the first entry for a format. */
  function Offered(formats: seq<(u32, seq<u64>)>, wanted: u32): Option<seq<u64>> {
    if formats == [] then None
    else if formats[0].0 == wanted then Some(formats[0].1)
    else Offered(formats[1..], wanted)
  }

  function FirstShared(allowed: seq<u64>, offered: seq<u64>): (r: Option<u64>)
    ensures r.Some? ==> r.value in allowed && r.value in offered
    ensures r.None? ==> forall m :: m in allowed ==> m !in offered
  {
    if allowed == [] then None
    else if allowed[0] in offered then Some(allowed[0])
    else FirstShared(allowed[1..], offered)
  }

  /** The choice for one format: everything it offers, or the consumer's first choice among that. */
  function Choice(formats: seq<(u32, seq<u64>)>, allowed: seq<u64>, wanted: u32): Option<(u32, seq<u64>)> {
    match Offered(formats, wanted)
    case None => None
    case Some(offered) =>
      if allowed == [] then Some((wanted, offered))
      else match FirstShared(allowed, offered)
           case Some(m) => Some((wanted, [m]))
           case None => None
  }

  method PickDmabufFormat(formats: seq<(u32, seq<u64>)>, allowed: seq<u64>) returns (r: Option<(u32, seq<u64>)>)
    ensures r == Picked(formats, allowed)
  {
    var wanted := [XR24, AR24];
    for i := 0 to 2
      invariant forall j :: 0 <= j < i ==> Choice(formats, allowed, wanted[j]) == None
    {
      var offered := Offered(formats, wanted[i]);
      assert i > 0 ==> Choice(formats, allowed, wanted[0]) == None;
      if offered.Some? {
        assert allowed == [] ==> Choice(formats, allowed, wanted[i]) == Some((wanted[i], offered.value));
        if allowed == [] {
          return Some((wanted[i], offered.value));
        }
        var modifier := FirstShared(allowed, offered.value);
        if modifier.Some? {
          return Some((wanted[i], [modifier.value]));
        }
      }
    }
    assert Choice(formats, allowed, wanted[0]) == None && Choice(formats, allowed, wanted[1]) == None;
    r := None;
  }

  function Picked(formats: seq<(u32, seq<u64>)>, allowed: seq<u64>): Option<(u32, seq<u64>)> {
    if Choice(formats, allowed, XR24).Some? then Choice(formats, allowed, XR24) else Choice(formats, allowed, AR24)
  }

  predicate IsBestAt(allowed: seq<u64>, offered: seq<u64>, m: u64, k: nat) {
    k < |allowed| && allowed[k] == m && m in offered && forall j :: 0 <= j < k ==> allowed[j] !in offered
  }

  /** The first of the consumer's modifiers that is offered. */
  predicate IsBest(allowed: seq<u64>, offered: seq<u64>, m: u64) {
    exists k :: 0 <= k < |allowed| && IsBestAt(allowed, offered, m, k)
  }

  predicate GoodPick(formats: seq<(u32, seq<u64>)>, allowed: seq<u64>, fourcc: u32, modifiers: seq<u64>) {
    && (fourcc == XR24 || (fourcc == AR24 && !Shares(formats, allowed, XR24)))
    && Offered(formats, fourcc).Some?
    && |modifiers| == 1 && IsBest(allowed, Offered(formats, fourcc).value, modifiers[0])
  }

  /**
   A restricted consumer gets exactly one modifier, one that it accepts and the compositor offers for that format, and
   none it prefers is offered; it gets nothing exactly when neither format offers any it accepts.
   */
  lemma PickedIsShared(formats: seq<(u32, seq<u64>)>, allowed: seq<u64>)
    requires allowed != []
    ensures var r := Picked(formats, allowed);
            if r.Some? then GoodPick(formats, allowed, r.value.0, r.value.1)
            else !Shares(formats, allowed, XR24) && !Shares(formats, allowed, AR24)
  {
    var r := Picked(formats, allowed);
    if r.Some? {
      var k := SharedAt(allowed, Offered(formats, r.value.0).value);
    }
  }

  predicate Shares(formats: seq<(u32, seq<u64>)>, allowed: seq<u64>, fourcc: u32) {
    Offered(formats, fourcc).Some? && exists m :: m in allowed && m in Offered(formats, fourcc).value
  }

  lemma {:induction false} SharedAt(allowed: seq<u64>, offered: seq<u64>) returns (k: nat)
    requires FirstShared(allowed, offered).Some?
    ensures IsBestAt(allowed, offered, FirstShared(allowed, offered).value, k)
  {
    k := 0;
    if allowed[0] !in offered {
      k := SharedAt(allowed[1..], offered);
      k := k + 1;
      forall j | 0 <= j < k ensures allowed[j] !in offered {
        assert j > 0 ==> allowed[j] == allowed[1..][j - 1];
      }
    }
  }

  /** Formats that add up are searched oldest first: what an earlier set said of a format is what is chosen from. */
  lemma {:induction false} EarlierOfferWins(a: seq<(u32, seq<u64>)>, b: seq<(u32, seq<u64>)>, wanted: u32)
    ensures Offered(a + b, wanted) == if Offered(a, wanted).Some? then Offered(a, wanted) else Offered(b, wanted)
  {
    if a == [] {
      assert a + b == b;
    } else {
      assert (a + b)[1..] == a[1..] + b;
      EarlierOfferWins(a[1..], b, wanted);
    }
  }
}
