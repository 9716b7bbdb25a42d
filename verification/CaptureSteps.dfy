/**
 What a capture session does (crates/capture/src/session.rs), as relations between its states: which of the dispatches
 still to come each operation takes, what it hands back, and what it leaves. The only thing not determined by the
 dispatches is whether the environment refuses: lets the deadline pass, or fails to allocate a buffer.
 */
module CaptureSteps {
  import opened Wrappers
  import opened CaptureCaps
  import opened CaptureGenerations
  import opened Bytes
  import opened Sequences

  datatype FailureReason = Unknown | BufferConstraints | SessionStopped

  /** What a dispatch may deliver: an event of the session or of the frame in flight. */
  datatype Incoming =
    | OfSession(event: Event)
    | PresentationTime(ns: u64)
    | Ready
    | Failed(reason: FailureReason)
    | FailedRaw(raw: u32)

  datatype Mode = Shm | Dmabuf
  datatype Buffer = Buffer(width: u32, height: u32, format: u32)
  datatype Pool = Pool(buffers: seq<Buffer>, width: u32, height: u32, caps: Caps, format: u32)
  datatype Outcome = Frame(index: nat, presentationNs: Option<u64>) | Constraints | StoppedByCompositor | Other

  datatype Config = Config(mode: Mode, poolSize: nat, allowed: seq<u64>)

  /**
   A session between two operations; `builds` are the session events each pool so far was built on, those that had
   arrived since the pool before.
   */
  datatype State = State(history: History, builds: seq<seq<Event>>, stopped: bool, incoming: seq<seq<Incoming>>,
                         pool: Pool, nextBuffer: nat, geometryChanged: bool)

  // ------------------------------------------------------------ what arrives

  function SessionEvents(ins: seq<Incoming>): seq<Event> {
    if ins == [] then [] else
    SessionEvents(ins[..|ins| - 1]) + if ins[|ins| - 1].OfSession? then [ins[|ins| - 1].event] else []
  }

  /** The known reason given last. */
  function LastReason(ins: seq<Incoming>): Option<FailureReason> {
    if ins == [] then None
    else if ins[|ins| - 1].Failed? then Some(ins[|ins| - 1].reason)
    else LastReason(ins[..|ins| - 1])
  }

  /** The unknown reason given last. */
  function LastRaw(ins: seq<Incoming>): Option<u32> {
    if ins == [] then None
    else if ins[|ins| - 1].FailedRaw? then Some(ins[|ins| - 1].raw)
    else LastRaw(ins[..|ins| - 1])
  }

  function LastTime(ins: seq<Incoming>): Option<u64> {
    if ins == [] then None
    else if ins[|ins| - 1].PresentationTime? then Some(ins[|ins| - 1].ns)
    else LastTime(ins[..|ins| - 1])
  }

  lemma {:induction false} EventsConcat(a: seq<Incoming>, b: seq<Incoming>)
    ensures SessionEvents(a + b) == SessionEvents(a) + SessionEvents(b)
  {
    if b == [] {
      NothingAdded(a);
    } else {
      BackOfConcat(a, b);
      EventsConcat(a, b[..|b| - 1]);
    }
  }

  lemma {:induction false} LastConcat(a: seq<Incoming>, b: seq<Incoming>)
    ensures LastReason(a + b) == Later(LastReason(a), LastReason(b))
    ensures LastRaw(a + b) == Later(LastRaw(a), LastRaw(b))
    ensures LastTime(a + b) == Later(LastTime(a), LastTime(b))
  {
    if b == [] {
      NothingAdded(a);
    } else {
      BackOfConcat(a, b);
      LastConcat(a, b[..|b| - 1]);
    }
  }

  /** What the frame handler has noted. */
  datatype Flags = Flags(ready: bool, failed: Option<FailureReason>, failedRaw: Option<u32>,
                         presentationNs: Option<u64>)

  const NO_FLAGS := Flags(false, None, None, None)

  function FlagsAfter(f: Flags, ins: seq<Incoming>): Flags {
    Flags(f.ready || Ready in ins, Later(f.failed, LastReason(ins)), Later(f.failedRaw, LastRaw(ins)),
          Later(f.presentationNs, LastTime(ins)))
  }

  lemma FlagsConcat(f: Flags, a: seq<Incoming>, b: seq<Incoming>)
    ensures FlagsAfter(f, a + b) == FlagsAfter(FlagsAfter(f, a), b)
  {
    LastConcat(a, b);
  }

  function Extended(h: History, es: seq<Event>): History {
    h.(since := h.since + es)
  }

  /** What the frame handler makes of one event. */
  function Noted(f: Flags, i: Incoming): Flags {
    match i
    case OfSession(_) => f
    case PresentationTime(ns) => f.(presentationNs := Some(ns))
    case Ready => f.(ready := true)
    case Failed(reason) => f.(failed := Some(reason))
    case FailedRaw(raw) => f.(failedRaw := Some(raw))
  }

  lemma OneMoreFlag(f: Flags, ins: seq<Incoming>, i: Incoming)
    ensures FlagsAfter(f, ins + [i]) == Noted(FlagsAfter(f, ins), i)
  {
    BackOfSnoc(ins, i);
  }

  /** Everything the event handlers keep. */
  datatype Handlers = Handlers(notes: Notes, stopped: bool, flags: Flags)

  function Handled(h: Handlers, i: Incoming): Handlers {
    if i.OfSession? then h.(notes := NotesAfter(h.notes, i.event), stopped := h.stopped || i.event.Stopped?)
    else h.(flags := Noted(h.flags, i))
  }

  /** One event after another; what it comes to is `HandledIs`. */
  function HandledAll(h: Handlers, ins: seq<Incoming>): Handlers {
    if ins == [] then h else Handled(HandledAll(h, ins[..|ins| - 1]), ins[|ins| - 1])
  }

  lemma OneMoreHandled(h: Handlers, ins: seq<Incoming>, n: nat)
    requires n < |ins|
    ensures HandledAll(h, ins[..n + 1]) == Handled(HandledAll(h, ins[..n]), ins[n])
  {
    assert ins[..n + 1][..n] == ins[..n];
  }

  lemma OneMoreEvent(n: Notes, ins: seq<Incoming>, e: Event)
    ensures SessionEvents(ins + [OfSession(e)]) == SessionEvents(ins) + [e]
    ensures NotesAfterAll(n, SessionEvents(ins) + [e]) == NotesAfter(NotesAfterAll(n, SessionEvents(ins)), e)
    ensures Stopped in SessionEvents(ins) + [e] <==> Stopped in SessionEvents(ins) || e.Stopped?
  {
    BackOfSnoc(ins, OfSession(e));
    BackOfSnoc(SessionEvents(ins), e);
  }

  lemma NoMoreEvents(ins: seq<Incoming>, i: Incoming)
    requires !i.OfSession?
    ensures SessionEvents(ins + [i]) == SessionEvents(ins)
  {
    BackOfSnoc(ins, i);
    NothingAdded(SessionEvents(ins));
  }

  lemma {:induction false} HandledIs(h: Handlers, ins: seq<Incoming>)
    ensures HandledAll(h, ins) == Handlers(NotesAfterAll(h.notes, SessionEvents(ins)),
                                           h.stopped || Stopped in SessionEvents(ins), FlagsAfter(h.flags, ins))
  {
    if ins != [] {
      var init, i := ins[..|ins| - 1], ins[|ins| - 1];
      HandledIs(h, init);
      SplitBack(ins);
      OneMoreFlag(h.flags, init, i);
      if i.OfSession? {
        OneMoreEvent(h.notes, init, i.event);
      } else {
        NoMoreEvents(init, i);
      }
    }
  }

  /** The dispatches' contents one after another. */
  function Flat(ds: seq<seq<Incoming>>): seq<Incoming> {
    if ds == [] then [] else Flat(ds[..|ds| - 1]) + ds[|ds| - 1]
  }

  lemma {:induction false} FlatConcat(a: seq<seq<Incoming>>, b: seq<seq<Incoming>>)
    ensures Flat(a + b) == Flat(a) + Flat(b)
  {
    if b == [] {
      NothingAdded(a);
      NothingAdded(Flat(a));
    } else {
      BackOfConcat(a, b);
      FlatConcat(a, b[..|b| - 1]);
      Regroup(Flat(a), Flat(b[..|b| - 1]), b[|b| - 1]);
    }
  }

  /** Everything the next `n` dispatches deliver. */
  function Arrived(s: State, n: nat): seq<Incoming>
    requires n <= |s.incoming|
  {
    if n == 0 then [] else Arrived(s, n - 1) + s.incoming[n - 1]
  }

  function Dispatched(s: State): State
    requires s.incoming != []
  {
    var es := SessionEvents(s.incoming[0]);
    s.(incoming := s.incoming[1..], history := Extended(s.history, es), stopped := s.stopped || Stopped in es)
  }

  /** The state after taking `n` dispatches, and nothing else. */
  function After(s: State, n: nat): (t: State)
    requires n <= |s.incoming|
    ensures |t.incoming| == |s.incoming| - n
  {
    if n == 0 then s else Dispatched(After(s, n - 1))
  }

  lemma {:induction false} ArrivedIsFlat(s: State, n: nat)
    requires n <= |s.incoming|
    ensures Arrived(s, n) == Flat(s.incoming[..n])
  {
    if n > 0 {
      ArrivedIsFlat(s, n - 1);
      assert s.incoming[..n] == s.incoming[..n - 1] + [s.incoming[n - 1]];
      BackOfSnoc(s.incoming[..n - 1], s.incoming[n - 1]);
    }
  }

  /** Taken one by one or all at once, the dispatches' events are the same. */
  lemma {:induction false} AfterIs(s: State, n: nat)
    requires n <= |s.incoming|
    ensures var es := SessionEvents(Arrived(s, n));
            After(s, n) == s.(incoming := s.incoming[n..], history := Extended(s.history, es),
                              stopped := s.stopped || Stopped in es)
  {
    if n == 0 {
      NothingAdded(s.history.since);
    } else {
      AfterIs(s, n - 1);
      var es, more := SessionEvents(Arrived(s, n - 1)), SessionEvents(s.incoming[n - 1]);
      EventsConcat(Arrived(s, n - 1), s.incoming[n - 1]);
      Regroup(s.history.since, es, more);
      InConcat(Stopped, es, more);
      assert s.incoming[n - 1..][1..] == s.incoming[n..];
    }
  }

  lemma InConcat<T>(x: T, a: seq<T>, b: seq<T>)
    ensures x in a + b <==> x in a || x in b
  {
  }

  /** Dispatching touches neither the pool nor what has been built. */
  lemma {:induction false} AfterKeeps(s: State, n: nat)
    requires n <= |s.incoming|
    ensures var t := After(s, n); t == s.(incoming := t.incoming, history := t.history, stopped := t.stopped)
  {
    if n > 0 {
      AfterKeeps(s, n - 1);
    }
  }

  lemma AfterOneMore(s: State, n: nat)
    requires n < |s.incoming|
    ensures After(s, n + 1) == Dispatched(After(s, n)) && After(s, n).incoming[0] == s.incoming[n]
    ensures Arrived(s, n + 1) == Arrived(s, n) + s.incoming[n]
  {
    AfterIs(s, n);
  }

  // ------------------------------------------------------------ one frame

  /** The frame in flight is over. */
  predicate Ended(ins: seq<Incoming>) {
    Ready in ins || LastReason(ins).Some? || LastRaw(ins).Some?
  }

  lemma NothingInFlight(s: State)
    ensures After(s, 0) == s && Arrived(s, 0) == [] && !Ended([]) && FlagsAfter(NO_FLAGS, []) == NO_FLAGS
  {
  }

  /** A known reason is preferred to an unknown one, and either to the frame. */
  function OutcomeOf(ins: seq<Incoming>, index: nat): Outcome {
    match LastReason(ins)
    case Some(BufferConstraints) => Constraints
    case Some(SessionStopped) => StoppedByCompositor
    case Some(Unknown) => Other
    case None => if Ready in ins && LastRaw(ins) == None then Frame(index, LastTime(ins)) else Other
  }

  lemma EndedFromFlags(ins: seq<Incoming>)
    ensures var f := FlagsAfter(NO_FLAGS, ins); Ended(ins) <==> f.ready || f.failed.Some? || f.failedRaw.Some?
  {
  }

  /** The same by what the frame handler has noted once the frame is over. */
  function OutcomeFrom(f: Flags, index: nat): Outcome {
    match f.failed
    case Some(BufferConstraints) => Constraints
    case Some(SessionStopped) => StoppedByCompositor
    case Some(Unknown) => Other
    case None => if f.failedRaw.Some? then Other else Frame(index, f.presentationNs)
  }

  lemma OutcomeFromFlags(ins: seq<Incoming>, index: nat)
    requires Ended(ins)
    ensures OutcomeOf(ins, index) == OutcomeFrom(FlagsAfter(NO_FLAGS, ins), index)
  {
  }

  lemma NotEnded(ins: seq<Incoming>, index: nat)
    requires !Ended(ins)
    ensures OutcomeOf(ins, index) == Other
  {
  }

  predicate CanTry(s: State) {
    !s.stopped && s.pool.buffers != []
  }

  /** The frame was in flight before each of the next `n` dispatches. */
  predicate StillInFlight(s: State, n: nat) {
    n <= |s.incoming| && (n > 0 ==> StillInFlight(s, n - 1) && !Ended(Arrived(s, n - 1)))
  }

  /** A capture takes the dispatches up to the frame's end, or all if it does not end. */
  predicate TryTakes(s: State, n: nat) {
    if !CanTry(s) then n == 0 else StillInFlight(s, n) && (Ended(Arrived(s, n)) || n == |s.incoming|)
  }

  function TryOutcome(s: State, n: nat): Outcome
    requires n <= |s.incoming|
  {
    if s.stopped then StoppedByCompositor
    else if s.pool.buffers == [] then Other
    else OutcomeOf(Arrived(s, n), s.nextBuffer)
  }

  /** The capture was into the next buffer of the pool; the one after is next. */
  function Tried(s: State, n: nat): State
    requires n <= |s.incoming|
  {
    if !CanTry(s) then s
    else After(s, n).(nextBuffer := (s.nextBuffer + 1) % |s.pool.buffers|)
  }

  // ------------------------------------------------------------ the pool

  const XRGB8888: u32 := 1
  const ARGB8888: u32 := 0

  function PickShmFormat(formats: seq<u32>): Option<u32> {
    if XRGB8888 in formats then Some(XRGB8888) else if ARGB8888 in formats then Some(ARGB8888) else None
  }

  /** The format a pool gets, if the capabilities allow one at all. */
  function FormatFor(mode: Mode, caps: Caps, allowed: seq<u64>): Option<u32> {
    if mode.Shm? then PickShmFormat(caps.shm)
    else if caps.device == None then None
    else match Picked(caps.dmabuf, allowed)
         case Some((format, _)) => Some(format)
         case None => None
  }

  function Buffers(n: nat, w: u32, h: u32, f: u32): (bs: seq<Buffer>)
    ensures |bs| == n && forall i :: 0 <= i < n ==> bs[i] == Buffer(w, h, f)
  {
    seq(n, _ => Buffer(w, h, f))
  }

  /** The one pool the capabilities allow: as many buffers as configured, all of the size and the format. */
  function PoolFrom(c: Config, caps: Caps): Option<Pool> {
    match caps.size
    case None => None
    case Some((w, h)) =>
      match FormatFor(c.mode, caps, c.allowed)
      case None => None
      case Some(f) => Some(Pool(Buffers(c.poolSize, w, h, f), w, h, caps, f))
  }

  function NoPool(s: State): State {
    s.(pool := s.pool.(buffers := []))
  }

  function WithPool(s: State, p: Pool): State {
    s.(pool := p, nextBuffer := 0, history := History(Some(p.caps), []), builds := s.builds + [s.history.since])
  }

  /** A pool can be built and nothing stands in the way. */
  predicate CanRebuild(c: Config, s: State, refused: bool) {
    PoolFrom(c, Current(s.history)).Some? && !refused
  }

  /** The old pool goes; the new one is built from the constraints that apply, whole or not at all. */
  function Rebuilt(c: Config, s: State, refused: bool): State {
    if CanRebuild(c, s, refused) then WithPool(s, PoolFrom(c, Current(s.history)).value) else NoPool(s)
  }

  /** Nothing was awaited that was not needed: before dispatch `n` the constraints were open and the session going. */
  predicate Waits(s: State, n: nat) {
    && n <= |s.incoming|
    && (n > 0 ==> Waits(s, n - 1) && !Settled(After(s, n - 1).history) && !After(s, n - 1).stopped)
  }

  lemma NothingAwaited(s: State)
    ensures After(s, 0) == s && Waits(s, 0)
  {
  }

  /** Negotiating again takes the dispatches up to a settled set, a stop, the end, or the deadline. */
  predicate RenegotiateTakes(c: Config, s: State, n: nat, refused: bool) {
    && Waits(s, n)
    && var w := After(s, n);
       if Settled(w.history) then refused ==> PoolFrom(c, Current(w.history)).Some?
       else if w.stopped then !refused
       else refused || n == |s.incoming|
  }

  predicate SameSize(p: Pool, q: Pool) {
    p.width == q.width && p.height == q.height
  }

  /** A change of size is reported. */
  function Replaced(c: Config, s: State, refused: bool): State {
    var t := Rebuilt(c, s, refused);
    t.(geometryChanged := t.geometryChanged || !SameSize(t.pool, s.pool))
  }

  /** A rebuild is a success if the size is as before. */
  predicate ReplaceOk(c: Config, s: State, refused: bool) {
    CanRebuild(c, s, refused) && SameSize(Rebuilt(c, s, refused).pool, s.pool)
  }

  function Renegotiated(c: Config, s: State, n: nat, refused: bool): State
    requires n <= |s.incoming|
  {
    var w := After(s, n);
    if Settled(w.history) then Replaced(c, w, refused) else w
  }

  predicate RenegotiateOk(c: Config, s: State, n: nat, refused: bool)
    requires n <= |s.incoming|
  {
    Settled(After(s, n).history) && ReplaceOk(c, After(s, n), refused)
  }

  /** How many dispatches a call took: for its capture, for negotiating again, and for capturing again. */
  datatype Taken = Taken(first: nat, awaited: nat, second: nat)

  /** A whole call: capture, and if the pool is rejected rebuild it and capture once more. */
  predicate Captured(c: Config, s: State, taken: Taken, refused: bool, r: Outcome, s': State) {
    && TryTakes(s, taken.first)
    && var s1 := Tried(s, taken.first);
       if TryOutcome(s, taken.first) != Constraints then
         && taken.awaited == taken.second == 0 && !refused
         && r == TryOutcome(s, taken.first) && s' == s1
       else
         && RenegotiateTakes(c, s1, taken.awaited, refused)
         && var s2 := Renegotiated(c, s1, taken.awaited, refused);
            if !RenegotiateOk(c, s1, taken.awaited, refused) then taken.second == 0 && r == Other && s' == s2
            else TryTakes(s2, taken.second) && r == TryOutcome(s2, taken.second) && s' == Tried(s2, taken.second)
  }

  lemma CapturedAtOnce(c: Config, s: State, n: nat)
    requires TryTakes(s, n) && TryOutcome(s, n) != Constraints
    ensures Captured(c, s, Taken(n, 0, 0), false, TryOutcome(s, n), Tried(s, n))
  {
  }

  lemma CapturedNot(c: Config, s: State, n: nat, m: nat, refused: bool)
    requires TryTakes(s, n) && TryOutcome(s, n) == Constraints
    requires RenegotiateTakes(c, Tried(s, n), m, refused) && !RenegotiateOk(c, Tried(s, n), m, refused)
    ensures Captured(c, s, Taken(n, m, 0), refused, Other, Renegotiated(c, Tried(s, n), m, refused))
  {
  }

  lemma CapturedAgain(c: Config, s: State, n: nat, m: nat, refused: bool, k: nat)
    requires TryTakes(s, n) && TryOutcome(s, n) == Constraints
    requires RenegotiateTakes(c, Tried(s, n), m, refused) && RenegotiateOk(c, Tried(s, n), m, refused)
    requires TryTakes(Renegotiated(c, Tried(s, n), m, refused), k)
    ensures var t := Renegotiated(c, Tried(s, n), m, refused);
            Captured(c, s, Taken(n, m, k), refused, TryOutcome(t, k), Tried(t, k))
  {
  }

  /** Opening takes the dispatches up to the first settled set, a stop or the end. */
  predicate OpenTakes(s: State, n: nat) {
    && Waits(s, n)
    && var w := After(s, n); Settled(w.history) || w.stopped || n == |s.incoming|
  }

  predicate OpenOk(c: Config, s: State, n: nat, refused: bool)
    requires n <= |s.incoming|
  {
    var w := After(s, n);
    Settled(w.history) && !w.stopped && CanRebuild(c, w, refused)
  }

  function Unopened(source: seq<seq<Incoming>>): State {
    State(History(None, []), [], false, source, Pool([], 0, 0, NO_CAPS, 0), 0, false)
  }

  // ------------------------------------------------------------ what always holds

  /** The pool is the one its capabilities allow, or has been given up. */
  predicate PoolFits(c: Config, p: Pool) {
    var q := PoolFrom(c, p.caps);
    && q.Some? && SameSize(p, q.value) && p.format == q.value.format
    && (p.buffers == q.value.buffers || p.buffers == [])
  }

  /** The events that the dispatches taken so far have delivered, by what is left of them. */
  function Past(source: seq<seq<Incoming>>, incoming: seq<seq<Incoming>>): seq<Event>
    requires |incoming| <= |source|
  {
    SessionEvents(Flat(source[..|source| - |incoming|]))
  }

  /** Every event delivered belongs to exactly one generation, in order of arrival: none dropped, none used twice. */
  predicate Conserved(source: seq<seq<Incoming>>, s: State) {
    && |s.incoming| <= |source| && s.incoming == source[|source| - |s.incoming|..]
    && Joined(s.builds) + s.history.since == Past(source, s.incoming)
    && s.stopped == (Stopped in Past(source, s.incoming))
  }

  /**
   Besides, no pool was built from constraints that were not settled, and the pool in use is the one that the
   constraints of the generations so far allow.
   */
  predicate Sound(c: Config, source: seq<seq<Incoming>>, s: State) {
    && Conserved(source, s)
    && s.history.built == CapsAfter(s.builds)
    && AllSettled(s.builds)
    && (s.builds != [] ==> s.history.built == Some(s.pool.caps) && PoolFits(c, s.pool))
    && (s.pool.buffers != [] ==> s.nextBuffer < |s.pool.buffers|)
  }

  lemma UnopenedSound(c: Config, source: seq<seq<Incoming>>)
    ensures Sound(c, source, Unopened(source))
  {
  }

  lemma PastGrows(source: seq<seq<Incoming>>, incoming: seq<seq<Incoming>>, n: nat)
    requires n <= |incoming| <= |source| && incoming == source[|source| - |incoming|..]
    ensures incoming[n..] == source[|source| - |incoming[n..]|..]
    ensures Past(source, incoming[n..]) == Past(source, incoming) + SessionEvents(Flat(incoming[..n]))
  {
    var taken := |source| - |incoming|;
    assert source[..taken + n] == source[..taken] + incoming[..n];
    FlatConcat(source[..taken], incoming[..n]);
    EventsConcat(Flat(source[..taken]), Flat(incoming[..n]));
  }

  lemma AfterConserved(source: seq<seq<Incoming>>, s: State, n: nat)
    requires Conserved(source, s) && n <= |s.incoming|
    ensures Conserved(source, After(s, n))
  {
    var past, es := Past(source, s.incoming), SessionEvents(Arrived(s, n));
    AfterIs(s, n);
    ArrivedIsFlat(s, n);
    PastGrows(source, s.incoming, n);
    Regroup(Joined(s.builds), s.history.since, es);
    InConcat(Stopped, past, es);
  }

  lemma AfterSound(c: Config, source: seq<seq<Incoming>>, s: State, n: nat)
    requires Sound(c, source, s) && n <= |s.incoming|
    ensures Sound(c, source, After(s, n))
  {
    AfterConserved(source, s, n);
  }

  lemma NextSound(c: Config, source: seq<seq<Incoming>>, s: State, next: nat)
    requires Sound(c, source, s) && (s.pool.buffers != [] ==> next < |s.pool.buffers|)
    ensures Sound(c, source, s.(nextBuffer := next))
  {
  }

  lemma TriedSound(c: Config, source: seq<seq<Incoming>>, s: State, n: nat)
    requires Sound(c, source, s) && n <= |s.incoming|
    ensures Sound(c, source, Tried(s, n))
  {
    if CanTry(s) {
      AfterSound(c, source, s, n);
      AfterKeeps(s, n);
      NextSound(c, source, After(s, n), (s.nextBuffer + 1) % |s.pool.buffers|);
    }
  }

  lemma RebuiltSound(c: Config, source: seq<seq<Incoming>>, s: State, refused: bool)
    requires Sound(c, source, s) && Settled(s.history)
    ensures Sound(c, source, Rebuilt(c, s, refused))
  {
    if CanRebuild(c, s, refused) {
      OneMoreBuild(s.builds, s.history.since);
      NothingAdded(Joined(s.builds) + s.history.since);
    }
  }

  lemma ReportSound(c: Config, source: seq<seq<Incoming>>, s: State, changed: bool)
    requires Sound(c, source, s)
    ensures Sound(c, source, s.(geometryChanged := changed))
  {
  }

  lemma RenegotiatedSound(c: Config, source: seq<seq<Incoming>>, s: State, n: nat, refused: bool)
    requires Sound(c, source, s) && n <= |s.incoming|
    ensures Sound(c, source, Renegotiated(c, s, n, refused))
  {
    AfterSound(c, source, s, n);
    if Settled(After(s, n).history) {
      var t := Rebuilt(c, After(s, n), refused);
      RebuiltSound(c, source, After(s, n), refused);
      ReportSound(c, source, t, t.geometryChanged || !SameSize(t.pool, s.pool));
    }
  }

  lemma CapturedSound(c: Config, source: seq<seq<Incoming>>, s: State, taken: Taken, refused: bool, r: Outcome,
                      s': State)
    requires Sound(c, source, s) && Captured(c, s, taken, refused, r, s')
    ensures Sound(c, source, s')
  {
    var s1 := Tried(s, taken.first);
    TriedSound(c, source, s, taken.first);
    if TryOutcome(s, taken.first) == Constraints {
      var s2 := Renegotiated(c, s1, taken.awaited, refused);
      RenegotiatedSound(c, source, s1, taken.awaited, refused);
      if RenegotiateOk(c, s1, taken.awaited, refused) {
        TriedSound(c, source, s2, taken.second);
      }
    }
  }

  // ------------------------------------------------------------ whole sessions

  ghost predicate IsStep(c: Config, s: State, s': State) {
    exists taken, refused, r :: Captured(c, s, taken, refused, r, s')
  }

  ghost predicate IsOpening(c: Config, source: seq<seq<Incoming>>, s: State) {
    exists n | 0 <= n <= |source| ::
      && OpenTakes(Unopened(source), n) && OpenOk(c, Unopened(source), n, false)
      && s == Rebuilt(c, After(Unopened(source), n), false)
  }

  /** The states of a session: after opening, and after each call from then on. */
  ghost predicate IsRun(c: Config, source: seq<seq<Incoming>>, ss: seq<State>) {
    && ss != []
    && if |ss| == 1 then IsOpening(c, source, ss[0])
       else IsRun(c, source, ss[..|ss| - 1]) && IsStep(c, ss[|ss| - 2], ss[|ss| - 1])
  }

  lemma OpenSound(c: Config, source: seq<seq<Incoming>>, n: nat, refused: bool)
    requires n <= |source| && Settled(After(Unopened(source), n).history)
    ensures Sound(c, source, Rebuilt(c, After(Unopened(source), n), refused))
  {
    UnopenedSound(c, source);
    AfterSound(c, source, Unopened(source), n);
    RebuiltSound(c, source, After(Unopened(source), n), refused);
  }

  lemma RenegotiatedKeepsSize(c: Config, s: State, n: nat, refused: bool)
    requires n <= |s.incoming|
    ensures var t := Renegotiated(c, s, n, refused);
            && |t.builds| >= |s.builds| && (s.geometryChanged ==> t.geometryChanged)
            && (!t.geometryChanged ==> SameSize(t.pool, s.pool))
  {
    AfterKeeps(s, n);
  }

  /** The size changes only with a report of it, and the report stands. */
  lemma CapturedKeepsSize(c: Config, s: State, taken: Taken, refused: bool, r: Outcome, s': State)
    requires Captured(c, s, taken, refused, r, s')
    ensures |s'.builds| >= |s.builds| && (s.geometryChanged ==> s'.geometryChanged)
    ensures !s'.geometryChanged ==> SameSize(s'.pool, s.pool)
  {
    AfterKeeps(s, taken.first);
    var s1 := Tried(s, taken.first);
    if TryOutcome(s, taken.first) == Constraints {
      RenegotiatedKeepsSize(c, s1, taken.awaited, refused);
      var s2 := Renegotiated(c, s1, taken.awaited, refused);
      if RenegotiateOk(c, s1, taken.awaited, refused) {
        AfterKeeps(s2, taken.second);
      }
    }
  }

  lemma OneState(c: Config, source: seq<seq<Incoming>>, n: nat)
    requires n <= |source| && OpenTakes(Unopened(source), n) && OpenOk(c, Unopened(source), n, false)
    ensures IsRun(c, source, [Rebuilt(c, After(Unopened(source), n), false)])
  {
  }

  lemma OneMoreState(c: Config, source: seq<seq<Incoming>>, ss: seq<State>, s': State)
    requires IsRun(c, source, ss) && IsStep(c, ss[|ss| - 1], s')
    ensures IsRun(c, source, ss + [s'])
  {
    BackOfSnoc(ss, s');
  }

  predicate Accounted(c: Config, source: seq<seq<Incoming>>, first: State, s: State) {
    Sound(c, source, s) && s.builds != [] && (!s.geometryChanged ==> SameSize(s.pool, first.pool))
  }

  lemma OpeningAccounted(c: Config, source: seq<seq<Incoming>>, s: State)
    requires IsOpening(c, source, s)
    ensures Accounted(c, source, s, s)
  {
    var n :| 0 <= n <= |source| && OpenTakes(Unopened(source), n) && OpenOk(c, Unopened(source), n, false)
             && s == Rebuilt(c, After(Unopened(source), n), false);
    OpenSound(c, source, n, false);
  }

  lemma StepAccounted(c: Config, source: seq<seq<Incoming>>, first: State, s: State, s': State)
    requires Accounted(c, source, first, s) && IsStep(c, s, s')
    ensures Accounted(c, source, first, s')
  {
    var taken, refused, r :| Captured(c, s, taken, refused, r, s');
    CapturedSound(c, source, s, taken, refused, r, s');
    CapturedKeepsSize(c, s, taken, refused, r, s');
  }

  /**
   In every session, whatever the dispatches deliver and the environment refuses, the events delivered are the
   generations the pools were built on and what has come since, each settled, and the pool is the one the generations
   determine; until a change of geometry is reported it has the size it had at first.
   */
  lemma {:induction false} RunSound(c: Config, source: seq<seq<Incoming>>, ss: seq<State>)
    requires IsRun(c, source, ss)
    ensures Accounted(c, source, ss[0], ss[|ss| - 1])
  {
    if |ss| == 1 {
      OpeningAccounted(c, source, ss[0]);
    } else {
      RunSound(c, source, ss[..|ss| - 1]);
      StepAccounted(c, source, ss[0], ss[|ss| - 2], ss[|ss| - 1]);
    }
  }

  /** Whole, of one geometry, and until a report of a change of the size it had at first. */
  predicate BuffersFit(c: Config, first: State, s: State) {
    && |s.pool.buffers| in {0, c.poolSize}
    && (forall i :: 0 <= i < |s.pool.buffers| ==>
          s.pool.buffers[i] == Buffer(s.pool.width, s.pool.height, s.pool.format))
    && (!s.geometryChanged ==> SameSize(s.pool, first.pool))
  }

  lemma RunFits(c: Config, source: seq<seq<Incoming>>, ss: seq<State>)
    requires IsRun(c, source, ss)
    ensures BuffersFit(c, ss[0], ss[|ss| - 1])
  {
    RunSound(c, source, ss);
  }

  lemma RunGrows(c: Config, source: seq<seq<Incoming>>, ss: seq<State>, taken: Taken, refused: bool, r: Outcome,
                 s': State)
    requires IsRun(c, source, ss) && Captured(c, ss[|ss| - 1], taken, refused, r, s')
    ensures IsRun(c, source, ss + [s']) && BuffersFit(c, ss[0], s')
  {
    OneMoreState(c, source, ss, s');
    RunFits(c, source, ss + [s']);
  }

  lemma {:induction false} WaitsBefore(s: State, k: nat, n: nat)
    requires Waits(s, n) && k < n
    ensures !Settled(After(s, k).history) && !After(s, k).stopped
  {
    if k < n - 1 {
      WaitsBefore(s, k, n - 1);
    }
  }

  lemma WaitIsUnique(s: State, m: nat, n: nat)
    requires OpenTakes(s, m) && OpenTakes(s, n)
    ensures m == n
  {
    if m < n {
      WaitsBefore(s, m, n);
    } else if n < m {
      WaitsBefore(s, n, m);
    }
  }

  lemma {:induction false} InFlightBefore(s: State, k: nat, n: nat)
    requires StillInFlight(s, n) && k < n
    ensures !Ended(Arrived(s, k))
  {
    if k < n - 1 {
      InFlightBefore(s, k, n - 1);
    }
  }

  lemma TryIsUnique(s: State, m: nat, n: nat)
    requires TryTakes(s, m) && TryTakes(s, n)
    ensures m == n
  {
    if m < n {
      InFlightBefore(s, m, n);
    } else if n < m {
      InFlightBefore(s, n, m);
    }
  }

  /** Short of a refusal the dispatches decide what a call takes, hands back and leaves. */
  lemma OneOutcome(c: Config, s: State, t: Taken, r: Outcome, s': State, u: Taken, q: Outcome, s'': State)
    requires Captured(c, s, t, false, r, s') && Captured(c, s, u, false, q, s'')
    ensures t == u && r == q && s' == s''
  {
    TryIsUnique(s, t.first, u.first);
    var s1 := Tried(s, t.first);
    if TryOutcome(s, t.first) == Constraints {
      WaitIsUnique(s1, t.awaited, u.awaited);
      var s2 := Renegotiated(c, s1, t.awaited, false);
      if RenegotiateOk(c, s1, t.awaited, false) {
        TryIsUnique(s2, t.second, u.second);
      }
    }
  }

  // ------------------------------------------------------------ which set a pool is from

  /** With nothing new since the last build no event is awaited, and the pool is rebuilt as it was. */
  lemma RebuiltFromStale(c: Config, source: seq<seq<Incoming>>, s: State, n: nat)
    requires Sound(c, source, s) && Consumed(s.history) && RenegotiateTakes(c, s, n, false)
    ensures n == 0 && RenegotiateOk(c, s, n, false)
    ensures var s' := Renegotiated(c, s, n, false);
            && Some(s'.pool) == PoolFrom(c, s.pool.caps)
            && s'.builds == s.builds + [s.history.since] && s'.incoming == s.incoming
  {
    if n > 0 {
      WaitsBefore(s, 0, n);
    }
  }

  /**
   However many events are there around a complete set, and in whatever order its kinds came, the pool is built at once,
   and from that set alone if and only if nothing around it counts.
   */
  lemma PoolOfOneSet(c: Config, s: State, n: nat, earlier: seq<Event>, batch: seq<Event>, later: seq<Event>,
                     anyOrder: seq<Event>)
    requires RenegotiateTakes(c, s, n, false)
    requires After(s, n).history.since == earlier + batch + later && IsBatch(batch)
    requires forall kind: nat :: kind < 4 ==> OfKind(anyOrder, kind) == OfKind(batch, kind)
    ensures var s' := Renegotiated(c, s, n, false);
            var pool := PoolFrom(c, CapsOf(anyOrder));
            && (CountsAlone(earlier, batch, later) ==>
                  if pool.Some? then s'.pool == pool.value else s'.pool.buffers == [])
            && (CanRebuild(c, After(s, n), false) ==>
                  (s'.pool.caps == CapsOf(anyOrder) <==> CountsAlone(earlier, batch, later)))
  {
    RebuiltFromLatest(After(s, n).history, earlier, batch, later);
    KindsCommute(anyOrder, batch);
  }
}
