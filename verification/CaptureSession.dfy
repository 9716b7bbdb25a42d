/**
 A capture session (crates/capture/src/session.rs): constraint events arriving in any number at each dispatch, a
 buffer pool rebuilt when the compositor rejects it, and frames taken round the pool. The connection is a list of
 dispatches still to come; when none is left the connection fails. Every method is proved to do what `CaptureSteps`
 says, whatever the dispatches deliver; what the environment refuses is counted.
 */
module CaptureSession {
  import opened Wrappers
  import opened CaptureCaps
  import opened CaptureGenerations
  import opened CaptureSteps
  import opened Bytes
  import opened Sequences

  lemma NextTry(tries: nat, size: nat)
    requires size > 0
    ensures (tries % size + 1) % size == (tries + 1) % size
  {
    var q, r := tries / size, tries % size;
    assert tries == size * q + r;
    if r == size - 1 {
      Distribute(size, q);
      RemainderIs(tries + 1, size, q + 1);
      RemainderIs(size, size, 1);
    } else {
      RemainderIs(tries + 1, size, q);
      RemainderIs(r + 1, size, 0);
    }
  }

  lemma Distribute(a: int, b: int)
    ensures a * (b + 1) == a * b + a
  {
  }

  /** Which buffer is next has nothing to do with what arrives. */
  lemma {:induction false} MovedOn(s: State, next: nat, n: nat)
    requires StillInFlight(s.(nextBuffer := next), n)
    ensures StillInFlight(s, n) && Arrived(s.(nextBuffer := next), n) == Arrived(s, n)
    ensures After(s.(nextBuffer := next), n) == After(s, n).(nextBuffer := next)
  {
    if n > 0 {
      MovedOn(s, next, n - 1);
    }
  }

  function Advanced(s: State): State
    requires s.pool.buffers != []
  {
    s.(nextBuffer := (s.nextBuffer + 1) % |s.pool.buffers|)
  }

  /** So a capture may move on to the next buffer first. */
  lemma AdvancedFirst(s: State, n: nat)
    requires CanTry(s) && StillInFlight(Advanced(s), n)
    requires Ended(Arrived(Advanced(s), n)) || n == |s.incoming|
    ensures TryTakes(s, n) && Tried(s, n) == After(Advanced(s), n)
    ensures TryOutcome(s, n) == if !Ended(Arrived(Advanced(s), n)) then Other
                                else OutcomeFrom(FlagsAfter(NO_FLAGS, Arrived(Advanced(s), n)), s.nextBuffer)
  {
    MovedOn(s, (s.nextBuffer + 1) % |s.pool.buffers|, n);
    if Ended(Arrived(s, n)) {
      OutcomeFromFlags(Arrived(s, n), s.nextBuffer);
    } else {
      NotEnded(Arrived(s, n), s.nextBuffer);
    }
  }

  /** Handlers in step with the history stay so. */
  lemma StaysSynced(before: Handlers, h: History, ins: seq<Incoming>)
    requires before.notes == NotesOf(h)
    ensures var after := HandledAll(before, ins);
            && after.notes == NotesOf(Extended(h, SessionEvents(ins)))
            && after.stopped == (before.stopped || Stopped in SessionEvents(ins))
            && after.flags == FlagsAfter(before.flags, ins)
  {
    HandledIs(before, ins);
    NotesConcat(Fresh(h.built), h.since, SessionEvents(ins));
  }

  class Capture {
    const mode: Mode
    const poolSize: nat
    const allowedModifiers: seq<u64>

    // What the event handlers update.
    var caps: Caps
    var sessionDone: bool
    var capsConsumed: bool
    var sessionStopped: bool
    var frameReady: bool
    var frameFailed: Option<FailureReason>
    var frameFailedRaw: Option<u32>
    var presentationNs: Option<u64>
    var incoming: seq<seq<Incoming>>

    // What negotiation and capture update.
    var buffers: seq<Buffer>
    var nextBuffer: nat
    var width: u32
    var height: u32
    var poolCaps: Caps
    var format: u32
    var geometryChanged: bool

    /** Every dispatch there has been or is to come. */
    ghost const source: seq<seq<Incoming>>
    ghost var history: History
    ghost var builds: seq<seq<Event>>
    /** How often the environment has let a deadline pass, withheld a global or failed to allocate a buffer. */
    ghost var refusals: nat
    /** Captures tried since the last pool was built. */
    ghost var tries: nat
    /** The states after opening and after every call since. */
    ghost var run: seq<State>

    ghost function Configured(): Config {
      Config(mode, poolSize, allowedModifiers)
    }

    ghost function Snapshot(): State
      reads this
    {
      State(history, builds, sessionStopped, incoming, Pool(buffers, width, height, poolCaps, format), nextBuffer,
            geometryChanged)
    }

    ghost function FrameFlags(): Flags
      reads this`frameReady, this`frameFailed, this`frameFailedRaw, this`presentationNs
    {
      Flags(frameReady, frameFailed, frameFailedRaw, presentationNs)
    }

    ghost function HandlerNotes(): Notes
      reads this`caps, this`sessionDone, this`capsConsumed
    {
      Notes(caps, sessionDone, capsConsumed)
    }

    ghost function HandlersNow(): Handlers
      reads this
    {
      Handlers(HandlerNotes(), sessionStopped, FrameFlags())
    }

    ghost predicate Synced()
      reads this`history, this`caps, this`sessionDone, this`capsConsumed
    {
      HandlerNotes() == NotesOf(history)
    }

    ghost predicate Ready()
      reads this`history, this`caps, this`sessionDone, this`capsConsumed, this`buffers, this`nextBuffer, this`tries
    {
      Synced() && poolSize > 0 && (buffers != [] ==> |buffers| == poolSize && nextBuffer == tries % poolSize)
    }

    ghost predicate Valid()
      reads this
    {
      Ready() && IsRun(Configured(), source, run) && Snapshot() == run[|run| - 1]
    }

    constructor (mode: Mode, poolSize: nat, allowedModifiers: seq<u64>, incoming: seq<seq<Incoming>>)
      ensures Ready() && Snapshot() == Unopened(incoming) && source == incoming && refusals == 0
      ensures Configured() == Config(mode, if poolSize < 1 then 1 else poolSize, allowedModifiers)
    {
      this.mode, this.poolSize, this.allowedModifiers := mode, if poolSize < 1 then 1 else poolSize, allowedModifiers;
      caps, sessionDone, capsConsumed, sessionStopped := NO_CAPS, false, false, false;
      frameReady, frameFailed, frameFailedRaw, presentationNs, this.incoming := false, None, None, None, incoming;
      buffers, nextBuffer, width, height, poolCaps, format := [], 0, 0, 0, NO_CAPS, 0;
      geometryChanged, source, history, builds := false, incoming, History(None, []), [];
      refusals, tries, run := 0, 0, [];
    }

    /** Start a new set of constraints if the last one is in use. */
    method BeginGeneration()
      modifies this`caps, this`capsConsumed, this`sessionDone
      ensures caps == (if old(capsConsumed) then NO_CAPS else old(caps)) && !capsConsumed
      ensures sessionDone == (!old(capsConsumed) && old(sessionDone))
    {
      if capsConsumed {
        caps := NO_CAPS;
        capsConsumed := false;
        sessionDone := false;
      }
    }

    method OnSessionEvent(e: Event)
      modifies this`caps, this`capsConsumed, this`sessionDone, this`sessionStopped
      ensures HandlerNotes() == NotesAfter(old(HandlerNotes()), e)
      ensures sessionStopped == (old(sessionStopped) || e.Stopped?)
    {
      match e {
        case BufferSize(w, h) =>
          BeginGeneration();
          caps := caps.(size := Some((w, h)));
        case ShmFormat(f) =>
          BeginGeneration();
          if f.Some? {
            caps := caps.(shm := caps.shm + [f.value]);
          }
        case DmabufDevice(d) =>
          BeginGeneration();
          if d.Some? {
            caps := caps.(device := d);
          }
        case DmabufFormat(f, ms) =>
          BeginGeneration();
          caps := caps.(dmabuf := caps.dmabuf + [(f, ms)]);
        case Done => sessionDone := true;
        case Stopped => sessionStopped := true;
      }
    }

    method OnFrameEvent(i: Incoming)
      requires !i.OfSession?
      modifies this`frameReady, this`frameFailed, this`frameFailedRaw, this`presentationNs
      ensures HandlersNow() == Handled(old(HandlersNow()), i)
    {
      match i {
        case PresentationTime(ns) => presentationNs := Some(ns);
        case Ready => frameReady := true;
        case Failed(reason) => frameFailed := Some(reason);
        case FailedRaw(raw) => frameFailedRaw := Some(raw);
      }
    }

    /** Hand one dispatch's events to the handlers, in order. */
    method Deliver(events: seq<Incoming>)
      modifies this`caps, this`capsConsumed, this`sessionDone, this`sessionStopped
      modifies this`frameReady, this`frameFailed, this`frameFailedRaw, this`presentationNs
      ensures HandlersNow() == HandledAll(old(HandlersNow()), events)
    {
      for i := 0 to |events|
        invariant HandlersNow() == HandledAll(old(HandlersNow()), events[..i])
      {
        if events[i].OfSession? {
          OnSessionEvent(events[i].event);
        } else {
          OnFrameEvent(events[i]);
        }
        OneMoreHandled(old(HandlersNow()), events, i);
      }
      assert events[..|events|] == events;
    }

    /** Take the next dispatch, and nothing else; false if the connection has failed. */
    method Dispatch() returns (ok: bool)
      modifies this`caps, this`capsConsumed, this`sessionDone, this`sessionStopped, this`history
      modifies this`frameReady, this`frameFailed, this`frameFailedRaw, this`presentationNs, this`incoming
      ensures ok <==> old(incoming) != []
      ensures Snapshot() == if ok then Dispatched(old(Snapshot())) else old(Snapshot())
      ensures HandlersNow() == if ok then HandledAll(old(HandlersNow()), old(incoming)[0]) else old(HandlersNow())
    {
      ok := incoming != [];
      if ok {
        var events := incoming[0];
        incoming := incoming[1..];
        HandledIs(HandlersNow(), events);
        Deliver(events);
        history := Extended(history, SessionEvents(events));
      }
    }

    /** The same, with what the handlers then keep. */
    method Next() returns (ok: bool)
      requires Synced()
      modifies this`caps, this`capsConsumed, this`sessionDone, this`sessionStopped, this`history
      modifies this`frameReady, this`frameFailed, this`frameFailedRaw, this`presentationNs, this`incoming
      ensures ok <==> old(incoming) != []
      ensures Snapshot() == if ok then Dispatched(old(Snapshot())) else old(Snapshot())
      ensures FrameFlags() == if ok then FlagsAfter(old(FrameFlags()), old(incoming)[0]) else old(FrameFlags())
      ensures Synced() && sessionDone == Settled(history) && caps == Current(history)
    {
      hide NotesOf, Settled, Current, SessionEvents, HandledAll, FlagsAfter;
      ghost var handlers, s := HandlersNow(), Snapshot();
      ok := Dispatch();
      if ok {
        StaysSynced(handlers, s.history, s.incoming[0]);
      }
      NotesAre(history);
    }

    /** The format for a pool built now. */
    method ChooseFormat() returns (chosen: Option<u32>)
      ensures chosen == FormatFor(mode, caps, allowedModifiers)
    {
      if mode.Shm? {
        chosen := PickShmFormat(caps.shm);
      } else {
        var picked := PickDmabufFormat(caps.dmabuf, allowedModifiers);
        chosen := if picked == None || caps.device == None then None else Some(picked.value.0);
      }
    }

    /** The last step of building a pool: from here on it is in use, and the next constraint begins a new generation. */
    method Install(w: u32, h: u32, chosen: u32)
      requires sessionDone
      requires caps.size == Some((w, h)) && FormatFor(mode, caps, allowedModifiers) == Some(chosen)
      modifies this`buffers, this`nextBuffer, this`width, this`height, this`poolCaps, this`format, this`capsConsumed
      modifies this`history, this`builds, this`tries
      ensures Synced() && tries == 0
      ensures PoolFrom(Configured(), caps) == Some(Pool(buffers, width, height, poolCaps, format))
      ensures poolCaps == caps && nextBuffer == 0 && history == History(Some(caps), [])
      ensures builds == old(builds) + [old(history).since]
    {
      hide FormatFor;
      builds := builds + [history.since];
      buffers := Buffers(poolSize, w, h, chosen);
      nextBuffer := 0;
      width, height := w, h;
      poolCaps := caps;
      format := chosen;
      capsConsumed := true;
      history, tries := History(Some(caps), []), 0;
    }

    /** Build the pool from the constraints that apply; on failure there is no pool. */
    method AllocatePool() returns (ok: bool)
      requires Synced() && sessionDone && caps == Current(history)
      modifies this`buffers, this`nextBuffer, this`width, this`height, this`poolCaps, this`format, this`capsConsumed
      modifies this`history, this`builds, this`refusals, this`tries
      ensures Synced()
      ensures ok <==> CanRebuild(Configured(), old(Snapshot()), refusals != old(refusals))
      ensures Snapshot() == Rebuilt(Configured(), old(Snapshot()), refusals != old(refusals))
      ensures refusals != old(refusals) ==> PoolFrom(Configured(), Current(old(history))).Some?
      ensures tries == if ok then 0 else old(tries)
    {
      hide NotesOf, Settled, Current, FormatFor;
      buffers := [];
      if caps.size == None {
        return false;
      }
      var (w, h) := caps.size.value;
      var chosen := ChooseFormat();
      if chosen == None {
        return false;
      }
      // The environment may fail to allocate any of the buffers.
      if * {
        refusals := refusals + 1;
        return false;
      }
      Install(w, h, chosen.value);
      ok := true;
    }

    /** The session has taken so many dispatches since `s`. */
    ghost predicate Waiting(s: State, taken: nat)
      reads this
    {
      && Synced() && taken <= |s.incoming| && Snapshot() == After(s, taken)
      && sessionDone == Settled(After(s, taken).history) && caps == Current(After(s, taken).history)
    }

    /** Dispatch until the first constraints are settled. */
    method AwaitFirst() returns (ok: bool, ghost taken: nat)
      requires Synced() && Snapshot() == Unopened(source)
      modifies this`caps, this`capsConsumed, this`sessionDone, this`sessionStopped, this`history
      modifies this`frameReady, this`frameFailed, this`frameFailedRaw, this`presentationNs, this`incoming
      ensures Waiting(Unopened(source), taken) && OpenTakes(Unopened(source), taken)
      ensures ok <==> sessionDone && !sessionStopped
    {
      hide NotesOf, Settled, Current, After;
      ghost var s := Snapshot();
      taken := 0;
      NothingAwaited(s);
      NotesAre(history);
      while !sessionDone
        invariant Waiting(s, taken) && Waits(s, taken) && !sessionStopped
        decreases |incoming|
      {
        ok := Next();
        if !ok {
          return;
        }
        AfterOneMore(s, taken);
        taken := taken + 1;
        if sessionStopped {
          return false, taken;
        }
      }
      ok := true;
    }

    /** Bind what the mode needs and build the first pool. */
    method FirstPool() returns (ok: bool)
      requires Ready() && sessionDone && caps == Current(history)
      modifies this
      ensures ok == CanRebuild(Configured(), old(Snapshot()), refusals != old(refusals))
      ensures ok ==> Ready() && Snapshot() == Rebuilt(Configured(), old(Snapshot()), false)
    {
      // The environment may not offer what the mode needs.
      if mode.Dmabuf? {
        if * {
          refusals := refusals + 1;
          return false;
        }
      }
      ok := AllocatePool();
    }

    /** Open the session: wait for the first set of constraints and build the first pool. */
    method Open() returns (ok: bool, ghost taken: nat)
      requires Ready() && Snapshot() == Unopened(source)
      modifies this
      ensures taken <= |source| && OpenTakes(Unopened(source), taken)
      ensures ok == OpenOk(Configured(), Unopened(source), taken, refusals != old(refusals))
      ensures ok ==> Valid() && run == [Rebuilt(Configured(), After(Unopened(source), taken), false)]
    {
      hide NotesOf, Waits, Settled, Current;
      ok, taken := AwaitFirst();
      if ok {
        ok := FirstPool();
      }
      if ok {
        OneState(Configured(), source, taken);
        run := [Snapshot()];
      }
    }

    /** Dispatch until the constraints are settled; the deadline may pass at any time. */
    method AwaitConstraints() returns (ok: bool, ghost taken: nat)
      requires Synced()
      modifies this`caps, this`capsConsumed, this`sessionDone, this`sessionStopped, this`history, this`refusals
      modifies this`frameReady, this`frameFailed, this`frameFailedRaw, this`presentationNs, this`incoming
      ensures Waiting(old(Snapshot()), taken) && Waits(old(Snapshot()), taken)
      ensures ok == sessionDone
      ensures if ok || sessionStopped then refusals == old(refusals) else refusals != old(refusals) || incoming == []
    {
      hide NotesOf, Settled, Current, After;
      ghost var s := Snapshot();
      taken := 0;
      NothingAwaited(s);
      NotesAre(history);
      while !sessionDone
        invariant Waiting(s, taken) && Waits(s, taken) && refusals == old(refusals)
        decreases |incoming|
      {
        if sessionStopped {
          return false, taken;
        }
        if * {
          refusals := refusals + 1;
          return false, taken;
        }
        ok := Next();
        if !ok {
          return;
        }
        AfterOneMore(s, taken);
        taken := taken + 1;
      }
      ok := true;
    }

    /** Replace the pool, and report a change of size. */
    method ReplacePool() returns (ok: bool)
      requires Ready() && sessionDone && caps == Current(history)
      modifies this
      ensures Ready() && run == old(run) && (ok ==> tries == 0)
      ensures Snapshot() == Replaced(Configured(), old(Snapshot()), refusals != old(refusals))
      ensures ok == ReplaceOk(Configured(), old(Snapshot()), refusals != old(refusals))
      ensures refusals != old(refusals) ==> PoolFrom(Configured(), Current(old(history))).Some?
    {
      var (oldWidth, oldHeight) := (width, height);
      ok := AllocatePool();
      if ok && (width, height) != (oldWidth, oldHeight) {
        geometryChanged := true;
        ok := false;
      }
    }

    /**
     Rebuild the pool: at once if the constraints are settled, from the last ones if there are no new, and else as soon
     as they are.
     */
    method Renegotiate() returns (ok: bool, ghost taken: nat)
      requires Ready()
      modifies this
      ensures Ready() && run == old(run) && (ok ==> tries == 0)
      ensures RenegotiateTakes(Configured(), old(Snapshot()), taken, refusals != old(refusals))
      ensures ok == RenegotiateOk(Configured(), old(Snapshot()), taken, refusals != old(refusals))
      ensures Snapshot() == Renegotiated(Configured(), old(Snapshot()), taken, refusals != old(refusals))
    {
      ok, taken := AwaitConstraints();
      if ok {
        ok := ReplacePool();
      }
    }

    /** The frame in flight is over, and has noted what the dispatches since it began have delivered. */
    ghost predicate InFlight(s: State, taken: nat)
      reads this
    {
      && Synced() && taken <= |s.incoming| && Snapshot() == After(s, taken)
      && FrameFlags() == FlagsAfter(NO_FLAGS, Arrived(s, taken))
      && (Ended(Arrived(s, taken)) <==> frameReady || frameFailed.Some? || frameFailedRaw.Some?)
    }

    /** Dispatch until the frame in flight is ready or has failed. */
    method AwaitFrame() returns (ok: bool, ghost taken: nat)
      requires Synced()
      modifies this`caps, this`capsConsumed, this`sessionDone, this`sessionStopped, this`history
      modifies this`frameReady, this`frameFailed, this`frameFailedRaw, this`presentationNs, this`incoming
      ensures InFlight(old(Snapshot()), taken)
      ensures StillInFlight(old(Snapshot()), taken)
      ensures ok <==> Ended(Arrived(old(Snapshot()), taken))
      ensures ok || taken == |old(incoming)|
    {
      hide NotesOf, After, Arrived, Ended, FlagsAfter;
      ghost var s := Snapshot();
      NothingInFlight(s);
      frameReady, frameFailed, frameFailedRaw, presentationNs := false, None, None, None;
      taken := 0;
      while !frameReady && frameFailed == None && frameFailedRaw == None
        invariant InFlight(s, taken)
        invariant StillInFlight(s, taken)
        decreases |incoming|
      {
        ok := Next();
        if !ok {
          return;
        }
        AfterOneMore(s, taken);
        FlagsConcat(NO_FLAGS, Arrived(s, taken), s.incoming[taken]);
        EndedFromFlags(Arrived(s, taken + 1));
        taken := taken + 1;
      }
      ok := true;
    }

    /** What has become of a frame that is over. */
    method FinishFrame(index: nat) returns (r: Outcome)
      ensures r == OutcomeFrom(FrameFlags(), index)
    {
      match frameFailed {
        case Some(BufferConstraints) => r := Constraints;
        case Some(SessionStopped) => r := StoppedByCompositor;
        case Some(Unknown) => r := Other;
        case None => r := if frameFailedRaw.Some? then Other else Frame(index, presentationNs);
      }
    }

    /** Put the frame into the next buffer and await its end. */
    method TryBuffer() returns (r: Outcome, ghost taken: nat)
      requires Ready() && CanTry(Snapshot())
      modifies this`caps, this`capsConsumed, this`sessionDone, this`sessionStopped, this`history
      modifies this`frameReady, this`frameFailed, this`frameFailedRaw, this`presentationNs, this`incoming
      modifies this`nextBuffer, this`tries
      ensures Ready() && tries == old(tries) + 1
      ensures TryTakes(old(Snapshot()), taken) && Snapshot() == Tried(old(Snapshot()), taken)
      ensures r == TryOutcome(old(Snapshot()), taken) && (r.Frame? ==> r.index == old(nextBuffer))
    {
      hide NotesOf, StillInFlight, Ended, After, Arrived;
      ghost var s := Snapshot();
      var index := nextBuffer;
      NextTry(tries, poolSize);
      nextBuffer := (nextBuffer + 1) % |buffers|;
      tries := tries + 1;
      var ok;
      ok, taken := AwaitFrame();
      AdvancedFirst(s, taken);
      r := Other;
      if ok {
        r := FinishFrame(index);
      }
    }

    /** Try the next buffer of the pool. */
    method TryCaptureFrame() returns (r: Outcome, ghost taken: nat)
      requires Ready()
      modifies this`caps, this`capsConsumed, this`sessionDone, this`sessionStopped, this`history
      modifies this`frameReady, this`frameFailed, this`frameFailedRaw, this`presentationNs, this`incoming
      modifies this`nextBuffer, this`tries
      ensures Ready()
      ensures TryTakes(old(Snapshot()), taken) && r == TryOutcome(old(Snapshot()), taken)
      ensures Snapshot() == Tried(old(Snapshot()), taken)
      ensures tries == old(tries) + if CanTry(old(Snapshot())) then 1 else 0
      ensures r.Frame? ==> tries == old(tries) + 1 && r.index == old(tries) % poolSize
      ensures r.Frame? ==> r.index < |buffers| == poolSize
    {
      if sessionStopped {
        return StoppedByCompositor, 0;
      }
      if buffers == [] {
        return Other, 0;
      }
      r, taken := TryBuffer();
    }

    /** Add the state after a call to the run. */
    ghost method Record(taken: Taken, refused: bool, r: Outcome)
      requires Ready() && IsRun(Configured(), source, run)
      requires Captured(Configured(), run[|run| - 1], taken, refused, r, Snapshot())
      modifies this`run
      ensures Valid() && run == old(run) + [Snapshot()]
      ensures BuffersFit(Configured(), run[0], Snapshot())
    {
      hide Captured, BuffersFit, NotesOf;
      RunGrows(Configured(), source, run, taken, refused, r, Snapshot());
      run := run + [Snapshot()];
    }

    /** Capture a frame into the pool's next buffer, renegotiating once if the compositor rejects the pool. */
    method CaptureFrame() returns (r: Outcome, ghost taken: Taken)
      requires Ready()
      modifies this
      ensures Ready() && run == old(run)
      ensures Captured(Configured(), old(Snapshot()), taken, refusals != old(refusals), r, Snapshot())
      ensures r.Frame? ==> r.index < |buffers| == poolSize && tries > 0 && r.index == (tries - 1) % poolSize
    {
      hide *;
      ghost var c, s := Configured(), Snapshot();
      ghost var first, awaited, second := 0, 0, 0;
      r, first := TryCaptureFrame();
      if r == Constraints {
        var ok;
        ok, awaited := Renegotiate();
        ghost var refused := refusals != old(refusals);
        if ok {
          r, second := TryCaptureFrame();
          CapturedAgain(c, s, first, awaited, refused, second);
        } else {
          r := Other;
          CapturedNot(c, s, first, awaited, refused);
        }
      } else {
        CapturedAtOnce(c, s, first);
      }
      taken := Taken(first, awaited, second);
    }

    /**
     The next frame for the encoder, in a buffer of the size the session opened with for as long as no change of
     geometry has been reported. Only DMA-BUFs are handed on.
     */
    method NextFrame() returns (frame: Option<(Buffer, Option<u64>)>, ghost r: Outcome, ghost taken: Taken)
      requires Valid()
      modifies this
      ensures Valid() && run == old(run) + [Snapshot()]
      ensures Captured(Configured(), old(Snapshot()), taken, refusals != old(refusals), r, Snapshot())
      ensures frame.Some? <==> r.Frame? && mode.Dmabuf?
      ensures frame.Some? ==> r.index < |buffers| && frame == Some((buffers[r.index], r.presentationNs))
      ensures frame.Some? && !geometryChanged ==>
                frame.value.0 == Buffer(run[0].pool.width, run[0].pool.height, format)
    {
      var captured;
      captured, taken := CaptureFrame();
      r := captured;
      Record(taken, refusals != old(refusals), r);
      frame := None;
      if captured.Frame? && mode.Dmabuf? {
        frame := Some((buffers[captured.index], captured.presentationNs));
      }
    }
  }
}
