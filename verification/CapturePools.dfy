/**
 Captures and pools by what was sent (crates/capture/src/session.rs): which events a pool's size and format come from,
 when there is none, when a rebuild succeeds, and what the events of a frame make of it.
 */
module CapturePools {
  import opened Bytes
  import opened Wrappers
  import opened CaptureCaps
  import opened CaptureGenerations
  import opened CaptureSteps
  import opened Sequences

  // ------------------------------------------------------------ the size and the format that were sent

  /** The last size among these events. */
  ghost predicate SizeSent(es: seq<Event>, w: u32, h: u32) {
    exists k :: 0 <= k < |es| && es[k] == BufferSize(w, h) && forall j :: k < j < |es| ==> !es[j].BufferSize?
  }

  lemma SizeSentOneMore(es: seq<Event>, e: Event, w: u32, h: u32)
    ensures SizeSent(es + [e], w, h) <==> if e.BufferSize? then e == BufferSize(w, h) else SizeSent(es, w, h)
  {
    var all := es + [e];
    if e == BufferSize(w, h) {
      assert all[|es|] == e;
    } else if !e.BufferSize? {
      if SizeSent(es, w, h) {
        var k :| 0 <= k < |es| && es[k] == BufferSize(w, h) && forall j :: k < j < |es| ==> !es[j].BufferSize?;
        assert all[k] == es[k];
      }
      if k :| 0 <= k < |all| && all[k] == BufferSize(w, h) && forall j :: k < j < |all| ==> !all[j].BufferSize? {
        assert es[k] == all[k];
        assert forall j :: k < j < |es| ==> es[j] == all[j];
      }
    } else {
      assert all[|es|].BufferSize?;
    }
  }

  lemma {:induction false} LastSizeIsSent(es: seq<Event>, w: u32, h: u32)
    ensures LastSize(es) == Some((w, h)) <==> SizeSent(es, w, h)
  {
    if es != [] {
      LastSizeIsSent(es[..|es| - 1], w, h);
      SizeSentOneMore(es[..|es| - 1], es[|es| - 1], w, h);
      SplitBack(es);
    }
  }

  lemma {:induction false} ShmFormatsAreSent(es: seq<Event>, f: u32)
    ensures f in ShmFormats(es) <==> ShmFormat(Some(f)) in es
  {
    if es != [] {
      ShmFormatsAreSent(es[..|es| - 1], f);
      SplitBack(es);
    }
  }

  lemma {:induction false} DeviceIsSent(es: seq<Event>)
    ensures LastDevice(es).Some? <==> exists d :: DmabufDevice(Some(d)) in es
  {
    if es != [] {
      var init, e := es[..|es| - 1], es[|es| - 1];
      DeviceIsSent(init);
      SplitBack(es);
      if e.DmabufDevice? && e.device.Some? {
        assert DmabufDevice(Some(e.device.value)) in es;
      } else if d :| DmabufDevice(Some(d)) in es {
        assert DmabufDevice(Some(d)) in init;
      } else {
        assert forall d :: DmabufDevice(Some(d)) in init ==> DmabufDevice(Some(d)) in es;
      }
    }
  }

  predicate Lists(e: Event, fourcc: u32) {
    e.DmabufFormat? && e.fourcc == fourcc
  }

  /** Event `k` is the first to list the format. */
  predicate FirstListed(es: seq<Event>, fourcc: u32, k: nat) {
    k < |es| && Lists(es[k], fourcc) && forall j :: 0 <= j < k ==> !Lists(es[j], fourcc)
  }

  lemma {:induction false} OfferIsFirst(es: seq<Event>, fourcc: u32)
    ensures match Offered(DmabufFormats(es), fourcc)
            case Some(modifiers) => exists k: nat :: FirstListed(es, fourcc, k) && es[k].modifiers == modifiers
            case None => forall k :: 0 <= k < |es| ==> !Lists(es[k], fourcc)
  {
    if es != [] {
      var init, e := es[..|es| - 1], es[|es| - 1];
      OfferIsFirst(init, fourcc);
      EarlierOfferWins(DmabufFormats(init), DmabufFormats([e]), fourcc);
      OneFormat(init, e);
      if k: nat :| FirstListed(init, fourcc, k) {
        forall k: nat | FirstListed(init, fourcc, k) ensures FirstListed(es, fourcc, k) && es[k] == init[k] {
        }
      } else if Lists(e, fourcc) {
        assert FirstListed(es, fourcc, |init|);
      }
    }
  }

  lemma OneFormat(init: seq<Event>, e: Event)
    ensures DmabufFormats(init + [e]) == DmabufFormats(init) + DmabufFormats([e])
    ensures DmabufFormats([e]) == if e.DmabufFormat? then [(e.fourcc, e.modifiers)] else []
  {
    CapsAddUp(init, [e]);
    assert [e][..0] == [];
  }

  /** The compositor lists the format, and with it first a modifier that the consumer takes, if it does not take any. */
  ghost predicate Usable(es: seq<Event>, allowed: seq<u64>, fourcc: u32) {
    exists k: nat :: FirstListed(es, fourcc, k)
                     && (allowed == [] || exists m :: m in allowed && m in es[k].modifiers)
  }

  /** The format a pool is to have: XRGB8888 rather than ARGB8888, as an shm code or as a fourcc. */
  ghost predicate FormatSent(c: Config, es: seq<Event>, f: u32) {
    match c.mode
    case Shm => ShmFormat(Some(f)) in es && (f == 1 || (f == 0 && ShmFormat(Some(1)) !in es))
    case Dmabuf =>
      && (exists d :: DmabufDevice(Some(d)) in es)
      && Usable(es, c.allowed, f)
      && (f == 0x34325258 || (f == 0x34325241 && !Usable(es, c.allowed, 0x34325258)))
  }

  lemma UsableIsChosen(es: seq<Event>, allowed: seq<u64>, fourcc: u32)
    ensures Usable(es, allowed, fourcc) <==> Choice(DmabufFormats(es), allowed, fourcc).Some?
    ensures Usable(es, allowed, fourcc) ==> Choice(DmabufFormats(es), allowed, fourcc).value.0 == fourcc
  {
    OfferIsFirst(es, fourcc);
    var offered := Offered(DmabufFormats(es), fourcc);
    if offered.Some? {
      var k: nat :| FirstListed(es, fourcc, k) && es[k].modifiers == offered.value;
      assert forall l: nat :: FirstListed(es, fourcc, l) ==> l == k;
    }
  }

  lemma FormatIsSent(c: Config, es: seq<Event>, f: u32)
    ensures FormatFor(c.mode, CapsOf(es), c.allowed) == Some(f) <==> FormatSent(c, es, f)
  {
    ShmFormatsAreSent(es, 1);
    ShmFormatsAreSent(es, 0);
    DeviceIsSent(es);
    UsableIsChosen(es, c.allowed, 0x34325258);
    UsableIsChosen(es, c.allowed, 0x34325241);
  }

  predicate IsPoolOf(c: Config, buffers: seq<Buffer>, w: u32, h: u32, f: u32) {
    |buffers| == c.poolSize && forall i :: 0 <= i < |buffers| ==> buffers[i] == Buffer(w, h, f)
  }

  /** The events allow a pool exactly if they give a size and a format, and it is then of that size and that format. */
  lemma PoolSays(c: Config, es: seq<Event>)
    ensures match PoolFrom(c, CapsOf(es))
            case Some(p) =>
              SizeSent(es, p.width, p.height) && FormatSent(c, es, p.format)
              && IsPoolOf(c, p.buffers, p.width, p.height, p.format)
            case None => (forall w: u32, h: u32 :: !SizeSent(es, w, h)) || (forall f: u32 :: !FormatSent(c, es, f))
  {
    hide FormatFor, FormatSent, SizeSent;
    forall w: u32, h: u32 ensures LastSize(es) == Some((w, h)) <==> SizeSent(es, w, h) {
      LastSizeIsSent(es, w, h);
    }
    forall f: u32 ensures FormatFor(c.mode, CapsOf(es), c.allowed) == Some(f) <==> FormatSent(c, es, f) {
      FormatIsSent(c, es, f);
    }
  }

  // ------------------------------------------------------------ the generation that counts

  /** The last generation with a constraint in it; those after it are rebuilt from the same. */
  predicate Counts(builds: seq<seq<Event>>, i: nat) {
    i < |builds| && AnyConstraint(builds[i]) && forall j :: i < j < |builds| ==> !AnyConstraint(builds[j])
  }

  lemma {:induction false} CapsAreSent(builds: seq<seq<Event>>)
    requires builds != []
    ensures CapsAfter(builds) == Some(NO_CAPS) ||
            exists i: nat :: Counts(builds, i) && CapsAfter(builds) == Some(CapsOf(builds[i]))
  {
    hide CapsAfter, AnyConstraint, CapsOf;
    var n := |builds| - 1;
    var init := builds[..n];
    LastBuild(builds);
    if AnyConstraint(builds[n]) {
      assert Counts(builds, n);
    } else if init != [] {
      CapsAreSent(init);
      if i: nat :| Counts(init, i) && CapsAfter(init) == Some(CapsOf(init[i])) {
        assert Counts(builds, i);
      }
    }
  }

  lemma LastBuild(builds: seq<seq<Event>>)
    requires builds != []
    ensures var n := |builds| - 1;
            CapsAfter(builds) ==
            if AnyConstraint(builds[n]) then Some(CapsOf(builds[n]))
            else if n == 0 then Some(NO_CAPS) else CapsAfter(builds[..n])
  {
    hide CapsOf, AnyConstraint;
    if !AnyConstraint(builds[|builds| - 1]) {
      NothingYet(builds[|builds| - 1]);
    }
  }

  lemma NothingAllowsNone(c: Config)
    ensures PoolFrom(c, NO_CAPS) == None
  {
  }

  lemma RunPool(c: Config, source: seq<seq<Incoming>>, ss: seq<State>)
    requires IsRun(c, source, ss)
    ensures var s := ss[|ss| - 1];
            s.builds != [] && CapsAfter(s.builds) == Some(s.pool.caps) && PoolFits(c, s.pool)
  {
    RunSound(c, source, ss);
  }

  /** The pool is of the size and the format sent in this generation. */
  ghost predicate SentIn(c: Config, es: seq<Event>, p: Pool) {
    && SizeSent(es, p.width, p.height) && FormatSent(c, es, p.format)
    && (p.buffers == [] || IsPoolOf(c, p.buffers, p.width, p.height, p.format))
  }

  /**
   In every state of every session the pool is as the compositor last sent it: of the last size and of the preferred
   format among the events of the last generation that held any constraint; whole, or given up.
   */
  lemma PoolIsAsSent(c: Config, source: seq<seq<Incoming>>, ss: seq<State>)
    requires IsRun(c, source, ss)
    ensures var s := ss[|ss| - 1];
            exists i: nat :: Counts(s.builds, i) && SentIn(c, s.builds[i], s.pool)
  {
    hide PoolFrom, SizeSent, FormatSent, CapsAfter;
    var s := ss[|ss| - 1];
    RunPool(c, source, ss);
    CapsAreSent(s.builds);
    NothingAllowsNone(c);
    var i: nat :| Counts(s.builds, i) && s.pool.caps == CapsOf(s.builds[i]);
    PoolSays(c, s.builds[i]);
  }

  // ------------------------------------------------------------ when constraints are settled

  /** A `Done` at `d`, after a constraint if a pool has been built already. */
  predicate DoneAt(built: bool, es: seq<Event>, d: nat) {
    d < |es| && es[d] == Done && (built ==> exists k :: 0 <= k < d && es[k] != Done && es[k] != Stopped)
  }

  lemma {:induction false} DoneAfterIs(built: bool, es: seq<Event>)
    ensures DoneAfter(built, es) <==> exists d: nat :: DoneAt(built, es, d)
  {
    if es != [] {
      var n := |es| - 1;
      DoneAfterIs(built, es[..n]);
      forall d: nat | d < n ensures DoneAt(built, es, d) <==> DoneAt(built, es[..n], d) {
      }
      assert DoneAt(built, es, n) <==> es[n].Done? && (built ==> AnyConstraint(es[..n]));
    }
  }

  /** Constraints are settled if those of the pool in use stand, or once a `Done` has come after a newer one. */
  lemma SettledIs(h: History)
    ensures Settled(h) <==>
            || (h.built.Some? && forall k :: 0 <= k < |h.since| ==> h.since[k] == Done || h.since[k] == Stopped)
            || exists d: nat :: DoneAt(h.built.Some?, h.since, d)
  {
    DoneAfterIs(h.built.Some?, h.since);
  }

  /** Some dispatches have been enough to settle the constraints or to stop the session. */
  ghost predicate Enough(s: State, k: nat)
    requires k <= |s.incoming|
  {
    var es := SessionEvents(Flat(s.incoming[..k]));
    s.stopped || Stopped in es || Settled(Extended(s.history, es))
  }

  /** Opening or negotiating again awaits no dispatch once there have been enough, and leaves none out before. */
  lemma WaitsUntilEnough(c: Config, s: State, n: nat, refused: bool)
    requires RenegotiateTakes(c, s, n, refused) || (OpenTakes(s, n) && !refused)
    ensures n <= |s.incoming| && forall k :: 0 <= k < n ==> !Enough(s, k)
    ensures !refused ==> Enough(s, n) || n == |s.incoming|
  {
    hide Settled, Flat, SessionEvents;
    forall k | 0 <= k <= n ensures Enough(s, k) <==> Settled(After(s, k).history) || After(s, k).stopped {
      AfterIs(s, k);
      ArrivedIsFlat(s, k);
    }
    forall k | 0 <= k < n ensures !Enough(s, k) {
      WaitsBefore(s, k, n);
    }
  }

  // ------------------------------------------------------------ when opening and rebuilding succeed

  /**
   Opening succeeds exactly if the events of the dispatches it takes say `Done`, not that the session has stopped, and
   both a size and a usable format, and nothing is refused; its pool is then of that size and that format.
   */
  lemma OpenSays(c: Config, source: seq<seq<Incoming>>, n: nat, refused: bool)
    requires OpenTakes(Unopened(source), n)
    ensures n <= |source|
    ensures var es := SessionEvents(Flat(source[..n]));
            var p := Rebuilt(c, After(Unopened(source), n), refused).pool;
            && (OpenOk(c, Unopened(source), n, refused) <==>
                  && Done in es && Stopped !in es && !refused
                  && (exists w: u32, h: u32 :: SizeSent(es, w, h)) && (exists f: u32 :: FormatSent(c, es, f)))
            && (OpenOk(c, Unopened(source), n, refused) ==>
                  && SizeSent(es, p.width, p.height) && FormatSent(c, es, p.format)
                  && IsPoolOf(c, p.buffers, p.width, p.height, p.format))
  {
    hide PoolFrom, SizeSent, FormatSent, SessionEvents, Flat;
    var s := Unopened(source);
    var es := SessionEvents(Flat(source[..n]));
    AfterIs(s, n);
    ArrivedIsFlat(s, n);
    NothingAdded(es);
    SettledIs(History(None, es));
    assert forall d: nat :: DoneAt(false, es, d) <==> d < |es| && es[d] == Done;
    PoolSays(c, es);
    PoolExists(c, es);
  }

  lemma PoolExists(c: Config, es: seq<Event>)
    ensures PoolFrom(c, CapsOf(es)).Some? <==>
            (exists w: u32, h: u32 :: SizeSent(es, w, h)) && (exists f: u32 :: FormatSent(c, es, f))
  {
    hide PoolFrom, SizeSent, FormatSent;
    PoolSays(c, es);
  }

  /**
   Negotiating again succeeds only with a pool built anew of the width and the height of the old; a pool of another size
   is kept, but reported and a failure; and with no new pool there is none, unless nothing was settled.
   */
  lemma RenegotiatedSays(c: Config, s: State, n: nat, refused: bool)
    requires n <= |s.incoming|
    ensures var t, ok := Renegotiated(c, s, n, refused), RenegotiateOk(c, s, n, refused);
            var same := t.pool.width == s.pool.width && t.pool.height == s.pool.height;
            && (t.builds == s.builds || t.builds == s.builds + [After(s, n).history.since])
            && (ok <==> t.builds != s.builds && same)
            && (t.builds != s.builds <==>
                  !refused && Settled(After(s, n).history) && PoolFrom(c, Current(After(s, n).history)).Some?)
            && (t.geometryChanged <==> s.geometryChanged || !same)
            && (t.builds != s.builds ==> |t.pool.buffers| == c.poolSize && t.nextBuffer == 0)
            && (t.builds == s.builds ==>
                  same && t.pool.buffers == (if Settled(After(s, n).history) then [] else s.pool.buffers))
  {
    AfterKeeps(s, n);
    var w := After(s, n);
    assert w.builds + [w.history.since] != w.builds;
  }

  /** A call returns a frame only if it leaves the pool at the size at which it found it. */
  lemma FrameKeepsSize(c: Config, s: State, taken: Taken, refused: bool, r: Outcome, s': State)
    requires Captured(c, s, taken, refused, r, s') && r.Frame?
    ensures s'.pool.width == s.pool.width && s'.pool.height == s.pool.height
    ensures s'.geometryChanged == s.geometryChanged
  {
    hide StillInFlight, RenegotiateTakes;
    AfterKeeps(s, taken.first);
    var s1 := Tried(s, taken.first);
    if TryOutcome(s, taken.first) == Constraints {
      RenegotiatedSays(c, s1, taken.awaited, refused);
      if RenegotiateOk(c, s1, taken.awaited, refused) {
        AfterKeeps(Renegotiated(c, s1, taken.awaited, refused), taken.second);
      }
    }
  }

  // ------------------------------------------------------------ what becomes of a frame

  predicate Ends(i: Incoming) {
    i == Ready || i.Failed? || i.FailedRaw?
  }

  predicate SomeEnds(ins: seq<Incoming>) {
    exists k :: 0 <= k < |ins| && Ends(ins[k])
  }

  /** The last failure with a known reason is `k`, and gives this one. */
  predicate FailedAt(ins: seq<Incoming>, reason: FailureReason, k: nat) {
    k < |ins| && ins[k] == Failed(reason) && forall j :: k < j < |ins| ==> !ins[j].Failed?
  }

  /** The last presentation time is `k`, and this one. */
  predicate TimedAt(ins: seq<Incoming>, ns: u64, k: nat) {
    k < |ins| && ins[k] == PresentationTime(ns) && forall j :: k < j < |ins| ==> !ins[j].PresentationTime?
  }

  ghost predicate FailedLast(ins: seq<Incoming>, reason: FailureReason) {
    exists k: nat :: FailedAt(ins, reason, k)
  }

  ghost predicate TimedLast(ins: seq<Incoming>, ns: u64) {
    exists k: nat :: TimedAt(ins, ns, k)
  }

  lemma LastStands(ins: seq<Incoming>, k: nat)
    requires k + 1 < |ins|
    ensures var n := |ins| - 1;
            && (!ins[n].Failed? ==> forall reason :: FailedAt(ins, reason, k) <==> FailedAt(ins[..n], reason, k))
            && (!ins[n].PresentationTime? ==> forall ns: u64 :: TimedAt(ins, ns, k) <==> TimedAt(ins[..n], ns, k))
  {
    var init := ins[..|ins| - 1];
    assert forall j :: k <= j < |init| ==> init[j] == ins[j];
  }

  lemma {:induction false} ReasonIsLast(ins: seq<Incoming>, reason: FailureReason)
    ensures LastReason(ins) == Some(reason) <==> FailedLast(ins, reason)
  {
    if ins != [] {
      var n := |ins| - 1;
      if ins[n].Failed? {
        assert FailedAt(ins, ins[n].reason, n);
        assert forall k: nat :: FailedAt(ins, reason, k) ==> k == n;
      } else {
        ReasonIsLast(ins[..n], reason);
        forall k: nat | k < n ensures FailedAt(ins, reason, k) <==> FailedAt(ins[..n], reason, k) {
          LastStands(ins, k);
        }
      }
    }
  }

  lemma {:induction false} TimeIsLast(ins: seq<Incoming>, ns: u64)
    ensures LastTime(ins) == Some(ns) <==> TimedLast(ins, ns)
  {
    if ins != [] {
      var n := |ins| - 1;
      if ins[n].PresentationTime? {
        assert TimedAt(ins, ins[n].ns, n);
        assert forall k: nat :: TimedAt(ins, ns, k) ==> k == n;
      } else {
        TimeIsLast(ins[..n], ns);
        forall k: nat | k < n ensures TimedAt(ins, ns, k) <==> TimedAt(ins[..n], ns, k) {
          LastStands(ins, k);
        }
      }
    }
  }

  lemma {:induction false} NoneFailed(ins: seq<Incoming>)
    ensures LastReason(ins) == None <==> forall k :: 0 <= k < |ins| ==> !ins[k].Failed?
    ensures LastRaw(ins) == None <==> forall k :: 0 <= k < |ins| ==> !ins[k].FailedRaw?
  {
    if ins != [] {
      NoneFailed(ins[..|ins| - 1]);
    }
  }

  lemma EndedIs(ins: seq<Incoming>)
    ensures Ended(ins) <==> SomeEnds(ins)
  {
    NoneFailed(ins);
    if Ready in ins {
      var k :| 0 <= k < |ins| && ins[k] == Ready;
      assert Ends(ins[k]);
    }
  }

  lemma {:induction false} InFlightUntil(s: State, n: nat)
    requires n <= |s.incoming|
    ensures StillInFlight(s, n) <==> forall k :: 0 <= k < n ==> !SomeEnds(Flat(s.incoming[..k]))
  {
    if n > 0 {
      InFlightUntil(s, n - 1);
      ArrivedIsFlat(s, n - 1);
      EndedIs(Arrived(s, n - 1));
    }
  }

  /** What these events make of a frame put into buffer `index`. */
  ghost predicate Decides(ins: seq<Incoming>, index: nat, r: Outcome) {
    && (r.Frame? <==> Ready in ins && forall k :: 0 <= k < |ins| ==> !ins[k].Failed? && !ins[k].FailedRaw?)
    && (r.Frame? ==> r.index == index && forall ns: u64 :: r.presentationNs == Some(ns) <==> TimedLast(ins, ns))
    && (r == Constraints <==> FailedLast(ins, BufferConstraints))
    && (r == StoppedByCompositor <==> FailedLast(ins, SessionStopped))
  }

  lemma OutcomeIsDecided(ins: seq<Incoming>, index: nat)
    ensures Decides(ins, index, OutcomeOf(ins, index))
  {
    hide LastReason, LastRaw, LastTime, FailedLast, TimedLast;
    NoneFailed(ins);
    ReasonIsLast(ins, BufferConstraints);
    ReasonIsLast(ins, SessionStopped);
    forall ns: u64 ensures LastTime(ins) == Some(ns) <==> TimedLast(ins, ns) {
      TimeIsLast(ins, ns);
    }
  }

  /**
   A capture takes the dispatches up to the first that ends the frame, or all there are. It is a frame exactly if one of
   them said `Ready` and none a failure, in the pool's next buffer and with the last time given; a rejection of the pool
   exactly if that is the last known reason given; and neither without a pool or after the session has stopped.
   */
  lemma OutcomeSays(s: State, n: nat)
    requires TryTakes(s, n)
    ensures var ins, r := Flat(s.incoming[..n]), TryOutcome(s, n);
            if s.stopped then n == 0 && r == StoppedByCompositor
            else if s.pool.buffers == [] then n == 0 && r == Other
            else
              && (forall k :: 0 <= k < n ==> !SomeEnds(Flat(s.incoming[..k])))
              && (SomeEnds(ins) || n == |s.incoming|)
              && Decides(ins, s.nextBuffer, r)
  {
    hide Flat, Arrived, Decides, OutcomeOf, Ended;
    if CanTry(s) {
      ArrivedIsFlat(s, n);
      InFlightUntil(s, n);
      EndedIs(Flat(s.incoming[..n]));
      OutcomeIsDecided(Flat(s.incoming[..n]), s.nextBuffer);
    }
  }
}
