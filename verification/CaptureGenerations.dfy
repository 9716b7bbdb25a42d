/**
 Generations of constraints (crates/capture/src/session.rs): what the constraint events that have arrived since a pool
 was built amount to, when they are settled, and which of them the next pool is built from.
 */
module CaptureGenerations {
  import opened Bytes
  import opened Wrappers
  import opened CaptureCaps
  import opened Sequences

  /** Every session event since the last pool was built; `built` is what that pool was built from. */
  datatype History = History(built: Option<Caps>, since: seq<Event>)

  /** Whether the constraints that apply are settled: those in use, or a later set that its `Done` has followed. */
  predicate Settled(h: History) {
    Consumed(h) || DoneAfter(h.built.Some?, h.since)
  }

  /** Whether a `Done` follows a constraint event (any `Done` will do while no pool has been built). */
  predicate DoneAfter(built: bool, es: seq<Event>) {
    if es == [] then false else
    var init := es[..|es| - 1];
    (es[|es| - 1].Done? && (built ==> AnyConstraint(init))) || DoneAfter(built, init)
  }

  /** The constraints that apply: the ones in use, or everything that has arrived since. */
  function Current(h: History): Caps {
    if h.built.Some? && !AnyConstraint(h.since) then h.built.value else CapsOf(h.since)
  }

  predicate Consumed(h: History) {
    h.built.Some? && !AnyConstraint(h.since)
  }

  lemma DoneNeedsConstraint(es: seq<Event>)
    requires !AnyConstraint(es)
    ensures !DoneAfter(true, es)
  {
    if es != [] {
      var init := es[..|es| - 1];
      assert AnyConstraint(init) ==> AnyConstraint(es);
      DoneNeedsConstraint(init);
    }
  }

  lemma {:induction false} NothingYet(es: seq<Event>)
    requires !AnyConstraint(es)
    ensures CapsOf(es) == NO_CAPS
  {
    if es != [] {
      assert !IsConstraint(es[|es| - 1]);
      assert AnyConstraint(es[..|es| - 1]) ==> AnyConstraint(es);
      NothingYet(es[..|es| - 1]);
    }
  }

  lemma AnyConstraintGrows(es: seq<Event>, e: Event)
    ensures AnyConstraint(es + [e]) <==> AnyConstraint(es) || IsConstraint(e)
  {
    if IsConstraint(e) {
      assert IsConstraint((es + [e])[|es|]);
    }
    if AnyConstraint(es) {
      var i :| 0 <= i < |es| && IsConstraint(es[i]);
      assert IsConstraint((es + [e])[i]);
    }
  }

  lemma ConstraintArrives(h: History, e: Event)
    requires IsConstraint(e)
    ensures var h' := h.(since := h.since + [e]);
            && !Consumed(h')
            && Current(h') == Note(if Consumed(h) then NO_CAPS else Current(h), e)
            && (Settled(h') <==> !Consumed(h) && Settled(h))
  {
    assert (h.since + [e])[..|h.since|] == h.since;
    AnyConstraintGrows(h.since, e);
    NoteAdds(h.since, e);
    if !AnyConstraint(h.since) {
      NothingYet(h.since);
      DoneNeedsConstraint(h.since);
    }
  }

  lemma OtherArrives(h: History, e: Event)
    requires !IsConstraint(e)
    ensures var h' := h.(since := h.since + [e]);
            && Consumed(h') == Consumed(h) && Current(h') == Current(h)
            && (Settled(h') <==> Settled(h) || e.Done?)
  {
    assert (h.since + [e])[..|h.since|] == h.since;
    AnyConstraintGrows(h.since, e);
    NoteAdds(h.since, e);
  }

  /** What the event handler keeps: the constraints, whether they are settled, and whether they are in use. */
  datatype Notes = Notes(caps: Caps, done: bool, consumed: bool)

  function Begun(n: Notes): Notes {
    if n.consumed then Notes(NO_CAPS, false, false) else n
  }

  function NotesAfter(n: Notes, e: Event): Notes {
    if e.Done? then n.(done := true)
    else if e.Stopped? then n
    else Begun(n).(caps := Note(Begun(n).caps, e))
  }

  function NotesAfterAll(n: Notes, es: seq<Event>): Notes {
    if es == [] then n else NotesAfter(NotesAfterAll(n, es[..|es| - 1]), es[|es| - 1])
  }

  /** After a build, or before the first. */
  function Fresh(built: Option<Caps>): Notes {
    match built
    case None => Notes(NO_CAPS, false, false)
    case Some(caps) => Notes(caps, true, true)
  }

  /** Event by event; what it comes to is `NotesAre`. */
  function NotesOf(h: History): Notes {
    NotesAfterAll(Fresh(h.built), h.since)
  }

  lemma {:induction false} NotesConcat(n: Notes, a: seq<Event>, b: seq<Event>)
    ensures NotesAfterAll(n, a + b) == NotesAfterAll(NotesAfterAll(n, a), b)
  {
    if b == [] {
      NothingAdded(a);
    } else {
      BackOfConcat(a, b);
      NotesConcat(n, a, b[..|b| - 1]);
    }
  }

  /** The notes are those of everything that has arrived since the last build, however it was spread. */
  lemma {:induction false} NotesAre(h: History)
    ensures NotesOf(h) == Notes(Current(h), Settled(h), Consumed(h))
    decreases |h.since|
  {
    if h.since != [] {
      var init, e := h.(since := h.since[..|h.since| - 1]), h.since[|h.since| - 1];
      NotesAre(init);
      SplitBack(h.since);
      if IsConstraint(e) {
        ConstraintArrives(init, e);
      } else {
        OtherArrives(init, e);
      }
    }
  }

  /** One complete set of constraints. */
  predicate IsBatch(es: seq<Event>) {
    && |es| > 1 && es[|es| - 1].Done?
    && forall i :: 0 <= i < |es| - 1 ==> IsConstraint(es[i])
  }

  lemma {:induction false} DoneStays(built: bool, a: seq<Event>, b: seq<Event>)
    requires DoneAfter(built, a)
    ensures DoneAfter(built, a + b)
  {
    if b == [] {
      NothingAdded(a);
    } else {
      BackOfConcat(a, b);
      DoneStays(built, a, b[..|b| - 1]);
    }
  }

  lemma BatchSettles(h: History, earlier: seq<Event>, batch: seq<Event>, later: seq<Event>)
    requires IsBatch(batch) && h.since == earlier + batch + later
    ensures Settled(h) && Current(h) == CapsOf(h.since)
  {
    var upTo := earlier + batch;
    var init := upTo[..|upTo| - 1];
    assert IsConstraint(init[|earlier|]);
    assert DoneAfter(h.built.Some?, upTo);
    DoneStays(h.built.Some?, upTo, later);
    assert IsConstraint(h.since[|earlier|]);
  }

  /** Around the set no format is listed; nothing is set before that it leaves out, nor after to another value. */
  predicate CountsAlone(earlier: seq<Event>, batch: seq<Event>, later: seq<Event>) {
    && ShmFormats(earlier) == ShmFormats(later) == [] && DmabufFormats(earlier) == DmabufFormats(later) == []
    && (LastSize(earlier).Some? ==> LastSize(batch).Some?)
    && (LastDevice(earlier).Some? ==> LastDevice(batch).Some?)
    && (LastSize(later).Some? ==> LastSize(later) == LastSize(batch))
    && (LastDevice(later).Some? ==> LastDevice(later) == LastDevice(batch))
  }

  /**
   However many events a dispatch delivers around a complete set, negotiation is then satisfied, and the pool is built
   from that set alone if and only if nothing before it since the last build and nothing after it counts: no format
   listed, nothing set before that the set leaves out, and nothing set after to another value. In particular when the
   set is all that has arrived.
   */
  lemma RebuiltFromLatest(h: History, earlier: seq<Event>, batch: seq<Event>, later: seq<Event>)
    requires IsBatch(batch) && h.since == earlier + batch + later
    ensures Settled(h)
    ensures Current(h) == CapsOf(batch) <==> CountsAlone(earlier, batch, later)
    ensures earlier == later == [] ==> Current(h) == CapsOf(batch)
  {
    BatchSettles(h, earlier, batch, later);
    MiddleSetAlone(earlier, batch, later);
    if earlier == later == [] {
      assert h.since == batch;
    }
  }

  /** When two sets arrive before a rebuild, a format both offer is taken with the modifiers of the first. */
  lemma OlderModifiersWin(h: History, first: seq<Event>, second: seq<Event>, fourcc: u32)
    requires IsBatch(first) && IsBatch(second) && h.since == first + second
    requires Offered(DmabufFormats(first), fourcc).Some?
    ensures Offered(Current(h).dmabuf, fourcc) == Offered(DmabufFormats(first), fourcc)
  {
    assert IsConstraint(h.since[0]);
    CapsAddUp(first, second);
    EarlierOfferWins(DmabufFormats(first), DmabufFormats(second), fourcc);
  }

  // ------------------------------------------------------------ one pool after another

  /** The constraints in use after pools have been built, each from the events that had arrived since the one before. */
  function CapsAfter(builds: seq<seq<Event>>): Option<Caps> {
    if builds == [] then None else
    var init := builds[..|builds| - 1];
    Some(Current(History(CapsAfter(init), builds[|builds| - 1])))
  }

  /** No pool was built before the constraints were settled. */
  predicate AllSettled(builds: seq<seq<Event>>) {
    forall i :: 0 <= i < |builds| ==> Settled(History(CapsAfter(builds[..i]), builds[i]))
  }

  /** The events of all the generations, in order. */
  function Joined(builds: seq<seq<Event>>): seq<Event> {
    if builds == [] then [] else Joined(builds[..|builds| - 1]) + builds[|builds| - 1]
  }

  lemma OneMoreBuild(builds: seq<seq<Event>>, since: seq<Event>)
    ensures CapsAfter(builds + [since]) == Some(Current(History(CapsAfter(builds), since)))
    ensures Joined(builds + [since]) == Joined(builds) + since
    ensures AllSettled(builds) && Settled(History(CapsAfter(builds), since)) ==> AllSettled(builds + [since])
  {
    BackOfSnoc(builds, since);
    if AllSettled(builds) && Settled(History(CapsAfter(builds), since)) {
      forall i | 0 <= i < |builds + [since]|
        ensures Settled(History(CapsAfter((builds + [since])[..i]), (builds + [since])[i]))
      {
        CutWithin(builds, [since], i);
        assert i < |builds| ==> Settled(History(CapsAfter(builds[..i]), builds[i]));
        NothingAdded(builds);
      }
    }
  }
}
