/**
 What becomes of a set of constraints that arrives in two halves, as a run of a capture session
 (crates/capture/src/session.rs:536-548).
 */
module CaptureHalfSet {
  import opened Wrappers
  import opened CaptureCaps
  import opened CaptureGenerations
  import opened CaptureSteps
  import opened Bytes
  import opened Sequences

  function Of(es: seq<Event>): seq<Incoming> {
    if es == [] then [] else Of(es[..|es| - 1]) + [OfSession(es[|es| - 1])]
  }

  lemma {:induction false} OfIsOnlySession(es: seq<Event>)
    ensures SessionEvents(Of(es)) == es
    ensures LastReason(Of(es)) == None && LastRaw(Of(es)) == None && LastTime(Of(es)) == None && Ready !in Of(es)
  {
    if es != [] {
      OfIsOnlySession(es[..|es| - 1]);
      BackOfSnoc(Of(es[..|es| - 1]), OfSession(es[|es| - 1]));
      SplitBack(es);
    }
  }

  /** The same of the frame in flight. */
  predicate SameFrame(a: seq<Incoming>, b: seq<Incoming>) {
    && LastReason(a) == LastReason(b) && LastRaw(a) == LastRaw(b) && LastTime(a) == LastTime(b)
    && (Ready in a <==> Ready in b)
  }

  /** A dispatch with a frame event before or after events of the session. */
  lemma FrameAndSession(i: Incoming, es: seq<Event>)
    requires !i.OfSession?
    ensures SessionEvents([i] + Of(es)) == es && SessionEvents(Of(es) + [i]) == es
    ensures SameFrame([i] + Of(es), [i]) && SameFrame(Of(es) + [i], [i])
  {
    OfIsOnlySession(es);
    EventsConcat([i], Of(es));
    EventsConcat(Of(es), [i]);
    LastConcat([i], Of(es));
    LastConcat(Of(es), [i]);
    assert SessionEvents([i]) == [];
    NothingAdded(es);
  }

  lemma FirstArrives(s: State)
    requires s.incoming != []
    ensures Arrived(s, 0) == [] && Arrived(s, 1) == s.incoming[0]
    ensures After(s, 0) == s && After(s, 1) == Dispatched(s)
    ensures StillInFlight(s, 1)
  {
    NothingAdded(s.incoming[0]);
    assert !Ended([]);
  }

  /** A capture that the next dispatch ends. */
  lemma TryOne(s: State, n: nat)
    requires CanTry(s) && s.incoming != [] && Ended(s.incoming[0]) && n == 1
    ensures TryTakes(s, n) && TryOutcome(s, n) == OutcomeOf(s.incoming[0], s.nextBuffer)
    ensures Tried(s, n) == Dispatched(s).(nextBuffer := (s.nextBuffer + 1) % |s.pool.buffers|)
  {
    FirstArrives(s);
  }

  /** A capture that the next dispatch rejects, and a rebuild that has nothing to wait for. */
  lemma RejectedAtOnce(c: Config, s: State)
    requires CanTry(s) && s.incoming != [] && LastReason(s.incoming[0]) == Some(BufferConstraints)
    requires Settled(Dispatched(s).history)
    ensures TryTakes(s, 1) && TryOutcome(s, 1) == Constraints
    ensures RenegotiateTakes(c, Tried(s, 1), 0, false) && After(Tried(s, 1), 0) == Tried(s, 1)
    ensures Tried(s, 1) == Dispatched(s).(nextBuffer := (s.nextBuffer + 1) % |s.pool.buffers|)
  {
    TryOne(s, 1);
  }

  /** A set for one device, in one of the orders a compositor may use. */
  function SetFor(device: u64, modifier: u64): seq<Event> {
    [DmabufDevice(Some(device)), BufferSize(1920, 1080), DmabufFormat(XR24, [modifier]), Done]
  }

  function CapsFor(device: Option<u64>, modifier: u64): Caps {
    Caps(Some((1920, 1080)), [], [(XR24, [modifier])], device)
  }

  /** What is left of such a set once its device has been used for another pool. */
  function RestFor(modifier: u64): seq<Event> {
    [BufferSize(1920, 1080), DmabufFormat(XR24, [modifier]), Done]
  }

  lemma CapsOfOne(e: Event)
    ensures CapsOf([e]) == Note(NO_CAPS, e)
  {
    NoteAdds([], e);
    NothingAdded([e]);
  }

  lemma CapsOfRest(modifier: u64)
    ensures IsBatch(RestFor(modifier)) && CapsOf(RestFor(modifier)) == CapsFor(None, modifier)
  {
    var b, f := BufferSize(1920, 1080), DmabufFormat(XR24, [modifier]);
    CapsOfOne(b);
    NoteAdds([b], f);
    NoteAdds([b] + [f], Done);
    assert [b] + [f] + [Done] == RestFor(modifier);
  }

  lemma SetIsBatch(device: u64, modifier: u64)
    ensures IsBatch(SetFor(device, modifier)) && CapsOf(SetFor(device, modifier)) == CapsFor(Some(device), modifier)
    ensures IsBatch(RestFor(modifier)) && CapsOf(RestFor(modifier)) == CapsFor(None, modifier)
    ensures SetFor(device, modifier) == [DmabufDevice(Some(device))] + RestFor(modifier)
  {
    CapsOfRest(modifier);
    CapsOfOne(DmabufDevice(Some(device)));
    CapsAddUp([DmabufDevice(Some(device))], RestFor(modifier));
    assert SetFor(device, modifier) == [DmabufDevice(Some(device))] + RestFor(modifier);
  }

  /** A set; the set again with half of another in a dispatch that rejects the pool; the rest; and a rejection. */
  function Deliveries(first: seq<Event>, half: seq<Event>, rest: seq<Event>): seq<seq<Incoming>> {
    [Of(first), [Failed(BufferConstraints)] + Of(first + half), Of(rest) + [Ready], [Failed(BufferConstraints)]]
  }

  lemma EventsSnoc(ds: seq<seq<Incoming>>, d: seq<Incoming>)
    ensures SessionEvents(Flat(ds + [d])) == SessionEvents(Flat(ds)) + SessionEvents(d)
  {
    BackOfSnoc(ds, d);
    EventsConcat(Flat(ds), d);
  }

  lemma TwoDeliveries(first: seq<Event>, half: seq<Event>)
    ensures SessionEvents(Flat([Of(first), [Failed(BufferConstraints)] + Of(first + half)])) == first + first + half
  {
    var a, b := Of(first), [Failed(BufferConstraints)] + Of(first + half);
    OfIsOnlySession(first);
    FrameAndSession(Failed(BufferConstraints), first + half);
    EventsSnoc([], a);
    EventsSnoc([a], b);
    assert [] + [a] == [a] && [a] + [b] == [a, b];
    NothingAdded(first);
    Regroup(first, first, half);
  }

  lemma ThreeDeliveries(first: seq<Event>, half: seq<Event>, rest: seq<Event>)
    ensures SessionEvents(Flat(Deliveries(first, half, rest)[..3])) == first + first + (half + rest)
  {
    var two, c := [Of(first), [Failed(BufferConstraints)] + Of(first + half)], Of(rest) + [Ready];
    TwoDeliveries(first, half);
    FrameAndSession(Ready, rest);
    EventsSnoc(two, c);
    assert Deliveries(first, half, rest)[..3] == two + [c];
    Regroup(first + first, half, rest);
  }

  lemma ThreeSets(first: seq<Event>, half: seq<Event>, rest: seq<Event>)
    ensures SessionEvents(Flat(Deliveries(first, half, rest))) == first + first + (half + rest)
  {
    var ds := Deliveries(first, half, rest);
    ThreeDeliveries(first, half, rest);
    EventsSnoc(ds[..3], ds[3]);
    SplitBack(ds);
    assert SessionEvents(ds[3]) == [];
    NothingAdded(first + first + (half + rest));
  }

  lemma WaitOne(s: State)
    requires s.incoming != [] && !Settled(s.history) && !s.stopped && Settled(Dispatched(s).history)
    ensures OpenTakes(s, 1) && After(s, 1) == Dispatched(s)
  {
    FirstArrives(s);
  }

  lemma Delivers(s: State, ins: seq<Incoming>, rest: seq<seq<Incoming>>)
    requires s.incoming == [ins] + rest && Stopped !in SessionEvents(ins)
    ensures s.incoming[0] == ins
    ensures Dispatched(s) == s.(incoming := rest, history := Extended(s.history, SessionEvents(ins)))
  {
    FrontOfConcat([ins], rest);
    NothingAdded(rest);
  }

  /** A session opened on a set. */
  function OpenedOn(c: Config, batch: seq<Event>, rest: seq<seq<Incoming>>): State
    requires PoolFrom(c, CapsOf(batch)).Some?
  {
    State(History(Some(CapsOf(batch)), []), [batch], false, rest, PoolFrom(c, CapsOf(batch)).value, 0, false)
  }

  lemma OpensOn(c: Config, batch: seq<Event>, rest: seq<seq<Incoming>>)
    requires IsBatch(batch) && PoolFrom(c, CapsOf(batch)).Some?
    ensures var s := Unopened([Of(batch)] + rest);
            && OpenTakes(s, 1) && OpenOk(c, s, 1, false)
            && Rebuilt(c, After(s, 1), false) == OpenedOn(c, batch, rest)
  {
    var s := Unopened([Of(batch)] + rest);
    OfIsOnlySession(batch);
    NothingAdded(batch);
    BatchSettles(History(None, batch), [], batch, []);
    Delivers(s, Of(batch), rest);
    WaitOne(s);
    NothingAdded([batch]);
  }

  /** The pool is rejected in a dispatch that delivers `es`, and nothing more need be awaited. */
  lemma RejectedOn(c: Config, s: State, es: seq<Event>, rest: seq<seq<Incoming>>)
    requires CanTry(s) && Stopped !in es && Settled(Extended(s.history, es))
    requires s.incoming == [[Failed(BufferConstraints)] + Of(es)] + rest
    ensures TryTakes(s, 1) && TryOutcome(s, 1) == Constraints && RenegotiateTakes(c, Tried(s, 1), 0, false)
    ensures After(Tried(s, 1), 0) == s.(history := Extended(s.history, es), incoming := rest,
                                        nextBuffer := (s.nextBuffer + 1) % |s.pool.buffers|)
  {
    var ins := [Failed(BufferConstraints)] + Of(es);
    FrameAndSession(Failed(BufferConstraints), es);
    Delivers(s, ins, rest);
    RejectedAtOnce(c, s);
  }

  /** A capture whose frame is ready in a dispatch that delivers `es` besides. */
  lemma TakesFrame(s: State, es: seq<Event>, rest: seq<seq<Incoming>>)
    requires CanTry(s) && Stopped !in es && s.incoming == [Of(es) + [Ready]] + rest
    ensures TryTakes(s, 1) && TryOutcome(s, 1) == Frame(s.nextBuffer, None)
    ensures Tried(s, 1) == s.(history := Extended(s.history, es), incoming := rest,
                              nextBuffer := (s.nextBuffer + 1) % |s.pool.buffers|)
  {
    FrameAndSession(Ready, es);
    assert LastReason([Ready]) == None && LastRaw([Ready]) == None && LastTime([Ready]) == None;
    Delivers(s, Of(es) + [Ready], rest);
    TryOne(s, 1);
  }

  /** A rejected pool is replaced at once by one of the same size. */
  lemma Replaces(c: Config, s: State, es: seq<Event>, pool: Pool, rest: seq<seq<Incoming>>)
    requires CanTry(s) && Stopped !in es && Settled(Extended(s.history, es))
    requires s.incoming == [[Failed(BufferConstraints)] + Of(es)] + rest
    requires PoolFrom(c, Current(Extended(s.history, es))) == Some(pool) && SameSize(pool, s.pool)
    ensures TryTakes(s, 1) && TryOutcome(s, 1) == Constraints && RenegotiateTakes(c, Tried(s, 1), 0, false)
    ensures RenegotiateOk(c, Tried(s, 1), 0, false)
    ensures Renegotiated(c, Tried(s, 1), 0, false) ==
            s.(history := History(Some(pool.caps), []), builds := s.builds + [s.history.since + es], incoming := rest,
               pool := pool, nextBuffer := 0)
  {
    RejectedOn(c, s, es, rest);
  }

  /** And the retry's frame arrives in the next dispatch. */
  lemma ReplacedAndTaken(c: Config, s: State, es: seq<Event>, pool: Pool, more: seq<Event>, rest: seq<seq<Incoming>>)
    requires c.poolSize > 0 && CanTry(s) && Stopped !in es && Stopped !in more && Settled(Extended(s.history, es))
    requires s.incoming == [[Failed(BufferConstraints)] + Of(es)] + ([Of(more) + [Ready]] + rest)
    requires PoolFrom(c, Current(Extended(s.history, es))) == Some(pool) && SameSize(pool, s.pool)
    ensures Captured(c, s, Taken(1, 0, 1), false, Frame(0, None),
                     s.(history := History(Some(pool.caps), more), builds := s.builds + [s.history.since + es],
                        incoming := rest, pool := pool, nextBuffer := 1 % c.poolSize))
  {
    Replaces(c, s, es, pool, [Of(more) + [Ready]] + rest);
    NothingAdded(more);
    TakesFrame(Renegotiated(c, Tried(s, 1), 0, false), more, rest);
  }

  /** A rejected pool that cannot be replaced is gone. */
  lemma RebuildFails(c: Config, s: State)
    requires CanTry(s) && s.incoming == [[Failed(BufferConstraints)]] && Settled(s.history)
    requires PoolFrom(c, Current(s.history)) == None
    ensures Captured(c, s, Taken(1, 0, 0), false, Other,
                     NoPool(s.(incoming := [], nextBuffer := (s.nextBuffer + 1) % |s.pool.buffers|)))
  {
    NothingAdded(s.history.since);
    NothingAdded([Failed(BufferConstraints)]);
    NothingAdded([[Failed(BufferConstraints)]]);
    RejectedOn(c, s, [], []);
  }

  /** How `half` of a set may be lost: pools from `first`, then from `first + half`, and none from the `rest`. */
  predicate HalfIsLost(c: Config, first: seq<Event>, half: seq<Event>, rest: seq<Event>) {
    var own, mixed := PoolFrom(c, CapsOf(first)), PoolFrom(c, CapsOf(first + half));
    && c.poolSize > 0 && IsBatch(first) && IsBatch(rest)
    && (forall e :: e in half ==> IsConstraint(e))
    && own.Some? && mixed.Some? && SameSize(own.value, mixed.value)
    && PoolFrom(c, CapsOf(rest)) == None
  }

  lemma HalfSettles(built: Option<Caps>, first: seq<Event>, half: seq<Event>)
    requires IsBatch(first)
    ensures var h := History(built, first + half); Settled(h) && Current(h) == CapsOf(h.since)
  {
    NothingAdded(first);
    BatchSettles(History(built, first + half), [], first, half);
  }

  lemma ThreeStates(c: Config, source: seq<seq<Incoming>>, s: State, s': State, s'': State)
    requires IsRun(c, source, [s]) && IsStep(c, s, s') && IsStep(c, s', s'')
    ensures IsRun(c, source, [s, s', s''])
  {
    OneMoreState(c, source, [s], s');
    OneMoreState(c, source, [s] + [s'], s'');
    assert [s] + [s'] + [s''] == [s, s', s''];
  }

  /** The session after its first call: the pool is built from both. */
  function Mixed(c: Config, first: seq<Event>, half: seq<Event>, rest: seq<Event>): State
    requires HalfIsLost(c, first, half, rest)
  {
    var pool := PoolFrom(c, CapsOf(first + half)).value;
    State(History(Some(pool.caps), rest), [first, first + half], false, [[Failed(BufferConstraints)]], pool,
          1 % c.poolSize, false)
  }

  /** And after its second: there is none. */
  function Lost(c: Config, first: seq<Event>, half: seq<Event>, rest: seq<Event>): State
    requires HalfIsLost(c, first, half, rest)
  {
    NoPool(Mixed(c, first, half, rest).(incoming := [], nextBuffer := (1 % c.poolSize + 1) % c.poolSize))
  }

  lemma FirstCall(c: Config, first: seq<Event>, half: seq<Event>, rest: seq<Event>)
    requires HalfIsLost(c, first, half, rest)
    ensures var s := OpenedOn(c, first, Deliveries(first, half, rest)[1..]);
            Captured(c, s, Taken(1, 0, 1), false, Frame(0, None), Mixed(c, first, half, rest))
  {
    var s := OpenedOn(c, first, Deliveries(first, half, rest)[1..]);
    var both, rejected := first + half, [[Failed(BufferConstraints)]];
    HalfSettles(s.history.built, first, half);
    NothingAdded(both);
    assert s.incoming == [[Failed(BufferConstraints)] + Of(both)] + ([Of(rest) + [Ready]] + rejected);
    ReplacedAndTaken(c, s, both, PoolFrom(c, CapsOf(both)).value, rest, rejected);
    assert [first] + [both] == [first, both];
  }

  lemma SecondCall(c: Config, first: seq<Event>, half: seq<Event>, rest: seq<Event>)
    requires HalfIsLost(c, first, half, rest)
    ensures Captured(c, Mixed(c, first, half, rest), Taken(1, 0, 0), false, Other, Lost(c, first, half, rest))
  {
    var s := Mixed(c, first, half, rest);
    NothingAdded(rest);
    HalfSettles(s.history.built, rest, []);
    RebuildFails(c, s);
  }

  lemma StepBy(c: Config, s: State, taken: Taken, refused: bool, r: Outcome, s': State)
    requires Captured(c, s, taken, refused, r, s')
    ensures IsStep(c, s, s')
  {
  }

  /** Whatever the sets, this is a session, which goes on with the mixed pool and ends up without one. */
  lemma HalfSetRun(c: Config, first: seq<Event>, half: seq<Event>, rest: seq<Event>)
    requires HalfIsLost(c, first, half, rest)
    ensures var source := Deliveries(first, half, rest);
            IsRun(c, source, [OpenedOn(c, first, source[1..]), Mixed(c, first, half, rest), Lost(c, first, half, rest)])
  {
    var source := Deliveries(first, half, rest);
    var s, mixed, last := OpenedOn(c, first, source[1..]), Mixed(c, first, half, rest), Lost(c, first, half, rest);
    OpensOn(c, first, source[1..]);
    assert [Of(first)] + source[1..] == source;
    OneState(c, source, 1);
    FirstCall(c, first, half, rest);
    StepBy(c, s, Taken(1, 0, 1), false, Frame(0, None), mixed);
    SecondCall(c, first, half, rest);
    StepBy(c, mixed, Taken(1, 0, 0), false, Other, last);
    ThreeStates(c, source, s, mixed, last);
  }

  lemma DeviceAloneIsLost(c: Config, d: u64, m: u64, d': u64, m': u64)
    requires c.poolSize > 0 && c.mode.Dmabuf? && c.allowed == []
    ensures HalfIsLost(c, SetFor(d, m), [DmabufDevice(Some(d'))], RestFor(m'))
    ensures CapsOf(SetFor(d, m) + [DmabufDevice(Some(d'))]) == CapsFor(Some(d'), m)
    ensures PoolFrom(c, CapsOf(SetFor(d, m))).Some? && PoolFrom(c, CapsOf(SetFor(d', m'))).Some?
  {
    SetIsBatch(d, m);
    SetIsBatch(d', m');
    NoteAdds(SetFor(d, m), DmabufDevice(Some(d')));
  }

  /**
   One dispatch may deliver a complete set and the beginning of the next. Negotiation then builds at once from both,
   here a pool on the next set's device with modifiers that only the last one's offers; and the rest of that set,
   standing alone, has no device, so the session ends up without a pool although each of its three sets allows one.
   */
  lemma HalfASet(poolSize: nat, d: u64, m: u64, d': u64, m': u64) returns (s: State, mixed: State, last: State)
    requires poolSize > 0
    ensures var c, first, third := Config(Dmabuf, poolSize, []), SetFor(d, m), SetFor(d', m');
            var source := Deliveries(first, [DmabufDevice(Some(d'))], RestFor(m'));
            && SessionEvents(Flat(source)) == first + first + third
            && PoolFrom(c, CapsOf(first)).Some? && PoolFrom(c, CapsOf(third)).Some?
            && IsRun(c, source, [s, mixed, last])
            && Captured(c, s, Taken(1, 0, 1), false, Frame(0, None), mixed)
            && mixed.pool.caps.device == Some(d') && mixed.pool.caps.dmabuf == [(XR24, [m])]
            && Captured(c, mixed, Taken(1, 0, 0), false, Other, last)
            && last.pool.buffers == [] && last.incoming == []
  {
    var c, first, half, rest := Config(Dmabuf, poolSize, []), SetFor(d, m), [DmabufDevice(Some(d'))], RestFor(m');
    DeviceAloneIsLost(c, d, m, d', m');
    SetIsBatch(d', m');
    ThreeSets(first, half, rest);
    s, mixed, last := OpenedOn(c, first, Deliveries(first, half, rest)[1..]), Mixed(c, first, half, rest),
    Lost(c, first, half, rest);
    HalfSetRun(c, first, half, rest);
    FirstCall(c, first, half, rest);
    SecondCall(c, first, half, rest);
  }
}
