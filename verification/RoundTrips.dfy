/**
 First-in first-out ack matching (session.rs): the drain thread notes a time per frame, the device decodes in order
 and acknowledges each frame it renders, and the reader matches every ack to the oldest unmatched time.
 Frames may be dropped anywhere between the socket and the screen.
 */
module RoundTrips {
  import opened Bytes
  import opened ReverseProtocol
  import opened AckReader
  import opened Sequences

  datatype Link = Link(
    now: int,
    host: Host,
    sent: nat,               // frames handed to the socket so far; frame k is the k-th
    frames: seq<nat>,        // frames on their way to the screen, oldest first
    acks: seq<nat>,          // frames whose ack is on its way back
    noted: seq<int>,         // history: the time noted for each frame
    acked: seq<nat>,         // history: the frames whose ack the host has handled
    ackedAt: seq<int>,       // history: when
    dropped: seq<nat>)       // history: the frames that were never acknowledged

  datatype Action = Wait(dt: nat) | Note | Send | DropFrame(i: nat) | Render | HandleAck(pts: u64)

  const START := Link(0, Host([], [], []), 0, [], [], [], [], [], [])

  function Step(s: Link, a: Action): Link {
    match a
    case Wait(dt) => s.(now := s.now + dt)
    case Note => s.(host := s.host.(sentAt := s.host.sentAt + [s.now]), noted := s.noted + [s.now])
    case Send => if s.sent < |s.noted| then s.(sent := s.sent + 1, frames := s.frames + [s.sent]) else s
    case DropFrame(i) =>
      if i < |s.frames|
      then s.(frames := s.frames[..i] + s.frames[i + 1..], dropped := s.dropped + [s.frames[i]])
      else s
    case Render => if s.frames != [] then s.(frames := s.frames[1..], acks := s.acks + [s.frames[0]]) else s
    case HandleAck(pts) =>
      if s.acks == [] then s else
        s.(acks := s.acks[1..], acked := s.acked + [s.acks[0]], ackedAt := s.ackedAt + [s.now],
           host := Dispatch(s.host, Ack(pts), s.now, false))
  }

  function Exec(run: seq<Action>): Link {
    if run == [] then START else Step(Exec(run[..|run| - 1]), run[|run| - 1])
  }

  /** How many of `ds` are below `x`. */
  function Below(ds: seq<nat>, x: nat): nat {
    if ds == [] then 0 else Below(ds[..|ds| - 1], x) + (if ds[|ds| - 1] < x then 1 else 0)
  }

  /** Every frame not dropped, in order. */
  function Line(s: Link): seq<nat> {
    s.acked + s.acks + s.frames
  }

  /** The j-th surviving frame is `j` plus the number of drops before it. */
  predicate InStep(line: seq<nat>, dropped: seq<nat>, sent: nat) {
    && |line| + |dropped| == sent
    && (forall j :: 0 <= j < |line| ==> line[j] < sent && line[j] == j + Below(dropped, line[j]))
    && (forall i, j :: 0 <= i < j < |line| ==> line[i] < line[j])
    && (forall d :: d in dropped ==> d < sent && d !in line)
  }

  lemma {:induction false} BelowAll(ds: seq<nat>, x: nat)
    requires forall i :: 0 <= i < |ds| ==> ds[i] < x
    ensures Below(ds, x) == |ds|
  {
    if ds != [] {
      BelowAll(ds[..|ds| - 1], x);
    }
  }

  lemma BelowGrows(ds: seq<nat>, d: nat, x: nat)
    ensures Below(ds + [d], x) == Below(ds, x) + (if d < x then 1 else 0)
  {
    assert (ds + [d])[..|ds|] == ds;
  }

  lemma SendInStep(line: seq<nat>, dropped: seq<nat>, sent: nat)
    requires InStep(line, dropped, sent)
    ensures InStep(line + [sent], dropped, sent + 1)
  {
    assert forall i :: 0 <= i < |dropped| ==> dropped[i] in dropped;
    BelowAll(dropped, sent);
  }

  lemma DropInStep(line: seq<nat>, dropped: seq<nat>, sent: nat, i: nat)
    requires InStep(line, dropped, sent) && i < |line|
    ensures InStep(line[..i] + line[i + 1..], dropped + [line[i]], sent)
  {
    var line' := line[..i] + line[i + 1..];
    forall j | 0 <= j < |line'|
      ensures line'[j] < sent && line'[j] == j + Below(dropped + [line[i]], line'[j])
    {
      BelowGrows(dropped, line[i], line'[j]);
    }
  }

  /** The frames and acks in flight follow those handled, in order, with only dropped ones missing. */
  predicate LineSound(s: Link) {
    InStep(Line(s), s.dropped, s.sent)
  }

  /** The host has a send time for every frame sent and not yet acked, and a trip for every ack. */
  predicate HostSound(s: Link) {
    && s.sent <= |s.noted|
    && |s.acked| == |s.ackedAt| == |s.host.roundTrips|
    && |s.acked| <= |s.noted|
    && s.host.sentAt == s.noted[|s.acked|..]
    && (forall k :: 0 <= k < |s.acked| ==> s.host.roundTrips[k] == s.ackedAt[k] - s.noted[k])
  }

  predicate TimesSound(s: Link) {
    && (forall i, j :: 0 <= i <= j < |s.noted| ==> s.noted[i] <= s.noted[j])
    && (forall i :: 0 <= i < |s.noted| ==> s.noted[i] <= s.now)
  }

  predicate Sound(s: Link) {
    LineSound(s) && HostSound(s) && TimesSound(s)
  }

  lemma MoveToMiddle<T>(a: seq<T>, b: seq<T>, c: seq<T>)
    requires c != []
    ensures a + (b + [c[0]]) + c[1..] == a + b + c
  {
  }

  lemma MoveToFront<T>(a: seq<T>, b: seq<T>, c: seq<T>)
    requires b != []
    ensures (a + [b[0]]) + b[1..] + c == a + b + c
  {
  }

  lemma RemoveFromBack<T>(a: seq<T>, b: seq<T>, i: nat)
    requires i < |b|
    ensures (a + b)[|a| + i] == b[i]
    ensures a + (b[..i] + b[i + 1..]) == (a + b)[..|a| + i] + (a + b)[|a| + i + 1..]
  {
  }

  lemma SendKeepsLine(s: Link)
    requires LineSound(s) && s.sent < |s.noted|
    ensures LineSound(Step(s, Send))
  {
    Regroup(s.acked + s.acks, s.frames, [s.sent]);
    SendInStep(Line(s), s.dropped, s.sent);
  }

  lemma DropKeepsLine(s: Link, i: nat)
    requires LineSound(s) && i < |s.frames|
    ensures LineSound(Step(s, DropFrame(i)))
  {
    var front := s.acked + s.acks;
    RemoveFromBack(front, s.frames, i);
    DropInStep(Line(s), s.dropped, s.sent, |front| + i);
  }

  /** Rendering a frame and handling an ack move it along the line. */
  lemma LineUnmoved(s: Link, a: Action)
    requires !a.Send? && !a.DropFrame?
    ensures var s' := Step(s, a); Line(s') == Line(s) && s'.dropped == s.dropped && s'.sent == s.sent
  {
    if a.Render? && s.frames != [] {
      MoveToMiddle(s.acked, s.acks, s.frames);
    }
    if a.HandleAck? && s.acks != [] {
      MoveToFront(s.acked, s.acks, s.frames);
    }
  }

  lemma LineSoundStep(s: Link, a: Action)
    requires LineSound(s)
    ensures LineSound(Step(s, a))
  {
    match a
    case Send =>
      if s.sent < |s.noted| {
        SendKeepsLine(s);
      }
    case DropFrame(i) =>
      if i < |s.frames| {
        DropKeepsLine(s, i);
      }
    case _ => LineUnmoved(s, a);
  }

  lemma HostSoundStep(s: Link, a: Action)
    requires LineSound(s) && HostSound(s)
    ensures HostSound(Step(s, a))
  {
    assert |Line(s)| <= s.sent;
    if a.Note? {
      assert (s.noted + [s.now])[|s.acked|..] == s.noted[|s.acked|..] + [s.now];
    }
  }

  lemma TimesSoundStep(s: Link, a: Action)
    requires TimesSound(s)
    ensures TimesSound(Step(s, a))
  {
  }

  lemma SoundStep(s: Link, a: Action)
    requires Sound(s)
    ensures Sound(Step(s, a))
  {
    LineSoundStep(s, a);
    HostSoundStep(s, a);
    TimesSoundStep(s, a);
  }

  lemma {:induction false} SoundAlways(run: seq<Action>)
    ensures Sound(Exec(run))
  {
    if run != [] {
      SoundAlways(run[..|run| - 1]);
      SoundStep(Exec(run[..|run| - 1]), run[|run| - 1]);
    }
  }

  /** An ack that reaches the host always finds a time to match, so exactly one trip is recorded per ack. */
  lemma AckFindsItsSend(run: seq<Action>)
    ensures var s := Exec(run);
            && (s.acks != [] ==> s.host.sentAt != [])
            && |s.host.roundTrips| == |s.acked|
  {
    SoundAlways(run);
    assert |Line(Exec(run))| <= Exec(run).sent;
  }

  /** The time from frame `f`'s own note to the host's handling of its ack, the k-th. */
  function TrueTrip(s: Link, k: nat): int
    requires k < |s.acked| && k < |s.ackedAt| && s.acked[k] < |s.noted|
  {
    s.ackedAt[k] - s.noted[s.acked[k]]
  }

  /**
   The k-th trip recorded is measured from the k-th note, while the ack is for frame k + d, where d is the number of
   frames dropped ahead of it. So a recorded trip never understates the true one, and the pairing is the right one
   exactly when no earlier frame was dropped.
   */
  lemma RecordedTrip(run: seq<Action>, k: nat)
    requires k < |Exec(run).acked|
    ensures var s := Exec(run);
            && k < |s.ackedAt| && k < |s.noted| && k < |s.host.roundTrips| && s.acked[k] < |s.noted|
            && s.host.roundTrips[k] == s.ackedAt[k] - s.noted[k]
            && s.acked[k] == k + Below(s.dropped, s.acked[k])
            && s.host.roundTrips[k] >= TrueTrip(s, k)
            && (s.acked[k] == k <==> forall d :: d in s.dropped ==> d > s.acked[k])
            && (s.acked[k] == k ==> s.host.roundTrips[k] == TrueTrip(s, k))
  {
    SoundAlways(run);
    var s := Exec(run);
    assert Line(s)[k] == s.acked[k];
    assert forall i :: 0 <= i < |s.dropped| ==> s.dropped[i] in s.dropped;
    NoneBelow(s.dropped, s.acked[k]);
  }

  lemma {:induction false} NoneBelow(ds: seq<nat>, x: nat)
    ensures Below(ds, x) == 0 <==> forall i :: 0 <= i < |ds| ==> ds[i] >= x
  {
    if ds != [] {
      NoneBelow(ds[..|ds| - 1], x);
    }
  }

  lemma ExecOneMore(run: seq<Action>, a: Action)
    ensures Exec(run + [a]) == Step(Exec(run), a)
  {
    assert (run + [a])[..|run|] == run;
  }

  /** One dropped frame: the ack of the second frame, sent `dt` later, is timed from the first. */
  lemma DropOverstates(dt: nat, pts: u64) returns (run: seq<Action>)
    ensures var s := Exec(run);
            && |s.acked| == |s.ackedAt| == |s.host.roundTrips| == 1 && s.acked[0] == 1 && |s.noted| == 2
            && s.host.roundTrips[0] == TrueTrip(s, 0) + dt
  {
    run := [];
    ExecOneMore(run, Note); run := run + [Note];
    ExecOneMore(run, Send); run := run + [Send];
    ExecOneMore(run, Wait(dt)); run := run + [Wait(dt)];
    ExecOneMore(run, Note); run := run + [Note];
    ExecOneMore(run, Send); run := run + [Send];
    assert Exec(run).noted == [0, dt] && Exec(run).frames == [0, 1];
    ExecOneMore(run, DropFrame(0)); run := run + [DropFrame(0)];
    assert Exec(run).frames == [1];
    ExecOneMore(run, Render); run := run + [Render];
    ExecOneMore(run, HandleAck(pts)); run := run + [HandleAck(pts)];
  }
}
