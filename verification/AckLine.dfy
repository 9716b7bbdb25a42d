/**
 The line of acks from the decoder to the host's round trips (VideoStream.kt, session.rs): however they are mixed with
 touches, batched and fragmented, the acks handled are those of the frames rendered, first come first served.
 */
module AckLine {
  import opened Bytes
  import opened ReverseProtocol
  import opened Sequences
  import RC = ReverseChannel
  import VideoStream
  import opened AckReader

  /** The timestamps of the frames rendered in the course of a run. */
  function Rendered(run: seq<RC.Action>): seq<u64> {
    if run == [] then [] else
      Rendered(run[..|run| - 1]) + if run[|run| - 1].OfferAck? then [run[|run| - 1].pts] else []
  }

  function AckIn(e: RC.Entry): seq<u64> {
    if e.AckEntry? then [e.pts] else []
  }

  function AckEntries(es: seq<RC.Entry>): seq<u64> {
    if es == [] then [] else AckEntries(es[..|es| - 1]) + AckIn(es[|es| - 1])
  }

  function AcksIn(ms: seq<ReverseMessage>): seq<u64> {
    if ms == [] then [] else AcksIn(ms[..|ms| - 1]) + if ms[|ms| - 1].Ack? then [ms[|ms| - 1].pts] else []
  }

  lemma OneMoreEntry(es: seq<RC.Entry>, e: RC.Entry)
    ensures AckEntries(es + [e]) == AckEntries(es) + AckIn(e)
  {
    BackOfSnoc(es, e);
  }

  lemma {:induction false} AckEntriesConcat(a: seq<RC.Entry>, b: seq<RC.Entry>)
    ensures AckEntries(a + b) == AckEntries(a) + AckEntries(b)
  {
    if b == [] {
      NothingAdded(a);
      NothingAdded(AckEntries(a));
    } else {
      BackOfConcat(a, b);
      AckEntriesConcat(a, b[..|b| - 1]);
      Regroup(AckEntries(a), AckEntries(b[..|b| - 1]), AckIn(b[|b| - 1]));
    }
  }

  lemma AckEntriesPrefix(a: seq<RC.Entry>, b: seq<RC.Entry>)
    requires a <= b
    ensures AckEntries(a) <= AckEntries(b)
  {
    var rest := b[|a|..];
    assert b == a + rest;
    AckEntriesConcat(a, rest);
  }

  lemma {:induction false} AcksAreCarried(es: seq<RC.Entry>)
    ensures AckEntries(RC.Carried(es)) == AckEntries(es)
  {
    if es != [] {
      var init, e := es[..|es| - 1], es[|es| - 1];
      AcksAreCarried(init);
      SplitBack(es);
      RC.CarriedSnoc(init, e);
      if RC.IsCarried(e) {
        OneMoreEntry(RC.Carried(init), e);
      } else {
        NothingAdded(RC.Carried(init));
        NothingAdded(AckEntries(init));
      }
    }
  }

  /** What an effect adds to the acks ever queued. */
  function NewAck(f: RC.Effect): seq<u64> {
    if f.Append? then AckIn(f.e) else []
  }

  lemma OfferedShown(s: RC.State, s': RC.State, f: RC.Effect)
    requires RC.Shows(s, s', f)
    ensures AckEntries(s'.offered) == AckEntries(s.offered) + NewAck(f)
  {
    hide RC.Pipeline;
    if f.Append? && !f.e.Wake? {
      OneMoreEntry(s.offered, f.e);
    } else {
      NothingAdded(s.offered);
      NothingAdded(AckEntries(s.offered));
    }
  }

  /** A step offers an ack exactly when a frame is rendered. */
  lemma RenderingOffers(s: RC.State, a: RC.Action)
    ensures NewAck(RC.EffectOf(s, a)) == if a.OfferAck? then [a.pts] else []
  {
  }

  lemma {:induction false} OfferedAreRendered(threads: nat, run: seq<RC.Action>)
    ensures AckEntries(RC.Exec(threads, run).offered) == Rendered(run)
  {
    if run != [] {
      OfferedAreRendered(threads, run[..|run| - 1]);
      var s, a := RC.Exec(threads, run[..|run| - 1]), run[|run| - 1];
      RC.PipelineStep(s, a);
      OfferedShown(s, RC.Step(s, a), RC.EffectOf(s, a));
      RenderingOffers(s, a);
    }
  }

  lemma {:induction false} AcksOfMessages(es: seq<RC.Entry>)
    requires RC.Wake !in es
    ensures AcksIn(VideoStream.MessagesOf(es)) == AckEntries(es)
  {
    if es != [] {
      var init := es[..|es| - 1];
      AcksOfMessages(init);
      assert VideoStream.MessagesOf(es)[..|es| - 1] == VideoStream.MessagesOf(init);
    }
  }

  lemma {:induction false} AckTimesCount(log: seq<Happening>)
    ensures |AckTimes(log)| == |AcksIn(MessagesIn(log))|
  {
    if log != [] {
      var init, e := log[..|log| - 1], log[|log| - 1];
      AckTimesCount(init);
      NothingAdded(MessagesIn(init));
      if e.Handled? {
        BackOfSnoc(MessagesIn(init), e.m);
      }
    }
  }

  lemma MessagesOfFront(es: seq<RC.Entry>, n: nat)
    requires RC.Wake !in es && n <= |es|
    ensures RC.Wake !in es[..n] && VideoStream.MessagesOf(es)[..n] == VideoStream.MessagesOf(es[..n])
  {
  }

  /**
   For every interleaving on the device and every schedule of reads and sends on the host, the acks handled are those of
   the frames rendered, in the order of rendering, and all of them once everything has been written and read. If at no
   moment there were more acks than sends, and only then, each makes a trip; the k-th then runs from the k-th send to
   the handling of the k-th rendered frame's ack.
   */
  lemma AcksInOrder(threads: nat, run: seq<RC.Action>, schedule: seq<ReadEvent>, touchEnabled: bool)
    ensures var s := RC.Exec(threads, run);
            && RC.Wake !in s.written
            && var wire := VideoStream.EncodeAll(VideoStream.MessagesOf(s.written));
               var log := LogOf(wire, schedule);
               var acks, trips := AcksIn(MessagesIn(log)), HostAfter(log, touchEnabled).roundTrips;
            && acks <= Rendered(run) && |acks| == |AckTimes(log)|
            && (s.queue == s.batch == [] && BytesRead(|wire|, schedule) == |wire| ==> acks == Rendered(run))
            && |trips| <= |acks| && |trips| <= |Sends(log)|
            && (|trips| == |acks| <==>
                forall k :: 0 <= k <= |log| ==> |AckTimes(log[..k])| <= |Sends(log[..k])|)
            && (|trips| == |acks| ==> forall k :: 0 <= k < |trips| ==> trips[k] == AckTimes(log)[k] - Sends(log)[k])
  {
    var s := RC.Exec(threads, run);
    RC.Reachable(threads, run);
    var ms := VideoStream.MessagesOf(s.written);
    var wire := VideoStream.EncodeAll(ms);
    var n, log := BytesRead(|wire|, schedule) / REVERSE_MSG_LEN, LogOf(wire, schedule);
    HandledPrefix(ms, schedule, touchEnabled);
    TripsAreFifo(log, touchEnabled);
    EveryAckMakesATrip(log, touchEnabled);
    AckTimesCount(log);
    MessagesOfFront(s.written, n);
    AcksOfMessages(s.written[..n]);
    WrittenAcks(threads, run, n);
  }

  lemma WrittenAcks(threads: nat, run: seq<RC.Action>, n: nat)
    requires n <= |RC.Exec(threads, run).written|
    ensures var s := RC.Exec(threads, run);
            && AckEntries(s.written[..n]) <= Rendered(run)
            && (s.queue == s.batch == [] && n == |s.written| ==> AckEntries(s.written[..n]) == Rendered(run))
  {
    var s := RC.Exec(threads, run);
    RC.GestureOrderKept(threads, run);
    OfferedAreRendered(threads, run);
    AcksAreCarried(s.offered);
    AcksAreCarried(s.written);
    AckEntriesPrefix(RC.Carried(s.written), RC.Carried(s.offered));
    AckEntriesPrefix(s.written[..n], s.written);
    if s.queue == s.batch == [] && n == |s.written| {
      assert RC.Carried(s.batch + s.queue) == [];
      NothingAdded(RC.Carried(s.written));
      assert s.written[..n] == s.written;
    }
  }
}
