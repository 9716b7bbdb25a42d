/**
 From finger to cursor: a gesture whose MOVEs were coalesced on their way (VideoStream.kt) moves the pointer
 (crates/daemon/src/input.rs) as far as the gesture with all of them.
 */
module CoalescedGesture {
  import opened ReverseProtocol
  import opened ReverseChannel
  import opened Sequences
  import opened WriterOrder
  import opened WriterRelease
  import P = Pointer
  import G = PointerGestures
  import M = PointerMotion

  /** Touches `d` to `k` are one gesture: a DOWN, at least one MOVE, an UP or CANCEL. */
  predicate IsGestureAt(s: State, d: nat, k: nat) {
    && d + 1 < k < |s.sent| && s.sent[d].msg.action.Down? && IsRelease(s.sent[k].msg)
    && forall i :: d < i < k ==> s.sent[i].msg.action.Move?
  }

  lemma OnTheLineIsSent(run: seq<Action>, t: Tagged)
    requires t in Touches(Exec(1, run).written)
    ensures var s := Exec(1, run); t.tag < |s.sent| && t == s.sent[t.tag]
  {
    var s := Exec(1, run);
    Reachable(1, run);
    TouchesIn(s.written, t);
    TouchesConserved(1, run, t);
    assert TouchEntry(t) in Pipeline(s);
  }

  lemma WrittenIsFrontOfLine(s: State)
    requires |s.senders| == 1
    ensures Line(s) == Touches(s.written) + (Touches(s.batch + s.queue) + Owed(s.senders[0]))
  {
    Regroup(s.written, s.batch, s.queue);
    TouchesConcat(s.written, s.batch + s.queue);
    Regroup(Touches(s.written), Touches(s.batch + s.queue), Owed(s.senders[0]));
  }

  /** What stands before something in the front stands in the front. */
  lemma EarlierIsInFront(front: seq<Tagged>, rear: seq<Tagged>, t: Tagged, u: Tagged)
    requires Increasing(front + rear) && t in front + rear && u in front && t.tag < u.tag
    ensures t in front
  {
    var i :| 0 <= i < |front + rear| && (front + rear)[i] == t;
    var j :| 0 <= j < |front| && front[j] == u;
    assert (front + rear)[j] == u;
  }

  lemma DownIsWritten(run: seq<Action>, d: nat, k: nat)
    requires var s := Exec(1, run); IsGestureAt(s, d, k) && TouchEntry(s.sent[k]) in s.written
    requires !AnyOvertake(1, run)
    ensures var s := Exec(1, run); Increasing(Touches(s.written)) && s.sent[d] in Touches(s.written)
  {
    var s := Exec(1, run);
    Reachable(1, run);
    SentOrderKept(run);
    WrittenIsFrontOfLine(s);
    TouchesIn(s.written, s.sent[k]);
    var rear := Touches(s.batch + s.queue) + Owed(s.senders[0]);
    PrefixInOrder(Touches(s.written), rear);
    if s.sent[d] !in Line(s) {
      OffTheLine(run, s.sent[d]);
    }
    EarlierIsInFront(Touches(s.written), rear, s.sent[d], s.sent[k]);
  }

  /** Of the gesture, `ts` holds from `a` to `b` its DOWN, some of its MOVEs in order, the last of all and its end. */
  predicate InOnePiece(ts: seq<Tagged>, sent: seq<Tagged>, d: nat, k: nat, a: nat, b: nat) {
    && d + 1 < k < |sent| && a + 1 < b < |ts|
    && ts[a] == sent[d] && ts[b] == sent[k] && ts[b - 1] == sent[k - 1]
    && forall i :: a < i < b ==> d < ts[i].tag < k && ts[i] == sent[ts[i].tag]
  }

  lemma {:induction false} TagsSpread(ts: seq<Tagged>, i: nat, j: nat)
    requires Increasing(ts) && i <= j < |ts|
    ensures ts[j].tag - ts[i].tag >= j - i
  {
    if i < j {
      TagsSpread(ts, i, j - 1);
    }
  }

  lemma PieceOf(ts: seq<Tagged>, sent: seq<Tagged>, d: nat, k: nat) returns (a: nat, b: nat)
    requires d + 1 < k < |sent| && Increasing(ts)
    requires sent[d] in ts && sent[k - 1] in ts && sent[k] in ts
    requires forall i :: 0 <= i < |sent| ==> sent[i].tag == i
    requires forall t :: t in ts ==> t.tag < |sent| && t == sent[t.tag]
    ensures InOnePiece(ts, sent, d, k, a, b)
  {
    a :| a < |ts| && ts[a] == sent[d];
    b :| b < |ts| && ts[b] == sent[k];
    var m: nat :| m < |ts| && ts[m] == sent[k - 1];
    assert m < b by {
      assert sent[k - 1].tag < sent[k].tag;
    }
    assert sent[d].tag == d && sent[k - 1].tag == k - 1 && sent[k].tag == k;
    TagsSpread(ts, m, b);
  }

  /**
   Where nothing overtakes and the last MOVE is not lost to a full batch, the socket carries the gesture in one piece:
   its DOWN, some of its MOVEs in order and the last of them among these, its UP or CANCEL.
   */
  lemma GestureInOnePiece(run: seq<Action>, d: nat, k: nat) returns (a: nat, b: nat)
    requires var s := Exec(1, run);
             IsGestureAt(s, d, k) && TouchEntry(s.sent[k]) in s.written && BatchFull(s.sent[k - 1]) !in s.losses
    requires !AnyOvertake(1, run)
    ensures var s := Exec(1, run); InOnePiece(Touches(s.written), s.sent, d, k, a, b)
  {
    var s := Exec(1, run);
    var ts := Touches(s.written);
    Reachable(1, run);
    DownIsWritten(run, d, k);
    ReleaseFollowsItsMove(1, run, k);
    TouchesIn(s.written, s.sent[k]);
    TouchesIn(s.written, s.sent[k - 1]);
    forall t | t in ts ensures t.tag < |s.sent| && t == s.sent[t.tag] {
      OnTheLineIsSent(run, t);
    }
    a, b := PieceOf(ts, s.sent, d, k);
  }

  // ------------------------------------------------------------ what the pointer makes of it

  /** The touches among the arrivals. */
  function Contacts(ins: seq<P.Arrival>): seq<TouchMessage> {
    if ins == [] then [] else Contacts(ins[..|ins| - 1]) + ContactIn(ins[|ins| - 1])
  }

  function ContactIn(i: P.Arrival): seq<TouchMessage> {
    if i.Contact? then [TouchMessage(i.action, i.x, i.y)] else []
  }

  function Messages(ts: seq<Tagged>): seq<TouchMessage> {
    seq(|ts|, i requires 0 <= i < |ts| => ts[i].msg)
  }

  /** MOVEs, the last of them `m`. */
  predicate MovesTo(cs: seq<TouchMessage>, m: TouchMessage) {
    cs != [] && cs[|cs| - 1] == m && forall c :: c in cs ==> c.action.Move?
  }

  lemma {:induction false} ContactsAreMoves(ins: seq<P.Arrival>)
    requires forall c :: c in Contacts(ins) ==> c.action.Move?
    ensures G.Interior(ins)
  {
    if ins != [] {
      var init, i := ins[..|ins| - 1], ins[|ins| - 1];
      assert forall c :: c in Contacts(init) ==> c in Contacts(ins);
      ContactsAreMoves(init);
      assert i.Contact? ==> ContactIn(i)[0] in Contacts(ins);
    }
  }

  lemma {:induction false} LastContactDecides(press: G.Press, ins: seq<P.Arrival>)
    requires Contacts(ins) != []
    ensures var m := Contacts(ins)[|Contacts(ins)| - 1]; G.LastPos(press, ins) == (m.x, m.y)
  {
    if !ins[|ins| - 1].Contact? {
      NothingAdded(Contacts(ins[..|ins| - 1]));
      LastContactDecides(press, ins[..|ins| - 1]);
    }
  }

  /** Two timings of MOVEs to one position. */
  lemma SamePlace(press: G.Press, p: P.Pointer, p': P.Pointer, ins: seq<P.Arrival>, ins': seq<P.Arrival>,
                  m: TouchMessage, s: real)
    requires s >= 0.0 && M.SweepFits(s)
    requires press == G.Pressed(p, press.at, press.x, press.y) == G.Pressed(p', press.at, press.x, press.y)
    requires MovesTo(Contacts(ins), m) && MovesTo(Contacts(ins'), m)
    requires M.StillFollows(press, ins) && M.StillFollows(press, ins')
    ensures M.WithinAPixel(G.After(press, p, ins, s).log, G.After(press, p', ins', s).log)
  {
    hide P.Run, P.Scaled, G.Decide, G.LastPos;
    ContactsAreMoves(ins);
    ContactsAreMoves(ins');
    LastContactDecides(press, ins);
    LastContactDecides(press, ins');
    M.SamplingWithinAPixel(press, p, p', ins, ins', s);
  }

  lemma PieceMovesTo(ts: seq<Tagged>, s: State, d: nat, k: nat, a: nat, b: nat)
    requires IsGestureAt(s, d, k) && InOnePiece(ts, s.sent, d, k, a, b)
    ensures MovesTo(Messages(s.sent[d + 1..k]), s.sent[k - 1].msg)
    ensures MovesTo(Messages(ts[a + 1..b]), s.sent[k - 1].msg)
  {
  }

  /**
   So, whatever MOVEs were coalesced away, and however the arrivals were timed in either case, the pointer ends within a
   pixel of where all the gesture's MOVEs would have taken it, short of a drag or a long press.
   */
  lemma CoalescingWithinAPixel(run: seq<Action>, d: nat, k: nat, a: nat, b: nat, press: G.Press, p: P.Pointer,
                               p': P.Pointer, ins: seq<P.Arrival>, ins': seq<P.Arrival>, s: real)
    requires IsGestureAt(Exec(1, run), d, k)
    requires InOnePiece(Touches(Exec(1, run).written), Exec(1, run).sent, d, k, a, b)
    requires s >= 0.0 && M.SweepFits(s)
    requires press == G.Pressed(p, press.at, press.x, press.y) == G.Pressed(p', press.at, press.x, press.y)
    requires M.StillFollows(press, ins) && M.StillFollows(press, ins')
    requires Contacts(ins) == Messages(Exec(1, run).sent[d + 1..k])
    requires Contacts(ins') == Messages(Touches(Exec(1, run).written)[a + 1..b])
    ensures M.WithinAPixel(G.After(press, p, ins, s).log, G.After(press, p', ins', s).log)
  {
    var st := Exec(1, run);
    PieceMovesTo(Touches(st.written), st, d, k, a, b);
    SamePlace(press, p, p', ins, ins', st.sent[k - 1].msg, s);
  }
}
