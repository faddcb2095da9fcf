// What acknowledgements release and what resets send again. Both tests compare 32-bit
// numbers as they stand, so they mean what they should only until the numbers wrap.
module TcpAcks {
  import opened Words
  import opened Options
  import opened ConCtls
  import opened TcpQueues
  import opened TcpSteps
  import opened TcpRuns
  import opened TcpWire

  // --- releasing, by stream offset ---

  // Packet k's acknowledgement was processed while the segment was on the sent queue.
  ghost predicate WhileSent(events: seq<Event>, k: nat, g: Segment)
    requires k < |events|
  {
    var s := Run(events[..k]);
    s.phase == EST && !IsRefused(events[k].pkt) && g in s.conn.sent
  }

  // While the i-th segment ever enqueued was sent, an acknowledgement beyond its last byte in
  // the stream came in, counting SYN as one.
  ghost predicate Passed(events: seq<Event>, i: nat)
    requires i < |Run(events).enqueued|
  {
    var q := Run(events).enqueued;
    exists k :: 0 <= k < |events| && WhileSent(events, k, q[i]) && events[k].pkt.ackNo > 1 + Bytes(q[..i + 1])
  }

  // While the segment was sent, an acknowledgement made the pruning test true.
  ghost predicate Pruned(events: seq<Event>, g: Segment) {
    exists k :: 0 <= k < |events| && WhileSent(events, k, g) && AckedBy(events[k].pkt.ackNo).Holds(g)
  }

  // Until the numbers wrap, the pruning test is about the stream.
  lemma PrunedIffPassed(events: seq<Event>, i: nat)
    requires i < |Run(events).enqueued| && 1 + Bytes(Run(events).enqueued) < TWO32
    ensures Pruned(events, Run(events).enqueued[i]) <==> Passed(events, i)
  {
    hide Run, Bytes, WhileSent;
    var q := Run(events).enqueued;
    EnqueuedEndsAt(events, i);
    PrefixBytes(q, i + 1);
    assert q[i].End() == 1 + Bytes(q[..i + 1]);
  }

  // The i-th segment ends where the first i + 1 segments do, modulo 2^32.
  lemma EnqueuedEndsAt(events: seq<Event>, i: nat)
    requires i < |Run(events).enqueued|
    ensures var q := Run(events).enqueued; q[i].End() == Wrap32(1 + Bytes(q[..i + 1]))
  {
    hide Run, Bytes, Tiles;
    var q := Run(events).enqueued;
    RunIsNumbered(events);
    TilesAt(1, q, i);
    assert q[..i + 1] == q[..i] + [q[i]];
    BytesSnoc(q[..i], q[i]);
    Wrap32Add(1 + Bytes(q[..i]), |q[i].data|);
  }

  lemma PrefixBytes(q: seq<Segment>, n: nat)
    requires n <= |q|
    ensures Bytes(q[..n]) <= Bytes(q)
  {
    assert q == q[..n] + q[n..];
    BytesAppend(q[..n], q[n..]);
  }

  lemma WhileSentPrefix(events: seq<Event>, k: nat, g: Segment)
    requires k < |events| - 1
    ensures WhileSent(events, k, g) == WhileSent(events[..|events| - 1], k, g)
  {
    hide Run;
    assert events[..|events| - 1][..k] == events[..k];
  }

  // A segment is released exactly by such an acknowledgement.
  lemma {:induction false} ReleasedIffPruned(events: seq<Event>, g: Segment)
    ensures g in Run(events).released <==> Pruned(events, g)
  {
    if events != [] {
      hide EstStep, SynAckStep, AckFinStep, WhileSent;
      var n := |events| - 1;
      var s, e := Run(events[..n]), events[n];
      ReleasedIffPruned(events[..n], g);
      ReleasedIff(s.conn, e.pkt, e.app, g);
      forall k | 0 <= k < n ensures WhileSent(events, k, g) == WhileSent(events[..n], k, g) {
        WhileSentPrefix(events, k, g);
      }
      assert WhileSent(events, n, g) == (s.phase == EST && !IsRefused(e.pkt) && g in s.conn.sent) by { WhileSentLast(events, g); }
      PrunedSplits(events, g);
    }
  }

  lemma WhileSentLast(events: seq<Event>, g: Segment)
    requires events != []
    ensures var n := |events| - 1;
            WhileSent(events, n, g) <==>
            Run(events[..n]).phase == EST && !IsRefused(events[n].pkt) && g in Run(events[..n]).conn.sent
  {
  }

  lemma PrunedSplits(events: seq<Event>, g: Segment)
    requires events != []
    ensures var n := |events| - 1;
            Pruned(events, g) <==>
            Pruned(events[..n], g) || (WhileSent(events, n, g) && AckedBy(events[n].pkt.ackNo).Holds(g))
  {
    hide WhileSent;
    var n := |events| - 1;
    forall k | 0 <= k < n ensures WhileSent(events, k, g) == WhileSent(events[..n], k, g) {
      WhileSentPrefix(events, k, g);
    }
    if k :| 0 <= k < n && WhileSent(events[..n], k, g) && AckedBy(events[..n][k].pkt.ackNo).Holds(g) {
      assert WhileSent(events, k, g) && AckedBy(events[k].pkt.ackNo).Holds(g);
    }
    if k :| 0 <= k < |events| && WhileSent(events, k, g) && AckedBy(events[k].pkt.ackNo).Holds(g) {
      assert k < n ==> WhileSent(events[..n], k, g) && AckedBy(events[..n][k].pkt.ackNo).Holds(g);
    }
  }

  lemma ReleasedIff(c: Conn, p: Packet, app: App, g: Segment)
    ensures g in EstStep(c, p, app).released <==> !IsRefused(p) && g in c.sent && p.ackNo > g.End()
  {
    hide AfterAck, Accept;
    SelectHolds(c.sent, AckedBy(p.ackNo), true, g);
    if !IsRefused(p) {
      EstStepQueues(c, p, app);
    }
  }

  // With fewer than 2^32 - 1 bytes enqueued, a segment is released exactly when, once sent, an
  // acknowledgement beyond its place in the stream comes in.
  lemma ReleasedIffPassed(events: seq<Event>, i: nat)
    requires i < |Run(events).enqueued| && 1 + Bytes(Run(events).enqueued) < TWO32
    ensures Run(events).enqueued[i] in Run(events).released <==> Passed(events, i)
  {
    hide Run, Passed, Pruned;
    ReleasedIffPruned(events, Run(events).enqueued[i]);
    PrunedIffPassed(events, i);
  }

  // No segment is lost: whatever no acknowledgement has passed since it was sent is still on
  // one of the queues, on every run in which no window ends inside a segment.
  lemma NothingUnackedIsLost(events: seq<Event>, i: nat)
    requires i < |Run(events).enqueued| && 1 + Bytes(Run(events).enqueued) < TWO32 && NoCut(events)
    ensures var s := Run(events);
            Passed(events, i) || s.enqueued[i] in s.conn.toSend || s.enqueued[i] in s.conn.sent
  {
    hide Run, Passed, NoCut;
    EnqueuedIsSomewhere(events, Run(events).enqueued[i]);
    ReleasedIffPassed(events, i);
  }

  lemma EnqueuedIsSomewhere(events: seq<Event>, g: Segment)
    requires NoCut(events) && g in Run(events).enqueued
    ensures var s := Run(events); g in s.released || g in s.conn.toSend || g in s.conn.sent
  {
    hide Run;
    var s := Run(events);
    RunAccountsForSegments(events);
    assert g in multiset(s.opening) + multiset(s.enqueued);
  }

  // --- releasing, when the numbers wrap ---

  // Looking back from our next number, the acknowledgement is no further behind than the
  // segment's end: the comparison modulo 2^32 of section 3.4 of RFC 9293.
  predicate Acknowledges(seqLocal: U32, ackNo: U32, end: U32) {
    Wrap32(seqLocal - ackNo) <= Wrap32(seqLocal - end)
  }

  // In terms of the stream, with less than 2^32 bytes outstanding: `acked` of `total` bytes
  // are acknowledged, and the segment ends at byte `end`.
  lemma AcknowledgesIffCovered(total: nat, acked: nat, end: nat)
    requires acked <= total < acked + TWO32 && end <= total < end + TWO32
    ensures Acknowledges(Wrap32(1 + total), Wrap32(1 + acked), Wrap32(1 + end)) <==> end <= acked
  {
    DistanceBehind(total, acked);
    DistanceBehind(total, end);
  }

  lemma DistanceBehind(total: nat, x: nat)
    requires x <= total < x + TWO32
    ensures Wrap32(Wrap32(1 + total) - Wrap32(1 + x)) == total - x
  {
    Wrap32Add(1 + total, 0 - Wrap32(1 + x));
    var k := (1 + x) / TWO32;
    assert 1 + total - Wrap32(1 + x) == TWO32 * k + (total - x);
    WrapShift(total - x, k);
  }

  // The pruning test is the right one exactly when acknowledgement and segment end lie on the
  // same side of the wrap and differ.
  lemma PruningIsExactIff(seqLocal: U32, ackNo: U32, g: Segment)
    ensures (AckedBy(ackNo).Holds(g) <==> Acknowledges(seqLocal, ackNo, g.End()))
       <==> ackNo != g.End() && (ackNo <= seqLocal <==> g.End() <= seqLocal)
  {
    Behind(seqLocal, ackNo);
    Behind(seqLocal, g.End());
  }

  lemma Behind(seqLocal: U32, x: U32)
    ensures Wrap32(seqLocal - x) == if x <= seqLocal then seqLocal - x else seqLocal - x + TWO32
  {
  }

  // Known before the call: the acknowledgement is not ahead of our numbers as they stand, or
  // all sent segments end ahead of them too.
  ghost predicate WrapSafe(c: Conn, p: Packet) {
    IsRefused(p) || p.ackNo <= c.seqLocal || forall g :: g in c.sent ==> g.End() > c.seqLocal
  }

  // A step releases only acknowledged segments exactly under that condition.
  lemma ReleaseIsSoundIff(c: Conn, p: Packet, app: App)
    ensures (forall g :: g in EstStep(c, p, app).released ==> Acknowledges(c.seqLocal, p.ackNo, g.End()))
       <==> WrapSafe(c, p)
  {
    hide EstStep, Acknowledges;
    forall g ensures g in EstStep(c, p, app).released <==> !IsRefused(p) && g in c.sent && p.ackNo > g.End() {
      ReleasedIff(c, p, app, g);
    }
    forall g: Segment
      ensures p.ackNo > g.End() ==> (Acknowledges(c.seqLocal, p.ackNo, g.End()) <==> p.ackNo <= c.seqLocal || g.End() > c.seqLocal)
    {
      PruningIsExactIff(c.seqLocal, p.ackNo, g);
    }
  }

  // Our numbers have wrapped and an acknowledgement from before the wrap arrives late: the
  // one segment outstanding, 27 bytes further on, is released unacknowledged.
  lemma LateAckReleasesUnacked(c: Conn, p: Packet, app: App)
    requires c.sent == [Segment(10, [1])] && c.seqLocal == Wrap32(1 + (TWO32 + 10)) && !IsRefused(p)
    requires p.ackNo == Wrap32(1 + (TWO32 - 17))
    ensures EstStep(c, p, app).released == c.sent
    ensures !Acknowledges(c.seqLocal, p.ackNo, Wrap32(1 + (TWO32 + 10))) && c.sent[0].End() == Wrap32(1 + (TWO32 + 10))
  {
    hide AfterAck, Accept;
    assert c.sent[..0] == [];
    assert AckedBy(p.ackNo).Holds(c.sent[0]);
    EstStepQueues(c, p, app);
    SelectEmpty(c.sent[..0], AckedBy(p.ackNo));
    SelectLast(c.sent, AckedBy(p.ackNo));
  }

  ghost predicate WrapSafeAt(events: seq<Event>, k: nat)
    requires k < |events|
  {
    Run(events[..k]).phase == EST ==> WrapSafe(Run(events[..k]).conn, events[k].pkt)
  }

  // While the segment was on the sent queue, an acknowledgement covered it modulo 2^32.
  ghost predicate Acknowledged(events: seq<Event>, g: Segment) {
    exists k :: 0 <= k < |events| && WhileSent(events, k, g)
             && Acknowledges(Run(events[..k]).conn.seqLocal, events[k].pkt.ackNo, g.End())
  }

  // The copies of a segment value on the sent queue when an acknowledgement covers it.
  function AckedNow(s: Session, e: Event, g: Segment): nat {
    if s.phase == EST && !IsRefused(e.pkt) && Acknowledges(s.conn.seqLocal, e.pkt.ackNo, g.End())
    then multiset(s.conn.sent)[g] else 0
  }

  // The same over a run. A value comes again after 2^32 bytes, so copies are counted.
  function AckedCopies(events: seq<Event>, g: Segment): nat {
    if events == [] then 0
    else
      var front := events[..|events| - 1];
      AckedCopies(front, g) + AckedNow(Run(front), events[|events| - 1], g)
  }

  // Runs of any length: as long as every step is safe, nothing unacknowledged is lost. Each
  // copy ever enqueued is on a queue, or was on the sent queue when it was acknowledged.
  lemma NothingUnackedIsLostWhenSafe(events: seq<Event>, g: Segment)
    requires NoCut(events) && forall k :: 0 <= k < |events| ==> WrapSafeAt(events, k)
    ensures var s := Run(events);
            multiset(s.enqueued)[g] <= AckedCopies(events, g) + multiset(s.conn.toSend)[g] + multiset(s.conn.sent)[g]
    ensures g in Run(events).enqueued ==>
              Acknowledged(events, g) || g in Run(events).conn.toSend || g in Run(events).conn.sent
  {
    hide Run, NoCut, Acknowledged, AckedCopies, WrapSafeAt;
    var s := Run(events);
    RunAccountsForSegments(events);
    ReleasedWereAckedCopies(events, g);
    assert (Held(s.conn) + multiset(s.released))[g] == (multiset(s.opening) + multiset(s.enqueued))[g];
    if g in s.released {
      ReleasedWereAcknowledged(events, g);
    }
    if g in s.enqueued {
      EnqueuedIsSomewhere(events, g);
    }
  }

  lemma ReleasedWereAcknowledged(events: seq<Event>, g: Segment)
    requires forall k :: 0 <= k < |events| ==> WrapSafeAt(events, k)
    requires g in Run(events).released
    ensures Acknowledged(events, g)
  {
    hide Run, Acknowledges;
    ReleasedIffPruned(events, g);
    var k :| 0 <= k < |events| && WhileSent(events, k, g) && AckedBy(events[k].pkt.ackNo).Holds(g);
    assert WrapSafeAt(events, k);
    PruningIsExactIff(Run(events[..k]).conn.seqLocal, events[k].pkt.ackNo, g);
  }

  // Each release is matched by a step of its own that acknowledged the segment.
  lemma {:induction false} ReleasedWereAckedCopies(events: seq<Event>, g: Segment)
    requires forall k :: 0 <= k < |events| ==> WrapSafeAt(events, k)
    ensures multiset(Run(events).released)[g] <= AckedCopies(events, g)
  {
    if events != [] {
      hide EstStep, SynAckStep, AckFinStep, WrapSafe, AckedNow;
      var n := |events| - 1;
      var front, e := events[..n], events[n];
      forall k | 0 <= k < n ensures WrapSafeAt(front, k) {
        assert front[..k] == events[..k];
        assert WrapSafeAt(events, k);
      }
      ReleasedWereAckedCopies(front, g);
      assert WrapSafeAt(events, n);
      var s := Run(front);
      if s.phase == EST {
        StepReleasesAcked(s, e, g);
        var r := EstStep(s.conn, e.pkt, e.app);
        assert multiset(s.released + r.released) == multiset(s.released) + multiset(r.released);
      }
    }
  }

  lemma StepReleasesAcked(s: Session, e: Event, g: Segment)
    requires s.phase == EST && WrapSafe(s.conn, e.pkt)
    ensures multiset(EstStep(s.conn, e.pkt, e.app).released)[g] <= AckedNow(s, e, g)
  {
    hide EstStep, Acknowledges, Select;
    var c, p := s.conn, e.pkt;
    ReleasedIff(c, p, e.app, g);
    PruningIsExactIff(c.seqLocal, p.ackNo, g);
    if g in EstStep(c, p, e.app).released {
      EstStepQueues(c, p, e.app);
      SelectPartitions(c.sent, AckedBy(p.ackNo));
    }
  }

  // --- sending again ---

  // A reset always goes back to the acknowledgement that triggers it.
  lemma ResetPointIsThisAck(c: Conn, p: Packet)
    ensures var reset := c.conCtl.HandlePacket(c.seqLocal, p.ackNo).Reset();
            reset.Some? ==> reset.value == p.ackNo
  {
  }

  predicate Resets(c: Conn, p: Packet) {
    c.conCtl.HandlePacket(c.seqLocal, p.ackNo).Reset().Some?
  }

  // What one acknowledgement does to the sent queue: a segment stays exactly when the
  // acknowledgement does not pass its end and no reset sends it again.
  lemma StaysSentIff(c: Conn, p: Packet, g: Segment)
    ensures g in AfterAck(c, p).sent <==>
            g in c.sent && p.ackNo <= g.End() && (Resets(c, p) ==> g.seqNumber <= p.ackNo)
  {
    hide Select;
    var kept := Select(c.sent, AckedBy(p.ackNo), false);
    SelectHolds(c.sent, AckedBy(p.ackNo), false, g);
    ResetPointIsThisAck(c, p);
    if Resets(c, p) {
      SelectHolds(kept, Beyond(p.ackNo), false, g);
    }
  }

  // A sent segment is queued again exactly when a reset fires and it starts beyond the
  // acknowledgement: the one the acknowledgement asks for never is.
  lemma RequeuedIff(c: Conn, p: Packet, g: Segment)
    ensures g in AfterAck(c, p).toSend <==>
            g in c.toSend || (g in c.sent && Resets(c, p) && p.ackNo <= g.End() && g.seqNumber > p.ackNo)
  {
    hide Select, Reverse;
    var kept := Select(c.sent, AckedBy(p.ackNo), false);
    SelectHolds(c.sent, AckedBy(p.ackNo), false, g);
    ResetPointIsThisAck(c, p);
    if Resets(c, p) {
      var again := Select(kept, Beyond(p.ackNo), true);
      SelectHolds(kept, Beyond(p.ackNo), true, g);
      ReverseKeeps(again);
      assert g in Reverse(again) <==> g in multiset(again);
    }
  }

  // The segment the peer is missing stays on the sent queue for as long as the peer asks for
  // it, however often.
  lemma {:induction false} MissingSegmentStaysSent(events: seq<Event>, more: seq<Event>, g: Segment)
    requires g in Run(events).conn.sent && g.seqNumber <= g.End()
    requires forall e :: e in more ==> e.pkt.ackNo == g.seqNumber
    requires Run(events).phase != SYN_ACK
    ensures g in Run(events + more).conn.sent && Run(events + more).phase != SYN_ACK
  {
    if more == [] {
      assert events + more == events;
    } else {
      hide Run, EstStep, AckFinStep;
      var front, e := more[..|more| - 1], more[|more| - 1];
      assert forall e :: e in front ==> e in more;
      assert e in more;
      assert events + more == (events + front) + [e];
      MissingSegmentStaysSent(events, front, g);
      RunSnoc(events + front, e);
      var s := Run(events + front);
      if s.phase == EST {
        MissingSegmentStays(s.conn, e.pkt, e.app, g);
      } else {
        ClosingKeepsSent(s.conn, e.pkt);
      }
    }
  }

  lemma MissingSegmentStays(c: Conn, p: Packet, app: App, g: Segment)
    requires g in c.sent && g.seqNumber == p.ackNo <= g.End()
    ensures g in EstStep(c, p, app).conn.sent && EstStep(c, p, app).phase != SYN_ACK
    ensures g !in EstStep(c, p, app).released && (g in AfterAck(c, p).toSend <==> g in c.toSend)
  {
    hide AfterAck, Select, Accept, SendAll;
    StaysSentIff(c, p, g);
    RequeuedIff(c, p, g);
    ReleasedIff(c, p, app, g);
    EstStepNumbers(c, p, app);
    if !IsRefused(p) {
      EstStepQueues(c, p, app);
      SendAllAppends(Offered(c, p, app), AfterAck(c, p).sent, p.window);
    }
  }

  lemma ClosingKeepsSent(c: Conn, p: Packet)
    ensures AckFinStep(c, p).conn.sent == c.sent && AckFinStep(c, p).phase != SYN_ACK
  {
  }

  // Before the numbers wrap, a segment with data is enqueued once, behind the SYN.
  lemma {:induction false} TilesOnce(q: seq<Segment>, g: Segment)
    requires Tiles(1, q) && 1 + Bytes(q) < TWO32 && g.data != []
    ensures multiset(q)[g] <= 1
    ensures g in q ==> 1 <= g.seqNumber && g.seqNumber + |g.data| <= 1 + Bytes(q)
  {
    if q != [] {
      var front, last := q[..|q| - 1], q[|q| - 1];
      assert q == front + [last];
      TilesOnce(front, g);
    }
  }

  // Without a cut, what is on the sent queue is not on the send queue as well.
  lemma SentIsNotQueued(events: seq<Event>, g: Segment)
    requires NoCut(events) && 1 + Bytes(Run(events).enqueued) < TWO32
    requires g.data != [] && g in Run(events).enqueued && g in Run(events).conn.sent
    ensures g !in Run(events).conn.toSend
  {
    hide Run, NoCut, Bytes, Tiles;
    var s := Run(events);
    RunIsNumbered(events);
    RunAccountsForSegments(events);
    TilesOnce(s.enqueued, g);
    OpeningIsFrame(events);
    assert multiset(s.opening)[g] == 0;
    assert (Held(s.conn) + multiset(s.released))[g] <= 1;
  }

  lemma {:induction false} OpeningIsFrame(events: seq<Event>)
    ensures forall g :: g in Run(events).opening ==> g.seqNumber == 0
  {
    if events != [] {
      hide EstStep, AckFinStep;
      OpeningIsFrame(events[..|events| - 1]);
      Phases(events[..|events| - 1]);
    }
  }

  lemma EnqueuedGrows(s: Session, e: Event)
    ensures Bytes(s.enqueued) <= Bytes(Step(s, e).enqueued)
    ensures forall g :: g in s.enqueued ==> g in Step(s, e).enqueued
  {
    hide EstStep, SynAckStep, AckFinStep, Bytes;
    BytesAppend(s.enqueued, EstStep(s.conn, e.pkt, e.app).enqueued);
  }

  // However often the peer asks for a segment it is missing, the segment is never written
  // into a packet again: duplicate acknowledgements send everything else but not that.
  lemma {:induction false} MissingSegmentIsNeverResent(events: seq<Event>, more: seq<Event>, g: Segment)
    requires NoCut(events + more) && 1 + Bytes(Run(events + more).enqueued) < TWO32
    requires g.data != [] && g in Run(events).enqueued && g in Run(events).conn.sent
    requires forall e :: e in more ==> e.pkt.ackNo == g.seqNumber
    ensures multiset(Written(events + more))[g] == multiset(Written(events))[g]
    ensures g in Run(events + more).conn.sent && g in Run(events + more).enqueued
  {
    hide Run, Step, Written, NoCut, Bytes, WrittenNow;
    if more == [] {
      assert events + more == events;
    } else {
      var front, e := more[..|more| - 1], more[|more| - 1];
      var before := events + front;
      assert forall e :: e in front ==> e in more;
      assert e in more;
      assert events + more == before + [e] && (before + [e])[..|before|] == before;
      RunSnoc(before, e);
      NoCutStep(before + [e]);
      EnqueuedGrows(Run(before), e);
      MissingSegmentIsNeverResent(events, front, g);
      CarriedSnoc(before, e);
      NotWrittenNow(before, e, g);
      assert g !in multiset(WrittenNow(Run(before), e));
    }
  }

  lemma NotWrittenNow(events: seq<Event>, e: Event, g: Segment)
    requires NoCut(events + [e]) && 1 + Bytes(Run(events + [e]).enqueued) < TWO32
    requires g.data != [] && g in Run(events).enqueued && g in Run(events).conn.sent && e.pkt.ackNo == g.seqNumber
    ensures g !in WrittenNow(Run(events), e) && g in Run(events + [e]).conn.sent
  {
    hide Run, Step, NoCut, Bytes, Tiles, WrittenNow;
    var s := Run(events);
    assert (events + [e])[..|events|] == events;
    RunSnoc(events, e);
    NoCutStep(events + [e]);
    EnqueuedGrows(s, e);
    SentIsNotQueued(events, g);
    RunIsNumbered(events);
    RunIsNumbered(events + [e]);
    Phases(events);
    TilesOnce(s.enqueued, g);
    TilesOnce(Step(s, e).enqueued, g);
    if s.phase == EST {
      NotCutHere(events, e);
      EstNotWritten(s, e, g);
    } else {
      ClosingNotWritten(s, e);
    }
  }

  lemma NotCutHere(events: seq<Event>, e: Event)
    requires NoCut(events + [e]) && Run(events).phase == EST
    ensures !Cuts(Run(events).conn, e.pkt, e.app)
  {
    hide Run, Cuts;
    assert (events + [e])[..|events|] == events;
    assert !CutsAt(events + [e], |events|);
  }

  lemma ClosingNotWritten(s: Session, e: Event)
    requires s.phase != EST && s.phase != SYN_ACK
    ensures WrittenNow(s, e) == [] && Step(s, e).conn.sent == s.conn.sent
  {
    hide EstStep;
    ClosingKeepsSent(s.conn, e.pkt);
  }

  lemma EstNotWritten(s: Session, e: Event, g: Segment)
    requires s.phase == EST && !Cuts(s.conn, e.pkt, e.app) && g !in s.conn.toSend
    requires g in s.enqueued && g in s.conn.sent && g.seqNumber == e.pkt.ackNo <= g.End()
    requires multiset(Step(s, e).enqueued)[g] <= 1
    ensures g !in WrittenNow(s, e) && g in Step(s, e).conn.sent
  {
    hide EstStep, AfterAck, Offered, SendAll, Cuts;
    var c, p, app := s.conn, e.pkt, e.app;
    var r := EstStep(c, p, app);
    MissingSegmentStays(c, p, app, g);
    EstStepWrites(c, p, app);
    StepCutsIff(c, p, app);
    assert multiset(s.enqueued + r.enqueued) == multiset(s.enqueued) + multiset(r.enqueued);
    assert g !in r.enqueued;
    if IsAccepted(c, p) {
      EstStepQueues(c, p, app);
      SendAllMovesPrefix(Offered(c, p, app), AfterAck(c, p).sent, p.window);
      assert g !in Offered(c, p, app);
    }
  }
}
