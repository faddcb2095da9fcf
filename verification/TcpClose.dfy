// How a connection ends: what a close through runAckFin's regular path guarantees, and which
// connections can get there.
module TcpClose {
  import opened Words
  import opened Options
  import opened TcpQueues
  import opened TcpSteps
  import opened TcpRuns
  import opened TcpWire
  import opened TcpDelivery

  // A connection closed through runAckFin's regular path: the peer has acknowledged the
  // number behind SYN, every byte ever enqueued, and one more for our FIN; nothing is left to
  // send; when no window cut a segment, every enqueued segment was moved to the sent queue;
  // and when, besides, no call had to write two of them, every one has left on the wire.
  // Whether the acknowledged number is the one our FIN left under, see `CloseCoversFinIff`.
  lemma GracefulCloseMeansAllAcknowledged(events: seq<Event>)
    requires Run(events).closedBy.Some?
    ensures var s := Run(events);
            && s.phase == END && s.conn.toSend == []
            && s.closedBy.value == Wrap32(1 + Bytes(s.enqueued) + 1)
            && (NoCut(events) ==> multiset(s.enqueued) <= multiset(Written(events)))
            && (NoCut(events) && OnePacketEach(events) ==> multiset(s.enqueued) <= multiset(CarriedBy(events)))
            && (NoCut(events) && OnePacketEach(events) ==> forall g :: g in s.enqueued ==> Leaves(g, Wire(events)))
  {
    hide Run, Written, CarriedBy, Wire, WrittenCovers, OnePacketEach, Leaves;
    var s := Run(events);
    RunIsNumbered(events);
    if NoCut(events) {
      RunAccountsForSegments(events);
      SentWasWritten(events);
      EmptyQueueWasWritten(s, Written(events));
      if OnePacketEach(events) {
        CarriedIsWrittenIff(events);
        forall g | g in s.enqueued ensures Leaves(g, Wire(events)) {
          assert g in multiset(s.enqueued) && g in multiset(Written(events));
          WrittenLeaves(events, g);
        }
      }
    }
  }

  lemma EmptyQueueWasWritten(s: Session, written: seq<Segment>)
    requires Accounted(s) && s.conn.toSend == [] && WrittenCovers(s, written)
    ensures multiset(s.enqueued) <= multiset(written)
  {
    assert multiset(s.conn.toSend) == multiset{};
    assert Held(s.conn) == multiset(s.conn.sent);
    forall g ensures multiset(s.enqueued)[g] <= multiset(written)[g] {
      assert (multiset(s.opening) + multiset(s.enqueued))[g] <= (multiset(s.opening) + multiset(written))[g];
    }
  }

  // --- where our FIN stands ---

  // The number of a FIN that leaves in this packet: behind the payload, whosever it is.
  function FinNumber(r: Result): U32 {
    Wrap32(r.reply.seqNo + |r.reply.body|)
  }

  // What is sent last ends where the numbers do, or nothing is sent at all.
  predicate FinInPlace(c: Conn, p: Packet, app: App) {
    var offered := Offered(c, p, app);
    if offered == [] then p.body == []
    else offered[|offered| - 1].End() == Received(AfterAck(c, p), p, app).seqLocal
  }

  // Our FIN leaves under the number it is counted as exactly under that condition.
  lemma FinIsNumberedIff(c: Conn, p: Packet, app: App)
    requires EstStep(c, p, app).phase == ACK_FIN
    ensures var r := EstStep(c, p, app);
            FinNumber(r) == Wrap32(r.conn.seqLocal - 1) <==> FinInPlace(c, p, app)
  {
    hide EstStep, Offered, AfterAck, Received, SendAll, Bytes;
    FinStep(c, p, app);
    if Offered(c, p, app) == [] {
      NothingOffered(c, p, app);
      assert Wrap32(c.seqLocal) == c.seqLocal;
      if Wrap32(c.seqLocal + |p.body|) == c.seqLocal {
        Wrap32Injective(c.seqLocal, |p.body|, 0);
      }
    } else {
      ReplyCarriesLastWritten(c, p, app);
    }
  }

  // The call that sets FIN is accepted and sends everything it is offered.
  lemma FinStep(c: Conn, p: Packet, app: App)
    requires EstStep(c, p, app).phase == ACK_FIN
    ensures var r, offered := EstStep(c, p, app), Offered(c, p, app);
            && IsAccepted(c, p) && r.written == offered && r.conn.toSend == []
            && Wrap32(r.conn.seqLocal - 1) == Received(AfterAck(c, p), p, app).seqLocal
            && (offered == [] ==> r.reply.seqNo == c.seqLocal && r.reply.body == p.body)
  {
    hide EstStep, AfterAck, SendAll, Offered, Received;
    FinReply(c, p, app);
    EstStepWrites(c, p, app);
    SendsAllOffered(Offered(c, p, app), AfterAck(c, p).sent, p.window);
  }

  lemma FinReply(c: Conn, p: Packet, app: App)
    requires EstStep(c, p, app).phase == ACK_FIN
    ensures var r := EstStep(c, p, app);
            && IsAccepted(c, p)
            && r.conn.toSend == SendAll(Offered(c, p, app), AfterAck(c, p).sent, p.window).toSend == []
            && Wrap32(r.conn.seqLocal - 1) == Received(AfterAck(c, p), p, app).seqLocal
            && (r.written == [] ==> r.reply.seqNo == c.seqLocal && r.reply.body == p.body)
  {
    hide SendAll, Select, Enqueued, Volume, Answers;
    var f := Received(AfterAck(c, p), p, app);
    Wrap32Add(f.seqLocal + 1, -1);
    assert Wrap32(f.seqLocal) == f.seqLocal;
  }

  lemma SendsAllOffered(q: seq<Segment>, sent: seq<Segment>, window: nat)
    requires SendAll(q, sent, window).toSend == []
    ensures SendAll(q, sent, window).written == q
  {
    hide SendAll;
    SendAllRespectsWindow(q, sent, window);
    SendAllMovesPrefix(q, sent, window);
  }

  lemma NothingOffered(c: Conn, p: Packet, app: App)
    requires Offered(c, p, app) == []
    ensures Received(AfterAck(c, p), p, app).seqLocal == c.seqLocal
  {
    hide AfterAck, Bytes, Enqueued, Volume;
    AfterAckFrame(c, p);
    EnqueuedBytes(c.seqLocal, Answers(p, app));
    BytesEmpty(Enqueued(c.seqLocal, Answers(p, app)));
  }

  // The event of a run with which our FIN leaves.
  function FinEvent(events: seq<Event>): (at: Option<nat>)
    ensures at.Some? ==> at.value < |events|
  {
    if events == [] then None
    else
      var front, e := events[..|events| - 1], events[|events| - 1];
      if Run(front).phase == EST && Step(Run(front), e).phase == ACK_FIN then Some(|front|) else FinEvent(front)
  }

  lemma FinEventSnoc(events: seq<Event>, e: Event)
    ensures FinEvent(events + [e])
         == if Run(events).phase == EST && Run(events + [e]).phase == ACK_FIN then Some(|events|) else FinEvent(events)
  {
    hide Step;
    assert (events + [e])[..|events|] == events;
    RunSnoc(events, e);
  }

  // What happened there is kept until the connection closes.
  ghost predicate FinIsAt(events: seq<Event>, k: nat)
    requires k < |events|
  {
    var s, e := Run(events[..k]), events[k];
    && s.phase == EST && EstStep(s.conn, e.pkt, e.app).phase == ACK_FIN
    && Bytes(Run(events).enqueued) == Bytes(s.enqueued) + Bytes(EstStep(s.conn, e.pkt, e.app).enqueued)
  }

  lemma {:induction false} ClosingHasFin(events: seq<Event>)
    requires Run(events).phase == ACK_FIN || Run(events).closedBy.Some?
    ensures FinEvent(events).Some? && FinIsAt(events, FinEvent(events).value)
  {
    hide EstStep, Bytes, Tiles;
    var front, e := events[..|events| - 1], events[|events| - 1];
    var s := Run(front);
    Phases(front);
    RunIsNumbered(front);
    if s.phase == EST {
      assert events[..|front|] == front;
      BytesAppend(s.enqueued, EstStep(s.conn, e.pkt, e.app).enqueued);
    } else {
      ClosingHasFin(front);
      var k := FinEvent(front).value;
      assert events[..k] == front[..k] && events[k] == front[k];
    }
  }

  // A connection that closed in order has acknowledged the number our FIN really left under
  // exactly when the FIN stood in place.
  lemma CloseCoversFinIff(events: seq<Event>)
    requires Run(events).closedBy.Some?
    ensures FinEvent(events).Some?
    ensures var k := FinEvent(events).value;
            var c, p, app := Run(events[..k]).conn, events[k].pkt, events[k].app;
            && EstStep(c, p, app).phase == ACK_FIN
            && (Run(events).closedBy.value == Wrap32(FinNumber(EstStep(c, p, app)) + 1) <==> FinInPlace(c, p, app))
  {
    hide Run, EstStep, FinInPlace, FinNumber, Bytes, Tiles;
    ClosingHasFin(events);
    var k := FinEvent(events).value;
    var s, e := Run(events[..k]), events[k];
    var r := EstStep(s.conn, e.pkt, e.app);
    RunIsNumbered(events);
    RunIsNumbered(events[..k]);
    EstStepNumbers(s.conn, e.pkt, e.app);
    FinIsNumberedIff(s.conn, e.pkt, e.app);
    Wrap32Add(1 + Bytes(s.enqueued), Bytes(r.enqueued) + 1);
    assert Run(events).closedBy.value == r.conn.seqLocal;
    BackAndForth(r.conn.seqLocal, FinNumber(r));
  }

  lemma BackAndForth(x: U32, y: U32)
    ensures y == Wrap32(x - 1) <==> x == Wrap32(y + 1)
  {
    Wrap32Add(x - 1, 1);
    Wrap32Add(y + 1, -1);
    assert Wrap32(x) == x && Wrap32(y) == y;
  }

  // --- where it stands over runs ---

  // The send queue ends where the numbers do.
  predicate TailMeets(c: Conn) {
    c.toSend == [] || c.toSend[|c.toSend| - 1].End() == c.seqLocal
  }

  // This acknowledgement puts nothing back on the send queue.
  predicate NoResend(s: Session, e: Event) {
    s.phase == EST && !IsRefused(e.pkt) ==> AfterAck(s.conn, e.pkt).toSend == s.conn.toSend
  }

  ghost predicate NoResendAt(events: seq<Event>, k: nat)
    requires k < |events|
  {
    NoResend(Run(events[..k]), events[k])
  }

  lemma TilesEnd(first: int, q: seq<Segment>)
    requires Tiles(first, q) && q != []
    ensures q[|q| - 1].End() == Wrap32(first + Bytes(q))
  {
    Wrap32Add(first + Bytes(q[..|q| - 1]), |q[|q| - 1].data|);
  }

  lemma OfferedTail(c: Conn, p: Packet, app: App)
    requires TailMeets(c) && AfterAck(c, p).toSend == c.toSend
    ensures var offered := Offered(c, p, app);
            offered == [] || offered[|offered| - 1].End() == Received(AfterAck(c, p), p, app).seqLocal
  {
    hide AfterAck, Bytes, Tiles, Enqueued, Volume;
    var q := Enqueued(c.seqLocal, Answers(p, app));
    AfterAckFrame(c, p);
    EnqueuedBytes(c.seqLocal, Answers(p, app));
    EnqueuedTiles(c.seqLocal, Answers(p, app));
    if q == [] {
      BytesEmpty(q);
      assert c.toSend + q == c.toSend;
    } else {
      TilesEnd(c.seqLocal, q);
    }
  }

  lemma EstKeepsTail(c: Conn, p: Packet, app: App)
    requires TailMeets(c) && (!IsRefused(p) ==> AfterAck(c, p).toSend == c.toSend) && !EstStep(c, p, app).cut
    ensures TailMeets(EstStep(c, p, app).conn)
  {
    if IsAccepted(c, p) {
      hide EstStep, AfterAck, Offered, SendAll, Received;
      OfferedTail(c, p, app);
      EstStepQueues(c, p, app);
      SendAllMovesPrefix(Offered(c, p, app), AfterAck(c, p).sent, p.window);
      if EstStep(c, p, app).conn.toSend != [] {
        TailNumbers(c, p, app);
      }
    } else {
      hide Select;
      AfterAckFrame(c, p);
    }
  }

  lemma TailNumbers(c: Conn, p: Packet, app: App)
    requires IsAccepted(c, p) && EstStep(c, p, app).conn.toSend != []
    ensures EstStep(c, p, app).conn.seqLocal == Received(AfterAck(c, p), p, app).seqLocal
  {
    hide AfterAck, SendAll;
  }

  lemma {:induction false} RunKeepsTail(events: seq<Event>)
    requires !Run(events).cut && forall k :: 0 <= k < |events| ==> NoResendAt(events, k)
    ensures TailMeets(Run(events).conn)
  {
    if events != [] {
      hide EstStep, AfterAck, NoResend;
      var n := |events| - 1;
      var front, e := events[..n], events[n];
      forall k | 0 <= k < n ensures NoResendAt(front, k) {
        assert front[..k] == events[..k];
        assert NoResendAt(events, k);
      }
      assert NoResendAt(events, n);
      Phases(front);
      RunKeepsTail(front);
      StepKeepsTail(Run(front), e);
    }
  }

  lemma StepKeepsTail(s: Session, e: Event)
    requires s.phase == SYN_ACK ==> s.(isn := 0) == START
    requires TailMeets(s.conn) && NoResend(s, e) && !Step(s, e).cut && (s.phase == ACK_FIN ==> s.conn.toSend == [])
    ensures TailMeets(Step(s, e).conn)
  {
    hide EstStep, AfterAck;
    if s.phase == EST {
      EstKeepsTail(s.conn, e.pkt, e.app);
    }
  }

  // On runs that cut and resend nothing, our FIN leaves under its own number exactly when it
  // leaves with data or on a packet that came without.
  lemma FinLeavesInPlaceIff(events: seq<Event>, e: Event)
    requires NoCut(events) && forall k :: 0 <= k < |events| ==> NoResendAt(events, k)
    requires Run(events).phase == EST && NoResend(Run(events), e)
    requires EstStep(Run(events).conn, e.pkt, e.app).phase == ACK_FIN
    ensures var c := Run(events).conn;
            var r := EstStep(c, e.pkt, e.app);
            FinNumber(r) == Wrap32(r.conn.seqLocal - 1) <==> Offered(c, e.pkt, e.app) != [] || e.pkt.body == []
  {
    hide Run, Step, NoCut, EstStep, AfterAck, TailMeets, NoResendAt, Offered, FinNumber;
    CutIsRecorded(events);
    RunKeepsTail(events);
    TailPutsFinInPlace(Run(events).conn, e.pkt, e.app);
  }

  lemma TailPutsFinInPlace(c: Conn, p: Packet, app: App)
    requires EstStep(c, p, app).phase == ACK_FIN && TailMeets(c) && (!IsRefused(p) ==> AfterAck(c, p).toSend == c.toSend)
    ensures var r := EstStep(c, p, app);
            FinNumber(r) == Wrap32(r.conn.seqLocal - 1) <==> Offered(c, p, app) != [] || p.body == []
  {
    hide EstStep, AfterAck, Offered, Received, FinNumber;
    FinStep(c, p, app);
    OfferedTail(c, p, app);
    FinIsNumberedIff(c, p, app);
  }

  // --- who closes first ---

  // What a peer sends after its FIN never carries the number of a second one, so a
  // connection whose peer closed first is never closed in order.
  lemma {:induction false} PeerClosingFirstIsNeverClosed(events: seq<Event>, stream: seq<Byte>, isn: U32)
    requires |stream| + 1 < TWO32 && AllFromPeer(events, stream, isn)
    ensures Run(events).fins > 0 ==> Run(events).closedBy == None
  {
    if events != [] {
      hide Step, InOrder, Counts;
      var front, e := events[..|events| - 1], events[|events| - 1];
      assert forall e :: e in front ==> e in events;
      assert FromPeer(e.pkt, stream, isn);
      PeerClosingFirstIsNeverClosed(front, stream, isn);
      GoBackNDelivers(front, stream, isn);
      Phases(front);
      RunIsNumbered(front);
      StepNeverCloses(Run(front), e, stream, isn);
    }
  }

  // While our FIN waits for its answer, exactly one packet of the peer closes the connection
  // in order: its first FIN, at the first undelivered offset, acknowledging ours. What data
  // that packet holds is not delivered.
  lemma ClosesIff(s: Session, e: Event, stream: seq<Byte>, isn: U32, off: nat)
    requires |stream| + 1 < TWO32 && s.phase == ACK_FIN && InOrder(s, stream, isn) && Counts(s) && Numbered(s)
    requires !IsRefused(e.pkt) && Carries(e.pkt, stream, isn, off)
    ensures Step(s, e).closedBy.Some?
       <==> s.fins == 0 && e.pkt.flags.fin && off == |s.delivered| && e.pkt.ackNo == s.conn.seqLocal
    ensures Step(s, e).delivered == s.delivered
  {
    hide EstStep, Tiles, Bytes;
    if e.pkt.seqNo == s.conn.seqRemote {
      Wrap32Injective(isn + 1, off, |s.delivered| + s.fins);
    }
  }

  lemma StepNeverCloses(s: Session, e: Event, stream: seq<Byte>, isn: U32)
    requires |stream| + 1 < TWO32 && FromPeer(e.pkt, stream, isn)
    requires InOrder(s, stream, isn) && Counts(s) && Numbered(s) && s.phase in {SYN_ACK, EST, ACK_FIN, END}
    requires s.fins > 0 ==> s.closedBy == None
    ensures Step(s, e).fins > 0 ==> Step(s, e).closedBy == None
  {
    hide EstStep, Tiles, Bytes;
    if s.phase == ACK_FIN && !IsRefused(e.pkt) {
      var off: nat :| Carries(e.pkt, stream, isn, off);
      ClosesIff(s, e, stream, isn, off);
    }
  }

  // Under the echo protocol only the peer's FIN closes, so no echo connection is ever closed
  // in order: after its FIN is acknowledged it waits in ACK_FIN, or ends in a reset.
  lemma EchoIsNeverClosed(events: seq<Event>, stream: seq<Byte>, isn: U32)
    requires |stream| + 1 < TWO32 && AllFromPeer(events, stream, isn)
    requires forall e :: e in events ==> IsEcho(e)
    ensures Run(events).closedBy == None
  {
    hide Run;
    PeerClosingFirstIsNeverClosed(events, stream, isn);
    EchoClosesAfterFin(events);
  }

  ghost predicate ClosesAfterFin(s: Session) {
    s.conn.closing || s.phase == ACK_FIN || s.closedBy.Some? ==> s.fins > 0
  }

  lemma {:induction false} EchoClosesAfterFin(events: seq<Event>)
    requires forall e :: e in events ==> IsEcho(e)
    ensures ClosesAfterFin(Run(events))
  {
    if events != [] {
      hide Step;
      var front, e := events[..|events| - 1], events[|events| - 1];
      assert forall e :: e in front ==> e in events;
      assert e in events;
      EchoClosesAfterFin(front);
      StepClosesAfterFin(Run(front), e);
    }
  }

  lemma StepClosesAfterFin(s: Session, e: Event)
    requires IsEcho(e) && ClosesAfterFin(s)
    ensures ClosesAfterFin(Step(s, e))
  {
    hide EstStep;
    if s.phase == EST {
      EchoClosing(s.conn, e.pkt, e.app);
    }
  }

  lemma EchoClosing(c: Conn, p: Packet, app: App)
    requires forall data :: app(data) == Echo(data)
    ensures var r := EstStep(c, p, app);
            && (r.conn.closing ==> c.closing || (r.accepted && p.flags.fin))
            && (r.phase == ACK_FIN ==> r.conn.closing)
  {
    hide Select, SendAll, Enqueued, Volume;
    assert Close !in Answers(p, app);
  }
}
