// What leaves on the wire. One call writes all its segments into the packet at hand, so the
// packet carries the last one only; the others are on the sent queue all the same. When the
// call writes none, the packet goes out with whatever payload it came in with.
module TcpWire {
  import opened Words
  import opened Options
  import opened TcpQueues
  import opened TcpSteps
  import opened TcpRuns

  // What the outgoing packet carries of the segments its call wrote.
  function Carried(r: Result): seq<Segment> {
    if r.send && r.written != [] && |r.reply.body| <= MSS then [Segment(r.reply.seqNo, r.reply.body)] else []
  }

  // Of the segments written in one call the packet carries exactly the last one.
  lemma ReplyCarriesLastWritten(c: Conn, p: Packet, app: App)
    requires EstStep(c, p, app).written != []
    ensures var r := EstStep(c, p, app);
            var last := r.written[|r.written| - 1];
            Carried(r) == [last] && r.send && r.reply.seqNo == last.seqNumber && r.reply.body == last.data
    ensures Bytes(EstStep(c, p, app).written) <= p.window
  {
    hide Select, Wrap16;
    SendAllRespectsWindow(Offered(c, p, app), AfterAck(c, p).sent, p.window);
    EstStepWrites(c, p, app);
  }

  // The packet has room for what is offered: there is one segment at most, or the first one
  // takes the whole window.
  predicate OnePacket(c: Conn, p: Packet, app: App) {
    IsAccepted(c, p) ==>
      var offered := Offered(c, p, app);
      |offered| <= 1 || p.window <= |offered[0].data|
  }

  // The call's packet carries everything the call moved exactly under that condition.
  lemma AllWrittenAreCarriedIff(c: Conn, p: Packet, app: App)
    ensures var r := EstStep(c, p, app);
            && (if OnePacket(c, p, app) then Carried(r) == r.written else |Carried(r)| < |r.written|)
            && |Carried(r)| <= |r.written|
  {
    hide EstStep, Offered, AfterAck, SendAll, Bytes;
    EstStepWrites(c, p, app);
    WritesAtMostOneIff(Offered(c, p, app), AfterAck(c, p).sent, p.window);
    if EstStep(c, p, app).written != [] {
      ReplyCarriesLastWritten(c, p, app);
    }
  }

  // When data was delivered and nothing can be sent in answer, the packet goes back with the
  // peer's own payload under our sequence number.
  lemma UnansweredPayloadGoesBack(c: Conn, p: Packet, app: App)
    requires IsAccepted(c, p) && p.body != []
    ensures var r := EstStep(c, p, app);
            && r.send
            && (r.written == [] <==> Offered(c, p, app) == [] || p.window == 0)
            && (r.written == [] ==> r.reply.body == p.body && r.reply.seqNo == c.seqLocal)
  {
    hide Select, Wrap16, SendAll;
    WritesNothingIff(Offered(c, p, app), AfterAck(c, p).sent, p.window);
    EstStepWrites(c, p, app);
  }

  // --- over whole runs ---

  function WrittenNow(s: Session, e: Event): seq<Segment> {
    if s.phase == EST then EstStep(s.conn, e.pkt, e.app).written else []
  }

  function CarriedNow(s: Session, e: Event): seq<Segment> {
    if s.phase == EST then Carried(EstStep(s.conn, e.pkt, e.app)) else []
  }

  // Every segment the send loop ever moved to the sent queue, and every one of them that the
  // packet of the same call carried.
  function Written(events: seq<Event>): seq<Segment> {
    if events == [] then []
    else
      var front := events[..|events| - 1];
      Written(front) + WrittenNow(Run(front), events[|events| - 1])
  }

  function CarriedBy(events: seq<Event>): seq<Segment> {
    if events == [] then []
    else
      var front := events[..|events| - 1];
      CarriedBy(front) + CarriedNow(Run(front), events[|events| - 1])
  }

  lemma CarriedSnoc(events: seq<Event>, e: Event)
    ensures Written(events + [e]) == Written(events) + WrittenNow(Run(events), e)
    ensures CarriedBy(events + [e]) == CarriedBy(events) + CarriedNow(Run(events), e)
  {
    assert (events + [e])[..|events|] == events;
  }

  ghost predicate OnePacketAt(events: seq<Event>, k: nat)
    requires k < |events|
  {
    var s := Run(events[..k]);
    s.phase == EST ==> OnePacket(s.conn, events[k].pkt, events[k].app)
  }

  ghost predicate OnePacketEach(events: seq<Event>) {
    forall k :: 0 <= k < |events| ==> OnePacketAt(events, k)
  }

  lemma OnePacketStep(events: seq<Event>)
    requires events != []
    ensures OnePacketEach(events) <==>
            OnePacketEach(events[..|events| - 1]) && OnePacketAt(events, |events| - 1)
  {
    hide OnePacket, Run;
    var front := events[..|events| - 1];
    forall k | 0 <= k < |front| ensures OnePacketAt(events, k) == OnePacketAt(front, k) {
      assert events[..k] == front[..k];
    }
  }

  // On a run every move to the sent queue is carried by its call's packet exactly when every
  // call offers one segment at most or fills the window with its first one; on all others
  // some move is carried by no packet.
  lemma CarriedIsWrittenIff(events: seq<Event>)
    ensures CarriedBy(events) == Written(events) <==> OnePacketEach(events)
    ensures |CarriedBy(events)| == |Written(events)| <==> OnePacketEach(events)
  {
    hide CarriedBy, Written, OnePacketEach;
    CarriedFollowsWritten(events);
  }

  lemma {:induction false} CarriedFollowsWritten(events: seq<Event>)
    ensures if OnePacketEach(events) then CarriedBy(events) == Written(events) else |CarriedBy(events)| < |Written(events)|
  {
    if events != [] {
      hide Run, EstStep, Carried, OnePacket, OnePacketEach;
      var front, e := events[..|events| - 1], events[|events| - 1];
      OnePacketStep(events);
      CarriedFollowsWritten(front);
      AllWrittenAreCarriedIff(Run(front).conn, e.pkt, e.app);
    }
  }

  // --- everything that leaves ---

  function Sends(r: Result): seq<Packet> {
    if r.send then [r.reply] else []
  }

  // The packet that leaves, if any, whatever wrote its payload.
  function Outgoing(s: Session, e: Event): seq<Packet> {
    if s.phase == SYN_ACK then Sends(SynAckStep(s.conn, e.pkt))
    else if s.phase == EST then Sends(EstStep(s.conn, e.pkt, e.app))
    else if s.phase == ACK_FIN then Sends(AckFinStep(s.conn, e.pkt))
    else []
  }

  // All packets of a run that left.
  function Wire(events: seq<Event>): seq<Packet> {
    if events == [] then []
    else
      var front := events[..|events| - 1];
      Wire(front) + Outgoing(Run(front), events[|events| - 1])
  }

  lemma WireSnoc(events: seq<Event>, e: Event)
    ensures Wire(events + [e]) == Wire(events) + Outgoing(Run(events), e)
  {
    assert (events + [e])[..|events|] == events;
  }

  predicate IsIn(g: Segment, q: Packet) {
    q.seqNo == g.seqNumber && q.body == g.data
  }

  ghost predicate Leaves(g: Segment, packets: seq<Packet>) {
    exists q :: q in packets && IsIn(g, q)
  }

  // The last segment a call writes.
  predicate WroteLast(s: Session, e: Event, g: Segment) {
    var w := WrittenNow(s, e);
    w != [] && w[|w| - 1] == g
  }

  // The peer's own payload goes back as it came, and happens to stand where the segment does.
  predicate Bounced(s: Session, e: Event, g: Segment) {
    && e.pkt.body == g.data
    && if s.phase == EST then
         && IsAccepted(s.conn, e.pkt) && (Offered(s.conn, e.pkt, e.app) == [] || e.pkt.window == 0)
         && s.conn.seqLocal == g.seqNumber
       else
         && s.phase == ACK_FIN
         && if IsOutOfPlace(s.conn, e.pkt) then e.pkt.seqNo == g.seqNumber
            else e.pkt.flags.fin && Wrap32(s.conn.seqLocal + 1) == g.seqNumber
  }

  // A call puts a segment with data on the wire exactly in these two ways.
  lemma LeavesNowIff(s: Session, e: Event, g: Segment)
    requires g.data != []
    ensures Leaves(g, Outgoing(s, e)) <==> WroteLast(s, e, g) || Bounced(s, e, g)
  {
    if s.phase == EST {
      EstLeavesIff(s, e, g);
    } else {
      hide EstStep;
      NothingWrittenOutsideEst(s, e);
      if Outgoing(s, e) != [] {
        assert Outgoing(s, e)[0] in Outgoing(s, e);
      }
    }
  }

  lemma NothingWrittenOutsideEst(s: Session, e: Event)
    requires s.phase != EST
    ensures WrittenNow(s, e) == []
  {
  }

  lemma EstLeavesIff(s: Session, e: Event, g: Segment)
    requires s.phase == EST && g.data != []
    ensures Leaves(g, Outgoing(s, e)) <==> WroteLast(s, e, g) || Bounced(s, e, g)
  {
    hide EstStep, Offered, AfterAck, SendAll;
    var c, p, app := s.conn, e.pkt, e.app;
    var r := EstStep(c, p, app);
    EstStepWrites(c, p, app);
    WritesNothingIff(Offered(c, p, app), AfterAck(c, p).sent, p.window);
    assert Outgoing(s, e) == Sends(r);
    assert r.send ==> r.reply in Sends(r);
    if r.written != [] {
      ReplyCarriesLastWritten(c, p, app);
    } else if IsAccepted(c, p) && p.body != [] {
      UnansweredPayloadGoesBack(c, p, app);
    } else {
      BareReply(c, p, app);
    }
  }

  lemma BareReply(c: Conn, p: Packet, app: App)
    requires EstStep(c, p, app).written == [] && (IsAccepted(c, p) ==> p.body == [])
    ensures EstStep(c, p, app).reply.body == []
  {
    hide Select, SendAll;
  }

  ghost predicate LeavesAt(events: seq<Event>, k: nat, g: Segment)
    requires k < |events|
  {
    var s := Run(events[..k]);
    WroteLast(s, events[k], g) || Bounced(s, events[k], g)
  }

  ghost predicate LeftSometime(events: seq<Event>, g: Segment) {
    exists k :: 0 <= k < |events| && LeavesAt(events, k, g)
  }

  lemma LeavesAtPrefix(events: seq<Event>, k: nat, g: Segment)
    requires k < |events| - 1
    ensures LeavesAt(events, k, g) == LeavesAt(events[..|events| - 1], k, g)
  {
    hide Run, WroteLast, Bounced;
    assert events[..|events| - 1][..k] == events[..k];
  }

  lemma LeftSplits(events: seq<Event>, g: Segment)
    requires events != []
    ensures LeftSometime(events, g) <==>
            LeftSometime(events[..|events| - 1], g) || LeavesAt(events, |events| - 1, g)
  {
    hide LeavesAt;
    var n := |events| - 1;
    forall k | 0 <= k < n ensures LeavesAt(events, k, g) == LeavesAt(events[..n], k, g) {
      LeavesAtPrefix(events, k, g);
    }
  }

  // Over a run, a segment with data is on some outgoing packet exactly when some call wrote
  // it last or sent the peer's own bytes back in its place.
  lemma {:induction false} OnWireIff(events: seq<Event>, g: Segment)
    requires g.data != []
    ensures Leaves(g, Wire(events)) <==> LeftSometime(events, g)
  {
    hide Run, Outgoing, WroteLast, Bounced, Leaves, LeftSometime, Wire;
    if events == [] {
      NothingLeft(events, g);
    } else {
      var front, e := events[..|events| - 1], events[|events| - 1];
      OnWireIff(front, g);
      LeavesNowIff(Run(front), e, g);
      LeavesSplits(g, Wire(front), Outgoing(Run(front), e));
      LeftSplits(events, g);
      assert front + [e] == events;
      WireSnoc(front, e);
    }
  }

  lemma NothingLeft(events: seq<Event>, g: Segment)
    requires events == []
    ensures !Leaves(g, Wire(events)) && !LeftSometime(events, g)
  {
  }

  lemma LeavesSplits(g: Segment, a: seq<Packet>, b: seq<Packet>)
    ensures Leaves(g, a + b) <==> Leaves(g, a) || Leaves(g, b)
  {
    if q :| q in a && IsIn(g, q) {
      assert q in a + b;
    } else if q :| q in b && IsIn(g, q) {
      assert q in a + b;
    }
  }

  // What a call's packet carries is on the wire.
  lemma {:induction false} CarriedLeaves(events: seq<Event>, g: Segment)
    requires g in CarriedBy(events)
    ensures Leaves(g, Wire(events))
  {
    hide Run, EstStep;
    var front, e := events[..|events| - 1], events[|events| - 1];
    var s := Run(front);
    LeavesSplits(g, Wire(front), Outgoing(s, e));
    if g in CarriedBy(front) {
      CarriedLeaves(front, g);
    } else {
      assert g in CarriedNow(s, e);
      var r := EstStep(s.conn, e.pkt, e.app);
      assert r.reply in Outgoing(s, e) && IsIn(g, r.reply);
    }
  }

  // Where every call is carried whole, whatever was moved to the sent queue has left.
  lemma WrittenLeaves(events: seq<Event>, g: Segment)
    requires OnePacketEach(events) && g in Written(events)
    ensures Leaves(g, Wire(events))
  {
    hide CarriedBy, Written, OnePacketEach, Wire;
    CarriedIsWrittenIff(events);
    CarriedLeaves(events, g);
  }

  // --- what is on the sent queue or released was once written ---

  ghost predicate WrittenCovers(s: Session, written: seq<Segment>) {
    multiset(s.conn.sent) + multiset(s.released) <= multiset(s.opening) + multiset(written)
  }

  lemma {:induction false} SentWasWritten(events: seq<Event>)
    ensures WrittenCovers(Run(events), Written(events))
  {
    hide Step, WrittenCovers, WrittenNow;
    if events == [] {
      NothingWritten();
    } else {
      var front := events[..|events| - 1];
      SentWasWritten(front);
      Phases(front);
      StepWrittenCovers(Run(front), events[|events| - 1], Written(front));
    }
  }

  lemma NothingWritten()
    ensures WrittenCovers(START, [])
  {
  }

  lemma StepWrittenCovers(s: Session, e: Event, written: seq<Segment>)
    requires s.phase == SYN_ACK ==> s.(isn := 0) == START
    requires WrittenCovers(s, written)
    ensures WrittenCovers(Step(s, e), written + WrittenNow(s, e))
  {
    hide EstStep;
    assert s.phase != EST ==> written + WrittenNow(s, e) == written;
    if s.phase == EST {
      var r := EstStep(s.conn, e.pkt, e.app);
      EstStepSends(s.conn, e.pkt, e.app);
      assert multiset(s.released + r.released) == multiset(s.released) + multiset(r.released);
      assert multiset(written + r.written) == multiset(written) + multiset(r.written);
      CoverCarriesOver(multiset(s.conn.sent), multiset(r.conn.sent), multiset(s.released), multiset(r.released),
                       multiset(s.opening), multiset(written), multiset(r.written));
    }
  }

  lemma CoverCarriesOver<T>(held: multiset<T>, held': multiset<T>, out: multiset<T>, out': multiset<T>,
                            first: multiset<T>, added: multiset<T>, added': multiset<T>)
    requires held' + out' <= held + added' && held + out <= first + added
    ensures held' + (out + out') <= first + (added + added')
  {
    forall x ensures (held' + (out + out'))[x] <= (first + (added + added'))[x] {
      assert (held' + out')[x] <= (held + added')[x] && (held + out)[x] <= (first + added)[x];
    }
  }

  lemma EstStepSends(c: Conn, p: Packet, app: App)
    ensures var r := EstStep(c, p, app);
            multiset(r.conn.sent) + multiset(r.released) <= multiset(c.sent) + multiset(r.written)
  {
    if !IsRefused(p) {
      hide EstStep, AfterAck, Select, Offered, SendAll;
      EstStepQueues(c, p, app);
      EstStepWrites(c, p, app);
      AfterAckSheds(c, p);
      SendAllAppends(Offered(c, p, app), AfterAck(c, p).sent, p.window);
    }
  }

  lemma AfterAckSheds(c: Conn, p: Packet)
    ensures multiset(AfterAck(c, p).sent) + multiset(Select(c.sent, AckedBy(p.ackNo), true)) <= multiset(c.sent)
  {
    hide Select;
    var kept := Select(c.sent, AckedBy(p.ackNo), false);
    SelectPartitions(c.sent, AckedBy(p.ackNo));
    match c.conCtl.HandlePacket(c.seqLocal, p.ackNo).Reset()
    case None =>
    case Some(resetSeq) => SelectPartitions(kept, Beyond(resetSeq));
  }
}
