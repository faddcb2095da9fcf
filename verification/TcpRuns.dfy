// Whole runs of one TCP server connection, from the first packet to END: what has been
// delivered, enqueued, sent and released, under arbitrary packets and any protocol.
module TcpRuns {
  import opened Words
  import opened Options
  import opened ConCtls
  import opened TcpQueues
  import opened TcpSteps

  // A packet from the network, and the protocol's answer should the packet deliver data.
  datatype Event = Event(pkt: Packet, app: App)

  // A connection with its history: the opening packet's sequence number, bytes handed to the
  // protocol, segments enqueued and released, FINs accepted, whether a window ever cut a
  // segment, and the acknowledgement that closed it in order.
  datatype Session = Session(
    phase: nat, conn: Conn, isn: U32, opening: seq<Segment>, delivered: seq<Byte>, enqueued: seq<Segment>, released: seq<Segment>,
    fins: nat, cut: bool, closedBy: Option<U32>)

  const START := Session(SYN_ACK, NEW_CONN, 0, [], [], [], [], 0, false, None)

  function Step(s: Session, e: Event): Session {
    if s.phase == SYN_ACK then
      var r := SynAckStep(s.conn, e.pkt);
      s.(phase := r.phase, conn := r.conn, isn := e.pkt.seqNo, opening := r.conn.sent)
    else if s.phase == EST then
      var r := EstStep(s.conn, e.pkt, e.app);
      s.(phase := r.phase, conn := r.conn, delivered := s.delivered + r.delivered,
         enqueued := s.enqueued + r.enqueued, released := s.released + r.released,
         fins := s.fins + (if r.accepted && e.pkt.flags.fin then 1 else 0),
         cut := s.cut || r.cut)
    else if s.phase == ACK_FIN then
      var r := AckFinStep(s.conn, e.pkt);
      s.(phase := r.phase, conn := r.conn, closedBy := if r.accepted then Some(e.pkt.ackNo) else s.closedBy)
    else s
  }

  function Run(events: seq<Event>): Session {
    if events == [] then START else Step(Run(events[..|events| - 1]), events[|events| - 1])
  }

  lemma RunSnoc(events: seq<Event>, e: Event)
    ensures Run(events + [e]) == Step(Run(events), e)
  {
    assert (events + [e])[..|events|] == events;
  }

  // --- what one step does to the queues ---

  // All segments a connection is responsible for.
  function Held(c: Conn): multiset<Segment> {
    multiset(c.toSend) + multiset(c.sent)
  }

  function HeldBytes(c: Conn): nat {
    Bytes(c.toSend) + Bytes(c.sent)
  }

  lemma AfterAckKeeps(c: Conn, p: Packet)
    ensures Held(c) == Held(AfterAck(c, p)) + multiset(Select(c.sent, AckedBy(p.ackNo), true))
    ensures HeldBytes(c) == HeldBytes(AfterAck(c, p)) + Bytes(Select(c.sent, AckedBy(p.ackNo), true))
  {
    var kept := Select(c.sent, AckedBy(p.ackNo), false);
    SelectPartitions(c.sent, AckedBy(p.ackNo));
    SelectBytes(c.sent, AckedBy(p.ackNo));
    match c.conCtl.HandlePacket(c.seqLocal, p.ackNo).Reset()
    case None =>
    case Some(resetSeq) =>
      RequeueKeeps(kept, c.toSend, resetSeq);
  }

  lemma RequeueKeeps(kept: seq<Segment>, toSend: seq<Segment>, resetSeq: U32)
    ensures var again := Reverse(Select(kept, Beyond(resetSeq), true)) + toSend;
            var rest := Select(kept, Beyond(resetSeq), false);
            && multiset(again) + multiset(rest) == multiset(toSend) + multiset(kept)
            && Bytes(again) + Bytes(rest) == Bytes(toSend) + Bytes(kept)
  {
    var again := Select(kept, Beyond(resetSeq), true);
    SelectPartitions(kept, Beyond(resetSeq));
    SelectBytes(kept, Beyond(resetSeq));
    ReverseKeeps(again);
    ReverseBytes(again);
    BytesAppend(Reverse(again), toSend);
  }

  // What the protocol enqueues holds every byte it asked to send, and tiles on from seqLocal.
  lemma {:induction false} EnqueuedBytes(first: U32, acts: seq<Action>)
    ensures Bytes(Enqueued(first, acts)) == Volume(acts)
  {
    hide Bytes, Segmentize, Wrap32;
    if acts == [] {
      BytesEmpty(Enqueued(first, acts));
    } else {
      var front, last := acts[..|acts| - 1], acts[|acts| - 1];
      EnqueuedBytes(first, front);
      if last.Send? {
        SegmentizeRoundTrip(Wrap32(first + Volume(front)), last.data);
        BytesAppend(Enqueued(first, front), Segmentize(Wrap32(first + Volume(front)), last.data));
      }
    }
  }

  lemma {:induction false} EnqueuedTiles(first: U32, acts: seq<Action>)
    ensures Tiles(first, Enqueued(first, acts))
  {
    hide Bytes, Tiles, Segmentize, Wrap32;
    if acts == [] {
      NothingEnqueued(first, Enqueued(first, acts));
    } else {
      var front, last := acts[..|acts| - 1], acts[|acts| - 1];
      EnqueuedTiles(first, front);
      if last.Send? {
        var next := first + Volume(front);
        EnqueuedBytes(first, front);
        SegmentizeTiles(Wrap32(next), last.data);
        TilesShift(next, Segmentize(Wrap32(next), last.data));
        TilesAppend(first, Enqueued(first, front), Segmentize(Wrap32(next), last.data));
      }
    }
  }

  predicate IsAccepted(c: Conn, p: Packet) {
    !IsRefused(p) && p.seqNo == c.seqRemote
  }

  // What an accepted packet hands to the send loop.
  function Offered(c: Conn, p: Packet, app: App): seq<Segment> {
    Received(AfterAck(c, p), p, app).toSend
  }

  // The window of an accepted packet ends inside a queued segment.
  ghost predicate Cuts(c: Conn, p: Packet, app: App) {
    IsAccepted(c, p) && !Fits(Offered(c, p, app), p.window)
  }

  lemma StepCutsIff(c: Conn, p: Packet, app: App)
    ensures EstStep(c, p, app).cut <==> Cuts(c, p, app)
  {
    CutIffWindowEndsInside(Offered(c, p, app), AfterAck(c, p).sent, p.window);
  }

  // The queues after an est step that was not refused: first the acknowledgement is
  // processed, then, if the packet was expected, the send loop runs.
  lemma EstStepQueues(c: Conn, p: Packet, app: App)
    requires !IsRefused(p)
    ensures var r, a := EstStep(c, p, app), AfterAck(c, p);
            && r.released == Select(c.sent, AckedBy(p.ackNo), true)
            && (if p.seqNo == c.seqRemote then
                  var s := SendAll(Offered(c, p, app), a.sent, p.window);
                  && Offered(c, p, app) == a.toSend + r.enqueued
                  && r.conn.toSend == s.toSend && r.conn.sent == s.sent && r.cut == s.cut
                else
                  r.enqueued == [] && r.conn.toSend == a.toSend && r.conn.sent == a.sent && !r.cut)
  {
  }

  lemma EstStepWrites(c: Conn, p: Packet, app: App)
    ensures EstStep(c, p, app).written
         == if IsAccepted(c, p) then SendAll(Offered(c, p, app), AfterAck(c, p).sent, p.window).written else []
  {
  }

  // Segments and bytes over one est step. Bytes balance exactly when nothing is cut.
  lemma EstStepBytes(c: Conn, p: Packet, app: App)
    ensures var r := EstStep(c, p, app);
            var before, after := HeldBytes(c) + Bytes(r.enqueued), HeldBytes(r.conn) + Bytes(r.released);
            after <= before && (after == before <==> !r.cut)
  {
    if !IsRefused(p) {
      hide EstStep, AfterAck, Select, Offered, SendAll;
      EstStepQueues(c, p, app);
      AfterAckKeeps(c, p);
      if p.seqNo == c.seqRemote {
        BytesAppend(AfterAck(c, p).toSend, EstStep(c, p, app).enqueued);
        BytesSurviveIffNoCut(Offered(c, p, app), AfterAck(c, p).sent, p.window);
      }
    }
  }

  lemma EstStepSegments(c: Conn, p: Packet, app: App)
    requires !EstStep(c, p, app).cut
    ensures var r := EstStep(c, p, app);
            Held(c) + multiset(r.enqueued) == Held(r.conn) + multiset(r.released)
  {
    if !IsRefused(p) {
      hide EstStep, AfterAck, Select, Offered, SendAll;
      EstStepQueues(c, p, app);
      AfterAckKeeps(c, p);
      if p.seqNo == c.seqRemote {
        SendAllKeeps(Offered(c, p, app), AfterAck(c, p).sent, p.window);
      }
    }
  }

  // --- conservation over whole runs ---

  ghost predicate NoCut(events: seq<Event>) {
    forall k :: 0 <= k < |events| ==> !CutsAt(events, k)
  }

  ghost predicate CutsAt(events: seq<Event>, k: nat)
    requires k < |events|
  {
    var s := Run(events[..k]);
    s.phase == EST && Cuts(s.conn, events[k].pkt, events[k].app)
  }

  lemma NoCutStep(events: seq<Event>)
    requires events != []
    ensures NoCut(events) <==> NoCut(events[..|events| - 1]) && !CutsAt(events, |events| - 1)
  {
    var front := events[..|events| - 1];
    forall k | 0 <= k < |front| ensures CutsAt(events, k) == CutsAt(front, k) {
      assert events[..k] == front[..k];
    }
  }

  lemma {:induction false} CutIsRecorded(events: seq<Event>)
    ensures Run(events).cut <==> !NoCut(events)
  {
    if events != [] {
      var n := |events| - 1;
      var front := events[..n];
      hide EstStep, Cuts, SynAckStep, AckFinStep;
      CutIsRecorded(front);
      StepCutsIff(Run(front).conn, events[n].pkt, events[n].app);
      NoCutStep(events);
    }
  }

  lemma {:induction false} Phases(events: seq<Event>)
    ensures var s := Run(events);
            && s.phase in {SYN_ACK, EST, ACK_FIN, END}
            && (s.phase == SYN_ACK ==> s.(isn := 0) == START)
            && (s.phase == ACK_FIN ==> s.conn.toSend == [])
  {
    if events != [] {
      Phases(events[..|events| - 1]);
    }
  }

  // Over every run, queued, sent and released bytes add up to the bytes ever enqueued
  // exactly when no window ever ended inside a segment; otherwise bytes are missing.
  lemma RunConservesBytesIff(events: seq<Event>)
    ensures KeptBytes(Run(events)) <= TotalBytes(Run(events))
    ensures KeptBytes(Run(events)) == TotalBytes(Run(events)) <==> NoCut(events)
  {
    hide Run;
    BytesConservedIffUncut(events);
    CutIsRecorded(events);
  }

  function KeptBytes(s: Session): nat {
    HeldBytes(s.conn) + Bytes(s.released)
  }

  // The SYN-ACK frame is kept beside the data segments.
  function TotalBytes(s: Session): nat {
    Bytes(s.opening) + Bytes(s.enqueued)
  }

  ghost predicate Balanced(s: Session) {
    KeptBytes(s) <= TotalBytes(s) && (KeptBytes(s) == TotalBytes(s) <==> !s.cut)
  }

  lemma {:induction false} BytesConservedIffUncut(events: seq<Event>)
    ensures Balanced(Run(events))
  {
    hide Step, Balanced, KeptBytes, TotalBytes;
    if events != [] {
      var s, e := Run(events[..|events| - 1]), events[|events| - 1];
      BytesConservedIffUncut(events[..|events| - 1]);
      Phases(events[..|events| - 1]);
      if s.phase == SYN_ACK {
        HandshakeBalances(s, e);
      } else if s.phase == EST {
        EstBalances(s, e);
      } else {
        ClosingBalances(s, e);
      }
    } else {
      StartBalances();
    }
  }

  lemma StartBalances()
    ensures Balanced(START)
  {
    hide Bytes;
    BytesEmpty(START.enqueued);
  }

  lemma HandshakeBalances(s: Session, e: Event)
    requires s.phase == SYN_ACK && s.(isn := 0) == START
    ensures Balanced(Step(s, e))
  {
    hide EstStep, AckFinStep, Bytes;
    BytesEmpty(s.enqueued);
    assert s.conn.sent + [SynAckSegment()] == [SynAckSegment()];
  }

  lemma EstBalances(s: Session, e: Event)
    requires s.phase == EST && Balanced(s)
    ensures Balanced(Step(s, e))
  {
    hide EstStep, SynAckStep, AckFinStep, Bytes;
    var r := EstStep(s.conn, e.pkt, e.app);
    EstStepBytes(s.conn, e.pkt, e.app);
    BytesAppend(s.enqueued, r.enqueued);
    BytesAppend(s.released, r.released);
  }

  lemma ClosingBalances(s: Session, e: Event)
    requires s.phase != SYN_ACK && s.phase != EST && Balanced(s)
    ensures Balanced(Step(s, e))
  {
    hide EstStep, SynAckStep, Bytes;
  }

  // --- every segment accounted for ---

  // Queued, sent and released segments are exactly the enqueued ones and the SYN-ACK frame,
  // each as often as it was enqueued.
  ghost predicate Accounted(s: Session) {
    Held(s.conn) + multiset(s.released) == multiset(s.opening) + multiset(s.enqueued)
  }

  lemma {:induction false} RunAccountsForSegments(events: seq<Event>)
    requires NoCut(events)
    ensures Accounted(Run(events))
  {
    hide Step, Accounted, Cuts;
    if events == [] {
      StartAccounted();
    } else {
      var s, e := Run(events[..|events| - 1]), events[|events| - 1];
      NoCutStep(events);
      RunAccountsForSegments(events[..|events| - 1]);
      Phases(events[..|events| - 1]);
      assert s.phase == EST ==> !Cuts(s.conn, e.pkt, e.app) by { assert !CutsAt(events, |events| - 1); }
      StepAccounted(s, e);
    }
  }

  lemma StartAccounted()
    ensures Accounted(START)
  {
  }

  lemma BalanceCarriesOver<T>(held: multiset<T>, held': multiset<T>, out: multiset<T>, out': multiset<T>,
                              first: multiset<T>, added: multiset<T>, added': multiset<T>)
    requires held + added' == held' + out' && held + out == first + added
    ensures held' + (out + out') == first + (added + added')
  {
    assert held' + (out + out') == (held' + out') + out == (held + out) + added';
  }

  lemma StepAccounted(s: Session, e: Event)
    requires s.phase == SYN_ACK ==> s.(isn := 0) == START
    requires Accounted(s) && (s.phase == EST ==> !Cuts(s.conn, e.pkt, e.app))
    ensures Accounted(Step(s, e))
  {
    hide EstStep, Cuts;
    if s.phase == EST {
      StepCutsIff(s.conn, e.pkt, e.app);
      EstStepSegments(s.conn, e.pkt, e.app);
      var r := EstStep(s.conn, e.pkt, e.app);
      assert multiset(s.enqueued + r.enqueued) == multiset(s.enqueued) + multiset(r.enqueued);
      assert multiset(s.released + r.released) == multiset(s.released) + multiset(r.released);
      BalanceCarriesOver(Held(s.conn), Held(r.conn), multiset(s.released), multiset(r.released),
                         multiset(s.opening), multiset(s.enqueued), multiset(r.enqueued));
    }
  }

  // --- sequence numbers ---

  // The numbers one est step leaves behind.
  lemma EstStepNumbers(c: Conn, p: Packet, app: App)
    ensures var r := EstStep(c, p, app);
            && r.accepted == IsAccepted(c, p)
            && r.delivered == (if r.accepted then p.body else [])
            && r.phase == (if IsRefused(p) then END else r.phase) && r.phase in {EST, ACK_FIN, END}
            && (r.phase == END ==> IsRefused(p))
            && (r.phase == ACK_FIN ==> r.conn.toSend == [])
    ensures var r := EstStep(c, p, app);
            && r.conn.seqLocal == Wrap32(c.seqLocal + Bytes(r.enqueued) + if r.phase == ACK_FIN then 1 else 0)
            && r.conn.seqRemote == (if r.accepted then Wrap32(p.seqNo + Counted(p) + FinLen(p)) else c.seqRemote)
            && Tiles(c.seqLocal, r.enqueued)
  {
    hide Bytes, Tiles, SendAll, Select, AfterAck, Loaded, Headed;
    var r := EstStep(c, p, app);
    AfterAckFrame(c, p);
    EnqueuedTiles(c.seqLocal, Answers(p, app));
    EnqueuedBytes(c.seqLocal, Answers(p, app));
    if IsAccepted(c, p) {
      Wrap32Add(c.seqLocal + Bytes(r.enqueued), 1);
    } else {
      NothingEnqueued(c.seqLocal, r.enqueued);
    }
  }

  lemma NothingEnqueued(first: U32, q: seq<Segment>)
    requires q == []
    ensures Bytes(q) == 0 && Tiles(first, q)
  {
  }

  // Everything ever enqueued tiles the range from 1 to seqLocal; the FIN takes one number
  // more, and is set only on an empty queue.
  ghost predicate Numbered(s: Session) {
    && Tiles(1, s.enqueued)
    && (s.phase == SYN_ACK ==> s.enqueued == [] && s.conn.seqLocal == 0)
    && (s.phase == EST ==> s.conn.seqLocal == Wrap32(1 + Bytes(s.enqueued)))
    && (s.phase == ACK_FIN ==> s.conn.seqLocal == Wrap32(2 + Bytes(s.enqueued)) && s.conn.toSend == [])
    && (s.phase != END ==> s.closedBy == None)
    && (s.closedBy.Some? ==> s.closedBy.value == Wrap32(2 + Bytes(s.enqueued)) && s.conn.toSend == [])
  }

  lemma {:induction false} RunIsNumbered(events: seq<Event>)
    ensures Numbered(Run(events))
  {
    hide Step, Numbered;
    if events == [] {
      StartNumbered();
    } else {
      RunIsNumbered(events[..|events| - 1]);
      Phases(events[..|events| - 1]);
      StepNumbered(Run(events[..|events| - 1]), events[|events| - 1]);
    }
  }

  lemma StartNumbered()
    ensures Numbered(START)
  {
    hide Tiles, Bytes;
    NothingEnqueued(1, START.enqueued);
  }

  lemma StepNumbered(s: Session, e: Event)
    requires s.phase in {SYN_ACK, EST, ACK_FIN, END} && Numbered(s)
    ensures Numbered(Step(s, e))
  {
    hide EstStep, Tiles, Bytes;
    if s.phase == SYN_ACK {
      NothingEnqueued(1, s.enqueued);
    } else if s.phase == EST {
      var r := EstStep(s.conn, e.pkt, e.app);
      EstStepNumbers(s.conn, e.pkt, e.app);
      TilesShift(1 + Bytes(s.enqueued), r.enqueued);
      TilesAppend(1, s.enqueued, r.enqueued);
      BytesAppend(s.enqueued, r.enqueued);
      Wrap32Add(1 + Bytes(s.enqueued), Bytes(r.enqueued) + if r.phase == ACK_FIN then 1 else 0);
    }
  }
}
