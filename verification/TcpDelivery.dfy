// What the peer's bytes turn into: Go-Back-N delivery, cumulative acknowledgement, and the
// echo protocol.
module TcpDelivery {
  import opened Words
  import opened Options
  import opened TcpQueues
  import opened TcpSteps
  import opened TcpRuns

  // The server counts header bytes by the data offset it received, but hands out everything
  // behind a 20-byte header: the two agree exactly for segments without options.
  lemma CountedIsDeliveredIff(p: Packet)
    ensures Counted(p) == |p.body| <==> p.HeaderLen() == TCP_LEN
  {
  }

  // Four bytes of options and one byte of data: one byte is counted, five are handed out.
  lemma OptionsAreDeliveredAsData(c: Conn, p: Packet, app: App)
    requires IsAccepted(c, p) && p.offsetReserved == 6 * 16 && p.body == [1, 1, 1, 0, 65] && !p.flags.fin
    ensures EstStep(c, p, app).delivered == p.body
    ensures EstStep(c, p, app).conn.seqRemote == Wrap32(c.seqRemote + 1)
  {
    hide EstStep;
    EstStepNumbers(c, p, app);
  }

  predicate NoOptions(p: Packet) {
    IsRefused(p) || p.HeaderLen() == TCP_LEN
  }

  predicate IsOpen(s: Session) {
    s.phase == EST || s.phase == ACK_FIN
  }

  // The next number expected from the peer: one for SYN, every delivered byte, every FIN.
  ghost predicate Counts(s: Session) {
    && (s.phase == SYN_ACK ==> s.delivered == [] && s.fins == 0)
    && (IsOpen(s) ==> s.conn.seqRemote == Wrap32(s.isn + 1 + |s.delivered| + s.fins))
  }

  lemma {:induction false} RemoteCountsDelivered(events: seq<Event>)
    requires forall e :: e in events ==> NoOptions(e.pkt)
    ensures Counts(Run(events))
  {
    hide Step;
    if events != [] {
      var front := events[..|events| - 1];
      assert forall e :: e in front ==> e in events;
      RemoteCountsDelivered(front);
      Phases(front);
      StepCounts(Run(front), events[|events| - 1]);
    }
  }

  lemma StepCounts(s: Session, e: Event)
    requires NoOptions(e.pkt) && Counts(s) && s.phase in {SYN_ACK, EST, ACK_FIN, END}
    ensures Counts(Step(s, e))
  {
    hide EstStep;
    if s.phase == EST {
      EstStepNumbers(s.conn, e.pkt, e.app);
      if IsAccepted(s.conn, e.pkt) {
        CountedIsDeliveredIff(e.pkt);
        Wrap32Add(s.isn + 1 + |s.delivered| + s.fins, |e.pkt.body| + FinLen(e.pkt));
      }
    }
  }

  // --- Go-Back-N ---

  // The packet holds the stream from offset `off`, or is a bare acknowledgement behind the
  // FIN; a FIN ends the stream.
  ghost predicate Carries(p: Packet, stream: seq<Byte>, isn: U32, off: nat) {
    && p.HeaderLen() == TCP_LEN
    && p.seqNo == Wrap32(isn + 1 + off)
    && (if off == |stream| + 1 then p.body == [] && !p.flags.fin
        else && off + |p.body| <= |stream|
             && p.body == stream[off..off + |p.body|]
             && (p.flags.fin ==> off + |p.body| == |stream|))
  }

  // Whatever loss, duplication and reordering leave of one peer's packets.
  ghost predicate FromPeer(p: Packet, stream: seq<Byte>, isn: U32) {
    && (p.flags.syn ==> p.seqNo == isn)
    && (IsRefused(p) || exists off: nat :: Carries(p, stream, isn, off))
  }

  ghost predicate AllFromPeer(events: seq<Event>, stream: seq<Byte>, isn: U32) {
    forall e :: e in events ==> FromPeer(e.pkt, stream, isn)
  }

  ghost predicate InOrder(s: Session, stream: seq<Byte>, isn: U32) {
    && |s.delivered| <= |stream| && s.delivered == stream[..|s.delivered|]
    && (IsOpen(s) ==> s.isn == isn && (s.fins == 0 || (s.fins == 1 && s.delivered == stream)))
  }

  // On every run of such packets the protocol has been handed a prefix of the peer's stream,
  // each byte once and in order, as long as the expected sequence number says.
  lemma {:induction false} GoBackNDelivers(events: seq<Event>, stream: seq<Byte>, isn: U32)
    requires |stream| + 1 < TWO32 && AllFromPeer(events, stream, isn)
    ensures InOrder(Run(events), stream, isn) && Counts(Run(events))
  {
    hide Step, InOrder, Counts;
    PeerSendsNoOptions(events, stream, isn);
    RemoteCountsDelivered(events);
    if events == [] {
      StartInOrder(stream, isn);
    } else {
      var front, e := events[..|events| - 1], events[|events| - 1];
      assert forall e :: e in front ==> e in events;
      assert e in events;
      GoBackNDelivers(front, stream, isn);
      Phases(front);
      StepInOrder(Run(front), e, stream, isn);
    }
  }

  lemma PeerSendsNoOptions(events: seq<Event>, stream: seq<Byte>, isn: U32)
    requires AllFromPeer(events, stream, isn)
    ensures forall e :: e in events ==> NoOptions(e.pkt)
  {
    forall e | e in events ensures NoOptions(e.pkt) {
      if off: nat :| Carries(e.pkt, stream, isn, off) {
        assert e.pkt.HeaderLen() == TCP_LEN;
      }
    }
  }

  lemma StartInOrder(stream: seq<Byte>, isn: U32)
    ensures InOrder(START, stream, isn)
  {
  }

  lemma StepInOrder(s: Session, e: Event, stream: seq<Byte>, isn: U32)
    requires |stream| + 1 < TWO32 && FromPeer(e.pkt, stream, isn)
    requires InOrder(s, stream, isn) && Counts(s) && s.phase in {SYN_ACK, EST, ACK_FIN, END}
    ensures InOrder(Step(s, e), stream, isn)
  {
    hide EstStep;
    if s.phase == EST {
      EstStepNumbers(s.conn, e.pkt, e.app);
      if IsAccepted(s.conn, e.pkt) {
        var off: nat :| Carries(e.pkt, stream, isn, off);
        ExpectedIsDelivered(s, e, stream, isn, off);
      }
    }
  }

  // Exactly the packet at the expected offset is taken; every other one changes nothing.
  lemma ExpectedIsDelivered(s: Session, e: Event, stream: seq<Byte>, isn: U32, off: nat)
    requires |stream| + 1 < TWO32 && s.phase == EST && InOrder(s, stream, isn) && Counts(s)
    requires !IsRefused(e.pkt) && Carries(e.pkt, stream, isn, off)
    ensures off == |s.delivered| + s.fins <==> IsAccepted(s.conn, e.pkt)
    ensures Step(s, e).delivered ==
            if off == |s.delivered| && s.fins == 0 then stream[..off + |e.pkt.body|] else s.delivered
  {
    hide EstStep;
    EstStepNumbers(s.conn, e.pkt, e.app);
    if IsAccepted(s.conn, e.pkt) {
      Wrap32Injective(isn + 1, off, |s.delivered| + s.fins);
      if s.fins == 0 {
        assert stream[..off] + stream[off..off + |e.pkt.body|] == stream[..off + |e.pkt.body|];
      }
    }
  }

  // Every reply that is not a reset acknowledges exactly what has been delivered so far.
  lemma RepliesAcknowledgeDelivered(events: seq<Event>, e: Event)
    requires forall e' :: e' in events + [e] ==> NoOptions(e'.pkt)
    requires Run(events).phase == EST && !IsRefused(e.pkt)
    ensures var s, r := Run(events + [e]), EstStep(Run(events).conn, e.pkt, e.app);
            r.reply.ackNo == Wrap32(s.isn + 1 + |s.delivered| + s.fins)
  {
    hide Run, Counts, Select, SendAll;
    RemoteCountsDelivered(events + [e]);
    RunSnoc(events, e);
    var c := Run(events).conn;
    EstStepNumbers(c, e.pkt, e.app);
    CountsAfter(Run(events), e);
  }

  lemma CountsAfter(s: Session, e: Event)
    requires s.phase == EST && !IsRefused(e.pkt) && Counts(Step(s, e))
    ensures var t := Step(s, e);
            EstStep(s.conn, e.pkt, e.app).conn.seqRemote == Wrap32(t.isn + 1 + |t.delivered| + t.fins)
  {
    hide EstStep;
    EstStepNumbers(s.conn, e.pkt, e.app);
  }

  // --- the echo protocol ---

  ghost predicate IsEcho(e: Event) {
    forall data :: e.app(data) == Echo(data)
  }

  // Under TcpProtoJoke everything delivered has been enqueued, in order, and nothing else.
  lemma {:induction false} EchoEnqueuesDelivered(events: seq<Event>)
    requires forall e :: e in events ==> IsEcho(e)
    ensures Concat(Run(events).enqueued) == Run(events).delivered
  {
    hide Step, Concat;
    if events == [] {
      BytesEmpty(START.enqueued);
    } else {
      var front, e := events[..|events| - 1], events[|events| - 1];
      assert forall e :: e in front ==> e in events;
      assert e in events;
      EchoEnqueuesDelivered(front);
      StepEchoes(Run(front), e);
    }
  }

  lemma StepEchoes(s: Session, e: Event)
    requires IsEcho(e) && Concat(s.enqueued) == s.delivered
    ensures Concat(Step(s, e).enqueued) == Step(s, e).delivered
  {
    hide EstStep, Concat;
    if s.phase == EST {
      var r := EstStep(s.conn, e.pkt, e.app);
      EstStepNumbers(s.conn, e.pkt, e.app);
      EstEchoes(s.conn, e.pkt, e.app);
      BytesAppend(s.enqueued, r.enqueued);
    }
  }

  lemma EstEchoes(c: Conn, p: Packet, app: App)
    requires forall data :: app(data) == Echo(data)
    ensures Concat(EstStep(c, p, app).enqueued) == if IsAccepted(c, p) then p.body else []
  {
    hide Concat, Segmentize, Select, SendAll;
    var r := EstStep(c, p, app);
    if IsAccepted(c, p) && p.body != [] {
      OneSend(c.seqLocal, p.body);
    } else {
      BytesEmpty(r.enqueued);
    }
  }

  lemma OneSend(first: U32, data: seq<Byte>)
    ensures Concat(Enqueued(first, Echo(data))) == data
  {
    hide Concat, Segmentize;
    var acts := Echo(data);
    SegmentizeRoundTrip(first, data);
    assert acts[..0] == [];
    assert Enqueued(first, acts[..0]) + Segmentize(first, data) == Segmentize(first, data);
  }

  // Before a FIN is accepted, as many bytes have been numbered for sending as received.
  lemma EchoKeepsNumbersInStep(events: seq<Event>)
    requires forall e :: e in events ==> IsEcho(e) && NoOptions(e.pkt)
    ensures InStep(Run(events))
  {
    hide Run;
    var s := Run(events);
    EchoEnqueuesDelivered(events);
    RemoteCountsDelivered(events);
    RunIsNumbered(events);
    BytesIsLength(s.enqueued);
    Wrap32Add(1 + |s.delivered|, -1);
    Wrap32Add(s.isn + 1 + |s.delivered|, -(s.isn + 1));
  }

  ghost predicate InStep(s: Session) {
    s.phase == EST && s.fins == 0 ==>
      Wrap32(s.conn.seqLocal - 1) == Wrap32(s.conn.seqRemote - (s.isn + 1)) == Wrap32(|s.delivered|)
  }

  lemma {:induction false} BytesIsLength(q: seq<Segment>)
    ensures Bytes(q) == |Concat(q)|
  {
    if q != [] {
      BytesIsLength(q[..|q| - 1]);
    }
  }
}
