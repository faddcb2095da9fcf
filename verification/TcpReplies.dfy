// What the server answers: to whom, with which flags, numbers and acknowledgement, in every
// state, and when the peer's FIN or the protocol makes it close.
module TcpReplies {
  import opened Words
  import opened Options
  import opened ConCtls
  import opened TcpQueues
  import opened TcpSteps
  import opened TcpRuns
  import opened TcpWire
  import opened TcpDelivery

  // Every reply goes back to where its packet came from.
  lemma RepliesGoBack(s: Session, e: Event, q: Packet)
    requires q in Outgoing(s, e)
    ensures q.srcIP == e.pkt.dstIP && q.dstIP == e.pkt.srcIP && q.srcPort == e.pkt.dstPort && q.dstPort == e.pkt.srcPort
    ensures q.ttl == 64 && q.checksum == 0
  {
    hide Select, SendAll, AfterAck, Received;
    if s.phase == EST {
      LoadedKeepsEnds(s.conn, e.pkt, e.app);
    }
  }

  lemma LoadedKeepsEnds(c: Conn, p: Packet, app: App)
    ensures var q := EstStep(c, p, app).reply;
            && q.srcIP == p.dstIP && q.dstIP == p.srcIP && q.srcPort == p.dstPort && q.dstPort == p.srcPort
            && q.ttl == 64 && q.checksum == 0
  {
    hide Select, SendAll, AfterAck, Received;
  }

  // --- resets ---

  // The packets a state takes offence at.
  predicate Refuses(s: Session, p: Packet) {
    if s.phase == SYN_ACK then p.flags != Flags(false, true, false, false)
    else
      || p.flags.syn || !p.flags.ack || p.flags.rst
      || (s.phase == ACK_FIN && (p.ackNo != s.conn.seqLocal || p.seqNo != s.conn.seqRemote))
  }

  // What a reset looks like: in the established state it is numbered as ours, otherwise as
  // the packet that brought it on.
  predicate IsResetOf(s: Session, p: Packet, q: Packet) {
    && q.flags == Flags(false, false, true, false)
    && q.seqNo == (if s.phase == EST then s.conn.seqLocal else p.seqNo)
    && q.ackNo == (if s.phase == EST then 0 else p.ackNo)
    && q.body == (if s.phase == ACK_FIN then p.body else [])
    && (s.phase == EST ==> q.frameLen == 54)
  }

  // Exactly these are reset, and end the connection without touching it.
  lemma ResetIff(s: Session, e: Event)
    requires s.phase in {SYN_ACK, EST, ACK_FIN}
    ensures Refuses(s, e.pkt) <==> exists q :: q in Outgoing(s, e) && q.flags.rst
    ensures Refuses(s, e.pkt) ==>
              && |Outgoing(s, e)| == 1 && IsResetOf(s, e.pkt, Outgoing(s, e)[0])
              && Step(s, e).phase == END && Step(s, e).conn == s.conn && Step(s, e).closedBy == s.closedBy
    ensures Step(s, e).phase == END <==> Refuses(s, e.pkt) || (s.phase == ACK_FIN && e.pkt.flags.fin)
  {
    hide Select, SendAll, AfterAck, Received, Loaded, Headed;
    if s.phase == EST && !IsRefused(e.pkt) {
      EstReply(s.conn, e.pkt, e.app);
    } else if Refuses(s, e.pkt) {
      assert Outgoing(s, e)[0] in Outgoing(s, e);
    }
  }

  // --- the handshake and the last reply ---

  // The SYN-ACK: number 0, acknowledging one past the client's number.
  lemma HandshakeReply(s: Session, e: Event)
    requires s.phase == SYN_ACK && !Refuses(s, e.pkt)
    ensures |Outgoing(s, e)| == 1
    ensures var q := Outgoing(s, e)[0];
            && q.flags == Flags(false, true, false, true) && q.seqNo == 0 && q.ackNo == Wrap32(e.pkt.seqNo + 1)
            && q.body == [] && q.frameLen == 54 && q.HeaderLen() == 20
    ensures Step(s, e).phase == EST && Step(s, e).conn.seqLocal == 1
  {
  }

  predicate IsLastAck(s: Session, p: Packet, q: Packet) {
    && q.flags == Flags(false, false, false, true) && q.HeaderLen() == 20
    && q.ackNo == Wrap32(p.seqNo + 1) && q.seqNo == Wrap32(s.conn.seqLocal + 1)
  }

  // In the closing state the peer's FIN is acknowledged by a bare ACK behind ours, and
  // everything else in place is waited out in silence.
  lemma ClosingReply(s: Session, e: Event)
    requires s.phase == ACK_FIN && !Refuses(s, e.pkt)
    ensures if e.pkt.flags.fin then
              && |Outgoing(s, e)| == 1 && IsLastAck(s, e.pkt, Outgoing(s, e)[0])
              && Step(s, e).phase == END && Step(s, e).closedBy == Some(e.pkt.ackNo)
            else
              Outgoing(s, e) == [] && Step(s, e) == s
  {
  }

  // --- the established state ---

  // A packet that is not refused is answered by an ACK for what has been received, with FIN
  // exactly on closing; only a bare acknowledgement with nothing to answer is not answered.
  lemma EstReply(c: Conn, p: Packet, app: App)
    requires !IsRefused(p)
    ensures var r := EstStep(c, p, app);
            && r.reply.flags == Flags(r.phase == ACK_FIN, false, false, true) && r.reply.HeaderLen() == 20
            && r.reply.ackNo == r.conn.seqRemote
            && (r.send <==> p.seqNo != c.seqRemote || p.body != [] || r.written != [] || r.phase == ACK_FIN)
            && r.phase == (if p.seqNo == c.seqRemote && r.conn.closing && r.conn.toSend == [] then ACK_FIN else EST)
  {
    hide Select, SendAll, AfterAck, Received;
  }

  // The number and payload of the answer. An unexpected packet learns what would be sent
  // next; what a call wrote last stands in the packet, under an id of its own; otherwise the
  // packet keeps its payload.
  lemma EstReplyNumber(c: Conn, p: Packet, app: App)
    requires !IsRefused(p)
    ensures var r := EstStep(c, p, app);
            if p.seqNo != c.seqRemote then
              && r.reply.seqNo == (if r.conn.toSend == [] then r.conn.seqLocal else r.conn.toSend[0].seqNumber)
              && r.reply.body == [] && r.reply.frameLen == 54 && r.reply.window == 5840
              && r.conn.seqLocal == c.seqLocal && r.conn.seqRemote == c.seqRemote
            else if r.written == [] then
              r.reply.seqNo == c.seqLocal && r.reply.body == p.body
            else
              && IsIn(r.written[|r.written| - 1], r.reply) && r.reply.frameLen == 54 + |r.reply.body|
              && r.reply.window == 5840 && r.reply.id == Wrap16(c.ipID + |r.written| - 1)
    ensures EstStep(c, p, app).conn.ipID == Wrap16(c.ipID + |EstStep(c, p, app).written|)
    ensures EstStep(c, p, app).conn.sendWindow == p.window
  {
    hide Select, SendAll, Wrap16, Enqueued, Volume;
    if p.seqNo == c.seqRemote {
      Wrap16Small(c.ipID);
    } else {
      AfterAckFrame(c, p);
      Wrap16Small(c.ipID);
    }
  }

  lemma Wrap16Small(x: U16)
    ensures Wrap16(x) == x
  {
  }

  // Every segment written anywhere in a run is sent under the next IP id.
  lemma {:induction false} IdsCountWritten(events: seq<Event>)
    ensures Run(events).conn.ipID == Wrap16(|Written(events)|)
  {
    hide Step, WrittenNow, Wrap16;
    if events == [] {
      Wrap16Small(0);
    } else {
      IdsCountWritten(events[..|events| - 1]);
      StepCountsIds(Run(events[..|events| - 1]), events[|events| - 1], |Written(events[..|events| - 1])|);
    }
  }

  lemma StepCountsIds(s: Session, e: Event, n: nat)
    requires s.conn.ipID == Wrap16(n)
    ensures Step(s, e).conn.ipID == Wrap16(n + |WrittenNow(s, e)|)
  {
    hide EstStep;
    if s.phase == EST {
      if IsRefused(e.pkt) {
        RefusedKeeps(s.conn, e.pkt, e.app);
      } else {
        EstReplyNumber(s.conn, e.pkt, e.app);
      }
    }
  }

  lemma RefusedKeeps(c: Conn, p: Packet, app: App)
    requires IsRefused(p)
    ensures EstStep(c, p, app).conn == c && EstStep(c, p, app).written == []
  {
  }

  // --- one law for all states ---

  // SYN, every byte delivered, and every FIN taken, the closing one included.
  function Received32(s: Session): U32 {
    Wrap32(s.isn + 1 + |s.delivered| + s.fins + if s.closedBy.Some? then 1 else 0)
  }

  // Every packet that leaves and is no reset acknowledges exactly what has been received by
  // then, from the SYN-ACK to the last reply.
  lemma WireAcknowledgesReceived(events: seq<Event>, e: Event, q: Packet)
    requires forall e' :: e' in events + [e] ==> NoOptions(e'.pkt)
    requires q in Outgoing(Run(events), e) && !q.flags.rst
    ensures q.flags.ack && q.ackNo == Received32(Run(events + [e]))
  {
    hide Run, Step, Outgoing, Counts, Numbered;
    assert forall e' :: e' in events ==> e' in events + [e];
    assert e in events + [e];
    RemoteCountsDelivered(events);
    RunSnoc(events, e);
    Phases(events);
    RunIsNumbered(events);
    AnswerCounts(Run(events), e, q);
  }

  lemma AnswerCounts(s: Session, e: Event, q: Packet)
    requires Counts(s) && Numbered(s) && NoOptions(e.pkt) && s.phase in {SYN_ACK, EST, ACK_FIN, END}
    requires q in Outgoing(s, e) && !q.flags.rst
    ensures q.flags.ack && q.ackNo == Received32(Step(s, e))
  {
    hide EstStep, Tiles, Bytes;
    if s.phase == EST {
      assert Outgoing(s, e) == Sends(EstStep(s.conn, e.pkt, e.app));
      if IsRefused(e.pkt) {
        ResetIff(s, e);
      } else {
        EstReply(s.conn, e.pkt, e.app);
        StepCounts(s, e);
        EstKeepsOpen(s, e);
      }
    } else if s.phase == ACK_FIN {
      Wrap32Add(s.isn + 1 + |s.delivered| + s.fins, 1);
    }
  }

  lemma EstKeepsOpen(s: Session, e: Event)
    requires s.phase == EST && !IsRefused(e.pkt)
    ensures var t := Step(s, e);
            IsOpen(t) && t.conn == EstStep(s.conn, e.pkt, e.app).conn && t.closedBy == s.closedBy
  {
    hide EstStep;
    EstReply(s.conn, e.pkt, e.app);
  }

  // --- closing ---

  // The protocol has asked for the connection to be closed.
  predicate AsksNow(s: Session, e: Event) {
    s.phase == EST && IsAccepted(s.conn, e.pkt) && e.pkt.body != [] && Close in e.app(e.pkt.body)
  }

  predicate CloseAsked(events: seq<Event>) {
    events != [] &&
    (CloseAsked(events[..|events| - 1]) || AsksNow(Run(events[..|events| - 1]), events[|events| - 1]))
  }

  // The server means to close exactly when a FIN of the peer was accepted or the protocol has
  // asked; it then stays established only while data is queued, and sends its FIN in the very
  // call that empties the queue.
  ghost predicate ClosesWhenDue(s: Session, asked: bool) {
    && (s.phase == SYN_ACK ==> !s.conn.closing && s.fins == 0 && !asked)
    && (s.phase == EST ==> (s.conn.closing <==> s.fins > 0 || asked) && (s.conn.closing ==> s.conn.toSend != []))
    && (s.phase == ACK_FIN ==> s.conn.closing && (s.fins > 0 || asked) && s.conn.toSend == [])
  }

  lemma {:induction false} ClosingIff(events: seq<Event>)
    ensures ClosesWhenDue(Run(events), CloseAsked(events))
  {
    if events != [] {
      hide Step, AsksNow, ClosesWhenDue;
      var front, e := events[..|events| - 1], events[|events| - 1];
      ClosingIff(front);
      Phases(front);
      StepClosesWhenDue(Run(front), e, CloseAsked(front));
    }
  }

  lemma StepClosesWhenDue(s: Session, e: Event, asked: bool)
    requires s.phase in {SYN_ACK, EST, ACK_FIN, END} && ClosesWhenDue(s, asked)
    ensures ClosesWhenDue(Step(s, e), asked || AsksNow(s, e))
  {
    hide EstStep;
    if s.phase == EST {
      EstClosing(s.conn, e.pkt, e.app);
      EstStepNumbers(s.conn, e.pkt, e.app);
    }
  }

  // What one packet does to the intention to close.
  lemma EstClosing(c: Conn, p: Packet, app: App)
    ensures var r := EstStep(c, p, app);
            && (r.conn.closing <==>
                c.closing || (IsAccepted(c, p) && (p.flags.fin || (p.body != [] && Close in app(p.body)))))
            && (r.phase == ACK_FIN ==> r.conn.closing && r.conn.toSend == [])
            && (r.phase == EST && IsAccepted(c, p) && r.conn.closing ==> r.conn.toSend != [])
            && (r.phase == EST && !IsAccepted(c, p) && c.toSend != [] ==> r.conn.toSend != [])
  {
    hide Select, SendAll, Enqueued, Volume, Reverse;
  }

  // The packet on which the server leaves the established state is sent, with FIN.
  lemma FinIsSent(s: Session, e: Event)
    requires s.phase == EST
    ensures Step(s, e).phase == ACK_FIN <==> exists q :: q in Outgoing(s, e) && q.flags.fin
  {
    hide EstStep;
    assert Outgoing(s, e) == Sends(EstStep(s.conn, e.pkt, e.app));
    if IsRefused(e.pkt) {
      ResetIff(s, e);
    } else {
      EstReply(s.conn, e.pkt, e.app);
      assert EstStep(s.conn, e.pkt, e.app).send ==> Outgoing(s, e)[0] in Outgoing(s, e);
    }
  }

  // --- what the protocol asked to send ---

  function Requested(acts: seq<Action>): seq<Byte> {
    if acts == [] then []
    else Requested(acts[..|acts| - 1]) + match acts[|acts| - 1] case Send(data) => data case Close => []
  }

  lemma {:induction false} EnqueuedConcat(first: U32, acts: seq<Action>)
    ensures Concat(Enqueued(first, acts)) == Requested(acts)
  {
    hide Concat, Segmentize, Wrap32;
    if acts == [] {
      BytesEmpty(Enqueued(first, acts));
    } else {
      var front, last := acts[..|acts| - 1], acts[|acts| - 1];
      EnqueuedConcat(first, front);
      if last.Send? {
        var next := Wrap32(first + Volume(front));
        SegmentizeRoundTrip(next, last.data);
        BytesAppend(Enqueued(first, front), Segmentize(next, last.data));
      }
    }
  }

  // Every request to send yields its own segments, an empty one too.
  function Pieces(acts: seq<Action>): nat {
    if acts == [] then 0
    else
      Pieces(acts[..|acts| - 1]) +
      match acts[|acts| - 1] case Send(data) => (if data == [] then 1 else (|data| + 1459) / 1460) case Close => 0
  }

  lemma {:induction false} EnqueuedCount(first: U32, acts: seq<Action>)
    ensures |Enqueued(first, acts)| == Pieces(acts)
  {
    hide Segmentize, Wrap32;
    if acts != [] {
      var front, last := acts[..|acts| - 1], acts[|acts| - 1];
      EnqueuedCount(first, front);
      if last.Send? {
        SegmentizeCount(Wrap32(first + Volume(front)), last.data);
      }
    }
  }

  // The protocol is asked exactly when data is delivered, and what it then sends is enqueued.
  lemma EstEnqueuesRequested(c: Conn, p: Packet, app: App)
    ensures var r, asked := EstStep(c, p, app), IsAccepted(c, p) && p.body != [];
            Concat(r.enqueued) == (if asked then Requested(app(p.body)) else []) && (!asked ==> r.enqueued == [])
  {
    hide Concat, Select, SendAll, AfterAck, Segmentize;
    var r := EstStep(c, p, app);
    AfterAckFrame(c, p);
    if IsAccepted(c, p) && p.body != [] {
      EnqueuedConcat(c.seqLocal, app(p.body));
    } else {
      BytesEmpty(r.enqueued);
    }
  }

  // Everything any protocol ever asked to send, call by call.
  function RequestedBy(events: seq<Event>): seq<Byte> {
    if events == [] then []
    else
      var front, e := events[..|events| - 1], events[|events| - 1];
      var s := Run(front);
      RequestedBy(front) +
      if s.phase == EST && IsAccepted(s.conn, e.pkt) && e.pkt.body != [] then Requested(e.app(e.pkt.body)) else []
  }

  lemma {:induction false} RunEnqueuesRequested(events: seq<Event>)
    ensures Concat(Run(events).enqueued) == RequestedBy(events)
  {
    hide EstStep, SynAckStep, AckFinStep, Concat, Requested;
    if events == [] {
      BytesEmpty(Run(events).enqueued);
    } else {
      var front, e := events[..|events| - 1], events[|events| - 1];
      var s := Run(front);
      RunEnqueuesRequested(front);
      if s.phase == EST {
        EstEnqueuesRequested(s.conn, e.pkt, e.app);
        BytesAppend(s.enqueued, EstStep(s.conn, e.pkt, e.app).enqueued);
      }
    }
  }

  // --- the duplicate counter over runs ---

  // The handlePacket calls of a run.
  function Calls(events: seq<Event>): seq<Call> {
    if events == [] then []
    else
      var front, e := events[..|events| - 1], events[|events| - 1];
      var s := Run(front);
      if s.phase == EST && !IsRefused(e.pkt) then Calls(front) + [Call(s.conn.seqLocal, e.pkt.ackNo)] else Calls(front)
  }

  // The connection's counter is that of its calls, so a reset fires in a run exactly when
  // `ConCtls.ResetFiresIff` says so of them.
  lemma {:induction false} RunCountsDuplicates(events: seq<Event>)
    ensures Run(events).conn.conCtl == After(Calls(events))
  {
    hide Select, SendAll, Received;
    if events != [] {
      var front, e := events[..|events| - 1], events[|events| - 1];
      var s := Run(front);
      RunCountsDuplicates(front);
      if s.phase == EST {
        EstCounts(s.conn, e.pkt, e.app);
        CallsSnoc(Calls(front), Call(s.conn.seqLocal, e.pkt.ackNo));
      }
    }
  }

  lemma CallsSnoc(calls: seq<Call>, call: Call)
    ensures After(calls + [call]) == After(calls).HandlePacket(call.seqNo, call.ackNo)
  {
    assert (calls + [call])[..|calls|] == calls;
  }

  lemma EstCounts(c: Conn, p: Packet, app: App)
    ensures EstStep(c, p, app).conn.conCtl
         == if IsRefused(p) then c.conCtl else c.conCtl.HandlePacket(c.seqLocal, p.ackNo)
  {
    hide Select, SendAll, Enqueued, Volume;
  }

  // --- the order of what is sent again ---

  predicate Rising(q: seq<Segment>) {
    forall i, j :: 0 <= i < j < |q| ==> q[i].seqNumber < q[j].seqNumber
  }

  predicate Falling(q: seq<Segment>) {
    forall i, j :: 0 <= i < j < |q| ==> q[i].seqNumber > q[j].seqNumber
  }

  lemma {:induction false} SelectRises(q: seq<Segment>, t: Test, want: bool)
    requires Rising(q)
    ensures Rising(Select(q, t, want))
  {
    if q != [] {
      SelectRises(q[..|q| - 1], t, want);
      forall g | g in Select(q[..|q| - 1], t, want) ensures g.seqNumber < q[|q| - 1].seqNumber {
        SelectHolds(q[..|q| - 1], t, want, g);
      }
    }
  }

  lemma ReverseFalls(q: seq<Segment>)
    requires Rising(q)
    ensures Falling(Reverse(q))
  {
    hide Reverse;
    forall i: nat | i < |q| ensures |Reverse(q)| == |q| && Reverse(q)[i] == q[|q| - 1 - i] {
      ReverseAt(q, i);
    }
    ReverseLength(q);
  }

  lemma ReverseLength(q: seq<Segment>)
    ensures |Reverse(q)| == |q|
  {
    if q != [] {
      ReverseAt(q, 0);
    }
  }

  // Sent segments in the order of their numbers stay so; those a reset queues again stand in
  // falling order before what was queued already.
  lemma ResetReversesOrder(c: Conn, p: Packet)
    requires Rising(c.sent)
    ensures var a := AfterAck(c, p);
            && Rising(a.sent) && |a.toSend| >= |c.toSend|
            && a.toSend[|a.toSend| - |c.toSend|..] == c.toSend
            && Falling(a.toSend[..|a.toSend| - |c.toSend|])
  {
    hide Select, Reverse;
    var kept := Select(c.sent, AckedBy(p.ackNo), false);
    SelectRises(c.sent, AckedBy(p.ackNo), false);
    match c.conCtl.HandlePacket(c.seqLocal, p.ackNo).Reset()
    case None =>
    case Some(resetSeq) =>
      SelectRises(kept, Beyond(resetSeq), false);
      SelectRises(kept, Beyond(resetSeq), true);
      ReverseFalls(Select(kept, Beyond(resetSeq), true));
  }
}
