// Runs from the first packet on that show the limits of the theorems to be real: a window
// that cuts, a segment that never leaves, an acknowledgement that releases too much, and a
// connection that closes in order.
module TcpWitness {
  import opened Words
  import opened Options
  import opened ConCtls
  import opened TcpQueues
  import opened TcpSteps
  import opened TcpRuns
  import opened TcpWire
  import opened TcpAcks
  import opened TcpClose
  import opened TcpDelivery

  // A packet of the peer, without options.
  function FromClient(seqNo: U32, ackNo: U32, flags: Flags, window: U16, body: Body): Packet {
    Packet(1, 2, 3, 4, TTL, 0, 0, seqNo, ackNo, OFFSET_5, flags, window, body, 0)
  }

  const SYN := NO_FLAGS.(syn := true)
  const ACK := NO_FLAGS.(ack := true)
  const FIN_ACK := ACK.(fin := true)

  function Opens(): Event {
    Event(FromClient(0, 0, SYN, 10, []), Echo)
  }

  function Data(seqNo: U32, ackNo: U32, window: U16, body: Body): Event {
    Event(FromClient(seqNo, ackNo, ACK, window, body), Echo)
  }

  lemma RunOne(a: Event)
    ensures Run([a]) == Step(START, a)
  {
    hide Step;
    assert [] + [a] == [a];
    RunSnoc([], a);
    assert Run([]) == START;
  }

  lemma RunTwo(a: Event, b: Event)
    ensures Run([a, b]) == Step(Step(START, a), b)
  {
    hide Step, Run;
    assert [a] + [b] == [a, b];
    RunOne(a);
    RunSnoc([a], b);
  }

  lemma RunThree(a: Event, b: Event, c: Event)
    ensures Run([a, b, c]) == Step(Step(Step(START, a), b), c)
  {
    hide Step, Run;
    assert [a, b] + [c] == [a, b, c];
    RunTwo(a, b);
    RunSnoc([a, b], c);
  }

  // The connection after the handshake.
  function Established(): Conn {
    NEW_CONN.(seqRemote := 1, seqLocal := 1, sent := [SynAckSegment()])
  }

  lemma AfterOpening()
    ensures Step(START, Opens()) == START.(phase := EST, conn := Established(), opening := [SynAckSegment()])
  {
    assert NEW_CONN.sent + [SynAckSegment()] == [SynAckSegment()];
  }

  // An acknowledgement below the sent queue's ends, and no reset: only counters change.
  lemma NothingPruned(c: Conn, p: Packet)
    requires forall g :: g in c.sent ==> p.ackNo <= g.End()
    requires !Resets(c, p)
    ensures AfterAck(c, p) == c.(conCtl := c.conCtl.HandlePacket(c.seqLocal, p.ackNo), sendWindow := p.window)
  {
    hide Select;
    SelectAll(c.sent, AckedBy(p.ackNo));
  }

  lemma {:induction false} SelectAll(q: seq<Segment>, t: Test)
    requires forall g :: g in q ==> !t.Holds(g)
    ensures Select(q, t, false) == q
  {
    if q != [] {
      SelectAll(q[..|q| - 1], t);
    }
  }

  lemma {:induction false} SelectNone(q: seq<Segment>, t: Test)
    requires forall g :: g in q ==> !t.Holds(g)
    ensures Select(q, t, true) == []
  {
    if q != [] {
      SelectNone(q[..|q| - 1], t);
    }
  }

  // The echo of one small packet.
  lemma EchoFeeds(a: Conn, body: seq<Byte>)
    requires 0 < |body| <= MSS
    ensures Enqueued(a.seqLocal, Echo(body)) == [Segment(a.seqLocal, body)] && Volume(Echo(body)) == |body|
    ensures Close !in Echo(body)
  {
    hide Segmentize;
    var acts := Echo(body);
    assert acts[..0] == [];
    SegmentizeShort(a.seqLocal, body);
    assert Volume([]) == 0 && Enqueued(a.seqLocal, []) == [];
  }

  // One small packet under the echo protocol: its echo joins the queue and the loop runs.
  lemma EchoStep(c: Conn, p: Packet)
    requires IsAccepted(c, p) && !p.flags.fin && !c.closing && p.HeaderLen() == TCP_LEN && 0 < |p.body| <= MSS
    requires (forall g :: g in c.sent ==> p.ackNo <= g.End()) && !Resets(c, p)
    ensures Offered(c, p, Echo) == c.toSend + [Segment(c.seqLocal, p.body)]
    ensures var r, s := EstStep(c, p, Echo), SendAll(c.toSend + [Segment(c.seqLocal, p.body)], c.sent, p.window);
            && r.phase == EST && r.conn.toSend == s.toSend && r.conn.sent == s.sent && r.written == s.written
            && r.conn.seqLocal == Wrap32(c.seqLocal + |p.body|) && r.conn.seqRemote == Wrap32(p.seqNo + |p.body|)
            && !r.conn.closing && r.conn.conCtl == c.conCtl.HandlePacket(c.seqLocal, p.ackNo)
            && r.enqueued == [Segment(c.seqLocal, p.body)] && r.released == []
            && r.accepted && r.delivered == p.body && r.cut == s.cut
  {
    hide AfterAck, Select, SendAll, Enqueued, Volume, Loaded, Headed, Echo;
    NothingPruned(c, p);
    EchoFeeds(c, p.body);
    SelectNone(c.sent, AckedBy(p.ackNo));
  }

  // --- a window that cuts ---

  // A client opens, and sends two bytes with a window of one: the echo is cut, and both its
  // bytes are gone.
  lemma CutLosesBytes()
    ensures var events := [Opens(), Data(1, 1, 1, [7, 8])];
            var s := Run(events);
            && !NoCut(events) && KeptBytes(s) < TotalBytes(s)
            && s.phase == EST && Concat(s.enqueued) == s.delivered == [7, 8]
            && s.conn.toSend == [Segment(2, [])] && s.conn.sent == [SynAckSegment(), Segment(1, [])]
  {
    hide EstStep, SynAckStep, Echo, Concat, Bytes, Run, NoCut, KeptBytes, TotalBytes;
    var events := [Opens(), Data(1, 1, 1, [7, 8])];
    RunTwo(Opens(), events[1]);
    AfterOpening();
    EchoStep(Established(), events[1].pkt);
    EchoEnqueuesDelivered(events);
    CutIsRecorded(events);
    RunConservesBytesIff(events);
  }

  // --- a segment that never leaves ---

  const HELD: Event := Data(1, 1, 0, [7])
  const NARROW: Event := Data(2, 1, 1, [8])
  const OPEN: Event := Data(3, 1, 10, [9])

  // What the steps below need to know of a connection between them.
  predicate Stands(s: Session, toSend: seq<Segment>, seqLocal: U32, ctl: ConCtl) {
    && s.phase == EST && s.conn.toSend == toSend && s.conn.seqLocal == s.conn.seqRemote == seqLocal
    && !s.conn.closing && s.conn.conCtl == ctl && forall g :: g in s.conn.sent ==> 1 <= g.End()
  }

  // A closed window: the echo is queued, and the packet goes back as it came.
  lemma FirstEchoIsHeld(s: Session)
    requires s.phase == EST && s.conn == Established()
    ensures Stands(Step(s, HELD), [Segment(1, [7])], 2, ConCtl(1, 0))
    ensures Outgoing(s, HELD) == [EstStep(s.conn, HELD.pkt, Echo).reply] && Outgoing(s, HELD)[0].body == [7]
    ensures WrittenNow(s, HELD) == []
  {
    hide EstStep, Echo, SendAll;
    var c := s.conn;
    EchoStep(c, HELD.pkt);
    SendsNone(c.toSend + [Segment(1, [7])], c.sent);
    UnansweredPayloadGoesBack(c, HELD.pkt, Echo);
  }

  // A window of one byte: the first echo takes it, the second one is queued.
  lemma FirstEchoLeaves(s: Session)
    requires Stands(s, [Segment(1, [7])], 2, ConCtl(1, 0))
    ensures Stands(Step(s, NARROW), [Segment(2, [8])], 3, ConCtl(1, 1))
    ensures |Outgoing(s, NARROW)| == 1 && IsIn(Segment(1, [7]), Outgoing(s, NARROW)[0])
    ensures WrittenNow(s, NARROW) == [Segment(1, [7])]
  {
    hide EstStep, Echo, SendAll;
    var c := s.conn;
    EchoStep(c, NARROW.pkt);
    var q := c.toSend + [Segment(2, [8])];
    SendsHead(q, c.sent, 1);
    SendsNone(q[1..], c.sent + [q[0]]);
    SendAllAppends(q, c.sent, 1);
    ReplyCarriesLastWritten(c, NARROW.pkt, Echo);
  }

  // An open window: the second and third echo are moved by one call, whose packet carries
  // the third.
  lemma ThirdEchoLeaves(s: Session)
    requires Stands(s, [Segment(2, [8])], 3, ConCtl(1, 1))
    ensures var t := Step(s, OPEN);
            t.phase == EST && t.conn.toSend == [] && Segment(2, [8]) in t.conn.sent && t.enqueued == s.enqueued + [Segment(3, [9])]
    ensures |Outgoing(s, OPEN)| == 1 && IsIn(Segment(3, [9]), Outgoing(s, OPEN)[0])
    ensures WrittenNow(s, OPEN) == [Segment(2, [8]), Segment(3, [9])]
  {
    hide EstStep, Echo, SendAll;
    var c := s.conn;
    EchoStep(c, OPEN.pkt);
    var q := c.toSend + [Segment(3, [9])];
    SendsBoth(q, c.sent);
    assert q[0] in q;
    ReplyCarriesLastWritten(c, OPEN.pkt, Echo);
  }

  // Three echoed bytes, a window that opens by and by: four packets leave, none of them with
  // the second byte, though it counts as sent.
  lemma EchoIsOnNoPacket()
    ensures var events := [Opens(), HELD, NARROW, OPEN];
            && Segment(2, [8]) in Written(events) && Segment(2, [8]) in Run(events).conn.sent
            && Run(events).conn.toSend == [] && Run(events).phase == EST
            && |Wire(events)| == 4 && (forall q :: q in Wire(events) ==> 8 !in q.body)
            && !Leaves(Segment(2, [8]), Wire(events)) && !OnePacketEach(events)
  {
    hide Run, OnePacketEach, Written, Wire;
    var events := [Opens(), HELD, NARROW, OPEN];
    FourPacketsLeave();
    if OnePacketEach(events) {
      WrittenLeaves(events, Segment(2, [8]));
    }
  }

  lemma FourPacketsLeave()
    ensures var events, w := [Opens(), HELD, NARROW, OPEN], Wire([Opens(), HELD, NARROW, OPEN]);
            && |w| == 4 && w[0].body == [] && w[1].body == [7] && w[2].body == [7] && w[3].body == [9]
            && Segment(2, [8]) in Written(events) && Segment(2, [8]) in Run(events).conn.sent
            && Run(events).conn.toSend == [] && Run(events).phase == EST
  {
    hide Run, Step, Written, Wire, WrittenNow, Outgoing, Stands;
    AfterOpening();
    RunOne(Opens());
    RunTwo(Opens(), HELD);
    RunThree(Opens(), HELD, NARROW);
    RunFour(Opens(), HELD, NARROW, OPEN);
    FirstEchoIsHeld(Run([Opens()]));
    FirstEchoLeaves(Run([Opens(), HELD]));
    ThirdEchoLeaves(Run([Opens(), HELD, NARROW]));
    OpeningLeaves();
    WireOfFour(Opens(), HELD, NARROW, OPEN);
  }

  lemma OpeningLeaves()
    ensures |Outgoing(START, Opens())| == 1 && Outgoing(START, Opens())[0].body == []
  {
  }

  lemma RunFour(a: Event, b: Event, c: Event, d: Event)
    ensures Run([a, b, c, d]) == Step(Run([a, b, c]), d)
  {
    hide Step, Run;
    assert [a, b, c] + [d] == [a, b, c, d];
    RunSnoc([a, b, c], d);
  }

  lemma WireOfFour(a: Event, b: Event, c: Event, d: Event)
    ensures Wire([a, b, c, d]) == Outgoing(START, a) + Outgoing(Run([a]), b) + Outgoing(Run([a, b]), c) + Outgoing(Run([a, b, c]), d)
    ensures forall g :: g in WrittenNow(Run([a, b, c]), d) ==> g in Written([a, b, c, d])
  {
    hide Run, Step, Written, Wire, WrittenNow, CarriedBy, CarriedNow, Outgoing;
    assert [] + [a] == [a] && [a] + [b] == [a, b] && [a, b] + [c] == [a, b, c] && [a, b, c] + [d] == [a, b, c, d];
    WireNone();
    WireSnoc([], a);
    WireSnoc([a], b);
    WireSnoc([a, b], c);
    WireSnoc([a, b, c], d);
    CarriedSnoc([a, b, c], d);
  }

  lemma WireNone()
    ensures Run([]) == START && Wire([]) == []
  {
    hide Step, Outgoing;
  }

  lemma SendsNone(q: seq<Segment>, sent: seq<Segment>)
    ensures SendAll(q, sent, 0) == Sending(q, sent, [], 0, false)
  {
  }

  lemma SendsHead(q: seq<Segment>, sent: seq<Segment>, window: nat)
    requires q != [] && |q[0].data| <= window != 0
    ensures var r, rest := SendAll(q, sent, window), SendAll(q[1..], sent + [q[0]], window - |q[0].data|);
            r.written == [q[0]] + rest.written && r.toSend == rest.toSend
  {
  }

  lemma SendsBoth(q: seq<Segment>, sent: seq<Segment>)
    requires q == [Segment(2, [8]), Segment(3, [9])]
    ensures var r := SendAll(q, sent, 10); r.written == q && r.toSend == [] && r.sent == sent + q
  {
    hide SendAll;
    SendAllAppends(q, sent, 10);
    SendsHead(q, sent, 10);
    SendsHead(q[1..], sent + [q[0]], 9);
    SendsNothing(q[1..][1..], sent + [q[0]] + [q[1]], 8);
  }

  lemma SendsNothing(q: seq<Segment>, sent: seq<Segment>, window: nat)
    requires q == []
    ensures SendAll(q, sent, window).written == [] && SendAll(q, sent, window).toSend == []
  {
  }

  // --- an acknowledgement that releases too much ---

  lemma EchoIsSent()
    ensures var s := Run([Opens(), Data(1, 1, 10, [7])]);
            s.phase == EST && Segment(1, [7]) in s.conn.sent && s.conn.seqLocal == 2
  {
    hide Run, EstStep, SynAckStep, AckFinStep, Echo, SendAll, SynAckSegment;
    var data := Data(1, 1, 10, [7]);
    AfterOpening();
    RunTwo(Opens(), data);
    EchoStep(Established(), data.pkt);
    var q := Established().toSend + [Segment(1, [7])];
    SendsOne(q, Established().sent, 10);
    assert Segment(1, [7]) in q;
  }

  // Once a byte has been echoed, a bare acknowledgement far ahead of anything sent releases
  // it, on a connection a few packets old.
  lemma AckAheadReleases()
    ensures var events := [Opens(), Data(1, 1, 10, [7]), Data(2, 0xffff_fff0, 10, [])];
            && Segment(1, [7]) in Run(events).released && Run(events[..2]).conn.seqLocal == 2
            && !Acknowledges(2, 0xffff_fff0, Segment(1, [7]).End()) && !WrapSafeAt(events, 2)
  {
    hide Run, EstStep, Echo, Acknowledges;
    var g, ack := Segment(1, [7]), Data(2, 0xffff_fff0, 10, []);
    var before := [Opens(), Data(1, 1, 10, [7])];
    EchoIsSent();
    RunSnoc(before, ack);
    ReleasedIff(Run(before).conn, ack.pkt, Echo, g);
    PruningIsExactIff(2, 0xffff_fff0, g);
    var events := before + [ack];
    assert events == [Opens(), Data(1, 1, 10, [7]), ack] && events[..2] == before;
  }

  lemma SendsOne(q: seq<Segment>, sent: seq<Segment>, window: nat)
    requires |q| == 1 && |q[0].data| <= window != 0
    ensures SendAll(q, sent, window).written == q && SendAll(q, sent, window).sent == sent + q
    ensures SendAll(q, sent, window).toSend == []
  {
    hide SendAll;
    SendAllAppends(q, sent, window);
    SendsHead(q, sent, window);
    SendsNothing(q[1..], sent + [q[0]], window - |q[0].data|);
  }

  // --- where our FIN stands ---

  function Hangup(data: seq<Byte>): seq<Action> {
    [Close]
  }

  function Farewell(data: seq<Byte>): seq<Action> {
    [Send(data), Close]
  }

  // The protocol answers the client's one byte and closes; the FIN leaves behind the answer,
  // the client acknowledges it with its own, and the connection closes in order.
  lemma ServerClosesFirst()
    ensures var events := [Opens(), Event(FromClient(1, 1, ACK, 10, [7]), Farewell), Event(FromClient(2, 3, FIN_ACK, 10, []), Farewell)];
            && AllFromPeer(events, [7], 0) && Run(events).closedBy == Some(3)
            && Run(events).phase == END && Run(events).delivered == [7]
            && FinEvent(events) == Some(1) && FinNumber(EstStep(Established(), events[1].pkt, Farewell)) == 2
  {
    hide Run, EstStep, SynAckStep, FinNumber;
    var data := Event(FromClient(1, 1, ACK, 10, [7]), Farewell);
    var fin := Event(FromClient(2, 3, FIN_ACK, 10, []), Farewell);
    AfterOpening();
    RunOne(Opens());
    RunTwo(Opens(), data);
    RunThree(Opens(), data, fin);
    FarewellStep(Established(), data.pkt);
    FinOfThree(Opens(), data, fin);
    assert Carries(data.pkt, [7], 0, 0) && Carries(fin.pkt, [7], 0, 1);
  }

  lemma FinOfThree(a: Event, b: Event, c: Event)
    requires Run([a]).phase == EST && Run([a, b]).phase == ACK_FIN
    ensures FinEvent([a, b, c]) == Some(1)
  {
    hide Run, Step, FinEvent;
    assert [a] + [b] == [a, b] && [a, b] + [c] == [a, b, c];
    FinEventSnoc([a], b);
    FinEventSnoc([a, b], c);
  }

  // A protocol that closes without an answer: the client's byte bounces under our number, our
  // FIN leaves behind it, and a client that acknowledges that FIN is reset.
  lemma BouncedFinIsReset()
    ensures var events := [Opens(), Event(FromClient(1, 1, ACK, 10, [7]), Hangup), Event(FromClient(2, 3, FIN_ACK, 10, []), Hangup)];
            && AllFromPeer(events, [7], 0) && FinNumber(EstStep(Established(), events[1].pkt, Hangup)) == 2
            && Run(events[..2]).conn.seqLocal == 2 && Run(events).phase == END && Run(events).closedBy == None
  {
    hide Run, EstStep, SynAckStep, FinNumber;
    var data := Event(FromClient(1, 1, ACK, 10, [7]), Hangup);
    var fin := Event(FromClient(2, 3, FIN_ACK, 10, []), Hangup);
    AfterOpening();
    RunTwo(Opens(), data);
    RunThree(Opens(), data, fin);
    HangupStep(Established(), data.pkt);
    assert [Opens(), data, fin][..2] == [Opens(), data];
    assert Carries(data.pkt, [7], 0, 0) && Carries(fin.pkt, [7], 0, 1);
  }

  lemma HangupStep(c: Conn, p: Packet)
    requires IsAccepted(c, p) && !p.flags.fin && p.HeaderLen() == TCP_LEN && p.body != []
    requires c.toSend == [] && (forall g :: g in c.sent ==> p.ackNo <= g.End()) && !Resets(c, p)
    ensures var r := EstStep(c, p, Hangup);
            && r.phase == ACK_FIN && r.accepted && r.delivered == p.body && FinNumber(r) == Wrap32(c.seqLocal + |p.body|)
            && r.conn.seqLocal == Wrap32(c.seqLocal + 1) && r.conn.seqRemote == Wrap32(p.seqNo + |p.body|)
  {
    hide AfterAck, Select, SendAll, Segmentize;
    NothingPruned(c, p);
    var acts := Hangup(p.body);
    assert acts[..0] == [] && Volume([]) == 0 && Enqueued(c.seqLocal, []) == [];
    var f := Received(AfterAck(c, p), p, Hangup);
    SendsNothing(f.toSend, f.sent, Window(f));
  }

  lemma FarewellFeeds(first: U32, data: seq<Byte>)
    requires |data| <= MSS
    ensures Enqueued(first, Farewell(data)) == [Segment(first, data)] && Volume(Farewell(data)) == |data|
    ensures Close in Farewell(data)
  {
    hide Segmentize;
    var acts := Farewell(data);
    SegmentizeShort(first, data);
    assert acts[1] == Close && acts[..1] == Echo(data) && Echo(data)[..0] == [];
    assert Volume([]) == 0 && Enqueued(first, []) == [];
  }

  lemma FarewellStep(c: Conn, p: Packet)
    requires IsAccepted(c, p) && !p.flags.fin && p.HeaderLen() == TCP_LEN && 0 < |p.body| <= MSS && |p.body| <= p.window
    requires c.toSend == [] && (forall g :: g in c.sent ==> p.ackNo <= g.End()) && !Resets(c, p)
    ensures var r := EstStep(c, p, Farewell);
            && r.phase == ACK_FIN && r.accepted && r.delivered == p.body && FinNumber(r) == Wrap32(c.seqLocal + |p.body|)
            && r.conn.seqLocal == Wrap32(Wrap32(c.seqLocal + |p.body|) + 1)
            && r.conn.seqRemote == Wrap32(p.seqNo + |p.body|)
  {
    hide AfterAck, Select, SendAll, Enqueued, Volume, Farewell;
    NothingPruned(c, p);
    FarewellFeeds(c.seqLocal, p.body);
    var f := Received(AfterAck(c, p), p, Farewell);
    SendsOne(f.toSend, f.sent, Window(f));
  }
}
