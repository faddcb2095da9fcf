// The TCP server engine in place: a connection object, its TcpIface, and the three state
// functions, each proved to compute the step function of TcpSteps.
module TcpServer {
  import opened Words
  import opened Options
  import opened ConCtls
  import opened TcpQueues
  import opened TcpSteps
  import opened FunIfaces

  // --- loop invariants, in terms of the step functions ---

  lemma FeedNothing(c: Conn, acts: seq<Action>)
    requires acts == []
    ensures Feed(c, acts) == c
  {
    assert c.toSend + Enqueued(c.seqLocal, acts) == c.toSend;
  }

  lemma FeedStep(c: Conn, acts: seq<Action>, i: nat)
    requires i < |acts|
    ensures var f, g := Feed(c, acts[..i]), Feed(c, acts[..i + 1]);
            match acts[i]
            case Close => g == f.(closing := true)
            case Send(data) => g == f.(seqLocal := Wrap32(f.seqLocal + |data|),
                                       toSend := f.toSend + Segmentize(f.seqLocal, data))
  {
    hide Segmentize;
    var front := acts[..i];
    assert acts[..i + 1] == front + [acts[i]];
    assert acts[..i + 1][..i] == front;
    if acts[i].Send? {
      var data := acts[i].data;
      Wrap32Add(c.seqLocal + Volume(front), |data|);
      assert c.toSend + Enqueued(c.seqLocal, front) + Segmentize(Wrap32(c.seqLocal + Volume(front)), data)
          == c.toSend + (Enqueued(c.seqLocal, front) + Segmentize(Wrap32(c.seqLocal + Volume(front)), data));
    }
  }

  lemma FeedFrame(c: Conn, acts: seq<Action>)
    ensures Feed(c, acts).seqRemote == c.seqRemote
  {
  }

  lemma SelectNone(q: seq<Segment>, t: Test)
    ensures forall want :: Select(q[..0], t, want) == []
  {
  }

  lemma ReverseNone(q: seq<Segment>, rest: seq<Segment>)
    requires q == []
    ensures Reverse(q) + rest == rest
  {
  }

  lemma ReverseSnoc(q: seq<Segment>, g: Segment, rest: seq<Segment>)
    ensures Reverse(q + [g]) + rest == [g] + (Reverse(q) + rest)
  {
    assert (q + [g])[..|q|] == q;
  }

  // What is still to come, after `written`, completes the whole.
  ghost predicate Continues(whole: Sending, rest: Sending, written: seq<Segment>) {
    whole.toSend == rest.toSend && whole.sent == rest.sent && whole.written == written + rest.written
  }

  lemma LoadNothing(r: Packet, id: U16)
    ensures Loaded(r, [], id) == r && Wrap16(id) == id
  {
  }

  lemma LoadNext(r: Packet, written: seq<Segment>, g: Segment, id: U16)
    ensures WithSegment(Loaded(r, written, id), g, Wrap16(id + |written|)) == Loaded(r, written + [g], id)
    ensures Wrap16(Wrap16(id + |written|) + 1) == Wrap16(id + |written + [g]|)
  {
    assert (written + [g])[|written|] == g;
  }

  lemma Untouched(whole: Sending)
    ensures Continues(whole, whole, [])
  {
    assert [] + whole.written == whole.written;
  }

  lemma NothingRemains(first: U32, data: seq<Byte>)
    requires data == []
    ensures Remaining(first, data) == []
  {
  }

  lemma NextChunk(first: U32, data: seq<Byte>, from: nat, size: nat, done: seq<Segment>)
    requires from < |data| && size == Min(|data| - from, MSS)
    ensures done + Remaining(first, data[from..])
         == done + [Segment(first, data[from..from + size])] + Remaining(Wrap32(first + size), data[from + size..])
  {
    hide Segmentize;
    SegmentizeNext(first, data[from..], size);
    assert data[from..][..size] == data[from..from + size] && data[from..][size..] == data[from + size..];
  }

  // Stepping over, or erasing, the element behind the part already visited.
  lemma Visit<T>(done: seq<T>, was: seq<T>, k: nat)
    requires k < |was|
    ensures var q := done + was[k..];
            && q[|done|] == was[k]
            && q == (done + [was[k]]) + was[k + 1..]
            && q[..|done|] + q[|done| + 1..] == done + was[k + 1..]
  {
  }

  lemma SendOne(toSend: seq<Segment>, sent: seq<Segment>, window: nat, whole: Sending, written: seq<Segment>)
    requires toSend != [] && 0 < window && |toSend[0].data| <= window
    requires Continues(whole, SendAll(toSend, sent, window), written)
    ensures Continues(whole, SendAll(toSend[1..], sent + [toSend[0]], window - |toSend[0].data|), written + [toSend[0]])
  {
  }

  lemma SendCut(toSend: seq<Segment>, sent: seq<Segment>, window: nat, whole: Sending, written: seq<Segment>)
    requires toSend != [] && 0 < window < |toSend[0].data|
    requires Continues(whole, SendAll(toSend, sent, window), written)
    ensures var done := Segment(toSend[0].seqNumber, []);
            var remains := Segment(Wrap32(toSend[0].seqNumber + window), []);
            Continues(whole, SendAll([remains] + toSend[1..], sent + [done], 0), written + [done])
  {
  }

  lemma SendDone(toSend: seq<Segment>, sent: seq<Segment>, window: nat, whole: Sending, written: seq<Segment>)
    requires toSend == [] || window == 0
    requires Continues(whole, SendAll(toSend, sent, window), written)
    ensures whole.toSend == toSend && whole.sent == sent && whole.written == written
  {
  }

  // A packet buffer, rewritten in place.
  class Frame {
    var p: Packet

    constructor (p: Packet)
      ensures this.p == p
    {
      this.p := p;
    }
  }

  class Connection {
    var seqLocal: U32
    var seqRemote: U32
    var dataToSend: seq<Segment>
    var dataAlreadySent: seq<Segment>
    var sendWindow: U16
    var ipID: U16
    var closeConnectionAfterSending: bool
    const conCtl: TcpConCtlSimple

    ghost function View(): Conn
      reads this, conCtl
    {
      Conn(seqLocal, seqRemote, dataToSend, dataAlreadySent, sendWindow, ipID, closeConnectionAfterSending,
           conCtl.View())
    }

    // Server::factory
    constructor ()
      ensures View() == NEW_CONN && fresh(conCtl)
    {
      seqLocal, seqRemote := 0, 0;
      dataToSend, dataAlreadySent := [], [];
      sendWindow, ipID, closeConnectionAfterSending := 0, 0, false;
      conCtl := new TcpConCtlSimple();
    }

    // TcpIface::close
    method Close()
      modifies this`closeConnectionAfterSending
      ensures closeConnectionAfterSending
    {
      closeConnectionAfterSending := true;
    }

    // TcpIface::sendData
    method SendData(data: seq<Byte>)
      modifies this`seqLocal, this`dataToSend
      ensures seqLocal == Wrap32(old(seqLocal) + |data|)
      ensures dataToSend == old(dataToSend) + Segmentize(old(seqLocal), data)
    {
      hide Segmentize, Remaining;
      if |data| <= MSS {
        SegmentizeShort(seqLocal, data);
        dataToSend := dataToSend + [Segment(seqLocal, data)];
        seqLocal := Wrap32(seqLocal + |data|);
      } else {
        ghost var goal := dataToSend + Segmentize(seqLocal, data);
        SegmentizeNext(seqLocal, data, MSS);
        dataToSend := dataToSend + [Segment(seqLocal, data[..MSS])];
        seqLocal := Wrap32(seqLocal + MSS);
        var totalLen := MSS;
        while totalLen < |data|
          invariant 0 < totalLen <= |data|
          invariant seqLocal == Wrap32(old(seqLocal) + totalLen)
          invariant goal == dataToSend + Remaining(seqLocal, data[totalLen..])
        {
          var curSize := Min(|data| - totalLen, MSS);
          NextChunk(seqLocal, data, totalLen, curSize, dataToSend);
          Wrap32Add(old(seqLocal) + totalLen, curSize);
          dataToSend := dataToSend + [Segment(seqLocal, data[totalLen..totalLen + curSize])];
          seqLocal := Wrap32(seqLocal + curSize);
          totalLen := totalLen + curSize;
        }
        NothingRemains(seqLocal, data[totalLen..]);
      }
    }

    // The calls a protocol makes on its TcpIface while it handles one delivery.
    method Serve(acts: seq<Action>)
      modifies this`seqLocal, this`dataToSend, this`closeConnectionAfterSending
      ensures View() == Feed(old(View()), acts)
    {
      ghost var was := View();
      var i := 0;
      FeedNothing(was, acts[..0]);
      while i < |acts|
        invariant 0 <= i <= |acts|
        invariant View() == Feed(was, acts[..i])
      {
        FeedStep(was, acts, i);
        match acts[i] {
          case Send(data) => SendData(data);
          case Close => Close();
        }
        i := i + 1;
      }
      assert acts[..i] == acts;
    }

    // Erase every acknowledged segment; `freed` lists the buffers given back.
    method EraseAcknowledged(ackNo: U32) returns (freed: seq<Segment>)
      modifies this`dataAlreadySent
      ensures dataAlreadySent == Select(old(dataAlreadySent), AckedBy(ackNo), false)
      ensures freed == Select(old(dataAlreadySent), AckedBy(ackNo), true)
    {
      hide Select;
      ghost var was, k, t := dataAlreadySent, 0, AckedBy(ackNo);
      var i := 0;
      freed := [];
      SelectNone(was, t);
      while i < |dataAlreadySent|
        invariant 0 <= k <= |was| && i == |Select(was[..k], t, false)|
        invariant dataAlreadySent == Select(was[..k], t, false) + was[k..]
        invariant freed == Select(was[..k], t, true)
        decreases |was| - k
      {
        Visit(Select(was[..k], t, false), was, k);
        SelectStep(was, k, t, false);
        SelectStep(was, k, t, true);
        var g := dataAlreadySent[i];
        if ackNo > Wrap32(g.seqNumber + |g.data|) {
          freed := freed + [g];
          dataAlreadySent := dataAlreadySent[..i] + dataAlreadySent[i + 1..];
        } else {
          i := i + 1;
        }
        k := k + 1;
      }
      assert was[..k] == was;
    }

    // Move every segment beyond the reset point to the front of the send queue, one by one.
    method Requeue(resetSeq: U32)
      modifies this`dataToSend, this`dataAlreadySent
      ensures dataAlreadySent == Select(old(dataAlreadySent), Beyond(resetSeq), false)
      ensures dataToSend == Reverse(Select(old(dataAlreadySent), Beyond(resetSeq), true)) + old(dataToSend)
    {
      hide Select, Reverse;
      ghost var was, k, t := dataAlreadySent, 0, Beyond(resetSeq);
      var i := 0;
      SelectNone(was, t);
      ReverseNone(Select(was[..0], t, true), dataToSend);
      while i < |dataAlreadySent|
        invariant 0 <= k <= |was| && i == |Select(was[..k], t, false)|
        invariant dataAlreadySent == Select(was[..k], t, false) + was[k..]
        invariant dataToSend == Reverse(Select(was[..k], t, true)) + old(dataToSend)
        decreases |was| - k
      {
        Visit(Select(was[..k], t, false), was, k);
        SelectStep(was, k, t, false);
        SelectStep(was, k, t, true);
        var g := dataAlreadySent[i];
        if g.seqNumber > resetSeq {
          ReverseSnoc(Select(was[..k], t, true), g, old(dataToSend));
          dataToSend := [g] + dataToSend;
          dataAlreadySent := dataAlreadySent[..i] + dataAlreadySent[i + 1..];
        } else {
          i := i + 1;
        }
        k := k + 1;
      }
      assert was[..k] == was;
    }

    // The send loop of runEst. `firstPacket` is never cleared in the source, so every
    // segment is written into the packet at hand.
    method SendQueued(pkt: Frame, maxSend: nat) returns (wrote: bool, ghost s: Sending)
      modifies this`dataToSend, this`dataAlreadySent, this`ipID, pkt
      ensures s == SendAll(old(dataToSend), old(dataAlreadySent), maxSend) && wrote == (s.written != [])
      ensures dataToSend == s.toSend && dataAlreadySent == s.sent && ipID == Wrap16(old(ipID) + |s.written|)
      ensures pkt.p == Loaded(old(pkt.p), s.written, old(ipID))
    {
      hide SendAll, Continues, Loaded, WithSegment, Wrap16;
      s := SendAll(dataToSend, dataAlreadySent, maxSend);
      Untouched(s);
      LoadNothing(pkt.p, ipID);
      ghost var written: seq<Segment> := [];
      wrote := false;
      var alreadySent := 0;
      while maxSend > alreadySent && dataToSend != []
        invariant 0 <= alreadySent <= maxSend
        invariant wrote == (written != [])
        invariant Continues(s, SendAll(dataToSend, dataAlreadySent, maxSend - alreadySent), written)
        invariant ipID == Wrap16(old(ipID) + |written|)
        invariant pkt.p == Loaded(old(pkt.p), written, old(ipID))
        decreases maxSend - alreadySent, |dataToSend|
      {
        wrote := true;
        var segmentToSend := dataToSend[0];
        var curSend := Min(|segmentToSend.data|, maxSend - alreadySent);
        if curSend == |segmentToSend.data| {
          SendOne(dataToSend, dataAlreadySent, maxSend - alreadySent, s, written);
          dataToSend := dataToSend[1..];
          dataAlreadySent := dataAlreadySent + [segmentToSend];
        } else {
          SendCut(dataToSend, dataAlreadySent, maxSend - alreadySent, s, written);
          // The taken length is subtracted once when the segment is cut, and again on each half.
          segmentToSend := segmentToSend.(data := segmentToSend.data[..curSend]);
          var oldModSeg := Segment(Wrap32(segmentToSend.seqNumber + curSend), segmentToSend.data[curSend..]);
          dataToSend := [oldModSeg] + dataToSend[1..];
          segmentToSend := segmentToSend.(data := segmentToSend.data[curSend..]);
          dataAlreadySent := dataAlreadySent + [segmentToSend];
        }
        alreadySent := alreadySent + curSend;
        LoadNext(old(pkt.p), written, segmentToSend, old(ipID));
        pkt.p := WithSegment(pkt.p, segmentToSend, ipID);
        ipID := Wrap16(ipID + 1);
        written := written + [segmentToSend];
      }
      SendDone(dataToSend, dataAlreadySent, maxSend - alreadySent, s, written);
    }

    // Prune, run congestion control, requeue on a reset, and note the peer's window.
    method ProcessAck(p: Packet)
      modifies this`dataToSend, this`dataAlreadySent, this`sendWindow, conCtl
      ensures View() == AfterAck(old(View()), p)
    {
      hide Select, Reverse;
      var freed := EraseAcknowledged(p.ackNo);
      conCtl.HandlePacket(seqLocal, p.ackNo);
      var reset := conCtl.Reset();
      if reset.Some? {
        Requeue(reset.value);
      }
      sendWindow := p.window;
    }

    method RunSynAck(pkt: Frame, funIface: FunIface)
      requires funIface.state == SYN_ACK && funIface.sendPkt
      modifies this, pkt, funIface
      ensures var r := SynAckStep(old(View()), old(pkt.p));
              View() == r.conn && pkt.p == r.reply && funIface.state == r.phase && funIface.sendPkt == r.send
    {
      pkt.p := pkt.p.Turned();
      pkt.p := pkt.p.(body := []);
      var flags := pkt.p.flags;
      if !flags.syn || flags.ack || flags.fin || flags.rst {
        pkt.p := pkt.p.(flags := NO_FLAGS.(rst := true));
        funIface.Transition(END);
        return;
      }
      seqRemote := Wrap32(pkt.p.seqNo + 1);
      seqLocal := 0;
      pkt.p := pkt.p.(ackNo := seqRemote);
      var curSeqNo := seqLocal;
      seqLocal := Wrap32(seqLocal + 1);
      pkt.p := pkt.p.(seqNo := curSeqNo, flags := flags.(ack := true), offsetReserved := OFFSET_5);
      pkt.p := pkt.p.(frameLen := HEADERS_LEN);
      dataAlreadySent := dataAlreadySent + [SynAckSegment()];
      funIface.Transition(EST);
    }

    method RunEst(pkt: Frame, app: App, funIface: FunIface)
      requires funIface.state == EST && funIface.sendPkt
      modifies this, conCtl, pkt, funIface
      ensures var r := EstStep(old(View()), old(pkt.p), app);
              View() == r.conn && pkt.p == r.reply && funIface.state == r.phase && funIface.sendPkt == r.send
    {
      hide Select, SendAll, AfterAck, Received;
      pkt.p := pkt.p.Turned();
      var flags := pkt.p.flags;
      if flags.syn || !flags.ack || flags.rst {
        pkt.p := pkt.p.(flags := NO_FLAGS.(rst := true), ackNo := 0, seqNo := seqLocal, body := []);
        pkt.p := pkt.p.(frameLen := HEADERS_LEN);
        funIface.Transition(END);
        return;
      }
      ProcessAck(pkt.p);
      AfterAckFrame(old(View()), old(pkt.p));
      if pkt.p.seqNo != seqRemote {
        pkt.p := pkt.p.(flags := NO_FLAGS.(ack := true), seqNo := seqLocal, ackNo := seqRemote,
                        offsetReserved := OFFSET_5, body := []);
        pkt.p := pkt.p.(seqNo := if dataToSend == [] then seqLocal else dataToSend[0].seqNumber);
        pkt.p := pkt.p.(window := REPLY_WINDOW, frameLen := HEADERS_LEN);
        return;
      }
      AcceptSegment(pkt, app, funIface, old(pkt.p));
    }

    // The rest of runEst, for the segment that was expected; `p` is the packet as it came in.
    method AcceptSegment(pkt: Frame, app: App, funIface: FunIface, ghost p: Packet)
      requires funIface.state == EST && funIface.sendPkt && pkt.p == p.Turned()
      modifies this, pkt, funIface
      ensures var r := Accept(old(View()), p, app, []);
              View() == r.conn && pkt.p == r.reply && funIface.state == r.phase && funIface.sendPkt == r.send
    {
      hide SendAll, Received, Headed, Enqueued, Answers, Loaded, Wrap32, Wrap16;
      var freePkt := TakeSegment(pkt, app, p);
      var maxSend := Min(sendWindow, conCtl.GetConWindow());
      var wrote; ghost var s;
      wrote, s := SendQueued(pkt, maxSend);
      if wrote {
        freePkt := false;
      }
      if closeConnectionAfterSending && dataToSend == [] {
        freePkt := false;
        pkt.p := pkt.p.(flags := pkt.p.flags.(fin := true));
        seqLocal := Wrap32(seqLocal + 1);
        funIface.Transition(ACK_FIN);
      }
      if freePkt {
        funIface.FreePkt();
      }
    }

    // Advance past the segment, prepare the acknowledgement, and hand the data over.
    method TakeSegment(pkt: Frame, app: App, ghost p: Packet) returns (freePkt: bool)
      requires pkt.p == p.Turned()
      modifies this`seqLocal, this`seqRemote, this`dataToSend, this`closeConnectionAfterSending, pkt
      ensures View() == Received(old(View()), p, app)
      ensures pkt.p == Headed(old(View()).(seqRemote := seqRemote), p.Turned())
      ensures freePkt == (p.body == [])
    {
      hide Feed, Wrap32;
      freePkt := true;
      var numBytesReceived := Wrap16(pkt.p.IpPayload() - pkt.p.HeaderLen());
      var flags := pkt.p.flags;
      seqRemote := Wrap32(pkt.p.seqNo + numBytesReceived);
      if flags.fin {
        closeConnectionAfterSending := true;
        Wrap32Add(pkt.p.seqNo + numBytesReceived, 1);
        seqRemote := Wrap32(seqRemote + 1);
      }
      pkt.p := pkt.p.(flags := NO_FLAGS.(ack := true), seqNo := seqLocal, ackNo := seqRemote,
                      offsetReserved := OFFSET_5);
      var dataLen := Wrap16(pkt.p.IpPayload() - pkt.p.HeaderLen());
      assert dataLen == |p.body|;
      ghost var b := View();
      FeedFrame(b, Answers(p, app));
      if dataLen > 0 {
        freePkt := false;
        Serve(app(pkt.p.body));
      } else {
        FeedNothing(b, Answers(p, app));
      }
    }

    method RunAckFin(pkt: Frame, funIface: FunIface)
      requires funIface.state == ACK_FIN && funIface.sendPkt
      modifies this, pkt, funIface
      ensures var r := AckFinStep(old(View()), old(pkt.p));
              View() == r.conn && pkt.p == r.reply && funIface.state == r.phase && funIface.sendPkt == r.send
    {
      pkt.p := pkt.p.Turned();
      var flags := pkt.p.flags;
      if flags.syn || !flags.ack || flags.rst || pkt.p.ackNo != seqLocal || pkt.p.seqNo != seqRemote {
        pkt.p := pkt.p.(flags := NO_FLAGS.(rst := true));
        funIface.Transition(END);
        return;
      }
      if flags.fin {
        seqLocal := Wrap32(seqLocal + 1);
        seqRemote := pkt.p.seqNo;
        pkt.p := pkt.p.(seqNo := seqLocal, ackNo := Wrap32(seqRemote + 1), flags := NO_FLAGS.(ack := true),
                        offsetReserved := OFFSET_5);
        funIface.Transition(END);
      } else {
        funIface.FreePkt();
      }
    }
  }
}
