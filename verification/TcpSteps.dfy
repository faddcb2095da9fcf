// What one packet does to one TCP server connection, as functions on values. The methods
// of TcpServer compute these in place; TcpRuns proves what whole runs of them guarantee.
module TcpSteps {
  import opened Words
  import opened Options
  import opened ConCtls
  import opened TcpQueues

  // State ids. FIN is declared by the source and never entered.
  const SYN_ACK: nat := 0
  const EST: nat := 1
  const FIN: nat := 2
  const ACK_FIN: nat := 3
  const END: nat := 4

  const ETHERNET_LEN := 14
  const IP_LEN := 20
  const TCP_LEN := 20
  const HEADERS_LEN: nat := ETHERNET_LEN + IP_LEN + TCP_LEN
  const REPLY_WINDOW: U16 := 4 * MSS
  const TTL: U8 := 64
  const OFFSET_5: U8 := 5 * 16

  datatype Flags = Flags(fin: bool, syn: bool, rst: bool, ack: bool)

  const NO_FLAGS := Flags(false, false, false, false)

  // Everything behind the fixed 20-byte TCP header: options, if any, then payload.
  type Body = b: seq<Byte> | |b| <= 0xffff - TCP_LEN

  datatype Packet = Packet(
    srcIP: U32, dstIP: U32, srcPort: U16, dstPort: U16, ttl: U8, checksum: U16, id: U16,
    seqNo: U32, ackNo: U32, offsetReserved: U8, flags: Flags, window: U16, body: Body, frameLen: U16)
  {
    // IPv4::getPayloadLength
    function IpPayload(): U16 {
      TCP_LEN + |body|
    }

    // Tcp::getHeaderLen, from the data offset in the upper four bits
    function HeaderLen(): nat {
      offsetReserved / 16 * 4
    }

    // Addresses and ports swapped, TTL and IP checksum rewritten.
    function Turned(): Packet {
      this.(srcIP := dstIP, dstIP := srcIP, srcPort := dstPort, dstPort := srcPort, ttl := TTL, checksum := 0)
    }
  }

  datatype Conn = Conn(
    seqLocal: U32, seqRemote: U32, toSend: seq<Segment>, sent: seq<Segment>,
    sendWindow: U16, ipID: U16, closing: bool, conCtl: ConCtl)

  const NEW_CONN := Conn(0, 0, [], [], 0, 0, false, FRESH)

  // What a protocol implementation asks of its TcpIface.
  datatype Action = Send(data: seq<Byte>) | Close

  // A protocol's answer to the next delivery. Each packet of a run comes with its own
  // function, so protocols with state of their own are covered.
  type App = seq<Byte> -> seq<Action>

  // TcpProtoJoke: copy the data and send it back.
  function Echo(data: seq<Byte>): seq<Action> {
    [Send(data)]
  }

  datatype Result = Result(
    conn: Conn, phase: nat, reply: Packet, send: bool, accepted: bool,
    delivered: seq<Byte>, enqueued: seq<Segment>, released: seq<Segment>, written: seq<Segment>, cut: bool)

  function Quiet(conn: Conn, phase: nat, reply: Packet): Result {
    Result(conn, phase, reply, true, false, [], [], [], [], false)
  }

  // --- runSynAck ---

  // The frame kept for retransmission; its content is not modelled, only its length.
  function SynAckSegment(): (g: Segment)
    ensures g.seqNumber == 0 && |g.data| == HEADERS_LEN
  {
    Segment(0, seq(HEADERS_LEN, _ => 0))
  }

  predicate IsOpening(p: Packet) {
    p.flags.syn && !p.flags.ack && !p.flags.fin && !p.flags.rst
  }

  function SynAckStep(c: Conn, p: Packet): Result {
    var r := p.Turned().(body := []);
    if !IsOpening(p) then Quiet(c, END, r.(flags := NO_FLAGS.(rst := true)))
    else
      var remote := Wrap32(p.seqNo + 1);
      Quiet(
        c.(seqRemote := remote, seqLocal := 1, sent := c.sent + [SynAckSegment()]),
        EST,
        r.(ackNo := remote, seqNo := 0, flags := p.flags.(ack := true), offsetReserved := OFFSET_5, frameLen := HEADERS_LEN))
  }

  // --- runEst ---

  predicate IsRefused(p: Packet) {
    p.flags.syn || !p.flags.ack || p.flags.rst
  }

  // Prune, count duplicates, requeue everything beyond the reset point, note the window.
  function AfterAck(c: Conn, p: Packet): Conn {
    var kept := Select(c.sent, AckedBy(p.ackNo), false);
    var ctl := c.conCtl.HandlePacket(c.seqLocal, p.ackNo);
    match ctl.Reset()
    case None => c.(sent := kept, conCtl := ctl, sendWindow := p.window)
    case Some(resetSeq) =>
      c.(toSend := Reverse(Select(kept, Beyond(resetSeq), true)) + c.toSend,
         sent := Select(kept, Beyond(resetSeq), false), conCtl := ctl, sendWindow := p.window)
  }

  lemma AfterAckFrame(c: Conn, p: Packet)
    ensures var a := AfterAck(c, p);
            a.seqRemote == c.seqRemote && a.seqLocal == c.seqLocal && a == AfterAck(c, p.Turned())
  {
  }

  // Bytes and segments that a list of requests adds, the first of them numbered `first`.
  function Volume(acts: seq<Action>): nat {
    if acts == [] then 0
    else Volume(acts[..|acts| - 1]) + match acts[|acts| - 1] case Send(data) => |data| case Close => 0
  }

  function Enqueued(first: U32, acts: seq<Action>): seq<Segment> {
    if acts == [] then []
    else
      var front := acts[..|acts| - 1];
      match acts[|acts| - 1]
      case Close => Enqueued(first, front)
      case Send(data) => Enqueued(first, front) + Segmentize(Wrap32(first + Volume(front)), data)
  }

  function Feed(c: Conn, acts: seq<Action>): Conn {
    c.(seqLocal := Wrap32(c.seqLocal + Volume(acts)), toSend := c.toSend + Enqueued(c.seqLocal, acts),
       closing := c.closing || Close in acts)
  }

  function Counted(p: Packet): U16 {
    Wrap16(p.IpPayload() - p.HeaderLen())
  }

  function FinLen(p: Packet): nat {
    if p.flags.fin then 1 else 0
  }

  function Answers(p: Packet, app: App): seq<Action> {
    if p.body == [] then [] else app(p.body)
  }

  // The expected segment: advance, deliver, and let the protocol answer.
  function Received(a: Conn, p: Packet, app: App): Conn {
    Feed(a.(seqRemote := Wrap32(p.seqNo + Counted(p) + FinLen(p)), closing := a.closing || p.flags.fin),
         Answers(p, app))
  }

  function Min(x: nat, y: nat): nat {
    if x <= y then x else y
  }

  function Window(c: Conn): nat {
    Min(c.sendWindow, CON_WINDOW)
  }

  function Headed(c: Conn, r: Packet): Packet {
    r.(seqNo := c.seqLocal, ackNo := c.seqRemote, flags := NO_FLAGS.(ack := true), offsetReserved := OFFSET_5)
  }

  // The loop writes every segment into the packet at hand; the last one stays.
  function WithSegment(r: Packet, g: Segment, id: U16): Packet {
    r.(id := id, window := REPLY_WINDOW, seqNo := g.seqNumber, body := g.data, frameLen := HEADERS_LEN + |g.data|)
  }

  // The packet after the loop has written these segments into it, identified from `id` on.
  function Loaded(r: Packet, written: seq<Segment>, id: U16): Packet {
    if written == [] then r
    else WithSegment(r, written[|written| - 1], Wrap16(id + |written| - 1))
  }

  function Accept(a: Conn, p: Packet, app: App, released: seq<Segment>): Result {
    var f := Received(a, p, app);
    var s := SendAll(f.toSend, f.sent, Window(f));
    var g := f.(toSend := s.toSend, sent := s.sent, ipID := Wrap16(f.ipID + |s.written|));
    var head := Headed(a.(seqRemote := f.seqRemote), p.Turned());
    var reply := Loaded(head, s.written, f.ipID);
    var enqueued := Enqueued(a.seqLocal, Answers(p, app));
    if g.closing && g.toSend == [] then
      Result(g.(seqLocal := Wrap32(g.seqLocal + 1)), ACK_FIN, reply.(flags := reply.flags.(fin := true)), true, true,
             p.body, enqueued, released, s.written, s.cut)
    else
      Result(g, EST, reply, p.body != [] || s.written != [], true,
             p.body, enqueued, released, s.written, s.cut)
  }

  function EstStep(c: Conn, p: Packet, app: App): Result {
    if IsRefused(p) then
      Quiet(c, END, p.Turned().(flags := NO_FLAGS.(rst := true), ackNo := 0, seqNo := c.seqLocal, body := [],
                                frameLen := HEADERS_LEN))
    else
      var a := AfterAck(c, p);
      var released := Select(c.sent, AckedBy(p.ackNo), true);
      if p.seqNo != c.seqRemote then
        var first := if a.toSend == [] then a.seqLocal else a.toSend[0].seqNumber;
        Quiet(a, EST, Headed(a, p.Turned()).(seqNo := first, body := [], window := REPLY_WINDOW,
                                            frameLen := HEADERS_LEN)).(released := released)
      else
        Accept(a, p, app, released)
  }

  // --- runAckFin ---

  predicate IsOutOfPlace(c: Conn, p: Packet) {
    p.flags.syn || !p.flags.ack || p.flags.rst || p.ackNo != c.seqLocal || p.seqNo != c.seqRemote
  }

  function AckFinStep(c: Conn, p: Packet): Result {
    var r := p.Turned();
    if IsOutOfPlace(c, p) then Quiet(c, END, r.(flags := NO_FLAGS.(rst := true)))
    else if p.flags.fin then
      var d := c.(seqLocal := Wrap32(c.seqLocal + 1), seqRemote := p.seqNo);
      Quiet(d, END, r.(seqNo := d.seqLocal, ackNo := Wrap32(d.seqRemote + 1), flags := NO_FLAGS.(ack := true),
                       offsetReserved := OFFSET_5)).(accepted := true)
    else Quiet(c, ACK_FIN, r).(send := false)
  }
}
