// The HelloBye3 messages and state functions: as functions on values, and in place on
// session objects and packet buffers.
module HelloBye {
  import opened Words
  import opened Options
  import opened StateMachines
  import opened Machines
  import opened FunIfaces

  const ETHERTYPE_IPV4: U16 := 0x0800
  const ROLE_CLIENT: U8 := 0
  const ROLE_SERVER: U8 := 1
  const MSG_HELLO: U8 := 0
  const MSG_BYE: U8 := 1

  // Server and client state ids.
  const S_HELLO: nat := 0
  const S_BYE: nat := 1
  const S_TERMINATE: nat := 2
  const C_HELLO: nat := 0
  const C_BYE: nat := 1
  const C_RECV_BYE: nat := 2
  const C_TERMINATE: nat := 3

  // The header fields the protocol reads or writes (numbers in host order) and the message.
  datatype Pkt = Pkt(
    ethertype: U16, version: U8, ihl: U8, ttl: U8, proto: U8, totalLength: U16, ipChecksum: U16,
    srcIP: U32, dstIP: U32, srcPort: U16, dstPort: U16, udpLength: U16, udpChecksum: U16,
    ident: U64, role: U8, kind: U8, cookie: U8)
  {
    // Back to where it came from.
    function Turned(): Pkt {
      this.(ttl := 64, dstIP := srcIP, srcIP := dstIP, ipChecksum := 0,
            udpChecksum := 0, dstPort := srcPort, srcPort := dstPort)
    }

    function Saying(role: U8, kind: U8, cookie: U8): Pkt {
      this.(role := role, kind := kind, cookie := cookie)
    }

    predicate Says(role: U8, kind: U8) {
      this.role == role && this.kind == kind
    }
  }

  function Identify(p: Pkt): Option<U64> {
    if p.ethertype != ETHERTYPE_IPV4 then None
    else if p.proto != PROTO_UDP then None
    else Some(p.ident)
  }

  datatype ServerData = ServerData(clientCookie: U8, serverCookie: U8)

  datatype ClientData = ClientData(
    ident: U64, srcIp: U32, dstIp: U32, srcPort: U16, dstPort: U16, clientCookie: U8, serverCookie: U8)

  function Free<D>(data: D, end: nat, p: Pkt): Outcome<D, Pkt> {
    Outcome(State(data, end), p, false, [])
  }

  // --- server ---

  function ServerHello(st: State<ServerData>, p: Pkt): Outcome<ServerData, Pkt> {
    if p.role != ROLE_CLIENT then Free(st.data, S_TERMINATE, p)
    else if p.kind != MSG_HELLO then Free(st.data, S_TERMINATE, p)
    else
      var s := st.data.(clientCookie := p.cookie);
      Outcome(State(s, S_BYE), p.Saying(ROLE_SERVER, MSG_HELLO, s.serverCookie).Turned(), true, [])
  }

  function ServerBye(st: State<ServerData>, p: Pkt): Outcome<ServerData, Pkt> {
    if !p.Says(ROLE_CLIENT, MSG_BYE) then Free(st.data, S_TERMINATE, p)
    else if p.cookie != st.data.serverCookie then Free(st.data, S_TERMINATE, p)
    else
      Outcome(State(st.data, S_TERMINATE), p.Saying(ROLE_SERVER, MSG_BYE, st.data.clientCookie).Turned(), true, [])
  }

  // `cookies` stands for rand() % 256, one value for each session created.
  function ServerConfig(cookies: nat -> U8): Config<U64, ServerData, Pkt> {
    Config(Identify, [ServerHello, ServerBye], S_TERMINATE, true, S_HELLO,
           (id, n) => ServerData(0, cookies(n)))
  }

  // --- client ---

  function CreateHello(srcIp: U32, dstIp: U32, srcPort: U16, dstPort: U16, ident: U64, cookie: U8): State<ClientData> {
    State(ClientData(ident, srcIp, dstIp, srcPort, dstPort, cookie, 0), C_HELLO)
  }

  // The whole frame is rewritten.
  function HelloPkt(c: ClientData): Pkt {
    Pkt(ETHERTYPE_IPV4, 4, 5, 64, PROTO_UDP, 100 - 14, 0, c.srcIp, c.dstIp, c.srcPort, c.dstPort, 50 + 8, 0,
        c.ident, ROLE_CLIENT, MSG_HELLO, c.clientCookie)
  }

  function ClientHello(st: State<ClientData>, p: Pkt): Outcome<ClientData, Pkt> {
    Outcome(State(st.data, C_BYE), HelloPkt(st.data), true, [])
  }

  function ClientBye(st: State<ClientData>, p: Pkt): Outcome<ClientData, Pkt> {
    if !p.Says(ROLE_SERVER, MSG_HELLO) then Free(st.data, C_TERMINATE, p)
    else
      Outcome(State(st.data.(serverCookie := p.cookie), C_RECV_BYE),
              p.Saying(ROLE_CLIENT, MSG_BYE, p.cookie).Turned(), true, [])
  }

  function ClientRecvBye(st: State<ClientData>, p: Pkt): Outcome<ClientData, Pkt> {
    if !p.Says(ROLE_SERVER, MSG_BYE) then Free(st.data, C_TERMINATE, p)
    else if p.cookie != st.data.clientCookie then Free(st.data, C_TERMINATE, p)
    else Free(st.data, C_TERMINATE, p)
  }

  // The machine of a client does not listen, so its factory is never called.
  function ClientConfig(): Config<U64, ClientData, Pkt> {
    Config(Identify, [ClientHello, ClientBye, ClientRecvBye], C_TERMINATE, false, C_HELLO,
           (id, n) => ClientData(id, 0, 0, 0, 0, 0, 0))
  }

  // --- what the handlers answer ---

  // Only UDP in IPv4 is identified, by the number in the message.
  lemma IdentifiesIff(p: Pkt, id: U64)
    ensures Identify(p) == Some(id) <==> p.ethertype == 0x0800 && p.proto == 17 && p.ident == id
    ensures Identify(p) == None <==> p.ethertype != 0x0800 || p.proto != 17
  {
  }

  // The server answers a client's HELLO and nothing else: it keeps the client's cookie, sends
  // its own back, and waits for the BYE; otherwise the session ends and the packet is freed.
  lemma ServerHelloAnswersIff(st: State<ServerData>, p: Pkt)
    ensures var out := ServerHello(st, p);
            && (out.send <==> p.role == 0 && p.kind == 0)
            && (if out.send then
                  && IsReply(p, out.msg) && out.msg.role == 1 && out.msg.kind == 0 && out.msg.cookie == st.data.serverCookie
                  && out.st.state == S_BYE && out.st.data == ServerData(p.cookie, st.data.serverCookie)
                else
                  out.msg == p && out.st == State(st.data, S_TERMINATE))
  {
  }

  // It answers a BYE exactly if that echoes its own cookie, with the client's; the session
  // ends in any case.
  lemma ServerByeAnswersIff(st: State<ServerData>, p: Pkt)
    ensures var out := ServerBye(st, p);
            && (out.send <==> p.role == 0 && p.kind == 1 && p.cookie == st.data.serverCookie)
            && (if out.send then
                  IsReply(p, out.msg) && out.msg.role == 1 && out.msg.kind == 1 && out.msg.cookie == st.data.clientCookie
                else
                  out.msg == p)
            && out.st == State(st.data, S_TERMINATE)
  {
  }

  // The client echoes the cookie of a SERVER HELLO, and waits for the SERVER BYE.
  lemma ClientByeAnswersIff(st: State<ClientData>, p: Pkt)
    ensures var out := ClientBye(st, p);
            && (out.send <==> p.role == 1 && p.kind == 0)
            && (if out.send then
                  && IsReply(p, out.msg) && out.msg.role == 0 && out.msg.kind == 1 && out.msg.cookie == p.cookie
                  && out.st.state == C_RECV_BYE && out.st.data == st.data.(serverCookie := p.cookie)
                else
                  out.msg == p && out.st == State(st.data, C_TERMINATE))
  {
  }

  // Whatever the client then receives is freed and ends it; it has succeeded exactly on a
  // SERVER BYE with its own cookie.
  lemma ClientEndsIff(st: State<ClientData>, p: Pkt)
    ensures ClientRecvBye(st, p) == Outcome(State(st.data, C_TERMINATE), p, false, [])
    ensures EndingOf(st.data, p) == Success <==> p.role == 1 && p.kind == 1 && p.cookie == st.data.clientCookie
    ensures EndingOf(st.data, p) == WrongCookie <==> p.role == 1 && p.kind == 1 && p.cookie != st.data.clientCookie
  {
  }

  // The client's HELLO: a 100-byte UDP frame from its end to the server's, with its cookie.
  lemma HelloIsAddressed(srcIp: U32, dstIp: U32, srcPort: U16, dstPort: U16, ident: U64, cookie: U8, p: Pkt)
    ensures var out := ClientHello(CreateHello(srcIp, dstIp, srcPort, dstPort, ident, cookie), p);
            && out.send && out.st.state == C_BYE && Identify(out.msg) == Some(ident)
            && out.msg.srcIP == srcIp && out.msg.dstIP == dstIp && out.msg.srcPort == srcPort && out.msg.dstPort == dstPort
            && out.msg.role == 0 && out.msg.kind == 0 && out.msg.cookie == cookie
            && out.msg.version == 4 && out.msg.ihl == 5 && out.msg.ttl == 64
            && out.msg.totalLength + 14 == 100 && out.msg.udpLength == 58
            && out.msg.ipChecksum == 0 && out.msg.udpChecksum == 0
  {
  }

  // The same frame and connection, on its way back.
  predicate IsReply(p: Pkt, q: Pkt) {
    && q.srcIP == p.dstIP && q.dstIP == p.srcIP && q.srcPort == p.dstPort && q.dstPort == p.srcPort
    && q.ident == p.ident && Identify(q) == Identify(p)
    && q.ttl == 64 && q.ipChecksum == 0 && q.udpChecksum == 0
    && q.totalLength == p.totalLength && q.udpLength == p.udpLength && q.version == p.version && q.ihl == p.ihl
  }

  // Every state the handlers reach has a function, or is the end state.
  lemma ConfigsCover(cookies: nat -> U8)
    ensures Covers(ServerConfig(cookies)) && Covers(ClientConfig())
  {
  }

  // --- the same handlers in place ---

  // A heap-allocated server session.
  class Server {
    var clientCookie: U8
    var serverCookie: U8
    var deleted: bool

    ghost function View(): ServerData
      reads this
    {
      ServerData(clientCookie, serverCookie)
    }

    constructor (cookie: U8)
      ensures View() == ServerData(0, cookie) && !deleted
    {
      serverCookie, clientCookie, deleted := cookie, 0, false;
    }

    // Deleting twice would be an error.
    method Delete()
      requires !deleted
      modifies this`deleted
      ensures deleted
    {
      deleted := true;
    }

    method RunHello(pkt: Mbuf<Pkt>, funIface: FunIface)
      requires !deleted && funIface.state == S_HELLO && funIface.sendPkt
      modifies this, pkt, funIface
      ensures Outcome(State(View(), funIface.state), pkt.msg, funIface.sendPkt, [])
           == ServerHello(State(old(View()), old(funIface.state)), old(pkt.msg))
      ensures deleted <==> funIface.state == S_TERMINATE
    {
      if pkt.msg.role != ROLE_CLIENT {
        funIface.Transition(S_TERMINATE);
        Delete();
        funIface.FreePkt();
        return;
      }
      if pkt.msg.kind != MSG_HELLO {
        funIface.Transition(S_TERMINATE);
        Delete();
        funIface.FreePkt();
        return;
      }
      clientCookie := pkt.msg.cookie;
      pkt.msg := pkt.msg.(role := ROLE_SERVER, kind := MSG_HELLO);
      pkt.msg := pkt.msg.(cookie := serverCookie);
      TurnBack(pkt);
      funIface.Transition(S_BYE);
    }

    method RunBye(pkt: Mbuf<Pkt>, funIface: FunIface)
      requires !deleted && funIface.state == S_BYE && funIface.sendPkt
      modifies this, pkt, funIface
      ensures Outcome(State(View(), funIface.state), pkt.msg, funIface.sendPkt, [])
           == ServerBye(State(old(View()), old(funIface.state)), old(pkt.msg))
      ensures deleted <==> funIface.state == S_TERMINATE
    {
      if pkt.msg.role != ROLE_CLIENT || pkt.msg.kind != MSG_BYE {
        funIface.Transition(S_TERMINATE);
        Delete();
        funIface.FreePkt();
        return;
      }
      if pkt.msg.cookie != serverCookie {
        funIface.Transition(S_TERMINATE);
        Delete();
        funIface.FreePkt();
        return;
      }
      pkt.msg := pkt.msg.(cookie := clientCookie);
      pkt.msg := pkt.msg.(role := ROLE_SERVER, kind := MSG_BYE);
      TurnBack(pkt);
      funIface.Transition(S_TERMINATE);
      Delete();
    }
  }

  // The swap of addresses and ports through temporaries that ends every reply.
  method TurnBack(pkt: Mbuf<Pkt>)
    modifies pkt
    ensures pkt.msg == old(pkt.msg).Turned()
  {
    pkt.msg := pkt.msg.(ttl := 64);
    var tmp := pkt.msg.dstIP;
    pkt.msg := pkt.msg.(dstIP := pkt.msg.srcIP);
    pkt.msg := pkt.msg.(srcIP := tmp);
    pkt.msg := pkt.msg.(ipChecksum := 0, udpChecksum := 0);
    var tmp16 := pkt.msg.dstPort;
    pkt.msg := pkt.msg.(dstPort := pkt.msg.srcPort);
    pkt.msg := pkt.msg.(srcPort := tmp16);
  }

  class Client {
    var ident: U64
    var srcIp: U32
    var dstIp: U32
    var clientCookie: U8
    var serverCookie: U8
    var srcPort: U16
    var dstPort: U16
    var deleted: bool

    ghost function View(): ClientData
      reads this
    {
      ClientData(ident, srcIp, dstIp, srcPort, dstPort, clientCookie, serverCookie)
    }

    constructor (srcIp: U32, dstIp: U32, srcPort: U16, dstPort: U16, ident: U64, cookie: U8)
      ensures View() == CreateHello(srcIp, dstIp, srcPort, dstPort, ident, cookie).data && !deleted
    {
      this.srcIp, this.dstIp, this.srcPort, this.dstPort, this.ident := srcIp, dstIp, srcPort, dstPort, ident;
      clientCookie, serverCookie, deleted := cookie, 0, false;
    }

    method Delete()
      requires !deleted
      modifies this`deleted
      ensures deleted
    {
      deleted := true;
    }

    method RunHello(pkt: Mbuf<Pkt>, funIface: FunIface)
      requires !deleted && funIface.state == C_HELLO && funIface.sendPkt
      modifies pkt, funIface
      ensures Outcome(State(View(), funIface.state), pkt.msg, funIface.sendPkt, [])
           == ClientHello(State(old(View()), old(funIface.state)), old(pkt.msg))
    {
      pkt.msg := Pkt(0, 0, 0, 0, 0, 0, 0, 0, 0, 0, 0, 0, 0, 0, 0, 0, 0);
      pkt.msg := pkt.msg.(version := 4, ihl := 5, ttl := 64, totalLength := 100 - 14);
      pkt.msg := pkt.msg.(dstIP := dstIp, srcIP := srcIp, proto := PROTO_UDP, ipChecksum := 0);
      pkt.msg := pkt.msg.(ident := ident, role := ROLE_CLIENT, cookie := clientCookie, kind := MSG_HELLO);
      pkt.msg := pkt.msg.(ethertype := ETHERTYPE_IPV4, udpChecksum := 0);
      pkt.msg := pkt.msg.(dstPort := dstPort, srcPort := srcPort, udpLength := 50 + 8);
      funIface.Transition(C_BYE);
    }

    method RunBye(pkt: Mbuf<Pkt>, funIface: FunIface)
      requires !deleted && funIface.state == C_BYE && funIface.sendPkt
      modifies this, pkt, funIface
      ensures Outcome(State(View(), funIface.state), pkt.msg, funIface.sendPkt, [])
           == ClientBye(State(old(View()), old(funIface.state)), old(pkt.msg))
      ensures deleted <==> funIface.state == C_TERMINATE
    {
      if pkt.msg.role != ROLE_SERVER || pkt.msg.kind != MSG_HELLO {
        funIface.Transition(C_TERMINATE);
        Delete();
        funIface.FreePkt();
        return;
      }
      serverCookie := pkt.msg.cookie;
      pkt.msg := pkt.msg.(cookie := serverCookie);
      pkt.msg := pkt.msg.(role := ROLE_CLIENT, kind := MSG_BYE);
      TurnBack(pkt);
      funIface.Transition(C_RECV_BYE);
    }

    // Returns which of the three ways the exchange ended.
    method RunRecvBye(pkt: Mbuf<Pkt>, funIface: FunIface) returns (ending: Ending)
      requires !deleted && funIface.state == C_RECV_BYE && funIface.sendPkt
      modifies this, pkt, funIface
      ensures Outcome(State(View(), funIface.state), pkt.msg, funIface.sendPkt, [])
           == ClientRecvBye(State(old(View()), old(funIface.state)), old(pkt.msg))
      ensures deleted && ending == EndingOf(old(View()), old(pkt.msg))
    {
      if pkt.msg.role != ROLE_SERVER || pkt.msg.kind != MSG_BYE {
        funIface.Transition(C_TERMINATE);
        Delete();
        funIface.FreePkt();
        return WrongFields;
      }
      if pkt.msg.cookie != clientCookie {
        funIface.Transition(C_TERMINATE);
        Delete();
        funIface.FreePkt();
        return WrongCookie;
      }
      funIface.FreePkt();
      funIface.Transition(C_TERMINATE);
      Delete();
      return Success;
    }
  }

  // The source tells the ways runRecvBye ends apart by what it prints.
  datatype Ending = WrongFields | WrongCookie | Success

  function EndingOf(c: ClientData, p: Pkt): Ending {
    if !p.Says(ROLE_SERVER, MSG_BYE) then WrongFields
    else if p.cookie != c.clientCookie then WrongCookie
    else Success
  }
}
