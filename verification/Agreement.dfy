// The HelloBye client and server over a network that drops, duplicates and reorders packets
// but neither forges nor misaddresses them, in every interleaving.
module Agreement {
  import opened Words
  import opened Options
  import opened StateMachines
  import opened HelloBye

  // A server session at one of its two steps: the connection, the cookie the client sent
  // with its HELLO, the session's own cookie, and the session's number. A connection may have
  // several sessions, one after the other; no two share a number.
  datatype Exchange = Exchange(ident: U64, clientCookie: U8, serverCookie: U8, session: nat)

  // Both machines; every packet ever put on the wire, by direction; and what happened:
  // what each client was opened with, the cookie it echoed, sessions that consumed a HELLO,
  // sessions that consumed a matching BYE, and clients that ended in success. `current` is
  // the number of the latest session of each connection.
  datatype World = World(
    client: Tables<U64, ClientData>, server: Tables<U64, ServerData>,
    toServer: set<Pkt>, toClient: set<Pkt>,
    begun: map<U64, ClientData>, echoed: map<U64, U8>,
    current: map<U64, nat>, heard: set<Exchange>, answered: set<Exchange>, succeeded: set<U64>)

  const NEW_WORLD := World(Tables(map[], map[], 0, 0), Tables(map[], map[], 0, 0), {}, {}, map[], map[], map[], {}, {}, {})

  datatype Event =
    | Connect(srcIp: U32, dstIp: U32, srcPort: U16, dstPort: U16, ident: U64, cookie: U8, buffer: Pkt)
    | ServerReceives(p: Pkt)
    | ClientReceives(p: Pkt)

  function Sent(net: set<Pkt>, r: Result<Pkt>): set<Pkt> {
    if r.send then net + {r.msg} else net
  }

  // What the caller asked for.
  function Opened(e: Event): ClientData
    requires e.Connect?
  {
    ClientData(e.ident, e.srcIp, e.dstIp, e.srcPort, e.dstPort, e.cookie, 0)
  }

  function Open(w: World, e: Event): World
    requires e.Connect?
  {
    var st := CreateHello(e.srcIp, e.dstIp, e.srcPort, e.dstPort, e.ident, e.cookie);
    var ran := AddState(ClientConfig(), w.client, e.ident, st, e.buffer);
    w.(client := ran.t, toServer := Sent(w.toServer, ran.result), begun := w.begun[e.ident := Opened(e)])
  }

  function Serve(cookies: nat -> U8, w: World, p: Pkt): World {
    var cfg := ServerConfig(cookies);
    var ran := RunPkt(cfg, w.server, p);
    var f := FindState(cfg, w.server, p.ident);
    var session := if p.ident in w.server.table && p.ident in w.current then w.current[p.ident] else w.server.added;
    var u := w.(server := ran.t, toClient := Sent(w.toClient, ran.result));
    if Identify(p) == None || p.ident !in f.table then u
    else
      var st, v := f.table[p.ident], u.(current := w.current[p.ident := session]);
      if !ran.result.send then v
      else if st.state == S_HELLO then v.(heard := v.heard + {Exchange(p.ident, p.cookie, st.data.serverCookie, session)})
      else v.(answered := v.answered + {Exchange(p.ident, st.data.clientCookie, p.cookie, session)})
  }

  function Reply(w: World, p: Pkt): World {
    var ran := RunPkt(ClientConfig(), w.client, p);
    var u := w.(client := ran.t, toServer := Sent(w.toServer, ran.result));
    if Identify(p) == None || p.ident !in Known(w.client) then u
    else
      var st := Known(w.client)[p.ident];
      if st.state == C_BYE && ran.result.send then u.(echoed := u.echoed[p.ident := p.cookie])
      else if st.state == C_RECV_BYE && EndingOf(st.data, p) == Success then u.(succeeded := u.succeeded + {p.ident})
      else u
  }

  // Identifiers are used once; only packets that were sent arrive.
  function Step(cookies: nat -> U8, w: World, e: Event): World {
    match e
    case Connect(_, _, _, _, ident, _, _) => if ident in w.begun then w else Open(w, e)
    case ServerReceives(p) => if p in w.toServer then Serve(cookies, w, p) else w
    case ClientReceives(p) => if p in w.toClient then Reply(w, p) else w
  }

  function Run(cookies: nat -> U8, events: seq<Event>): World {
    if events == [] then NEW_WORLD else Step(cookies, Run(cookies, events[..|events| - 1]), events[|events| - 1])
  }

  // --- the invariant ---

  // From the client to its server, and the way back.
  predicate Outbound(p: Pkt, c: ClientData) {
    p.srcIP == c.srcIp && p.dstIP == c.dstIp && p.srcPort == c.srcPort && p.dstPort == c.dstPort
  }

  predicate Inbound(p: Pkt, c: ClientData) {
    p.srcIP == c.dstIp && p.dstIP == c.srcIp && p.srcPort == c.dstPort && p.dstPort == c.srcPort
  }

  // Clients send their own HELLO and at most one BYE, with the cookie they echoed.
  ghost predicate ClientPktOk(w: World, p: Pkt) {
    && Identify(p) == Some(p.ident) && p.role == ROLE_CLIENT && p.ident in w.begun && Outbound(p, w.begun[p.ident])
    && (p.kind == MSG_HELLO ==> p.cookie == w.begun[p.ident].clientCookie)
    && (p.kind == MSG_BYE ==> p.ident in w.echoed && p.cookie == w.echoed[p.ident])
    && p.kind in {MSG_HELLO, MSG_BYE}
  }

  ghost predicate Agreed(w: World, id: U64) {
    && id in w.begun && id in w.echoed
    && exists n: nat :: Exchange(id, w.begun[id].clientCookie, w.echoed[id], n) in w.answered
  }

  // A SERVER BYE carries the client's cookie, and stands for a completed exchange.
  ghost predicate ServerPktOk(w: World, p: Pkt) {
    && Identify(p) == Some(p.ident) && p.role == ROLE_SERVER && p.ident in w.begun && Inbound(p, w.begun[p.ident])
    && p.kind in {MSG_HELLO, MSG_BYE}
    && (p.kind == MSG_BYE ==> Agreed(w, p.ident) && p.cookie == w.begun[p.ident].clientCookie)
  }

  ghost predicate SessionOk(w: World, id: U64, st: State<ServerData>) {
    && id in w.begun && st.state == S_BYE && st.data.clientCookie == w.begun[id].clientCookie
    && id in w.current && Exchange(id, st.data.clientCookie, st.data.serverCookie, w.current[id]) in w.heard
  }

  ghost predicate ClientOk(w: World, id: U64, st: State<ClientData>) {
    && id in w.begun && st.data.(serverCookie := 0) == w.begun[id]
    && (st.state == C_BYE || st.state == C_RECV_BYE)
    && (st.state == C_BYE <==> id !in w.echoed)
  }

  ghost predicate Inv(w: World) {
    && (forall p :: p in w.toServer ==> ClientPktOk(w, p))
    && (forall p :: p in w.toClient ==> ServerPktOk(w, p))
    && w.server.pool == map[]
    && (forall id :: id in w.server.table ==> SessionOk(w, id, w.server.table[id]))
    && (forall id :: id in w.client.table ==> id !in w.client.pool && ClientOk(w, id, w.client.table[id]))
    && (forall id :: id in w.client.pool ==> ClientOk(w, id, w.client.pool[id]))
    && (forall id :: id in w.echoed ==> id in w.begun)
    && (forall id :: id in w.succeeded ==> Agreed(w, id))
    && w.answered <= w.heard
  }

  // What one packet does to a machine of the protocol, spelled out.
  lemma ClientStep(t: Tables<U64, ClientData>, p: Pkt)
    requires Identify(p) == Some(p.ident) && (p.ident in t.table ==> p.ident !in t.pool)
    requires p.ident in Known(t) ==> Known(t)[p.ident].state in {C_BYE, C_RECV_BYE}
    ensures var ran, id := RunPkt(ClientConfig(), t, p), p.ident;
            if id !in Known(t) then ran == Ran(t, Result(p, false, []))
            else
              var st := Known(t)[id];
              var out := if st.state == C_BYE then ClientBye(st, p) else ClientRecvBye(st, p);
              && ran.result == Result(out.msg, out.send, []) && ran.t.pool == t.pool - {id}
              && ran.t.table == if out.st.state == C_TERMINATE then t.table - {id} else t.table[id := out.st]
  {
    var id := p.ident;
    assert id in t.table ==> t.pool - {id} == t.pool;
    if id in t.pool {
      assert t.table[id := t.pool[id]] - {id} == t.table - {id};
    }
  }

  lemma ServerStep(cookies: nat -> U8, t: Tables<U64, ServerData>, p: Pkt)
    requires Identify(p) == Some(p.ident) && t.pool == map[]
    requires p.ident in t.table ==> t.table[p.ident].state == S_BYE
    ensures var ran, id := RunPkt(ServerConfig(cookies), t, p), p.ident;
            var st := if id in t.table then t.table[id] else State(ServerData(0, cookies(t.added)), S_HELLO);
            var out := if id in t.table then ServerBye(st, p) else ServerHello(st, p);
            && id in FindState(ServerConfig(cookies), t, id).table
            && FindState(ServerConfig(cookies), t, id).table[id] == st
            && ran.result == Result(out.msg, out.send, []) && ran.t.pool == map[]
            && ran.t.table == (if out.st.state == S_TERMINATE then t.table - {id} else t.table[id := out.st])
            && ran.t.added == t.added + if id in t.table then 0 else 1
  {
    var id := p.ident;
    var session := State(ServerData(0, cookies(t.added)), S_HELLO);
    if id !in t.table {
      assert t.table[id := session] - {id} == t.table == t.table - {id};
    }
  }

  // A new client parks its connection and sends its HELLO.
  lemma OpenEffect(w: World, e: Event)
    requires Inv(w) && e.Connect? && e.ident !in w.begun
    ensures var u, c := Open(w, e), Opened(e);
            && u == w.(client := u.client, toServer := w.toServer + {HelloOf(e)}, begun := w.begun[e.ident := c])
            && u.client.table == w.client.table && e.ident !in w.client.table
            && u.client.pool == w.client.pool[e.ident := State(c, C_BYE)]
            && e.ident in Known(u.client) && Known(u.client)[e.ident] == State(c, C_BYE)
  {
    hide Agreed;
  }

  lemma OpenKeepsInv(w: World, e: Event)
    requires Inv(w) && e.Connect? && e.ident !in w.begun
    ensures Inv(Open(w, e))
  {
    hide Agreed, Open;
    OpenEffect(w, e);
    AgreementStays(w, Open(w, e));
  }

  // A packet for a connection without a session: a HELLO starts one, which waits for the BYE;
  // anything else leaves nothing behind.
  lemma HearEffect(cookies: nat -> U8, w: World, p: Pkt)
    requires Inv(w) && p in w.toServer && p.ident !in w.server.table
    ensures var u, id, n := Serve(cookies, w, p), p.ident, w.server.added;
            var x := Exchange(id, p.cookie, cookies(n), n);
            var v := w.(server := u.server, current := w.current[id := n]);
            && u.server.pool == map[] && u.server.added == n + 1
            && (if p.kind == MSG_HELLO then
                  && u == v.(toClient := w.toClient + {p.Saying(ROLE_SERVER, MSG_HELLO, cookies(n)).Turned()}, heard := w.heard + {x})
                  && u.server.table == w.server.table[id := State(ServerData(p.cookie, cookies(n)), S_BYE)]
                else
                  u == v && u.server.table == w.server.table)
  {
    hide RunPkt, FindState;
    assert ClientPktOk(w, p);
    ServerStep(cookies, w.server, p);
  }

  // A packet for a session: it ends, and answers if the packet is its client's BYE.
  lemma AnswerEffect(cookies: nat -> U8, w: World, p: Pkt)
    requires Inv(w) && p in w.toServer && p.ident in w.server.table
    ensures p.ident in w.current && SessionOk(w, p.ident, w.server.table[p.ident])
    ensures var u, id, st := Serve(cookies, w, p), p.ident, w.server.table[p.ident];
            var x := Exchange(id, st.data.clientCookie, p.cookie, w.current[id]);
            var v := w.(server := u.server);
            && u.server.pool == map[] && u.server.added == w.server.added && u.server.table == w.server.table - {id}
            && u == (if p.kind == MSG_BYE && p.cookie == st.data.serverCookie then
                       v.(toClient := w.toClient + {p.Saying(ROLE_SERVER, MSG_BYE, st.data.clientCookie).Turned()},
                          answered := w.answered + {x})
                     else v)
  {
    hide RunPkt, FindState;
    assert ClientPktOk(w, p);
    assert SessionOk(w, p.ident, w.server.table[p.ident]);
    ServerStep(cookies, w.server, p);
    assert w.current[p.ident := w.current[p.ident]] == w.current;
  }

  lemma ServeKeepsInv(cookies: nat -> U8, w: World, p: Pkt)
    requires Inv(w) && p in w.toServer
    ensures Inv(Serve(cookies, w, p))
  {
    if p.ident in w.server.table {
      AnswerKeepsInv(cookies, w, p);
    } else {
      HearKeepsInv(cookies, w, p);
    }
  }

  lemma HearKeepsInv(cookies: nat -> U8, w: World, p: Pkt)
    requires Inv(w) && p in w.toServer && p.ident !in w.server.table
    ensures Inv(Serve(cookies, w, p))
  {
    hide Serve, Agreed;
    assert ClientPktOk(w, p);
    HearEffect(cookies, w, p);
    var u := Serve(cookies, w, p);
    AgreementStays(w, u);
    if p.kind == MSG_HELLO {
      assert ServerPktOk(u, p.Saying(ROLE_SERVER, MSG_HELLO, cookies(w.server.added)).Turned());
      assert SessionOk(u, p.ident, u.server.table[p.ident]);
    }
  }

  lemma AnswerKeepsInv(cookies: nat -> U8, w: World, p: Pkt)
    requires Inv(w) && p in w.toServer && p.ident in w.server.table
    ensures Inv(Serve(cookies, w, p))
  {
    hide Serve, Agreed;
    assert ClientPktOk(w, p);
    var u, st := Serve(cookies, w, p), w.server.table[p.ident];
    AnswerEffect(cookies, w, p);
    AgreementStays(w, u);
    if p.kind == MSG_BYE && p.cookie == st.data.serverCookie {
      AgreementReached(u, p.ident, w.current[p.ident]);
    }
  }

  // Once a session of its own has answered a client's BYE, the client is agreed with for good.
  lemma AgreementReached(w: World, id: U64, n: nat)
    requires id in w.begun && id in w.echoed
    requires Exchange(id, w.begun[id].clientCookie, w.echoed[id], n) in w.answered
    ensures Agreed(w, id)
  {
  }

  lemma AgreementStays(w: World, u: World)
    requires forall id :: id in w.begun ==> id in u.begun && u.begun[id] == w.begun[id]
    requires forall id :: id in w.echoed ==> id in u.echoed && u.echoed[id] == w.echoed[id]
    requires w.answered <= u.answered
    ensures forall id :: Agreed(w, id) ==> Agreed(u, id)
  {
    forall id | Agreed(w, id) ensures Agreed(u, id) {
      var n: nat :| Exchange(id, w.begun[id].clientCookie, w.echoed[id], n) in w.answered;
      AgreementReached(u, id, n);
    }
  }

  lemma ReplyKeepsInv(w: World, p: Pkt)
    requires Inv(w) && p in w.toClient
    ensures Inv(Reply(w, p))
  {
    hide RunPkt;
    assert ServerPktOk(w, p);
    if p.ident !in Known(w.client) {
      ClientStep(w.client, p);
      assert Reply(w, p) == w;
    } else {
      hide Reply, Inv;
      if Known(w.client)[p.ident].state == C_BYE {
        EchoKeepsInv(w, p);
      } else {
        EndingKeepsInv(w, p);
      }
    }
  }

  // A client takes the SERVER HELLO: it is served from the table now and has sent its BYE.
  lemma EchoEffect(w: World, p: Pkt)
    requires Inv(w) && p in w.toClient && p.ident in Known(w.client) && Known(w.client)[p.ident].state == C_BYE
    ensures var id, st := p.ident, Known(w.client)[p.ident];
            var u, bye := Reply(w, p), p.Saying(ROLE_CLIENT, MSG_BYE, p.cookie).Turned();
            && p.kind == MSG_HELLO && id in w.begun && st.data.(serverCookie := 0) == w.begun[id] && id !in w.echoed
            && Outbound(bye, w.begun[id])
            && Identify(bye) == Some(id)
            && u == w.(client := u.client, toServer := w.toServer + {bye}, echoed := w.echoed[id := p.cookie])
            && u.client.pool == w.client.pool - {id}
            && u.client.table == w.client.table[id := State(st.data.(serverCookie := p.cookie), C_RECV_BYE)]
  {
    hide RunPkt;
    assert ServerPktOk(w, p);
    assert ClientOk(w, p.ident, Known(w.client)[p.ident]);
    ClientStep(w.client, p);
  }

  lemma EchoKeepsInv(w: World, p: Pkt)
    requires Inv(w) && p in w.toClient && p.ident in Known(w.client) && Known(w.client)[p.ident].state == C_BYE
    ensures Inv(Reply(w, p))
  {
    hide RunPkt, Reply, Known, Agreed;
    EchoEffect(w, p);
    AgreementStays(w, Reply(w, p));
  }

  // A client that waits for the SERVER BYE ends, whatever arrives.
  lemma EndingEffect(w: World, p: Pkt)
    requires Inv(w) && p in w.toClient && p.ident in Known(w.client) && Known(w.client)[p.ident].state != C_BYE
    ensures var u, id := Reply(w, p), p.ident;
            && u == w.(client := u.client, succeeded := u.succeeded)
            && u.client.pool == w.client.pool - {id} && u.client.table == w.client.table - {id}
            && u.succeeded == (if p.kind == MSG_BYE then w.succeeded + {id} else w.succeeded)
  {
    hide RunPkt, Agreed;
    assert ServerPktOk(w, p);
    assert ClientOk(w, p.ident, Known(w.client)[p.ident]);
    ClientStep(w.client, p);
  }

  lemma EndingKeepsInv(w: World, p: Pkt)
    requires Inv(w) && p in w.toClient && p.ident in Known(w.client) && Known(w.client)[p.ident].state != C_BYE
    ensures Inv(Reply(w, p))
  {
    hide Reply, Known, Agreed;
    assert ServerPktOk(w, p);
    EndingEffect(w, p);
    AgreementStays(w, Reply(w, p));
  }

  lemma {:induction false} InvHolds(cookies: nat -> U8, events: seq<Event>)
    ensures Inv(Run(cookies, events))
  {
    hide Inv, Open, Serve, Reply;
    if events == [] {
      StartInv();
    } else {
      var w := Run(cookies, events[..|events| - 1]);
      InvHolds(cookies, events[..|events| - 1]);
      match events[|events| - 1]
      case Connect(a, b, c, d, ident, cookie, buffer) =>
        if ident !in w.begun {
          OpenKeepsInv(w, events[|events| - 1]);
        }
      case ServerReceives(p) =>
        if p in w.toServer {
          ServeKeepsInv(cookies, w, p);
        }
      case ClientReceives(p) =>
        if p in w.toClient {
          ReplyKeepsInv(w, p);
        }
    }
  }

  lemma StartInv()
    ensures Inv(NEW_WORLD)
  {
  }

  // --- what the protocol achieves ---

  // A client that ends in success was heard: one and the same server session took this
  // client's HELLO, with its cookie, and answered a BYE carrying the very cookie the client
  // had echoed.
  lemma SuccessMeansAgreement(cookies: nat -> U8, events: seq<Event>, id: U64)
    requires id in Run(cookies, events).succeeded
    ensures var w := Run(cookies, events);
            && id in w.begun && id in w.echoed
            && exists n: nat :: Exchange(id, w.begun[id].clientCookie, w.echoed[id], n) in w.heard * w.answered
  {
    hide Run;
    InvHolds(cookies, events);
    var w := Run(cookies, events);
    assert Agreed(w, id);
    var n: nat :| Exchange(id, w.begun[id].clientCookie, w.echoed[id], n) in w.answered;
    assert Exchange(id, w.begun[id].clientCookie, w.echoed[id], n) in w.heard * w.answered;
  }

  // A session's number says which session it is: no two HELLOs were heard under one number.
  ghost predicate SessionsApart(w: World) {
    && (forall x :: x in w.heard ==> x.session < w.server.added)
    && (forall x, y :: x in w.heard && y in w.heard && x.session == y.session ==> x == y)
  }

  lemma {:induction false} SessionsAreApart(cookies: nat -> U8, events: seq<Event>)
    ensures SessionsApart(Run(cookies, events))
  {
    hide Inv, SessionsApart, Open, Serve, Reply;
    if events == [] {
      NoSessions();
    } else {
      var front, e := events[..|events| - 1], events[|events| - 1];
      SessionsAreApart(cookies, front);
      InvHolds(cookies, front);
      StepKeepsApart(cookies, Run(cookies, front), e);
    }
  }

  lemma NoSessions()
    ensures SessionsApart(NEW_WORLD)
  {
  }

  lemma StepKeepsApart(cookies: nat -> U8, w: World, e: Event)
    requires Inv(w) && SessionsApart(w)
    ensures SessionsApart(Step(cookies, w, e))
  {
    hide Inv, Open, Serve, Reply, SessionsApart;
    match e
    case Connect(_, _, _, _, ident, _, _) =>
      OthersKeepSessions(w, e);
    case ServerReceives(p) =>
      if p in w.toServer {
        ServeKeepsApart(cookies, w, p);
      }
    case ClientReceives(p) =>
      OthersKeepSessions(w, e);
  }

  lemma OthersKeepSessions(w: World, e: Event)
    requires SessionsApart(w)
    ensures e.Connect? ==> SessionsApart(Open(w, e))
    ensures e.ClientReceives? ==> SessionsApart(Reply(w, e.p))
  {
    hide RunPkt;
  }

  lemma ServeKeepsApart(cookies: nat -> U8, w: World, p: Pkt)
    requires Inv(w) && SessionsApart(w) && p in w.toServer
    ensures SessionsApart(Serve(cookies, w, p))
  {
    hide Inv, Serve;
    if p.ident in w.server.table {
      AnswerEffect(cookies, w, p);
    } else {
      HearEffect(cookies, w, p);
    }
  }

  // Every SERVER BYE carries its client's cookie, so no client ever sees a wrong one; and a
  // client that waits for the SERVER HELLO gets nothing else.
  lemma WrongCookieIsUnreachable(cookies: nat -> U8, events: seq<Event>, p: Pkt)
    requires p in Run(cookies, events).toClient && p.ident in Known(Run(cookies, events).client)
    ensures var st := Known(Run(cookies, events).client)[p.ident];
            && (st.state == C_RECV_BYE ==> EndingOf(st.data, p) != WrongCookie)
            && (st.state == C_BYE ==> p.Says(ROLE_SERVER, MSG_HELLO))
  {
    hide Run;
    var w := Run(cookies, events);
    InvHolds(cookies, events);
    assert ServerPktOk(w, p);
    assert ClientOk(w, p.ident, Known(w.client)[p.ident]);
  }

  // Every packet on the wire runs between the client's two addresses, in its own direction.
  lemma PacketsAreAddressed(cookies: nat -> U8, events: seq<Event>, p: Pkt)
    ensures var w := Run(cookies, events);
            && (p in w.toServer ==> p.ident in w.begun && Outbound(p, w.begun[p.ident]))
            && (p in w.toClient ==> p.ident in w.begun && Inbound(p, w.begun[p.ident]))
  {
    hide Run;
    InvHolds(cookies, events);
    var w := Run(cookies, events);
    assert p in w.toServer ==> ClientPktOk(w, p);
    assert p in w.toClient ==> ServerPktOk(w, p);
  }

  // The table of the server never holds a session outside its Bye state between packets, and
  // every session remembers the cookie of the client it serves.
  lemma SessionsRememberTheirClient(cookies: nat -> U8, events: seq<Event>, id: U64)
    requires id in Run(cookies, events).server.table
    ensures var w := Run(cookies, events);
            id in w.begun && w.server.table[id].state == S_BYE && w.server.table[id].data.clientCookie == w.begun[id].clientCookie
  {
    hide Run;
    InvHolds(cookies, events);
    assert SessionOk(Run(cookies, events), id, Run(cookies, events).server.table[id]);
  }

  // --- the exchange completes when its packets get through ---

  function HelloOf(e: Event): Pkt
    requires e.Connect?
  {
    HelloPkt(CreateHello(e.srcIp, e.dstIp, e.srcPort, e.dstPort, e.ident, e.cookie).data)
  }

  // After any run, whatever else is under way, a fresh connection whose HELLO, and then the
  // three replies, get through in order ends in success.
  lemma DeliveredExchangeSucceeds(cookies: nat -> U8, events: seq<Event>, e: Event)
    requires e.Connect? && e.ident !in Run(cookies, events).begun
    ensures var w := Run(cookies, events);
            var p1 := HelloOf(e);
            var p2 := p1.Saying(ROLE_SERVER, MSG_HELLO, cookies(w.server.added)).Turned();
            var p3 := p2.Saying(ROLE_CLIENT, MSG_BYE, p2.cookie).Turned();
            var p4 := p3.Saying(ROLE_SERVER, MSG_BYE, e.cookie).Turned();
            var w1 := Step(cookies, w, e);
            var w2 := Step(cookies, w1, ServerReceives(p1));
            var w3 := Step(cookies, w2, ClientReceives(p2));
            var w4 := Step(cookies, w3, ServerReceives(p3));
            e.ident in Step(cookies, w4, ClientReceives(p4)).succeeded
  {
    hide Run, RunPkt, FindState, Inv, Open, Serve, Reply, Known;
    var w := Run(cookies, events);
    InvHolds(cookies, events);
    var p1 := HelloOf(e);
    var p2 := p1.Saying(ROLE_SERVER, MSG_HELLO, cookies(w.server.added)).Turned();
    var p3 := p2.Saying(ROLE_CLIENT, MSG_BYE, p2.cookie).Turned();
    var p4 := p3.Saying(ROLE_SERVER, MSG_BYE, e.cookie).Turned();
    NotServed(w, e.ident);
    OpenEffect(w, e);
    OpenKeepsInv(w, e);
    var w1 := Open(w, e);
    HearEffect(cookies, w1, p1);
    ServeKeepsInv(cookies, w1, p1);
    var w2 := Serve(cookies, w1, p1);
    EchoEffect(w2, p2);
    EchoKeepsInv(w2, p2);
    var w3 := Reply(w2, p2);
    NowWaiting(w3.client, e.ident);
    AnswerEffect(cookies, w3, p3);
    ServeKeepsInv(cookies, w3, p3);
    EndingEffect(Serve(cookies, w3, p3), p4);
  }

  lemma NotServed(w: World, id: U64)
    requires Inv(w) && id !in w.begun
    ensures id !in w.server.table
  {
  }

  lemma NowWaiting(t: Tables<U64, ClientData>, id: U64)
    requires id in t.table
    ensures id in Known(t) && Known(t)[id] == t.table[id]
  {
  }
}
