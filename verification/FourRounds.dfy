// One batch of N connections through the whole HelloBye exchange: connect, then server,
// client, server, client, each handing its whole batch to the next.
module FourRounds {
  import opened Words
  import opened Options
  import opened StateMachines
  import opened Machines
  import opened HelloBye
  import opened Agreement

  datatype Peer = Peer(srcIp: U32, dstIp: U32, srcPort: U16, dstPort: U16, ident: U64, cookie: U8) {
    function Hello(): State<ClientData> {
      CreateHello(srcIp, dstIp, srcPort, dstPort, ident, cookie)
    }
  }

  const NO_CLIENTS: Tables<U64, ClientData> := Tables(map[], map[], 0, 0)
  const NO_SESSIONS: Tables<U64, ServerData> := Tables(map[], map[], 0, 0)

  // Every client opens its connection with a packet of its own.
  function ConnectAll(peers: seq<Peer>, buffers: seq<Pkt>): (b: Batch<U64, ClientData, Pkt>)
    requires |buffers| == |peers|
    ensures |b.results| == |peers|
  {
    if peers == [] then Batch(NO_CLIENTS, [])
    else
      var n := |peers| - 1;
      var front := ConnectAll(peers[..n], buffers[..n]);
      var ran := AddState(ClientConfig(), front.t, peers[n].ident, peers[n].Hello(), buffers[n]);
      Batch(ran.t, front.results + [ran.result])
  }

  datatype Rounds = Rounds(
    connect: Batch<U64, ClientData, Pkt>,
    hello: Batch<U64, ServerData, Pkt>, echo: Batch<U64, ClientData, Pkt>,
    bye: Batch<U64, ServerData, Pkt>, end: Batch<U64, ClientData, Pkt>)

  function Play(cookies: nat -> U8, peers: seq<Peer>, buffers: seq<Pkt>): Rounds
    requires |buffers| == |peers|
  {
    var connect := ConnectAll(peers, buffers);
    var hello := RunBatch(ServerConfig(cookies), NO_SESSIONS, ResultMsgs(connect.results));
    var echo := RunBatch(ClientConfig(), connect.t, ResultMsgs(hello.results));
    var bye := RunBatch(ServerConfig(cookies), hello.t, ResultMsgs(echo.results));
    var end := RunBatch(ClientConfig(), echo.t, ResultMsgs(bye.results));
    Rounds(connect, hello, echo, bye, end)
  }

  ghost predicate Distinct(peers: seq<Peer>) {
    forall j, k :: 0 <= j < k < |peers| ==> peers[j].ident != peers[k].ident
  }

  ghost predicate Named(peers: seq<Peer>, id: U64) {
    exists k :: 0 <= k < |peers| && peers[k].ident == id
  }

  // Packet k of the batch belongs to peer k.
  ghost predicate Aligned(peers: seq<Peer>, ms: seq<Pkt>) {
    |ms| == |peers| && forall k :: 0 <= k < |peers| ==> Identify(ms[k]) == Some(peers[k].ident)
  }

  lemma AlignedAreDistinct<D>(cfg: Config<U64, D, Pkt>, peers: seq<Peer>, ms: seq<Pkt>)
    requires Distinct(peers) && Aligned(peers, ms) && cfg.identify == Identify
    ensures DistinctIds(cfg, ms)
  {
  }

  // --- table sizes ---

  lemma {:induction false} SizeOfNamed(peers: seq<Peer>, ids: set<U64>)
    requires Distinct(peers) && forall id :: id in ids <==> Named(peers, id)
    ensures |ids| == |peers|
  {
    if peers == [] {
      assert ids == {};
    } else {
      var n := |peers| - 1;
      var last, rest := peers[n].ident, ids - {peers[n].ident};
      assert Named(peers, last);
      forall id ensures id in rest <==> Named(peers[..n], id) {
        if Named(peers[..n], id) {
          var k :| 0 <= k < n && peers[..n][k].ident == id;
          assert peers[k].ident == id;
        }
        if id in rest {
          var k :| 0 <= k < |peers| && peers[k].ident == id;
          assert peers[..n][k].ident == id;
        }
      }
      SizeOfNamed(peers[..n], rest);
    }
  }

  lemma TableOfAll<D>(t: Tables<U64, D>, peers: seq<Peer>)
    requires Distinct(peers) && forall id :: id in t.table <==> Named(peers, id)
    ensures |t.table| == |peers|
  {
    SizeOfNamed(peers, t.table.Keys);
    assert |t.table| == |t.table.Keys|;
  }

  // --- connect ---

  lemma {:induction false} ConnectAllAt(peers: seq<Peer>, buffers: seq<Pkt>, k: nat)
    requires |buffers| == |peers| && Distinct(peers) && k < |peers|
    ensures var b := ConnectAll(peers, buffers);
            && b.results[k] == Result(HelloPkt(peers[k].Hello().data), true, [])
            && EntryAt(b.t, peers[k].ident) == Entry(None, Some(State(peers[k].Hello().data, C_BYE)))
  {
    var n := |peers| - 1;
    ConnectAllElse(peers[..n], buffers[..n], peers[n].ident);
    if k < n {
      ConnectAllAt(peers[..n], buffers[..n], k);
    }
  }

  lemma {:induction false} ConnectAllElse(peers: seq<Peer>, buffers: seq<Pkt>, id: U64)
    requires |buffers| == |peers|
    ensures ConnectAll(peers, buffers).t.table == map[]
    ensures !Named(peers, id) ==> EntryAt(ConnectAll(peers, buffers).t, id) == Entry(None, None)
  {
    if peers != [] {
      var n := |peers| - 1;
      ConnectAllElse(peers[..n], buffers[..n], id);
      assert Named(peers, peers[n].ident);
      if Named(peers[..n], id) {
        var k :| 0 <= k < n && peers[..n][k].ident == id;
        assert peers[k].ident == id;
      }
    }
  }

  // --- one connection through the four rounds ---

  // Round 1: a session is created, remembers the client's cookie, and answers with its own.
  lemma HelloRound(cookies: nat -> U8, peers: seq<Peer>, ms: seq<Pkt>, k: nat)
    requires Distinct(peers) && Aligned(peers, ms) && k < |peers|
    requires ms[k].Says(ROLE_CLIENT, MSG_HELLO) && ms[k].cookie == peers[k].cookie
    ensures var b, id := RunBatch(ServerConfig(cookies), NO_SESSIONS, ms), peers[k].ident;
            && b.results[k].send && Identify(b.results[k].msg) == Some(id)
            && b.results[k].msg.Says(ROLE_SERVER, MSG_HELLO)
            && EntryAt(b.t, id)
               == Entry(Some(State(ServerData(peers[k].cookie, b.results[k].msg.cookie), S_BYE)), None)
  {
    hide RunPkt;
    AlignedAreDistinct(ServerConfig(cookies), peers, ms);
    BatchActsPointwise(ServerConfig(cookies), NO_SESSIONS, ms, k);
    ServerStep(cookies, NO_SESSIONS.(added := RunBatch(ServerConfig(cookies), NO_SESSIONS, ms[..k]).t.added), ms[k]);
  }

  // Round 2: the client adopts its connection from the pool and echoes the server's cookie.
  lemma EchoRound(peers: seq<Peer>, t: Tables<U64, ClientData>, ms: seq<Pkt>, k: nat)
    requires Distinct(peers) && Aligned(peers, ms) && k < |peers|
    requires EntryAt(t, peers[k].ident) == Entry(None, Some(State(peers[k].Hello().data, C_BYE)))
    requires ms[k].Says(ROLE_SERVER, MSG_HELLO)
    ensures var b, id := RunBatch(ClientConfig(), t, ms), peers[k].ident;
            && b.results[k].send && Identify(b.results[k].msg) == Some(id)
            && b.results[k].msg.Says(ROLE_CLIENT, MSG_BYE) && b.results[k].msg.cookie == ms[k].cookie
            && EntryAt(b.t, id)
               == Entry(Some(State(peers[k].Hello().data.(serverCookie := ms[k].cookie), C_RECV_BYE)), None)
  {
    hide RunPkt;
    AlignedAreDistinct(ClientConfig(), peers, ms);
    BatchActsPointwise(ClientConfig(), t, ms, k);
    ClientStep(t.(added := RunBatch(ClientConfig(), t, ms[..k]).t.added), ms[k]);
  }

  // Round 3: the session recognises its cookie, returns the client's, and is gone.
  lemma ByeRound(cookies: nat -> U8, peers: seq<Peer>, t: Tables<U64, ServerData>, ms: seq<Pkt>, k: nat)
    requires Distinct(peers) && Aligned(peers, ms) && k < |peers| && t.pool == map[]
    requires EntryAt(t, peers[k].ident) == Entry(Some(State(ServerData(peers[k].cookie, ms[k].cookie), S_BYE)), None)
    requires ms[k].Says(ROLE_CLIENT, MSG_BYE)
    ensures var b, id := RunBatch(ServerConfig(cookies), t, ms), peers[k].ident;
            && b.results[k].send && Identify(b.results[k].msg) == Some(id)
            && b.results[k].msg.Says(ROLE_SERVER, MSG_BYE) && b.results[k].msg.cookie == peers[k].cookie
            && EntryAt(b.t, id) == Entry(None, None)
  {
    hide RunPkt;
    AlignedAreDistinct(ServerConfig(cookies), peers, ms);
    BatchActsPointwise(ServerConfig(cookies), t, ms, k);
    ServerStep(cookies, t.(added := RunBatch(ServerConfig(cookies), t, ms[..k]).t.added), ms[k]);
  }

  // Round 4: the client recognises its cookie, frees the packet, and is gone.
  lemma EndRound(peers: seq<Peer>, t: Tables<U64, ClientData>, ms: seq<Pkt>, k: nat, serverCookie: U8)
    requires Distinct(peers) && Aligned(peers, ms) && k < |peers|
    requires EntryAt(t, peers[k].ident)
          == Entry(Some(State(peers[k].Hello().data.(serverCookie := serverCookie), C_RECV_BYE)), None)
    requires ms[k].Says(ROLE_SERVER, MSG_BYE) && ms[k].cookie == peers[k].cookie
    ensures var b, id := RunBatch(ClientConfig(), t, ms), peers[k].ident;
            && !b.results[k].send && EntryAt(b.t, id) == Entry(None, None)
            && EndingOf(t.table[id].data, ms[k]) == Success
  {
    hide RunPkt;
    AlignedAreDistinct(ClientConfig(), peers, ms);
    BatchActsPointwise(ClientConfig(), t, ms, k);
    ClientStep(t.(added := RunBatch(ClientConfig(), t, ms[..k]).t.added), ms[k]);
  }

  // --- the whole batch ---

  ghost predicate AllSent<M>(results: seq<Result<M>>) {
    forall k :: 0 <= k < |results| ==> results[k].send
  }

  ghost predicate AllFreed<M>(results: seq<Result<M>>) {
    forall k :: 0 <= k < |results| ==> !results[k].send
  }

  lemma Bystander<D>(cfg: Config<U64, D, Pkt>, peers: seq<Peer>, t: Tables<U64, D>, ms: seq<Pkt>, id: U64)
    requires Aligned(peers, ms) && cfg.identify == Identify && !Named(peers, id)
    ensures EntryAt(RunBatch(cfg, t, ms).t, id) == EntryAt(t, id)
  {
    BatchFrame(cfg, t, ms, id);
  }

  // Exactly the peers' connections are in the table, and none is parked.
  ghost predicate Serving<D>(t: Tables<U64, D>, peers: seq<Peer>) {
    && (forall id: U64 :: Lookup(t.table, id).Some? <==> Named(peers, id))
    && (forall id: U64 :: Lookup(t.pool, id) == None)
  }

  lemma ServingTable<D>(t: Tables<U64, D>, peers: seq<Peer>)
    requires Distinct(peers) && Serving(t, peers)
    ensures |t.table| == |peers| && t.pool == map[]
  {
    forall id ensures (id in t.table <==> Named(peers, id)) && id !in t.pool {
      assert Lookup(t.table, id).Some? <==> id in t.table;
      assert Lookup(t.pool, id) == None <==> id !in t.pool;
    }
    TableOfAll(t, peers);
  }

  lemma EmptyTable<D>(t: Tables<U64, D>)
    requires forall id: U64 :: EntryAt(t, id) == Entry(None, None)
    ensures t.table == map[] && t.pool == map[]
  {
    forall id ensures id !in t.table && id !in t.pool {
      assert EntryAt(t, id) == Entry(None, None);
    }
  }

  // What all packets of a round say.
  ghost predicate Speech(peers: seq<Peer>, ms: seq<Pkt>, role: U8, kind: U8) {
    Aligned(peers, ms) && forall k :: 0 <= k < |peers| ==> ms[k].Says(role, kind)
  }

  ghost predicate CarriesClientCookies(peers: seq<Peer>, ms: seq<Pkt>) {
    |ms| == |peers| && forall k :: 0 <= k < |peers| ==> ms[k].cookie == peers[k].cookie
  }

  lemma ConnectBatch(peers: seq<Peer>, buffers: seq<Pkt>)
    requires |buffers| == |peers| && Distinct(peers)
    ensures var b := ConnectAll(peers, buffers);
            && Speech(peers, ResultMsgs(b.results), ROLE_CLIENT, MSG_HELLO)
            && CarriesClientCookies(peers, ResultMsgs(b.results)) && b.t.table == map[] && AllSent(b.results)
    ensures forall id: U64 :: !Named(peers, id) ==> EntryAt(ConnectAll(peers, buffers).t, id) == Entry(None, None)
  {
    forall k | 0 <= k < |peers|
      ensures ConnectAll(peers, buffers).results[k] == Result(HelloPkt(peers[k].Hello().data), true, [])
    {
      ConnectAllAt(peers, buffers, k);
    }
    forall id: U64 ensures !Named(peers, id) ==> EntryAt(ConnectAll(peers, buffers).t, id) == Entry(None, None) {
      ConnectAllElse(peers, buffers, id);
    }
    ConnectAllElse(peers, buffers, 0);
  }

  lemma HelloBatch(cookies: nat -> U8, peers: seq<Peer>, ms: seq<Pkt>)
    requires Distinct(peers) && Speech(peers, ms, ROLE_CLIENT, MSG_HELLO) && CarriesClientCookies(peers, ms)
    ensures var b := RunBatch(ServerConfig(cookies), NO_SESSIONS, ms);
            && AllSent(b.results) && Speech(peers, ResultMsgs(b.results), ROLE_SERVER, MSG_HELLO) && Serving(b.t, peers)
            && forall k :: 0 <= k < |peers| ==>
                 EntryAt(b.t, peers[k].ident)
                 == Entry(Some(State(ServerData(peers[k].cookie, b.results[k].msg.cookie), S_BYE)), None)
  {
    hide RunBatch;
    var b := RunBatch(ServerConfig(cookies), NO_SESSIONS, ms);
    forall k | 0 <= k < |peers|
      ensures b.results[k].send && Identify(b.results[k].msg) == Some(peers[k].ident)
           && b.results[k].msg.Says(ROLE_SERVER, MSG_HELLO)
           && EntryAt(b.t, peers[k].ident)
              == Entry(Some(State(ServerData(peers[k].cookie, b.results[k].msg.cookie), S_BYE)), None)
    {
      HelloRound(cookies, peers, ms, k);
    }
    forall id: U64 ensures (Lookup(b.t.table, id).Some? <==> Named(peers, id)) && Lookup(b.t.pool, id) == None {
      if k :| 0 <= k < |peers| && peers[k].ident == id {
        assert EntryAt(b.t, peers[k].ident).own.Some?;
      } else {
        Bystander(ServerConfig(cookies), peers, NO_SESSIONS, ms, id);
        assert EntryAt(b.t, id) == Entry(None, None);
      }
    }
  }

  lemma EchoBatch(peers: seq<Peer>, t: Tables<U64, ClientData>, ms: seq<Pkt>)
    requires Distinct(peers) && Speech(peers, ms, ROLE_SERVER, MSG_HELLO)
    requires forall k :: 0 <= k < |peers| ==>
               EntryAt(t, peers[k].ident) == Entry(None, Some(State(peers[k].Hello().data, C_BYE)))
    requires forall id: U64 :: !Named(peers, id) ==> EntryAt(t, id) == Entry(None, None)
    ensures var b := RunBatch(ClientConfig(), t, ms);
            && AllSent(b.results) && Speech(peers, ResultMsgs(b.results), ROLE_CLIENT, MSG_BYE) && Serving(b.t, peers)
            && (forall k :: 0 <= k < |peers| ==> b.results[k].msg.cookie == ms[k].cookie)
            && forall k :: 0 <= k < |peers| ==>
                 EntryAt(b.t, peers[k].ident)
                 == Entry(Some(State(peers[k].Hello().data.(serverCookie := ms[k].cookie), C_RECV_BYE)), None)
  {
    hide RunBatch;
    var b := RunBatch(ClientConfig(), t, ms);
    forall k | 0 <= k < |peers|
      ensures b.results[k].send && Identify(b.results[k].msg) == Some(peers[k].ident)
           && b.results[k].msg.Says(ROLE_CLIENT, MSG_BYE) && b.results[k].msg.cookie == ms[k].cookie
           && EntryAt(b.t, peers[k].ident)
              == Entry(Some(State(peers[k].Hello().data.(serverCookie := ms[k].cookie), C_RECV_BYE)), None)
    {
      EchoRound(peers, t, ms, k);
    }
    forall id: U64 ensures (Lookup(b.t.table, id).Some? <==> Named(peers, id)) && Lookup(b.t.pool, id) == None {
      if k :| 0 <= k < |peers| && peers[k].ident == id {
        assert EntryAt(b.t, peers[k].ident).own.Some?;
      } else {
        Bystander(ClientConfig(), peers, t, ms, id);
        assert EntryAt(b.t, id) == Entry(None, None);
      }
    }
  }

  lemma ByeBatch(cookies: nat -> U8, peers: seq<Peer>, t: Tables<U64, ServerData>, ms: seq<Pkt>)
    requires Distinct(peers) && Speech(peers, ms, ROLE_CLIENT, MSG_BYE) && Serving(t, peers)
    requires forall k :: 0 <= k < |peers| ==>
               EntryAt(t, peers[k].ident)
               == Entry(Some(State(ServerData(peers[k].cookie, ms[k].cookie), S_BYE)), None)
    ensures var b := RunBatch(ServerConfig(cookies), t, ms);
            && AllSent(b.results) && Speech(peers, ResultMsgs(b.results), ROLE_SERVER, MSG_BYE)
            && CarriesClientCookies(peers, ResultMsgs(b.results)) && b.t.table == map[] && b.t.pool == map[]
  {
    hide RunBatch;
    var b := RunBatch(ServerConfig(cookies), t, ms);
    ServingTable(t, peers);
    forall k | 0 <= k < |peers|
      ensures b.results[k].send && Identify(b.results[k].msg) == Some(peers[k].ident)
           && b.results[k].msg.Says(ROLE_SERVER, MSG_BYE) && b.results[k].msg.cookie == peers[k].cookie
           && EntryAt(b.t, peers[k].ident) == Entry(None, None)
    {
      ByeRound(cookies, peers, t, ms, k);
    }
    forall id: U64 ensures EntryAt(b.t, id) == Entry(None, None) {
      if !Named(peers, id) {
        Bystander(ServerConfig(cookies), peers, t, ms, id);
        assert Lookup(t.table, id) == None;
      }
    }
    EmptyTable(b.t);
  }

  lemma EndBatch(peers: seq<Peer>, t: Tables<U64, ClientData>, ms: seq<Pkt>, echoed: seq<Pkt>)
    requires Distinct(peers) && Speech(peers, ms, ROLE_SERVER, MSG_BYE) && CarriesClientCookies(peers, ms)
    requires Serving(t, peers) && |echoed| == |peers|
    requires forall k :: 0 <= k < |peers| ==>
               EntryAt(t, peers[k].ident)
               == Entry(Some(State(peers[k].Hello().data.(serverCookie := echoed[k].cookie), C_RECV_BYE)), None)
    ensures var b := RunBatch(ClientConfig(), t, ms);
            AllFreed(b.results) && b.t.table == map[] && b.t.pool == map[]
  {
    hide RunBatch;
    var b := RunBatch(ClientConfig(), t, ms);
    forall k | 0 <= k < |peers| ensures !b.results[k].send && EntryAt(b.t, peers[k].ident) == Entry(None, None) {
      EndRound(peers, t, ms, k, echoed[k].cookie);
    }
    forall id: U64 ensures EntryAt(b.t, id) == Entry(None, None) {
      if !Named(peers, id) {
        Bystander(ClientConfig(), peers, t, ms, id);
        assert Lookup(t.table, id) == None;
      }
    }
    EmptyTable(b.t);
  }

  // For any N distinct connections, any cookies on either side and any buffers: the table
  // sizes (client, server) after the four batches are (0, N), (N, N), (N, 0), (0, 0); the
  // first three batches send every packet, and the last frees every packet.
  lemma FourRoundsComplete(cookies: nat -> U8, peers: seq<Peer>, buffers: seq<Pkt>)
    requires |buffers| == |peers| && Distinct(peers)
    ensures var r, n := Play(cookies, peers, buffers), |peers|;
            && |r.connect.t.table| == 0 && AllSent(r.connect.results)
            && |r.hello.t.table| == n && AllSent(r.hello.results)
            && |r.echo.t.table| == n && AllSent(r.echo.results) && r.echo.t.pool == map[]
            && |r.bye.t.table| == 0 && AllSent(r.bye.results)
            && |r.end.t.table| == 0 && AllFreed(r.end.results)
            && |r.end.results| == n
  {
    hide RunBatch, Speech, CarriesClientCookies, Serving, AllSent, AllFreed;
    var r := Play(cookies, peers, buffers);
    ConnectBatch(peers, buffers);
    forall k | 0 <= k < |peers|
      ensures EntryAt(r.connect.t, peers[k].ident) == Entry(None, Some(State(peers[k].Hello().data, C_BYE)))
    {
      ConnectAllAt(peers, buffers, k);
    }
    HelloBatch(cookies, peers, ResultMsgs(r.connect.results));
    ServingTable(r.hello.t, peers);
    EchoBatch(peers, r.connect.t, ResultMsgs(r.hello.results));
    ServingTable(r.echo.t, peers);
    ByeBatch(cookies, peers, r.hello.t, ResultMsgs(r.echo.results));
    EndBatch(peers, r.echo.t, ResultMsgs(r.bye.results), ResultMsgs(r.hello.results));
  }
}
