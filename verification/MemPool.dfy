// The memory-pool variant of the HelloBye3 server: session records are borrowed from a
// fixed pool instead of the heap. On values first, with a counter of allocator faults, then
// in place.
module MemPools {
  import opened Words
  import opened Options
  import opened StateMachines
  import opened Machines
  import opened HelloBye
  import opened FunIfaces
  import Agreement

  // A connection in the table: its state id and the record it borrows.
  datatype Session = Session(state: nat, rec: nat)

  // Free records, the content of every record, and the connection table. `faults` counts
  // records given back while they were already free.
  datatype Pool = Pool(free: set<nat>, mem: seq<ServerData>, table: map<U64, Session>, faults: nat)

  // The allocator chooses any free record (`pick`); `cookie` is the new session's rand() % 256.
  datatype Arrival = Arrival(p: Pkt, pick: nat, cookie: U8)

  datatype Stepped = Stepped(s: Pool, result: Result<Pkt>, exhausted: bool)

  function Put(s: Pool, rec: nat): Pool {
    s.(free := s.free + {rec}, faults := s.faults + if rec in s.free then 1 else 0)
  }

  function Record(s: Pool, rec: nat): ServerData {
    if rec < |s.mem| then s.mem[rec] else ServerData(0, 0)
  }

  function Store(s: Pool, rec: nat, d: ServerData): Pool {
    if rec < |s.mem| then s.(mem := s.mem[rec := d]) else s
  }

  // A record given back while lent becomes free; given back while free it is a fault.
  lemma PutFaultsIff(s: Pool, rec: nat)
    ensures Put(s, rec).faults == s.faults + 1 <==> rec in s.free
    ensures Put(s, rec).free == s.free + {rec} && Put(s, rec).faults >= s.faults
    ensures Put(s, rec).mem == s.mem && Put(s, rec).table == s.table
  {
  }

  // A handler's effect on the pool, the state it moves to, and what becomes of the packet.
  datatype Handled = Handled(s: Pool, state: nat, result: Result<Pkt>)

  // The handlers: every branch that terminates gives the record back.
  function PoolHello(s: Pool, rec: nat, p: Pkt): Handled {
    if p.role != ROLE_CLIENT then Handled(Put(s, rec), S_TERMINATE, Result(p, false, []))
    else if p.kind != MSG_HELLO then Handled(Put(s, rec), S_TERMINATE, Result(p, false, []))
    else
      var d := Record(s, rec).(clientCookie := p.cookie);
      Handled(Store(s, rec, d), S_BYE,
              Result(p.Saying(ROLE_SERVER, MSG_HELLO, d.serverCookie).Turned(), true, []))
  }

  function PoolBye(s: Pool, rec: nat, p: Pkt): Handled {
    if !p.Says(ROLE_CLIENT, MSG_BYE) then Handled(Put(s, rec), S_TERMINATE, Result(p, false, []))
    else if p.cookie != Record(s, rec).serverCookie then Handled(Put(s, rec), S_TERMINATE, Result(p, false, []))
    else
      Handled(Put(s, rec), S_TERMINATE,
              Result(p.Saying(ROLE_SERVER, MSG_BYE, Record(s, rec).clientCookie).Turned(), true, []))
  }

  function ServePooled(s: Pool, id: U64, p: Pkt): Stepped
    requires id in s.table
  {
    var session := s.table[id];
    var out := if session.state == S_HELLO then PoolHello(s, session.rec, p) else PoolBye(s, session.rec, p);
    if out.state == S_TERMINATE then Stepped(out.s.(table := out.s.table - {id}), out.result, false)
    else Stepped(out.s.(table := out.s.table[id := Session(out.state, session.rec)]), out.result, false)
  }

  // The factory: take a record and fill it in.
  function Get(s: Pool, id: U64, pick: nat, cookie: U8): Pool {
    Store(s, pick, ServerData(0, cookie)).(free := s.free - {pick}, table := s.table[id := Session(S_HELLO, pick)])
  }

  // A new connection with no record left throws out of the batch before anything changes.
  function Step(s: Pool, a: Arrival): Stepped {
    match Identify(a.p)
    case None => Stepped(s, Result(a.p, false, []), false)
    case Some(id) =>
      if id in s.table then ServePooled(s, id, a.p)
      else if s.free == {} then Stepped(s, Result(a.p, false, []), true)
      else ServePooled(Get(s, id, a.pick, a.cookie), id, a.p)
  }

  // Where a record is allocated, it is a free one.
  predicate Feasible(s: Pool, a: Arrival) {
    Identify(a.p).Some? && a.p.ident !in s.table && s.free != {} ==> a.pick in s.free
  }

  // The records of a pool, by number.
  function Below(n: nat): (all: set<nat>)
    ensures |all| == n && forall r: nat :: r in all <==> r < n
  {
    if n == 0 then {} else Below(n - 1) + {n - 1}
  }

  function Start(capacity: nat): Pool {
    Pool(Below(capacity), seq(capacity, _ => ServerData(0, 0)), map[], 0)
  }

  function Run(capacity: nat, arrivals: seq<Arrival>): Pool {
    if arrivals == [] then Start(capacity)
    else Step(Run(capacity, arrivals[..|arrivals| - 1]), arrivals[|arrivals| - 1]).s
  }

  // Every choice of the allocator was a free record.
  ghost predicate Allocates(capacity: nat, arrivals: seq<Arrival>) {
    forall k :: 0 <= k < |arrivals| ==> Feasible(Run(capacity, arrivals[..k]), arrivals[k])
  }

  // --- ownership ---

  ghost predicate Lent(s: Pool, rec: nat) {
    exists id :: id in s.table && s.table[id].rec == rec
  }

  // Every record is free or lent, never both; no two connections share one; nothing was ever
  // given back twice.
  ghost predicate Owned(s: Pool, capacity: nat) {
    && |s.mem| == capacity
    && (forall r :: r in s.free ==> 0 <= r < capacity)
    && (forall id :: id in s.table ==> 0 <= s.table[id].rec < capacity && s.table[id].rec !in s.free)
    && (forall i, j :: i in s.table && j in s.table && i != j ==> s.table[i].rec != s.table[j].rec)
    && (forall r :: 0 <= r < capacity && r !in s.free ==> Lent(s, r))
    && s.faults == 0
  }

  lemma GetKeepsOwned(s: Pool, capacity: nat, id: U64, pick: nat, cookie: U8)
    requires Owned(s, capacity) && id !in s.table && pick in s.free
    ensures Owned(Get(s, id, pick, cookie), capacity)
  {
    var t := Get(s, id, pick, cookie);
    forall r | 0 <= r < capacity && r !in t.free ensures Lent(t, r) {
      if r == pick {
        assert t.table[id].rec == r;
      } else {
        var i :| i in s.table && s.table[i].rec == r;
        assert i in t.table && t.table[i].rec == r;
      }
    }
  }

  // The two ways a served connection goes on: its record is returned and it is gone, or it
  // keeps its record, which has been rewritten.
  function Removed(s: Pool, id: U64): Pool
    requires id in s.table
  {
    Put(s, s.table[id].rec).(table := s.table - {id})
  }

  function Rewritten(s: Pool, id: U64, d: ServerData): Pool
    requires id in s.table
  {
    Store(s, s.table[id].rec, d).(table := s.table[id := Session(S_BYE, s.table[id].rec)])
  }

  lemma ServedEither(s: Pool, id: U64, p: Pkt)
    requires id in s.table
    ensures var d := Record(s, s.table[id].rec).(clientCookie := p.cookie);
            ServePooled(s, id, p).s
            == if s.table[id].state == S_HELLO && p.Says(ROLE_CLIENT, MSG_HELLO) then Rewritten(s, id, d) else Removed(s, id)
  {
  }

  lemma RemovedKeepsOwned(s: Pool, capacity: nat, id: U64)
    requires Owned(s, capacity) && id in s.table
    ensures Owned(Removed(s, id), capacity)
  {
    var t := Removed(s, id);
    forall r | 0 <= r < capacity && r !in t.free ensures Lent(t, r) {
      var i :| i in s.table && s.table[i].rec == r;
      assert i in t.table && t.table[i].rec == r;
    }
  }

  lemma RewrittenKeepsOwned(s: Pool, capacity: nat, id: U64, d: ServerData)
    requires Owned(s, capacity) && id in s.table
    ensures Owned(Rewritten(s, id, d), capacity)
  {
    var t := Rewritten(s, id, d);
    forall r | 0 <= r < capacity && r !in t.free ensures Lent(t, r) {
      var i :| i in s.table && s.table[i].rec == r;
      assert i in t.table && t.table[i].rec == r;
    }
  }

  lemma ServeKeepsOwned(s: Pool, capacity: nat, id: U64, p: Pkt)
    requires Owned(s, capacity) && id in s.table
    ensures Owned(ServePooled(s, id, p).s, capacity)
  {
    hide Owned, ServePooled, Removed, Rewritten;
    ServedEither(s, id, p);
    RemovedKeepsOwned(s, capacity, id);
    RewrittenKeepsOwned(s, capacity, id, Record(s, s.table[id].rec).(clientCookie := p.cookie));
  }

  lemma StepKeepsOwned(s: Pool, capacity: nat, a: Arrival)
    requires Owned(s, capacity) && Feasible(s, a)
    ensures Owned(Step(s, a).s, capacity)
  {
    hide Owned, ServePooled, Get;
    match Identify(a.p)
    case None =>
    case Some(id) =>
      if id in s.table {
        ServeKeepsOwned(s, capacity, id, a.p);
      } else if s.free != {} {
        GetKeepsOwned(s, capacity, id, a.pick, a.cookie);
        GetEnters(s, id, a.pick, a.cookie);
        ServeKeepsOwned(Get(s, id, a.pick, a.cookie), capacity, id, a.p);
      }
  }

  lemma InPool(s: Pool, capacity: nat, rec: nat)
    requires Owned(s, capacity) && rec in s.free
    ensures rec < capacity
  {
  }

  lemma GetEnters(s: Pool, id: U64, pick: nat, cookie: U8)
    ensures id in Get(s, id, pick, cookie).table
  {
  }

  // Over all runs, whatever arrives and whatever the allocator picks.
  lemma {:induction false} RunIsOwned(capacity: nat, arrivals: seq<Arrival>)
    requires Allocates(capacity, arrivals)
    ensures Owned(Run(capacity, arrivals), capacity)
  {
    hide Step, Owned, Feasible;
    if arrivals == [] {
      StartIsOwned(capacity);
    } else {
      var n := |arrivals| - 1;
      assert forall k :: 0 <= k < n ==> arrivals[..n][..k] == arrivals[..k];
      RunIsOwned(capacity, arrivals[..n]);
      assert Feasible(Run(capacity, arrivals[..n]), arrivals[n]);
      StepKeepsOwned(Run(capacity, arrivals[..n]), capacity, arrivals[n]);
    }
  }

  lemma StartIsOwned(capacity: nat)
    ensures Owned(Start(capacity), capacity)
  {
  }

  // Free records and live connections add up to the capacity of the pool.
  lemma RecordsAreConserved(capacity: nat, arrivals: seq<Arrival>)
    requires Allocates(capacity, arrivals)
    ensures var s := Run(capacity, arrivals); |s.free| + |s.table| == capacity && s.faults == 0
  {
    hide Run;
    RunIsOwned(capacity, arrivals);
    CountRecords(Run(capacity, arrivals), capacity);
  }

  lemma CountRecords(s: Pool, capacity: nat)
    requires Owned(s, capacity)
    ensures |s.free| + |s.table| == capacity
  {
    var lent := LentRecords(s.table);
    assert s.free + lent == Below(capacity) && s.free * lent == {};
    CountLent(s.table);
  }

  ghost function LentRecords(table: map<U64, Session>): set<nat> {
    set id | id in table :: table[id].rec
  }

  lemma {:induction false} CountLent(table: map<U64, Session>)
    requires forall i, j :: i in table && j in table && i != j ==> table[i].rec != table[j].rec
    ensures |LentRecords(table)| == |table|
    decreases |table|
  {
    if id :| id in table {
      var rest := table - {id};
      assert rest.Keys == table.Keys - {id} && |rest| == |rest.Keys| && |table| == |table.Keys|;
      CountLent(rest);
      forall r: nat ensures r in LentRecords(table) <==> r in LentRecords(rest) || r == table[id].rec {
        if r in LentRecords(table) {
          var i :| i in table && table[i].rec == r;
          assert i == id || (i in rest && rest[i].rec == r);
        }
      }
      assert LentRecords(table) == LentRecords(rest) + {table[id].rec};
    } else {
      assert |table| == |table.Keys| && table.Keys == {};
      assert LentRecords(table) == {};
    }
  }

  // A record comes back in the very step that takes its connection out of the table.
  lemma ReturnedWhenRemoved(s: Pool, capacity: nat, a: Arrival, id: U64)
    requires Owned(s, capacity) && Feasible(s, a) && id in s.table
    ensures var t, rec := Step(s, a).s, s.table[id].rec;
            if id in t.table then t.table[id].rec == rec && rec !in t.free else rec in t.free
  {
    hide Get;
    StepKeepsOwned(s, capacity, a);
    StepFrame(s, a, id);
  }

  // --- the pool behaves like the heap ---

  // Between packets every session waits for the client's BYE.
  ghost predicate AtRest(s: Pool) {
    forall id :: id in s.table ==> s.table[id].state == S_BYE
  }

  lemma {:induction false} RunIsAtRest(capacity: nat, arrivals: seq<Arrival>)
    ensures AtRest(Run(capacity, arrivals))
  {
    if arrivals != [] {
      RunIsAtRest(capacity, arrivals[..|arrivals| - 1]);
    }
  }

  // The table with every record read through its handle.
  function Deref(s: Pool): map<U64, State<ServerData>> {
    map id | id in s.table :: State(Record(s, s.table[id].rec), s.table[id].state)
  }

  lemma DerefRemoved(s: Pool, id: U64)
    requires id in s.table
    ensures Deref(Removed(s, id)) == Deref(s) - {id}
  {
  }

  // Records are apart: rewriting one touches no other connection.
  lemma DerefRewritten(s: Pool, capacity: nat, id: U64, d: ServerData)
    requires Owned(s, capacity) && id in s.table
    ensures Deref(Rewritten(s, id, d)) == Deref(s)[id := State(d, S_BYE)]
  {
  }

  lemma GetGives(s: Pool, capacity: nat, id: U64, pick: nat, cookie: U8)
    requires Owned(s, capacity) && pick in s.free
    ensures var g := Get(s, id, pick, cookie);
            && id in g.table && g.table[id] == Session(S_HELLO, pick) && Record(g, pick) == ServerData(0, cookie)
    ensures forall r: nat :: r != pick ==> Record(Get(s, id, pick, cookie), r) == Record(s, r)
    ensures forall i :: i in s.table ==> s.table[i].rec != pick
  {
  }

  lemma DerefGet(s: Pool, capacity: nat, id: U64, pick: nat, cookie: U8)
    requires Owned(s, capacity) && pick in s.free
    ensures Deref(Get(s, id, pick, cookie))
         == Deref(s)[id := State(ServerData(0, cookie), S_HELLO)]
  {
    hide Owned, Record;
    GetGives(s, capacity, id, pick, cookie);
  }

  lemma ServesLikeHeap(s: Pool, id: U64, p: Pkt)
    requires id in s.table
    ensures var st := State(Record(s, s.table[id].rec), s.table[id].state);
            var out := if st.state == S_HELLO then ServerHello(st, p) else ServerBye(st, p);
            && ServePooled(s, id, p).result == Result(out.msg, out.send, [])
            && out.st == (if st.state == S_HELLO && p.Says(ROLE_CLIENT, MSG_HELLO)
                          then State(st.data.(clientCookie := p.cookie), S_BYE)
                          else State(st.data, S_TERMINATE))
  {
  }

  lemma ServeRefines(s: Pool, capacity: nat, id: U64, p: Pkt)
    requires Owned(s, capacity) && id in s.table
    ensures var st := State(Record(s, s.table[id].rec), s.table[id].state);
            var out := if st.state == S_HELLO then ServerHello(st, p) else ServerBye(st, p);
            && ServePooled(s, id, p).result == Result(out.msg, out.send, [])
            && Deref(ServePooled(s, id, p).s)
               == if out.st.state == S_TERMINATE then Deref(s) - {id} else Deref(s)[id := out.st]
  {
    hide ServePooled, Deref, Owned, Removed, Rewritten, Record;
    ServedEither(s, id, p);
    ServesLikeHeap(s, id, p);
    DerefRemoved(s, id);
    DerefRewritten(s, capacity, id, Record(s, s.table[id].rec).(clientCookie := p.cookie));
  }

  lemma NewRefines(s: Pool, capacity: nat, id: U64, pick: nat, cookie: U8, p: Pkt)
    requires Owned(s, capacity) && id !in s.table && pick in s.free
    ensures var out := ServerHello(State(ServerData(0, cookie), S_HELLO), p);
            var r := ServePooled(Get(s, id, pick, cookie), id, p);
            && r.result == Result(out.msg, out.send, [])
            && Deref(r.s)
               == if out.st.state == S_TERMINATE then Deref(s) - {id} else Deref(s)[id := out.st]
  {
    hide ServePooled, Deref, Owned, Get, Record, ServerHello;
    DerefGet(s, capacity, id, pick, cookie);
    GetGives(s, capacity, id, pick, cookie);
    GetKeepsOwned(s, capacity, id, pick, cookie);
    ServeRefines(Get(s, id, pick, cookie), capacity, id, p);
    var before, st := Deref(s), State(ServerData(0, cookie), S_HELLO);
    assert before[id := st] - {id} == before - {id};
  }

  // The packet needs a new session.
  predicate Creates(s: Pool, a: Arrival) {
    Identify(a.p).Some? && a.p.ident !in s.table
  }

  // As long as the pool is not exhausted, the pooled server sends and frees what the heap
  // server does, and holds the same sessions.
  lemma PoolRefinesHeap(s: Pool, capacity: nat, a: Arrival, cookies: nat -> U8, t: Tables<U64, ServerData>)
    requires Owned(s, capacity) && AtRest(s) && Feasible(s, a) && !Step(s, a).exhausted
    requires t.table == Deref(s) && t.pool == map[] && (Creates(s, a) ==> cookies(t.added) == a.cookie)
    ensures var ran := RunPkt(ServerConfig(cookies), t, a.p);
            && Deref(Step(s, a).s) == ran.t.table && Step(s, a).result == ran.result
            && ran.t.pool == map[] && ran.t.added == t.added + if Creates(s, a) then 1 else 0
  {
    hide RunPkt, ServePooled, Get, Owned;
    match Identify(a.p)
    case None => DropsUnidentified(ServerConfig(cookies), t, a.p);
    case Some(id) =>
      Agreement.ServerStep(cookies, t, a.p);
      if id in s.table {
        ServeRefines(s, capacity, id, a.p);
      } else {
        NewRefines(s, capacity, id, a.pick, a.cookie, a.p);
      }
  }

  function Packets(arrivals: seq<Arrival>): seq<Pkt> {
    seq(|arrivals|, k requires 0 <= k < |arrivals| => arrivals[k].p)
  }

  // What becomes of every packet of a run.
  function Results(capacity: nat, arrivals: seq<Arrival>): seq<Result<Pkt>> {
    if arrivals == [] then []
    else
      var front := arrivals[..|arrivals| - 1];
      Results(capacity, front) + [Step(Run(capacity, front), arrivals[|arrivals| - 1]).result]
  }

  // How many sessions a run has created, and so how many cookies it has drawn.
  function Drawn(capacity: nat, arrivals: seq<Arrival>): nat {
    if arrivals == [] then 0
    else
      var front := arrivals[..|arrivals| - 1];
      Drawn(capacity, front) + if Creates(Run(capacity, front), arrivals[|arrivals| - 1]) then 1 else 0
  }

  // Arrival k finds a record if it needs one, and gets the cookie that is drawn next.
  ghost predicate ServedAt(capacity: nat, arrivals: seq<Arrival>, cookies: nat -> U8, k: nat)
    requires k < |arrivals|
  {
    var s, a := Run(capacity, arrivals[..k]), arrivals[k];
    && Feasible(s, a) && !Step(s, a).exhausted
    && (Creates(s, a) ==> a.cookie == cookies(Drawn(capacity, arrivals[..k])))
  }

  const NO_TABLES: Tables<U64, ServerData> := Tables(map[], map[], 0, 0)

  function HeapRun(cookies: nat -> U8, arrivals: seq<Arrival>): Batch<U64, ServerData, Pkt> {
    RunBatch(ServerConfig(cookies), NO_TABLES, Packets(arrivals))
  }

  // Over every run in which the pool is never exhausted, the pooled server treats every packet
  // as the heap server does, and holds the same sessions at the end.
  lemma {:induction false} PooledRunIsHeapRun(capacity: nat, arrivals: seq<Arrival>, cookies: nat -> U8)
    requires forall k :: 0 <= k < |arrivals| ==> ServedAt(capacity, arrivals, cookies, k)
    ensures var heap := HeapRun(cookies, arrivals);
            && Deref(Run(capacity, arrivals)) == heap.t.table && Results(capacity, arrivals) == heap.results
            && heap.t.pool == map[] && heap.t.added == Drawn(capacity, arrivals)
  {
    hide Step, Owned, AtRest, RunPkt, Feasible, Deref, Creates;
    if arrivals == [] {
      NothingServed(capacity, cookies, arrivals);
    } else {
      var n := |arrivals| - 1;
      var front, a := arrivals[..n], arrivals[n];
      forall k | 0 <= k < n ensures ServedAt(capacity, front, cookies, k) {
        assert front[..k] == arrivals[..k];
        assert ServedAt(capacity, arrivals, cookies, k);
      }
      PooledRunIsHeapRun(capacity, front, cookies);
      assert Allocates(capacity, front) by {
        forall k | 0 <= k < n ensures Feasible(Run(capacity, front[..k]), front[k]) {
          assert ServedAt(capacity, front, cookies, k);
        }
      }
      assert ServedAt(capacity, arrivals, cookies, n);
      RunIsOwned(capacity, front);
      RunIsAtRest(capacity, front);
      PoolRefinesHeap(Run(capacity, front), capacity, a, cookies, HeapRun(cookies, front).t);
      assert Packets(arrivals)[..n] == Packets(front) && Packets(arrivals)[n] == a.p;
    }
  }

  lemma NothingServed(capacity: nat, cookies: nat -> U8, arrivals: seq<Arrival>)
    requires arrivals == []
    ensures Run(capacity, arrivals) == Start(capacity) && Deref(Start(capacity)) == map[]
    ensures HeapRun(cookies, arrivals) == Batch(NO_TABLES, [])
    ensures Results(capacity, arrivals) == [] && Drawn(capacity, arrivals) == 0
  {
  }

  lemma DropsUnidentified<D>(cfg: Config<U64, D, Pkt>, t: Tables<U64, D>, p: Pkt)
    requires cfg.identify(p) == None
    ensures RunPkt(cfg, t, p) == Ran(t, Result(p, false, []))
  {
  }

  // A new connection is refused for want of a record exactly when all records are lent.
  lemma ExhaustedIff(s: Pool, capacity: nat, a: Arrival)
    requires Owned(s, capacity)
    ensures Step(s, a).exhausted <==> Identify(a.p).Some? && a.p.ident !in s.table && |s.table| == capacity
    ensures Step(s, a).exhausted ==> Step(s, a).s == s && Step(s, a).result == Result(a.p, false, [])
  {
    CountRecords(s, capacity);
    assert |s.free| == 0 <==> s.free == {};
  }

  lemma StepFrame(s: Pool, a: Arrival, id: U64)
    requires id in s.table
    ensures var t, rec := Step(s, a).s, s.table[id].rec;
            if id in t.table then t.table[id].rec == rec else rec in t.free
  {
  }

  // --- in place ---

  class MemPool {
    var free: set<nat>
    const records: array<ServerData>

    constructor (capacity: nat)
      ensures fresh(records) && records.Length == capacity && free == Below(capacity)
      ensures forall r :: 0 <= r < capacity ==> records[r] == ServerData(0, 0)
    {
      records := new ServerData[capacity](_ => ServerData(0, 0));
      free := Below(capacity);
    }

    // rte_mempool_get
    method Get() returns (rec: Option<nat>)
      modifies this`free
      ensures if old(free) == {} then rec == None && free == old(free)
              else rec.Some? && rec.value in old(free) && free == old(free) - {rec.value}
    {
      if free == {} {
        return None;
      }
      var r :| r in free;
      free := free - {r};
      return Some(r);
    }

    // rte_mempool_put; giving back a free record would corrupt the pool.
    method Put(rec: nat)
      requires rec !in free
      modifies this`free
      ensures free == old(free) + {rec}
    {
      free := free + {rec};
    }
  }

  class PooledServer {
    var table: map<U64, Session>
    const mempool: MemPool

    ghost function View(): Pool
      reads this, mempool, mempool.records
    {
      Pool(mempool.free, mempool.records[..], table, 0)
    }

    ghost predicate Valid()
      reads this, mempool, mempool.records
    {
      Owned(View(), mempool.records.Length)
    }

    constructor (capacity: nat)
      ensures Valid() && View() == Start(capacity) && fresh(mempool) && fresh(mempool.records)
    {
      mempool := new MemPool(capacity);
      table := map[];
      new;
      assert View() == Start(capacity);
      StartIsOwned(capacity);
    }

    method RunHello(rec: nat, pkt: Mbuf<Pkt>, funIface: FunIface)
      requires rec < mempool.records.Length && rec !in mempool.free && funIface.sendPkt
      modifies mempool`free, mempool.records, pkt, funIface
      ensures Handled(View(), funIface.state, Result(pkt.msg, funIface.sendPkt, []))
           == PoolHello(old(View()), rec, old(pkt.msg))
    {
      var s := mempool.records[rec];
      assert s == Record(View(), rec);
      if pkt.msg.role != ROLE_CLIENT {
        funIface.Transition(S_TERMINATE);
        mempool.Put(rec);
        funIface.FreePkt();
        return;
      }
      if pkt.msg.kind != MSG_HELLO {
        funIface.Transition(S_TERMINATE);
        mempool.Put(rec);
        funIface.FreePkt();
        return;
      }
      mempool.records[rec] := s.(clientCookie := pkt.msg.cookie);
      pkt.msg := pkt.msg.(role := ROLE_SERVER, kind := MSG_HELLO);
      pkt.msg := pkt.msg.(cookie := s.serverCookie);
      TurnBack(pkt);
      funIface.Transition(S_BYE);
    }

    method RunBye(rec: nat, pkt: Mbuf<Pkt>, funIface: FunIface)
      requires rec < mempool.records.Length && rec !in mempool.free && funIface.sendPkt
      modifies mempool`free, pkt, funIface
      ensures Handled(View(), funIface.state, Result(pkt.msg, funIface.sendPkt, []))
           == PoolBye(old(View()), rec, old(pkt.msg))
    {
      var s := mempool.records[rec];
      assert s == Record(View(), rec);
      if pkt.msg.role != ROLE_CLIENT || pkt.msg.kind != MSG_BYE {
        funIface.Transition(S_TERMINATE);
        mempool.Put(rec);
        funIface.FreePkt();
        return;
      }
      if pkt.msg.cookie != s.serverCookie {
        funIface.Transition(S_TERMINATE);
        mempool.Put(rec);
        funIface.FreePkt();
        return;
      }
      pkt.msg := pkt.msg.(cookie := s.clientCookie);
      pkt.msg := pkt.msg.(role := ROLE_SERVER, kind := MSG_BYE);
      TurnBack(pkt);
      funIface.Transition(S_TERMINATE);
      mempool.Put(rec);
    }

    // One packet of a connection in the table.
    method Serve(id: U64, pkt: Mbuf<Pkt>) returns (send: bool)
      requires Valid() && id in table
      modifies this, mempool`free, mempool.records, pkt
      ensures Valid() && Stepped(View(), Result(pkt.msg, send, []), false) == ServePooled(old(View()), id, old(pkt.msg))
    {
      ServeKeepsOwned(View(), mempool.records.Length, id, pkt.msg);
      var session := table[id];
      var funIface := new FunIface(session.state);
      if session.state == S_HELLO {
        RunHello(session.rec, pkt, funIface);
      } else {
        RunBye(session.rec, pkt, funIface);
      }
      table := if funIface.state == S_TERMINATE then table - {id} else table[id := Session(funIface.state, session.rec)];
      send := funIface.sendPkt;
    }

    // One packet from the wire; `pick` is the record the allocator chose for a new session.
    method RunPkt(pkt: Mbuf<Pkt>, cookie: U8) returns (send: bool, exhausted: bool, ghost pick: nat)
      requires Valid()
      modifies this, mempool`free, mempool.records, pkt
      ensures Valid() && Feasible(old(View()), Arrival(old(pkt.msg), pick, cookie))
      ensures Stepped(View(), Result(pkt.msg, send, []), exhausted)
           == Step(old(View()), Arrival(old(pkt.msg), pick, cookie))
    {
      hide ServePooled, Owned, PoolHello, PoolBye;
      pick := 0;
      match Identify(pkt.msg) {
        case None =>
          send, exhausted := false, false;
        case Some(id) =>
          exhausted := false;
          if id in table {
            send := Serve(id, pkt);
          } else {
            var rec := mempool.Get();
            if rec == None {
              send, exhausted := false, true;
            } else {
              pick := rec.value;
              GetKeepsOwned(old(View()), mempool.records.Length, id, pick, cookie);
              InPool(old(View()), mempool.records.Length, pick);
              mempool.records[rec.value] := ServerData(0, cookie);
              table := table[id := Session(S_HELLO, rec.value)];
              assert View() == Get(old(View()), id, pick, cookie);
              send := Serve(id, pkt);
            }
          }
      }
    }
  }
}
