// The state machine framework on values: lookup, adoption from the connection pool,
// creation, dispatch, removal, and batches. Handlers are arbitrary functions that may move
// their connection to another state, free the packet, and ask for extra packets.
module StateMachines {
  import opened Options

  datatype State<+D> = State(data: D, state: nat)

  datatype Outcome<+D, +M> = Outcome(st: State<D>, msg: M, send: bool, extras: seq<M>)

  type Handler<!D, !M> = (State<D>, M) -> Outcome<D, M>

  // What is registered with one machine. The factory stands for startStateFun; its second
  // argument numbers the created connections, so that it may draw random values.
  datatype Config<!I(==), !D, !M> = Config(
    identify: M -> Option<I>, functions: seq<Handler<D, M>>, endState: nat,
    listening: bool, startState: nat, factory: (I, nat) -> D)

  datatype Tables<I(==), +D> = Tables(
    table: map<I, State<D>>, pool: map<I, State<D>>, added: nat, closed: nat)

  datatype Result<+M> = Result(msg: M, send: bool, extras: seq<M>)

  datatype Ran<I(==), +D, +M> = Ran(t: Tables<I, D>, result: Result<M>)

  // The source asserts that a function is registered; `StaysRegistered` below shows that the
  // other branch is never taken.
  function Dispatch<I(==), D, M>(cfg: Config<I, D, M>, st: State<D>, m: M): Outcome<D, M> {
    if st.state < |cfg.functions| then cfg.functions[st.state](st, m) else Outcome(st, m, true, [])
  }

  function FindState<I(==), D, M>(cfg: Config<I, D, M>, t: Tables<I, D>, id: I): Tables<I, D> {
    if id in t.table then t
    else if id in t.pool then
      t.(table := t.table[id := t.pool[id]], pool := t.pool - {id}, added := t.added + 1)
    else if cfg.listening then
      t.(table := t.table[id := State(cfg.factory(id, t.added), cfg.startState)], added := t.added + 1)
    else t
  }

  function RunPkt<I(==), D, M>(cfg: Config<I, D, M>, t: Tables<I, D>, m: M): Ran<I, D, M> {
    match cfg.identify(m)
    case None => Ran(t, Result(m, false, []))
    case Some(id) =>
      var f := FindState(cfg, t, id);
      if id in f.table then Serve(cfg, f, id, m) else Ran(f, Result(m, false, []))
  }

  // Run the function of a connection in the table; the end state takes it out.
  function Serve<I(==), D, M>(cfg: Config<I, D, M>, f: Tables<I, D>, id: I, m: M): Ran<I, D, M>
    requires id in f.table
  {
    var out := Dispatch(cfg, f.table[id], m);
    var result := Result(out.msg, out.send, out.extras);
    if out.st.state == cfg.endState then Ran(f.(table := f.table - {id}, closed := f.closed + 1), result)
    else Ran(f.(table := f.table[id := out.st]), result)
  }

  // Open a connection: run its function once and park it in the pool, which keeps an entry
  // that is already there.
  function AddState<I(==), D, M>(cfg: Config<I, D, M>, t: Tables<I, D>, id: I, st: State<D>, m: M): Ran<I, D, M> {
    var out := Dispatch(cfg, st, m);
    var result := Result(out.msg, out.send, out.extras);
    if out.st.state == cfg.endState || id in t.pool then Ran(t, result)
    else Ran(t.(pool := t.pool[id := out.st]), result)
  }

  datatype Batch<I(==), +D, +M> = Batch(t: Tables<I, D>, results: seq<Result<M>>)

  // The packets that came in, one after the other; extra packets are not run again.
  function RunBatch<I(==), D, M>(cfg: Config<I, D, M>, t: Tables<I, D>, ms: seq<M>): (b: Batch<I, D, M>)
    ensures |b.results| == |ms|
  {
    if ms == [] then Batch(t, [])
    else
      var front := RunBatch(cfg, t, ms[..|ms| - 1]);
      var ran := RunPkt(cfg, front.t, ms[|ms| - 1]);
      Batch(ran.t, front.results + [ran.result])
  }

  // --- findState refines one map ---

  // The connections a machine knows: its own table, then the pool.
  function Known<I(==), D>(t: Tables<I, D>): map<I, State<D>> {
    t.pool + t.table
  }

  lemma FindStateRefines<I, D, M>(cfg: Config<I, D, M>, t: Tables<I, D>, id: I)
    ensures var f := FindState(cfg, t, id);
            if id in Known(t) then
              Known(f) == Known(t) && id in f.table && f.table[id] == Known(t)[id]
            else if cfg.listening then
              && Known(f) == Known(t)[id := State(cfg.factory(id, t.added), cfg.startState)]
              && id in f.table && f.table[id] == Known(f)[id]
            else
              f == t && id !in f.table
  {
    var f := FindState(cfg, t, id);
    assert forall i :: i in Known(f) <==> i in t.pool || i in f.table;
  }

  // A second lookup finds the connection where the first one left it, so the retry loop
  // never goes round more than once.
  lemma FindStateTwice<I, D, M>(cfg: Config<I, D, M>, t: Tables<I, D>, id: I)
    ensures var f := FindState(cfg, t, id);
            FindState(cfg, f, id) == f && (id !in f.table <==> id !in Known(t) && !cfg.listening)
  {
  }

  // --- table size ---

  ghost predicate SizeIsAddedMinusClosed<I, D>(t: Tables<I, D>) {
    |t.table| == t.added - t.closed
  }

  lemma SizeAfterAdd<I, D>(m: map<I, State<D>>, id: I, st: State<D>)
    ensures |m[id := st]| == if id in m then |m| else |m| + 1
  {
    assert m[id := st].Keys == m.Keys + {id};
    assert |m| == |m.Keys| && |m[id := st]| == |m[id := st].Keys|;
  }

  lemma SizeAfterRemove<I, D>(m: map<I, State<D>>, id: I)
    requires id in m
    ensures |m - {id}| == |m| - 1
  {
    assert (m - {id}).Keys == m.Keys - {id};
    assert |m| == |m.Keys| && |m - {id}| == |(m - {id}).Keys|;
  }

  lemma FindStateCounts<I, D, M>(cfg: Config<I, D, M>, t: Tables<I, D>, id: I)
    requires SizeIsAddedMinusClosed(t)
    ensures SizeIsAddedMinusClosed(FindState(cfg, t, id))
  {
    var f := FindState(cfg, t, id);
    if f != t {
      assert f.table == t.table[id := f.table[id]];
      SizeAfterAdd(t.table, id, f.table[id]);
    }
  }

  lemma ServeCounts<I, D, M>(cfg: Config<I, D, M>, f: Tables<I, D>, id: I, m: M)
    requires SizeIsAddedMinusClosed(f) && id in f.table
    ensures SizeIsAddedMinusClosed(Serve(cfg, f, id, m).t)
  {
    hide Dispatch;
    SizeAfterRemove(f.table, id);
    SizeAfterAdd(f.table, id, Dispatch(cfg, f.table[id], m).st);
  }

  // Every packet keeps the number of connections at those added minus those closed.
  lemma RunPktCounts<I, D, M>(cfg: Config<I, D, M>, t: Tables<I, D>, m: M)
    requires SizeIsAddedMinusClosed(t)
    ensures SizeIsAddedMinusClosed(RunPkt(cfg, t, m).t)
  {
    hide FindState, Serve, SizeIsAddedMinusClosed;
    match cfg.identify(m)
    case None =>
    case Some(id) =>
      FindStateCounts(cfg, t, id);
      if id in FindState(cfg, t, id).table {
        ServeCounts(cfg, FindState(cfg, t, id), id, m);
      }
  }

  lemma {:induction false} RunBatchCounts<I, D, M>(cfg: Config<I, D, M>, t: Tables<I, D>, ms: seq<M>)
    requires SizeIsAddedMinusClosed(t)
    ensures SizeIsAddedMinusClosed(RunBatch(cfg, t, ms).t)
  {
    if ms != [] {
      RunBatchCounts(cfg, t, ms[..|ms| - 1]);
      RunPktCounts(cfg, RunBatch(cfg, t, ms[..|ms| - 1]).t, ms[|ms| - 1]);
    }
  }

  // --- every live state has a function ---

  ghost predicate Covers<I, D(!new), M(!new)>(cfg: Config<I, D, M>) {
    && cfg.startState < |cfg.functions|
    && forall k, st, m :: 0 <= k < |cfg.functions| ==>
         var s := cfg.functions[k](st, m).st.state; s == cfg.endState || s < |cfg.functions|
  }

  ghost predicate Registered<I, D, M>(cfg: Config<I, D, M>, t: Tables<I, D>) {
    && (forall i :: i in t.table ==> t.table[i].state < |cfg.functions|)
    && (forall i :: i in t.pool ==> t.pool[i].state < |cfg.functions|)
  }

  lemma FindStateRegistered<I, D(!new), M(!new)>(cfg: Config<I, D, M>, t: Tables<I, D>, id: I)
    requires Covers(cfg) && Registered(cfg, t)
    ensures Registered(cfg, FindState(cfg, t, id))
    ensures var f := FindState(cfg, t, id); id in f.table ==> f.table[id].state < |cfg.functions|
  {
  }

  lemma StaysRegistered<I, D(!new), M(!new)>(cfg: Config<I, D, M>, t: Tables<I, D>, m: M)
    requires Covers(cfg) && Registered(cfg, t)
    ensures Registered(cfg, RunPkt(cfg, t, m).t)
  {
    match cfg.identify(m)
    case None =>
    case Some(id) =>
      var f := FindState(cfg, t, id);
      assert Registered(cfg, f);
      if id in f.table {
        assert Dispatch(cfg, f.table[id], m) == cfg.functions[f.table[id].state](f.table[id], m);
      }
  }

  lemma AddStateRegistered<I, D(!new), M(!new)>(cfg: Config<I, D, M>, t: Tables<I, D>, id: I, st: State<D>, m: M)
    requires Covers(cfg) && Registered(cfg, t) && st.state < |cfg.functions|
    ensures Registered(cfg, AddState(cfg, t, id, st, m).t)
  {
    assert Dispatch(cfg, st, m) == cfg.functions[st.state](st, m);
  }

  lemma {:induction false} BatchStaysRegistered<I, D(!new), M(!new)>(cfg: Config<I, D, M>, t: Tables<I, D>, ms: seq<M>)
    requires Covers(cfg) && Registered(cfg, t)
    ensures Registered(cfg, RunBatch(cfg, t, ms).t)
  {
    hide Covers, Registered;
    if ms != [] {
      BatchStaysRegistered(cfg, t, ms[..|ms| - 1]);
      StaysRegistered(cfg, RunBatch(cfg, t, ms[..|ms| - 1]).t, ms[|ms| - 1]);
    }
  }

  // --- connections do not disturb each other ---

  // What a machine and its pool hold for one connection.
  datatype Entry<+D> = Entry(own: Option<State<D>>, parked: Option<State<D>>)

  function Lookup<I(==), D>(m: map<I, State<D>>, id: I): Option<State<D>> {
    if id in m then Some(m[id]) else None
  }

  function EntryAt<I(==), D>(t: Tables<I, D>, id: I): Entry<D> {
    Entry(Lookup(t.table, id), Lookup(t.pool, id))
  }

  lemma RunPktFrame<I, D, M>(cfg: Config<I, D, M>, t: Tables<I, D>, m: M, id: I)
    requires cfg.identify(m) != Some(id)
    ensures EntryAt(RunPkt(cfg, t, m).t, id) == EntryAt(t, id)
  {
  }

  // The outcome of a packet depends only on the entry of its own connection.
  lemma RunPktLocal<I, D, M>(cfg: Config<I, D, M>, t: Tables<I, D>, u: Tables<I, D>, m: M, id: I)
    requires cfg.identify(m) == Some(id) && EntryAt(t, id) == EntryAt(u, id) && t.added == u.added
    ensures RunPkt(cfg, t, m).result == RunPkt(cfg, u, m).result
    ensures EntryAt(RunPkt(cfg, t, m).t, id) == EntryAt(RunPkt(cfg, u, m).t, id)
  {
  }

  ghost predicate DistinctIds<I, D, M>(cfg: Config<I, D, M>, ms: seq<M>) {
    && (forall k :: 0 <= k < |ms| ==> cfg.identify(ms[k]).Some?)
    && (forall j, k :: 0 <= j < k < |ms| ==> cfg.identify(ms[j]) != cfg.identify(ms[k]))
  }

  // The tables a packet of a batch would meet if it were alone; only the creation counter
  // tells its turn.
  function Alone<I(==), D, M>(cfg: Config<I, D, M>, t: Tables<I, D>, ms: seq<M>, k: nat): Ran<I, D, M>
    requires k < |ms|
  {
    RunPkt(cfg, t.(added := RunBatch(cfg, t, ms[..k]).t.added), ms[k])
  }

  lemma {:induction false} PrefixOfBatch<I, D, M>(cfg: Config<I, D, M>, t: Tables<I, D>, ms: seq<M>, n: nat)
    requires n <= |ms|
    ensures RunBatch(cfg, t, ms[..n]).results == RunBatch(cfg, t, ms).results[..n]
  {
    if n < |ms| {
      PrefixOfBatch(cfg, t, ms[..|ms| - 1], n);
      assert ms[..|ms| - 1][..n] == ms[..n];
    } else {
      assert ms[..n] == ms;
    }
  }

  // Entries of connections that no packet of the batch names are left alone.
  lemma {:induction false} BatchFrame<I, D, M>(cfg: Config<I, D, M>, t: Tables<I, D>, ms: seq<M>, id: I)
    requires forall k :: 0 <= k < |ms| ==> cfg.identify(ms[k]) != Some(id)
    ensures EntryAt(RunBatch(cfg, t, ms).t, id) == EntryAt(t, id)
  {
    if ms != [] {
      BatchFrame(cfg, t, ms[..|ms| - 1], id);
      RunPktFrame(cfg, RunBatch(cfg, t, ms[..|ms| - 1]).t, ms[|ms| - 1], id);
    }
  }

  // In a batch of distinct connections every packet fares as if it were alone, and its
  // connection ends up as that run leaves it.
  lemma {:induction false} BatchActsPointwise<I, D, M>(cfg: Config<I, D, M>, t: Tables<I, D>, ms: seq<M>, k: nat)
    requires DistinctIds(cfg, ms) && k < |ms|
    ensures RunBatch(cfg, t, ms).results[k] == Alone(cfg, t, ms, k).result
    ensures var id := cfg.identify(ms[k]).value;
            EntryAt(RunBatch(cfg, t, ms).t, id) == EntryAt(Alone(cfg, t, ms, k).t, id)
  {
    var n, id := |ms| - 1, cfg.identify(ms[k]).value;
    if k == n {
      var before := RunBatch(cfg, t, ms[..n]).t;
      BatchFrame(cfg, t, ms[..n], id);
      RunPktLocal(cfg, before, t.(added := before.added), ms[n], id);
    } else {
      BatchActsPointwise(cfg, t, ms[..n], k);
      assert ms[..n][..k] == ms[..k];
      RunPktFrame(cfg, RunBatch(cfg, t, ms[..n]).t, ms[n], id);
    }
  }

  // --- batch accounting ---

  function Extras<M>(results: seq<Result<M>>): seq<M> {
    if results == [] then [] else Extras(results[..|results| - 1]) + results[|results| - 1].extras
  }

  // An original packet is freed exactly when it cannot be identified, belongs to no
  // connection the machine may serve, or its handler freed it.
  lemma FreedIff<I, D, M>(cfg: Config<I, D, M>, t: Tables<I, D>, ms: seq<M>, k: nat)
    requires k < |ms|
    ensures var before := RunBatch(cfg, t, ms[..k]).t;
            !RunBatch(cfg, t, ms).results[k].send <==>
            match cfg.identify(ms[k])
            case None => true
            case Some(id) =>
              || (id !in Known(before) && !cfg.listening)
              || !Dispatch(cfg, FindState(cfg, before, id).table[id], ms[k]).send
  {
    PrefixOfBatch(cfg, t, ms, k + 1);
    assert ms[..k + 1][..k] == ms[..k];
    assert RunBatch(cfg, t, ms).results[..k + 1][k] == RunBatch(cfg, t, ms).results[k];
    match cfg.identify(ms[k])
    case None =>
    case Some(id) => FindStateTwice(cfg, RunBatch(cfg, t, ms[..k]).t, id);
  }

  // --- what the handlers decide ---

  // The state a packet's connection is in when its function runs, if any function does.
  function Served<I(==), D, M>(cfg: Config<I, D, M>, t: Tables<I, D>, m: M): Option<State<D>> {
    match cfg.identify(m)
    case None => None
    case Some(id) =>
      if id in Known(t) then Some(Known(t)[id])
      else if cfg.listening then Some(State(cfg.factory(id, t.added), cfg.startState))
      else None
  }

  lemma ServedIsRegistered<I, D(!new), M(!new)>(cfg: Config<I, D, M>, t: Tables<I, D>, m: M)
    requires Covers(cfg) && Registered(cfg, t)
    ensures Served(cfg, t, m).Some? ==> Served(cfg, t, m).value.state < |cfg.functions|
  {
  }

  // What becomes of a packet and of its connection is what the registered function says: its
  // message, its mark, its extra packets and its next state, and nothing where none runs.
  lemma HandlerDecides<I, D(!new), M(!new)>(cfg: Config<I, D, M>, t: Tables<I, D>, m: M)
    requires Covers(cfg) && Registered(cfg, t)
    ensures Served(cfg, t, m) == None ==> RunPkt(cfg, t, m) == Ran(t, Result(m, false, []))
    ensures Served(cfg, t, m).Some? ==> cfg.identify(m).Some? && Served(cfg, t, m).value.state < |cfg.functions|
    ensures Served(cfg, t, m).Some? ==>
              var st, id := Served(cfg, t, m).value, cfg.identify(m).value;
              var out := cfg.functions[st.state](st, m);
              var ends := out.st.state == cfg.endState;
              RunPkt(cfg, t, m)
              == Ran(Tables(if ends then t.table - {id} else t.table[id := out.st],
                            if id in t.table then t.pool else t.pool - {id},
                            t.added + (if id in t.table then 0 else 1),
                            t.closed + if ends then 1 else 0),
                     Result(out.msg, out.send, out.extras))
  {
    ServedIsRegistered(cfg, t, m);
    if Served(cfg, t, m).Some? {
      var st, id := Served(cfg, t, m).value, cfg.identify(m).value;
      assert t.table[id := st] - {id} == t.table - {id};
      assert id !in t.pool ==> t.pool - {id} == t.pool;
      assert FindState(cfg, t, id).table[id] == st;
    }
  }

  // The extra packets that the functions of a batch ask for, in packet order.
  function Asked<I(==), D, M>(cfg: Config<I, D, M>, t: Tables<I, D>, ms: seq<M>): seq<M> {
    if ms == [] then []
    else
      var front, m := ms[..|ms| - 1], ms[|ms| - 1];
      Asked(cfg, t, front) +
      match Served(cfg, RunBatch(cfg, t, front).t, m)
      case None => []
      case Some(st) => if st.state < |cfg.functions| then cfg.functions[st.state](st, m).extras else []
  }

  lemma {:induction false} ExtrasAreAsked<I, D(!new), M(!new)>(cfg: Config<I, D, M>, t: Tables<I, D>, ms: seq<M>)
    requires Covers(cfg) && Registered(cfg, t)
    ensures Extras(RunBatch(cfg, t, ms).results) == Asked(cfg, t, ms)
  {
    hide Covers, Registered, Served, RunPkt;
    if ms != [] {
      var front, m := ms[..|ms| - 1], ms[|ms| - 1];
      var before := RunBatch(cfg, t, front);
      ExtrasAreAsked(cfg, t, front);
      BatchStaysRegistered(cfg, t, front);
      HandlerDecides(cfg, before.t, m);
      ExtrasSnoc(before.results, RunPkt(cfg, before.t, m).result);
    }
  }

  lemma ExtrasSnoc<M>(results: seq<Result<M>>, r: Result<M>)
    ensures Extras(results + [r]) == Extras(results) + r.extras
  {
    assert (results + [r])[..|results|] == results;
  }

  // Opening runs the function once; the connection is parked unless it ended or the pool has
  // one of that name, which it keeps.
  lemma OpeningParks<I, D(!new), M(!new)>(cfg: Config<I, D, M>, t: Tables<I, D>, id: I, st: State<D>, m: M)
    requires st.state < |cfg.functions|
    ensures var ran, out := AddState(cfg, t, id, st, m), cfg.functions[st.state](st, m);
            && ran.result == Result(out.msg, out.send, out.extras)
            && ran.t.table == t.table && ran.t.added == t.added && ran.t.closed == t.closed
            && (id in ran.t.pool <==> id in t.pool || out.st.state != cfg.endState)
            && (id in ran.t.pool ==> ran.t.pool[id] == if id in t.pool then t.pool[id] else out.st)
            && ran.t.pool - {id} == t.pool - {id}
  {
  }
}
