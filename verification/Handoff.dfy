// Several non-listening machines, one per core, that share one connection pool: connections
// are opened into the pool and adopted by whichever core sees their next packet first. A
// step touches the pool at most once with effect, so whole steps are interleaved.
module Handoff {
  import opened Options
  import opened StateMachines

  datatype Cores<I(==), +D> = Cores(tables: seq<map<I, State<D>>>, pool: map<I, State<D>>)

  datatype Event<+I, +D, +M> =
    | Connect(id: I, st: State<D>, m: M)
    | Packet(core: nat, m: M)

  function Start<I(==), D>(n: nat): Cores<I, D> {
    Cores(seq(n, _ => map[]), map[])
  }

  function At<I(==), D>(s: Cores<I, D>, core: nat): Tables<I, D>
    requires core < |s.tables|
  {
    Tables(s.tables[core], s.pool, 0, 0)
  }

  // Opening runs the connection's function and parks it; it reads no table.
  function Step<I(==), D, M>(cfg: Config<I, D, M>, s: Cores<I, D>, e: Event<I, D, M>): Cores<I, D> {
    match e
    case Connect(id, st, m) => s.(pool := AddState(cfg, Tables(map[], s.pool, 0, 0), id, st, m).t.pool)
    case Packet(core, m) =>
      if core < |s.tables| then
        var t := RunPkt(cfg, At(s, core), m).t;
        Cores(s.tables[core := t.table], t.pool)
      else s
  }

  function Run<I(==), D, M>(cfg: Config<I, D, M>, s: Cores<I, D>, events: seq<Event<I, D, M>>): (r: Cores<I, D>)
    ensures |r.tables| == |s.tables|
  {
    if events == [] then s else Step(cfg, Run(cfg, s, events[..|events| - 1]), events[|events| - 1])
  }

  ghost predicate InSomeTable<I, D>(s: Cores<I, D>, id: I) {
    exists k :: 0 <= k < |s.tables| && id in s.tables[k]
  }

  ghost predicate Present<I, D>(s: Cores<I, D>, id: I) {
    id in s.pool || InSomeTable(s, id)
  }

  // No connection is in two places.
  ghost predicate Exclusive<I(!new), D>(s: Cores<I, D>) {
    && (forall k, id :: 0 <= k < |s.tables| && id in s.tables[k] ==> id !in s.pool)
    && (forall j, k, id :: 0 <= j < k < |s.tables| && id in s.tables[j] ==> id !in s.tables[k])
  }

  // The pool and the acting core after one packet: only its own connection moves.
  lemma PacketMoves<I, D, M>(cfg: Config<I, D, M>, t: Tables<I, D>, m: M, id: I)
    requires !cfg.listening
    ensures var u := RunPkt(cfg, t, m).t;
            && (id in u.table ==> id in t.table || id in t.pool)
            && (id in u.pool ==> id in t.pool)
            && (id in t.pool && id !in u.pool ==> cfg.identify(m) == Some(id) && id !in t.table)
            && (id in t.table && id !in u.table ==> cfg.identify(m) == Some(id))
            && (id in u.table && id !in t.table ==> id !in u.pool)
  {
  }

  // A packet never breaks exclusiveness.
  lemma PacketKeepsExclusive<I(!new), D, M>(cfg: Config<I, D, M>, s: Cores<I, D>, core: nat, m: M)
    requires !cfg.listening && Exclusive(s)
    ensures Exclusive(Step(cfg, s, Packet(core, m)))
  {
    hide RunPkt;
    if core < |s.tables| {
      var t := RunPkt(cfg, At(s, core), m).t;
      forall id ensures (id in t.table ==> id !in t.pool && (id in s.tables[core] || id in s.pool))
                     && (id in t.pool ==> id in s.pool) {
        PacketMoves(cfg, At(s, core), m, id);
      }
    }
  }

  // Opening a connection that stays open keeps exclusiveness exactly when no core has it yet.
  lemma ConnectKeepsExclusiveIff<I(!new), D, M>(cfg: Config<I, D, M>, s: Cores<I, D>, id: I, st: State<D>, m: M)
    requires Exclusive(s) && Dispatch(cfg, st, m).st.state != cfg.endState
    ensures Exclusive(Step(cfg, s, Connect(id, st, m))) <==> !InSomeTable(s, id)
  {
    var u := Step(cfg, s, Connect(id, st, m));
    assert u.tables == s.tables && id in u.pool;
    if InSomeTable(s, id) {
      var k :| 0 <= k < |s.tables| && id in s.tables[k];
      assert id in u.tables[k];
    } else {
      assert forall i :: i in u.pool <==> i in s.pool || i == id;
    }
  }

  ghost predicate OpensFresh<I, D, M>(cfg: Config<I, D, M>, s: Cores<I, D>, events: seq<Event<I, D, M>>) {
    forall k :: 0 <= k < |events| && events[k].Connect? ==> !InSomeTable(Run(cfg, s, events[..k]), events[k].id)
  }

  // Over every interleaving that opens only connections no core is serving, a connection is
  // in at most one place: the pool or one core's table.
  lemma {:induction false} RunsAreExclusive<I(!new), D, M>(cfg: Config<I, D, M>, n: nat, events: seq<Event<I, D, M>>)
    requires !cfg.listening && OpensFresh(cfg, Start(n), events)
    ensures Exclusive(Run(cfg, Start(n), events))
  {
    hide Step, Exclusive, InSomeTable;
    if events == [] {
      StartIsExclusive<I, D>(n);
    } else {
      var k, s := |events| - 1, Start<I, D>(n);
      assert forall j :: 0 <= j < k ==> events[..k][..j] == events[..j];
      RunsAreExclusive(cfg, n, events[..k]);
      match events[k]
      case Packet(core, m) => PacketKeepsExclusive(cfg, Run(cfg, s, events[..k]), core, m);
      case Connect(id, st, m) => OpenKeepsExclusive(cfg, Run(cfg, s, events[..k]), id, st, m);
    }
  }

  lemma StartIsExclusive<I(!new), D>(n: nat)
    ensures Exclusive(Start<I, D>(n))
  {
  }

  lemma OpenKeepsExclusive<I(!new), D, M>(cfg: Config<I, D, M>, s: Cores<I, D>, id: I, st: State<D>, m: M)
    requires Exclusive(s) && !InSomeTable(s, id)
    ensures Exclusive(Step(cfg, s, Connect(id, st, m)))
  {
    hide Exclusive;
    if Dispatch(cfg, st, m).st.state != cfg.endState {
      ConnectKeepsExclusiveIff(cfg, s, id, st, m);
    } else {
      assert Step(cfg, s, Connect(id, st, m)) == s;
    }
  }

  // A connection disappears only by a packet of its own whose handler reaches the end state.
  lemma OnlyTheEndRemoves<I(!new), D, M>(cfg: Config<I, D, M>, s: Cores<I, D>, e: Event<I, D, M>, id: I)
    requires !cfg.listening && Exclusive(s) && Present(s, id) && !Present(Step(cfg, s, e), id)
    ensures e.Packet? && e.core < |s.tables| && cfg.identify(e.m) == Some(id)
    ensures var f := FindState(cfg, At(s, e.core), id);
            id in f.table && Dispatch(cfg, f.table[id], e.m).st.state == cfg.endState
  {
    var u := Step(cfg, s, e);
    if InSomeTable(s, id) {
      var k :| 0 <= k < |s.tables| && id in s.tables[k];
      assert id !in u.tables[k];
    }
    if e.Packet? && e.core < |s.tables| {
      assert id !in u.tables[e.core];
    }
  }

  // A packet that reaches another core than the one serving its connection is dropped and
  // changes nothing.
  lemma WrongCoreDrops<I(!new), D, M>(cfg: Config<I, D, M>, s: Cores<I, D>, k: nat, core: nat, m: M, id: I)
    requires !cfg.listening && Exclusive(s) && cfg.identify(m) == Some(id)
    requires k < |s.tables| && core < |s.tables| && k != core && id in s.tables[k]
    ensures Step(cfg, s, Packet(core, m)) == s
    ensures RunPkt(cfg, At(s, core), m).result == Result(m, false, [])
  {
    assert id !in s.tables[core] && id !in s.pool;
    assert s.tables[core := s.tables[core]] == s.tables;
  }

  ghost predicate OnlyAt<I, D>(s: Cores<I, D>, k: nat, id: I) {
    k < |s.tables| && id in s.tables[k] && id !in s.pool && forall j :: 0 <= j < |s.tables| && j != k ==> id !in s.tables[j]
  }

  // Once adopted by a core, a connection stays with that core until it is gone for good.
  lemma {:induction false} AdoptedStays<I(!new), D, M>(
      cfg: Config<I, D, M>, s: Cores<I, D>, events: seq<Event<I, D, M>>, k: nat, id: I)
    requires !cfg.listening && OnlyAt(s, k, id)
    requires forall e :: e in events && e.Connect? ==> e.id != id
    ensures OnlyAt(Run(cfg, s, events), k, id) || !Present(Run(cfg, s, events), id)
  {
    hide Step;
    if events != [] {
      var front := events[..|events| - 1];
      assert forall e :: e in front ==> e in events;
      AdoptedStays(cfg, s, front, k, id);
      assert events[|events| - 1] in events;
      StepStays(cfg, Run(cfg, s, front), events[|events| - 1], k, id);
    }
  }

  lemma StepStays<I(!new), D, M>(cfg: Config<I, D, M>, s: Cores<I, D>, e: Event<I, D, M>, k: nat, id: I)
    requires !cfg.listening && (OnlyAt(s, k, id) || !Present(s, id)) && (e.Connect? ==> e.id != id)
    ensures OnlyAt(Step(cfg, s, e), k, id) || !Present(Step(cfg, s, e), id)
  {
    hide RunPkt;
    if e.Packet? && e.core < |s.tables| {
      PacketMoves(cfg, At(s, e.core), e.m, id);
      var u := Step(cfg, s, e);
      assert forall j :: 0 <= j < |s.tables| && j != e.core ==> u.tables[j] == s.tables[j];
      assert id in s.tables[e.core] <==> OnlyAt(s, k, id) && e.core == k;
    }
  }

  // A packet whose handler takes this connection to the end state.
  ghost predicate Ends<I, D, M>(cfg: Config<I, D, M>, s: Cores<I, D>, e: Event<I, D, M>, id: I) {
    && e.Packet? && e.core < |s.tables| && cfg.identify(e.m) == Some(id)
    && id in FindState(cfg, At(s, e.core), id).table
    && Dispatch(cfg, FindState(cfg, At(s, e.core), id).table[id], e.m).st.state == cfg.endState
  }

  ghost predicate InOnePlace<I, D>(s: Cores<I, D>, id: I) {
    || (id in s.pool && !InSomeTable(s, id))
    || exists k :: OnlyAt(s, k, id)
  }

  // From the moment it is opened until a packet ends it, a connection is in exactly one
  // place, in every interleaving.
  lemma {:induction false} OpenedIsInOnePlace<I(!new), D, M>(
      cfg: Config<I, D, M>, n: nat, events: seq<Event<I, D, M>>, j: nat)
    requires !cfg.listening && OpensFresh(cfg, Start(n), events)
    requires j < |events| && events[j].Connect?
    requires Dispatch(cfg, events[j].st, events[j].m).st.state != cfg.endState
    requires forall k :: j < k < |events| ==> !Ends(cfg, Run(cfg, Start(n), events[..k]), events[k], events[j].id)
    ensures InOnePlace(Run(cfg, Start(n), events), events[j].id)
  {
    hide Run, OpensFresh, InOnePlace, Step;
    RunsAreExclusive(cfg, n, events);
    PresentUntilEnd(cfg, n, events, j);
    ExclusivelyPresent(Run(cfg, Start<I, D>(n), events), events[j].id);
  }

  lemma ExclusivelyPresent<I(!new), D>(s: Cores<I, D>, id: I)
    requires Exclusive(s) && Present(s, id)
    ensures InOnePlace(s, id)
  {
    if k :| 0 <= k < |s.tables| && id in s.tables[k] {
      assert OnlyAt(s, k, id);
    }
  }

  lemma {:induction false} PresentUntilEnd<I(!new), D, M>(
      cfg: Config<I, D, M>, n: nat, events: seq<Event<I, D, M>>, j: nat)
    requires !cfg.listening && OpensFresh(cfg, Start(n), events)
    requires j < |events| && events[j].Connect?
    requires Dispatch(cfg, events[j].st, events[j].m).st.state != cfg.endState
    requires forall k :: j < k < |events| ==> !Ends(cfg, Run(cfg, Start(n), events[..k]), events[k], events[j].id)
    ensures Present(Run(cfg, Start(n), events), events[j].id)
  {
    hide Step, Ends, Present, InSomeTable, Exclusive;
    var last, id := |events| - 1, events[j].id;
    var s := Run(cfg, Start<I, D>(n), events[..last]);
    if j == last {
      OpenedIsPresent(cfg, s, events[j]);
    } else {
      assert forall k :: 0 <= k < last ==> events[..last][..k] == events[..k];
      PresentUntilEnd(cfg, n, events[..last], j);
      RunsAreExclusive(cfg, n, events[..last]);
      assert !Ends(cfg, s, events[last], id);
      if !Present(Step(cfg, s, events[last]), id) {
        EndsWhenGone(cfg, s, events[last], id);
      }
    }
  }

  lemma OpenedIsPresent<I, D, M>(cfg: Config<I, D, M>, s: Cores<I, D>, e: Event<I, D, M>)
    requires e.Connect? && Dispatch(cfg, e.st, e.m).st.state != cfg.endState
    ensures Present(Step(cfg, s, e), e.id)
  {
  }

  lemma EndsWhenGone<I(!new), D, M>(cfg: Config<I, D, M>, s: Cores<I, D>, e: Event<I, D, M>, id: I)
    requires !cfg.listening && Exclusive(s) && Present(s, id) && !Present(Step(cfg, s, e), id)
    ensures Ends(cfg, s, e, id)
  {
    OnlyTheEndRemoves(cfg, s, e, id);
  }
}
