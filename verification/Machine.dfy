// One state machine object per core: its table, the shared connection pool, and the batch
// loop over a packet array, proved to compute the functions of StateMachines in place.
module Machines {
  import opened Options
  import opened BufArrays
  import Spec = StateMachines

  // A packet buffer; handlers overwrite its content in place.
  class Mbuf<M> {
    var msg: M

    constructor (msg: M)
      ensures this.msg == msg
    {
      this.msg := msg;
    }
  }

  // New buffers, all marked for sending.
  function Marked<M>(added: seq<Mbuf<M>>): (slots: seq<Slot<Mbuf<M>>>)
    ensures |slots| == |added|
  {
    seq(|added|, j requires 0 <= j < |added| => Slot(added[j], true))
  }

  lemma UpdateFront<T>(front: seq<T>, back: seq<T>, k: nat, x: T)
    requires k < |front|
    ensures (front + back)[k := x] == front[k := x] + back
  {
  }

  function Msgs<M>(pkts: seq<Mbuf<M>>): seq<M>
    reads pkts
  {
    seq(|pkts|, k requires 0 <= k < |pkts| reads pkts => pkts[k].msg)
  }

  function ResultMsgs<M>(results: seq<Spec.Result<M>>): seq<M> {
    seq(|results|, k requires 0 <= k < |results| => results[k].msg)
  }

  // The original packets with the marks a batch leaves on them.
  function Outcomes<M>(pkts: seq<Mbuf<M>>, results: seq<Spec.Result<M>>): (slots: seq<Slot<Mbuf<M>>>)
    requires |pkts| == |results|
    ensures |slots| == |pkts|
  {
    seq(|pkts|, k requires 0 <= k < |pkts| => Slot(pkts[k], results[k].send))
  }

  lemma NothingAdded<M>(part: seq<Slot<Mbuf<M>>>, results: seq<Spec.Result<M>>)
    requires results == []
    ensures part == part + Marked([]) && Spec.Extras(results) == []
  {
  }

  lemma MoreAdded<M>(part: seq<Slot<Mbuf<M>>>, added: seq<Mbuf<M>>, more: seq<Mbuf<M>>, i: nat, x: Slot<Mbuf<M>>)
    requires i < |part|
    ensures (part + Marked(added))[i := x] + Marked(more) == part[i := x] + Marked(added + more)
  {
    assert Marked(added + more) == Marked(added) + Marked(more);
  }

  // --- the batch loop's invariant ---

  // `now` is what the packets hold: the first i their results, the others what came in.
  ghost predicate Progress<M>(ms: seq<M>, now: seq<M>, sends: seq<bool>, results: seq<Spec.Result<M>>, i: nat) {
    && |now| == |ms| == |sends| && |results| == i <= |ms|
    && (forall k :: 0 <= k < i ==> sends[k] == results[k].send && now[k] == results[k].msg)
    && (forall k :: i <= k < |ms| ==> now[k] == ms[k])
  }

  lemma ProgressStart<M>(ms: seq<M>, sends: seq<bool>)
    requires |sends| == |ms|
    ensures Progress(ms, ms, sends, [], 0)
  {
  }

  lemma ProgressAt<M>(ms: seq<M>, now: seq<M>, sends: seq<bool>, results: seq<Spec.Result<M>>, i: nat)
    requires i < |ms| && Progress(ms, now, sends, results, i)
    ensures |now| == |sends| == |ms| && now[i] == ms[i]
  {
  }

  lemma ProgressStep<M>(ms: seq<M>, now: seq<M>, sends: seq<bool>, results: seq<Spec.Result<M>>, i: nat,
                        r: Spec.Result<M>)
    requires i < |ms| && Progress(ms, now, sends, results, i)
    ensures Progress(ms, now[i := r.msg], sends[i := r.send], results + [r], i + 1)
  {
  }

  lemma ProgressEnd<M>(pkts: seq<Mbuf<M>>, ms: seq<M>, sends: seq<bool>, results: seq<Spec.Result<M>>)
    requires |pkts| == |ms| && Progress(ms, Msgs(pkts), sends, results, |pkts|)
    ensures Zip(pkts, sends) == Outcomes(pkts, results) && Msgs(pkts) == ResultMsgs(results)
  {
  }

  lemma BatchOfNone<I, D, M>(cfg: Spec.Config<I, D, M>, t: Spec.Tables<I, D>, ms: seq<M>)
    requires ms == []
    ensures Spec.RunBatch(cfg, t, ms) == Spec.Batch(t, [])
  {
  }

  lemma BatchSnoc<I, D, M>(cfg: Spec.Config<I, D, M>, t: Spec.Tables<I, D>, ms: seq<M>, i: nat)
    requires i < |ms|
    ensures var b := Spec.RunBatch(cfg, t, ms[..i]);
            var ran := Spec.RunPkt(cfg, b.t, ms[i]);
            Spec.RunBatch(cfg, t, ms[..i + 1]) == Spec.Batch(ran.t, b.results + [ran.result])
  {
    hide Spec.RunPkt;
    assert ms[..i + 1][..i] == ms[..i];
  }

  lemma MsgsAppend<M>(a: seq<Mbuf<M>>, b: seq<Mbuf<M>>)
    ensures Msgs(a + b) == Msgs(a) + Msgs(b)
  {
  }

  lemma ZipUpdate<T>(pkts: seq<T>, sends: seq<bool>, i: nat, send: bool)
    requires i < |pkts| == |sends|
    ensures Zip(pkts, sends)[i] == Slot(pkts[i], sends[i])
    ensures Zip(pkts, sends)[i := Slot(pkts[i], send)] == Zip(pkts, sends[i := send])
  {
  }

  lemma PktsOfBatch<M>(pkts: seq<Mbuf<M>>, results: seq<Spec.Result<M>>, added: seq<Mbuf<M>>)
    requires |pkts| == |results|
    ensures Pkts(Outcomes(pkts, results) + Marked(added)) == pkts + added
  {
  }

  // Sent and freed packets together are the original packets and the added ones.
  lemma BatchPartition<M>(pkts: seq<Mbuf<M>>, results: seq<Spec.Result<M>>, added: seq<Mbuf<M>>)
    requires |pkts| == |results|
    ensures var slots := Outcomes(pkts, results) + Marked(added);
            multiset(Pick(slots, true)) + multiset(Pick(slots, false)) == multiset(pkts) + multiset(added)
  {
    hide Pick, Outcomes, Marked;
    PickPartitions(Outcomes(pkts, results) + Marked(added));
    PktsOfBatch(pkts, results, added);
  }

  // Extra packets are only ever sent: what is freed are original packets.
  lemma OnlyOriginalsAreFreed<M>(pkts: seq<Mbuf<M>>, results: seq<Spec.Result<M>>, added: seq<Mbuf<M>>)
    requires |pkts| == |results|
    ensures Pick(Outcomes(pkts, results) + Marked(added), false) == Pick(Outcomes(pkts, results), false)
    ensures Pick(Outcomes(pkts, results) + Marked(added), true) == Pick(Outcomes(pkts, results), true) + added
  {
    hide Pick;
    PickAppend(Outcomes(pkts, results), Marked(added), false);
    PickAppend(Outcomes(pkts, results), Marked(added), true);
    PickMarked(added);
  }

  lemma {:induction false} PickMarked<M>(added: seq<Mbuf<M>>)
    ensures Pick(Marked(added), true) == added && Pick(Marked(added), false) == []
  {
    if added != [] {
      PickMarked(added[..|added| - 1]);
      assert Marked(added)[..|added| - 1] == Marked(added[..|added| - 1]);
    }
  }

  class ConnectionPool<I(==), D> {
    var newStates: map<I, Spec.State<D>>

    constructor ()
      ensures newStates == map[]
    {
      newStates := map[];
    }

    // The concurrent map keeps an entry that is already there.
    method Add(id: I, st: Spec.State<D>)
      modifies this
      ensures newStates == if id in old(newStates) then old(newStates) else old(newStates)[id := st]
    {
      if id !in newStates {
        newStates := newStates[id := st];
      }
    }

    method FindAndErase(id: I) returns (st: Option<Spec.State<D>>)
      modifies this
      ensures st == Spec.Lookup(old(newStates), id) && newStates == old(newStates) - {id}
    {
      if id in newStates {
        st := Some(newStates[id]);
        newStates := newStates - {id};
      } else {
        st := None;
        assert newStates == newStates - {id};
      }
    }
  }

  class StateMachine<I(==), D(!new), M(!new)> {
    const cfg: Spec.Config<I, D, M>
    var stateTable: map<I, Spec.State<D>>
    var connPool: ConnectionPool<I, D>
    var statesAdded: nat
    var statesClosed: nat

    ghost function View(): Spec.Tables<I, D>
      reads this, connPool
    {
      Spec.Tables(stateTable, connPool.newStates, statesAdded, statesClosed)
    }

    ghost predicate Valid()
      reads this, connPool
    {
      Spec.Covers(cfg) && Spec.Registered(cfg, View()) && Spec.SizeIsAddedMinusClosed(View())
    }

    constructor (cfg: Spec.Config<I, D, M>, pool: ConnectionPool<I, D>)
      requires Spec.Covers(cfg)
      requires forall i :: i in pool.newStates ==> pool.newStates[i].state < |cfg.functions|
      ensures Valid() && View() == Spec.Tables(map[], pool.newStates, 0, 0) && connPool == pool && this.cfg == cfg
    {
      this.cfg := cfg;
      stateTable, connPool, statesAdded, statesClosed := map[], pool, 0, 0;
    }

    method GetStateTableSize() returns (size: nat)
      requires Valid()
      ensures size == |View().table| == statesAdded - statesClosed
    {
      size := |stateTable|;
    }

    method RemoveState(id: I)
      modifies this`stateTable
      ensures stateTable == old(stateTable) - {id}
    {
      stateTable := stateTable - {id};
    }

    // The source jumps back to the start after an insertion; `rounds` counts the jumps.
    method FindState(id: I) returns (st: Option<Spec.State<D>>)
      modifies this, connPool
      ensures View() == Spec.FindState(cfg, old(View()), id) && connPool == old(connPool)
      ensures st == Spec.Lookup(stateTable, id)
    {
      ghost var was := View();
      var rounds := 0;
      while true
        invariant rounds <= 1 && connPool == old(connPool)
        invariant View() == if rounds == 0 then was else Spec.FindState(cfg, was, id)
        invariant rounds == 1 ==> id in stateTable
        decreases 1 - rounds
      {
        if id in stateTable {
          return Some(stateTable[id]);
        }
        var parked := connPool.FindAndErase(id);
        if parked.Some? {
          stateTable := stateTable[id := parked.value];
          statesAdded := statesAdded + 1;
          rounds := rounds + 1;
        } else {
          assert View() == was by { assert was.pool - {id} == was.pool; }
          if cfg.listening {
            stateTable := stateTable[id := Spec.State(cfg.factory(id, statesAdded), cfg.startState)];
            statesAdded := statesAdded + 1;
            rounds := rounds + 1;
          } else {
            return None;
          }
        }
      }
    }

    // Append the extra packets a handler asked for, each in a new buffer.
    method AddExtras(ba: BufArray<Mbuf<M>>, extras: seq<M>) returns (ghost added: seq<Mbuf<M>>)
      requires ba.Valid()
      modifies ba, ba.pkts
      ensures ba.Valid() && (fresh(ba.pkts) || ba.pkts == old(ba.pkts))
      ensures ba.Contents() == old(ba.Contents()) + Marked(added)
      ensures Msgs(added) == extras && forall p :: p in added ==> fresh(p)
    {
      added := [];
      var i := 0;
      assert ba.Contents() + Marked(added) == ba.Contents();
      while i < |extras|
        invariant 0 <= i <= |extras| && ba.Valid() && (fresh(ba.pkts) || ba.pkts == old(ba.pkts))
        invariant ba.Contents() == old(ba.Contents()) + Marked(added)
        invariant Msgs(added) == extras[..i] && forall p :: p in added ==> fresh(p)
      {
        var pkt := new Mbuf(extras[i]);
        ba.AddPkt(pkt);
        assert Marked(added + [pkt]) == Marked(added) + [Slot(pkt, true)];
        added := added + [pkt];
        i := i + 1;
      }
      assert extras[..i] == extras;
    }

    method RunPkt(ba: BufArray<Mbuf<M>>, cur: nat) returns (ghost added: seq<Mbuf<M>>)
      requires Valid() && ba.Valid() && cur < ba.numBufs
      modifies this, connPool, ba, ba.pkts, ba.pkts[cur]
      ensures Valid() && ba.Valid() && connPool == old(connPool) && (fresh(ba.pkts) || ba.pkts == old(ba.pkts))
      ensures var ran := Spec.RunPkt(cfg, old(View()), old(ba.pkts[cur].msg));
              && View() == ran.t
              && old(ba.pkts[cur]).msg == ran.result.msg
              && ba.Contents() == old(ba.Contents())[cur := Slot(old(ba.pkts[cur]), ran.result.send)] + Marked(added)
              && Msgs(added) == ran.result.extras
      ensures forall p :: p in added ==> fresh(p)
    {
      hide Spec.FindState, Spec.Serve, Spec.Covers, Spec.Registered, Spec.SizeIsAddedMinusClosed;
      added := [];
      assert forall q :: q + Marked(added) == q;
      var pktIn := ba.At(cur);
      Spec.StaysRegistered(cfg, View(), pktIn.msg);
      Spec.RunPktCounts(cfg, View(), pktIn.msg);
      match cfg.identify(pktIn.msg) {
        case None =>
          ba.MarkDropPkt(cur);
        case Some(id) =>
          Spec.FindStateRegistered(cfg, View(), id);
          var st := FindState(id);
          if st == None {
            ba.MarkDropPkt(cur);
          } else {
            added := RunFunction(ba, cur, id, st.value);
          }
      }
    }

    // The part of runPkt behind the lookup.
    method RunFunction(ba: BufArray<Mbuf<M>>, cur: nat, id: I, st: Spec.State<D>) returns (ghost added: seq<Mbuf<M>>)
      requires ba.Valid() && cur < ba.numBufs
      requires id in stateTable && stateTable[id] == st && st.state < |cfg.functions|
      modifies this`stateTable, this`statesClosed, ba, ba.pkts, ba.pkts[cur]
      ensures ba.Valid() && (fresh(ba.pkts) || ba.pkts == old(ba.pkts))
      ensures var ran := Spec.Serve(cfg, old(View()), id, old(ba.pkts[cur].msg));
              && View() == ran.t
              && old(ba.pkts[cur]).msg == ran.result.msg
              && ba.Contents() == old(ba.Contents())[cur := Slot(old(ba.pkts[cur]), ran.result.send)] + Marked(added)
              && Msgs(added) == ran.result.extras
      ensures forall p :: p in added ==> fresh(p)
    {
      hide Marked, Zip;
      var pktIn := ba.At(cur);
      var out := cfg.functions[st.state](st, pktIn.msg);
      pktIn.msg := out.msg;
      stateTable := stateTable[id := out.st];
      added := Settle(ba, cur, out.extras, out.send);
      CloseIfEnded(id);
    }

    // What becomes of the buffers: extra packets are appended, the packet at hand is marked.
    method Settle(ba: BufArray<Mbuf<M>>, cur: nat, extras: seq<M>, sendPkt: bool) returns (ghost added: seq<Mbuf<M>>)
      requires ba.Valid() && cur < ba.numBufs
      modifies ba, ba.pkts
      ensures ba.Valid() && (fresh(ba.pkts) || ba.pkts == old(ba.pkts))
      ensures ba.Contents() == old(ba.Contents())[cur := Slot(old(ba.pkts[cur]), sendPkt)] + Marked(added)
      ensures Msgs(added) == extras && forall p :: p in added ==> fresh(p)
    {
      hide Marked, Zip;
      ba.SlotAt(cur);
      added := AddExtras(ba, extras);
      UpdateFront(old(ba.Contents()), Marked(added), cur, Slot(old(ba.pkts[cur]), sendPkt));
      LeaveMark(ba, cur, sendPkt);
    }

    method CloseIfEnded(id: I)
      requires id in stateTable
      modifies this`stateTable, this`statesClosed
      ensures var ended := old(stateTable)[id].state == cfg.endState;
              && stateTable == (if ended then old(stateTable) - {id} else old(stateTable))
              && statesClosed == old(statesClosed) + if ended then 1 else 0
    {
      if stateTable[id].state == cfg.endState {
        RemoveState(id);
        statesClosed := statesClosed + 1;
      }
    }

    // What the FunIface does when it is destroyed.
    method LeaveMark(ba: BufArray<Mbuf<M>>, cur: nat, sendPkt: bool)
      requires ba.Valid() && cur < ba.numBufs
      modifies ba`sendMask
      ensures ba.Valid()
      ensures ba.Contents() == old(ba.Contents())[cur := old(ba.Contents())[cur].(send := sendPkt)]
    {
      if sendPkt {
        ba.MarkSendPkt(cur);
      } else {
        ba.MarkDropPkt(cur);
      }
    }

    // runPkt changes the content of its own packet only.
    method RunPktAmong(ba: BufArray<Mbuf<M>>, cur: nat, ghost pkts: seq<Mbuf<M>>, ghost others: seq<Mbuf<M>>)
      returns (ghost added: seq<Mbuf<M>>)
      requires Valid() && ba.Valid() && cur < ba.numBufs && cur < |pkts| && ba.pkts[cur] == pkts[cur]
      requires forall j :: 0 <= j < |pkts| && j != cur ==> pkts[j] != pkts[cur]
      requires pkts[cur] !in others
      modifies this, connPool, ba, ba.pkts, pkts[cur]
      ensures Valid() && ba.Valid() && connPool == old(connPool) && (fresh(ba.pkts) || ba.pkts == old(ba.pkts))
      ensures var ran := Spec.RunPkt(cfg, old(View()), old(pkts[cur].msg));
              && View() == ran.t
              && Msgs(pkts) == old(Msgs(pkts))[cur := ran.result.msg]
              && ba.Contents() == old(ba.Contents())[cur := Slot(pkts[cur], ran.result.send)] + Marked(added)
              && Msgs(added) == ran.result.extras
      ensures Msgs(others) == old(Msgs(others))
      ensures forall p :: p in added ==> fresh(p)
    {
      hide Spec.RunPkt, Marked;
      added := RunPkt(ba, cur);
    }

    // Timeouts are not modelled: the batch starts with its packets.
    method RunPktBatch(ba: BufArray<Mbuf<M>>) returns (ghost added: seq<Mbuf<M>>)
      requires Valid() && ba.Valid()
      requires forall j, k :: 0 <= j < k < ba.numBufs ==> ba.pkts[j] != ba.pkts[k]
      modifies this, connPool, ba, ba.pkts, ba.pkts[..ba.numBufs]
      ensures Valid() && ba.Valid() && connPool == old(connPool)
      ensures var pkts := old(ba.pkts[..ba.numBufs]);
              var b := Spec.RunBatch(cfg, old(View()), old(Msgs(ba.pkts[..ba.numBufs])));
              && View() == b.t
              && ba.Contents() == Outcomes(pkts, b.results) + Marked(added)
              && Msgs(pkts) == ResultMsgs(b.results)
              && Msgs(added) == Spec.Extras(b.results) == Spec.Asked(cfg, old(View()), old(Msgs(ba.pkts[..ba.numBufs])))
              && multiset(Pick(ba.Contents(), true)) + multiset(Pick(ba.Contents(), false))
                 == multiset(pkts) + multiset(added)
      ensures forall p :: p in added ==> fresh(p)
    {
      hide Spec.RunPkt, Spec.RunBatch, Marked, Pick, Spec.Extras, Spec.Asked, Progress, Zip, Outcomes, ResultMsgs;
      ghost var pkts, was := ba.pkts[..ba.numBufs], View();
      ghost var ms, sends := Msgs(pkts), ba.sendMask[..ba.numBufs];
      ghost var b := Spec.RunBatch(cfg, was, ms[..0]);
      var inCount := ba.GetTotalCount();
      added := [];
      BatchOfNone(cfg, was, ms[..0]);
      NothingAdded(ba.Contents(), b.results);
      ProgressStart(ms, sends);
      assert forall j, k :: 0 <= j < k < |pkts| ==> pkts[j] != pkts[k];
      for i := 0 to inCount
        invariant Valid() && ba.Valid() && connPool == old(connPool) && (fresh(ba.pkts) || ba.pkts == old(ba.pkts))
        invariant b == Spec.RunBatch(cfg, was, ms[..i]) && View() == b.t
        invariant |sends| == inCount && ba.Contents() == Zip(pkts, sends) + Marked(added)
        invariant Progress(ms, Msgs(pkts), sends, b.results, i)
        invariant Msgs(added) == Spec.Extras(b.results)
        invariant forall p :: p in added ==> fresh(p) && p !in pkts
      {
        ghost var now, ran := Msgs(pkts), Spec.RunPkt(cfg, b.t, ms[i]);
        ZipUpdate(pkts, sends, i, ran.result.send);
        ProgressAt(ms, now, sends, b.results, i);
        ba.SlotAt(i);
        ghost var more := RunPktAmong(ba, i, pkts, added);
        BatchSnoc(cfg, was, ms, i);
        ProgressStep(ms, now, sends, b.results, i, ran.result);
        MoreAdded(Zip(pkts, sends), added, more, i, Slot(pkts[i], ran.result.send));
        MsgsAppend(added, more);
        Spec.ExtrasSnoc(b.results, ran.result);
        sends := sends[i := ran.result.send];
        added := added + more;
        b := Spec.Batch(ran.t, b.results + [ran.result]);
      }
      assert ms[..inCount] == ms;
      ProgressEnd(pkts, ms, sends, b.results);
      BatchPartition(pkts, b.results, added);
      Spec.ExtrasAreAsked(cfg, was, ms);
    }

    // Open an outgoing connection with the first packet of the array.
    method AddState(id: I, st: Spec.State<D>, ba: BufArray<Mbuf<M>>) returns (ghost added: seq<Mbuf<M>>)
      requires Valid() && ba.Valid() && st.state < |cfg.functions|
      modifies connPool, ba, ba.pkts, ba.pkts[0]
      ensures Valid() && ba.Valid()
      ensures var ran := Spec.AddState(cfg, old(View()), id, st, old(ba.pkts[0].msg));
              && View() == ran.t
              && old(ba.pkts[0]).msg == ran.result.msg
              && ba.Contents() == old(ba.Contents())[0 := Slot(old(ba.pkts[0]), ran.result.send)] + Marked(added)
              && Msgs(added) == ran.result.extras
    {
      hide Marked, Zip, Spec.Covers, Spec.Registered;
      var pkt := ba.At(0);
      Spec.AddStateRegistered(cfg, View(), id, st, pkt.msg);
      var out := cfg.functions[st.state](st, pkt.msg);
      pkt.msg := out.msg;
      added := Settle(ba, 0, out.extras, out.send);
      if out.st.state != cfg.endState {
        connPool.Add(id, out.st);
      }
    }
  }
}
