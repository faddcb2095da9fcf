// The growing packet array: every slot below numBufs holds a packet and a send/free mark.
module BufArrays {
  datatype Slot<+T> = Slot(pkt: T, send: bool)

  function Zip<T>(pkts: seq<T>, mask: seq<bool>): (slots: seq<Slot<T>>)
    requires |pkts| == |mask|
    ensures |slots| == |pkts|
  {
    seq(|pkts|, i requires 0 <= i < |pkts| => Slot(pkts[i], mask[i]))
  }

  lemma ZipSnoc<T>(pkts: seq<T>, mask: seq<bool>, p: T, m: bool)
    requires |pkts| == |mask|
    ensures Zip(pkts + [p], mask + [m]) == Zip(pkts, mask) + [Slot(p, m)]
  {
  }

  // The packets whose mark equals `send`, in array order.
  function Pick<T>(slots: seq<Slot<T>>, send: bool): seq<T> {
    if slots == [] then []
    else
      var last := slots[|slots| - 1];
      Pick(slots[..|slots| - 1], send) + if last.send == send then [last.pkt] else []
  }

  function Pkts<T>(slots: seq<Slot<T>>): seq<T> {
    seq(|slots|, i requires 0 <= i < |slots| => slots[i].pkt)
  }

  // Sent and freed packets partition the array, duplicates included.
  lemma {:induction false} PickPartitions<T>(slots: seq<Slot<T>>)
    ensures multiset(Pick(slots, true)) + multiset(Pick(slots, false)) == multiset(Pkts(slots))
    ensures |Pick(slots, true)| + |Pick(slots, false)| == |slots|
  {
    if slots != [] {
      var n := |slots| - 1;
      PickPartitions(slots[..n]);
      assert Pkts(slots) == Pkts(slots[..n]) + [slots[n].pkt];
    }
  }

  lemma {:induction false} PickAppend<T>(a: seq<Slot<T>>, b: seq<Slot<T>>, send: bool)
    ensures Pick(a + b, send) == Pick(a, send) + Pick(b, send)
  {
    if b == [] {
      assert a + b == a;
    } else {
      assert (a + b)[..|a + b| - 1] == a + b[..|b| - 1];
      PickAppend(a, b[..|b| - 1], send);
    }
  }

  // A packet is picked exactly when some slot holds it with that mark.
  lemma {:induction false} PickMembers<T>(slots: seq<Slot<T>>, send: bool, p: T)
    ensures p in Pick(slots, send) <==> exists k :: 0 <= k < |slots| && slots[k] == Slot(p, send)
  {
    if slots != [] {
      var n := |slots| - 1;
      PickMembers(slots[..n], send, p);
      assert slots == slots[..n] + [slots[n]];
      if p in Pick(slots[..n], send) {
        var k :| 0 <= k < n && slots[..n][k] == Slot(p, send);
        assert slots[k] == Slot(p, send);
      }
      if k :| 0 <= k < |slots| && slots[k] == Slot(p, send) {
        assert k < n ==> slots[..n][k] == Slot(p, send);
      }
    }
  }

  // A longer prefix never holds fewer marked packets.
  lemma PickMonotone<T>(slots: seq<Slot<T>>, k: nat, send: bool)
    requires k <= |slots|
    ensures |Pick(slots[..k], send)| <= |Pick(slots, send)|
    ensures Pick(slots, send) == Pick(slots[..k], send) + Pick(slots[k..], send)
  {
    assert slots == slots[..k] + slots[k..];
    PickAppend(slots[..k], slots[k..], send);
  }

  lemma PickNone<T>(slots: seq<Slot<T>>, send: bool)
    ensures Pick(slots[..0], send) == []
  {
  }

  // A prefix with as many marked packets as the whole array has them all.
  lemma PickAll<T>(slots: seq<Slot<T>>, k: nat, send: bool)
    requires k <= |slots|
    ensures |Pick(slots[..k], send)| == |Pick(slots, send)| ==> Pick(slots[..k], send) == Pick(slots, send)
    ensures k == |slots| ==> Pick(slots[..k], send) == Pick(slots, send)
  {
    PickMonotone(slots, k, send);
    assert k == |slots| ==> slots[..k] == slots;
  }

  lemma PickStep<T>(slots: seq<Slot<T>>, k: nat, send: bool)
    requires k < |slots|
    ensures Pick(slots[..k + 1], send)
         == if slots[k].send == send then Pick(slots[..k], send) + [slots[k].pkt] else Pick(slots[..k], send)
    ensures |Pick(slots[..k + 1], send)| <= |Pick(slots, send)|
  {
    assert slots[..k + 1][..k] == slots[..k];
    PickMonotone(slots, k + 1, send);
  }

  // Writing the next element behind the part already written.
  lemma Overwrite<T>(done: seq<T>, was: seq<T>, next: T)
    requires |done| < |was|
    ensures (done + was[|done|..])[|done| := next] == (done + [next]) + was[|done| + 1..]
  {
  }

  class BufArray<T(==)> {
    var pkts: array<T>
    var sendMask: seq<bool>
    var numBufs: nat
    var numSlots: nat
    var fromLua: bool

    // Marks of unused slots stay false, so counting over the whole mask is exact; a
    // borrowed array is always full, so it is never written.
    ghost predicate Valid()
      reads this, pkts
    {
      && 0 < numBufs <= numSlots == |sendMask|
      && numSlots <= pkts.Length
      && (forall k :: numBufs <= k < numSlots ==> !sendMask[k])
      && (fromLua ==> numBufs == numSlots)
    }

    ghost function Contents(): seq<Slot<T>>
      requires Valid()
      reads this, pkts
    {
      Zip(pkts[..numBufs], sendMask[..numBufs])
    }

    lemma SlotAt(k: nat)
      requires Valid() && k < numBufs
      ensures Contents()[k] == Slot(pkts[k], sendMask[k])
    {
    }

    constructor (pkts: array<T>, numPkts: nat, fromLua: bool)
      requires 0 < numPkts <= pkts.Length
      ensures Valid() && this.pkts == pkts && this.fromLua == fromLua
      ensures Contents() == seq(numPkts, i requires 0 <= i < numPkts reads pkts => Slot(pkts[i], true))
    {
      this.pkts := pkts;
      this.fromLua := fromLua;
      numBufs := numPkts;
      numSlots := numPkts;
      sendMask := seq(numPkts, _ => true);
    }

    method MarkDropPkt(pktIdx: nat)
      requires Valid() && pktIdx < numBufs
      modifies this`sendMask
      ensures Valid()
      ensures Contents() == old(Contents())[pktIdx := old(Contents())[pktIdx].(send := false)]
    {
      sendMask := sendMask[pktIdx := false];
    }

    method MarkSendPkt(pktIdx: nat)
      requires Valid() && pktIdx < numBufs
      modifies this`sendMask
      ensures Valid()
      ensures Contents() == old(Contents())[pktIdx := old(Contents())[pktIdx].(send := true)]
    {
      sendMask := sendMask[pktIdx := true];
    }

    // Marks every slot that holds the given packet.
    method MarkDropPktPtr(pkt: T)
      requires Valid()
      modifies this`sendMask
      ensures Valid() && |Contents()| == |old(Contents())|
      ensures forall k :: 0 <= k < |Contents()| ==>
                Contents()[k] == (var was := old(Contents())[k]; if was.pkt == pkt then was.(send := false) else was)
    {
      var pktIdx := 0;
      while pktIdx < numBufs
        invariant 0 <= pktIdx <= numBufs && Valid()
        invariant forall k :: pktIdx <= k < numBufs ==> sendMask[k] == old(sendMask)[k]
        invariant forall k :: 0 <= k < pktIdx ==> sendMask[k] == (old(sendMask)[k] && pkts[k] != pkt)
      {
        if pkt == pkts[pktIdx] {
          sendMask := sendMask[pktIdx := false];
        }
        pktIdx := pktIdx + 1;
      }
    }

    // Twice the slots: a new array, the packets copied over, marks of new slots false.
    method Grow()
      requires Valid() && numBufs == numSlots
      modifies this
      ensures Valid() && fresh(pkts) && numBufs == old(numBufs) < numSlots
      ensures Contents() == old(Contents())
    {
      var filler := pkts[0];
      var newPkts := new T[numSlots * 2](_ => filler);
      var i := 0;
      while i < numSlots
        modifies newPkts
        invariant 0 <= i <= numSlots
        invariant newPkts[..i] == pkts[..i]
      {
        newPkts[i] := pkts[i];
        i := i + 1;
      }
      sendMask := sendMask + seq(numSlots, _ => false);
      numSlots := numSlots * 2;
      pkts := newPkts;
      fromLua := false;
      assert pkts[..numBufs] == old(pkts[..numBufs]);
      assert sendMask[..numBufs] == old(sendMask[..numBufs]);
    }

    method AddPkt(pkt: T)
      requires Valid()
      modifies this, pkts
      ensures Valid() && Contents() == old(Contents()) + [Slot(pkt, true)]
      ensures fresh(pkts) || pkts == old(pkts)
      ensures old(fromLua) ==> old(pkts)[..] == old(pkts[..])
    {
      if numBufs == numSlots {
        Grow();
      }
      ghost var ps, ms := pkts[..numBufs], sendMask[..numBufs];
      sendMask := sendMask[numBufs := true];
      pkts[numBufs] := pkt;
      numBufs := numBufs + 1;
      assert pkts[..numBufs] == ps + [pkt];
      assert sendMask[..numBufs] == ms + [true];
      ZipSnoc(ps, ms, pkt, true);
    }

    method GetSendCount() returns (count: nat)
      requires Valid()
      ensures count == |Pick(Contents(), true)|
    {
      hide Pick;
      count := 0;
      var i := 0;
      ghost var slots := Contents();
      PickNone(slots, true);
      while i < |sendMask|
        invariant 0 <= i <= |sendMask|
        invariant count == |Pick(slots[..if i < numBufs then i else numBufs], true)|
      {
        if i < numBufs {
          PickStep(slots, i, true);
        }
        if sendMask[i] {
          count := count + 1;
        }
        i := i + 1;
      }
      assert slots[..numBufs] == slots;
    }

    method GetFreeCount() returns (count: nat)
      requires Valid()
      ensures count == |Pick(Contents(), false)|
    {
      var sendCount := GetSendCount();
      PickPartitions(Contents());
      count := numBufs - sendCount;
    }

    method GetSendBufs(sendBufs: array<T>)
      requires Valid() && sendBufs != pkts
      requires sendBufs.Length >= |Pick(Contents(), true)|
      modifies sendBufs
      ensures var sent := Pick(Contents(), true);
              sendBufs[..] == sent + old(sendBufs[..])[|sent|..]
    {
      hide Pick;
      var curSendBufs, curPkts := 0, 0;
      var sendCount := GetSendCount();
      ghost var slots, was := Contents(), sendBufs[..];
      PickNone(slots, true);
      while curSendBufs < sendCount
        invariant 0 <= curPkts <= numBufs && slots == Contents()
        invariant curSendBufs == |Pick(slots[..curPkts], true)| <= sendCount
        invariant sendBufs[..] == Pick(slots[..curPkts], true) + was[curSendBufs..]
        decreases numBufs - curPkts
      {
        PickAll(slots, curPkts, true);
        PickStep(slots, curPkts, true);
        if sendMask[curPkts] {
          Overwrite(Pick(slots[..curPkts], true), was, pkts[curPkts]);
          sendBufs[curSendBufs] := pkts[curPkts];
          curSendBufs, curPkts := curSendBufs + 1, curPkts + 1;
        } else {
          curPkts := curPkts + 1;
        }
      }
      PickAll(slots, curPkts, true);
    }

    method GetFreeBufs(freeBufs: array<T>)
      requires Valid() && freeBufs != pkts
      requires freeBufs.Length >= |Pick(Contents(), false)|
      modifies freeBufs
      ensures var freed := Pick(Contents(), false);
              freeBufs[..] == freed + old(freeBufs[..])[|freed|..]
    {
      hide Pick;
      var curFreeBufs, curPkts := 0, 0;
      var freeCount := GetFreeCount();
      ghost var slots, was := Contents(), freeBufs[..];
      PickNone(slots, false);
      while curFreeBufs < freeCount
        invariant 0 <= curPkts <= numBufs && slots == Contents()
        invariant curFreeBufs == |Pick(slots[..curPkts], false)| <= freeCount
        invariant freeBufs[..] == Pick(slots[..curPkts], false) + was[curFreeBufs..]
        decreases numBufs - curPkts
      {
        PickAll(slots, curPkts, false);
        PickStep(slots, curPkts, false);
        if !sendMask[curPkts] {
          Overwrite(Pick(slots[..curPkts], false), was, pkts[curPkts]);
          freeBufs[curFreeBufs] := pkts[curPkts];
          curFreeBufs, curPkts := curFreeBufs + 1, curPkts + 1;
        } else {
          curPkts := curPkts + 1;
        }
      }
      PickAll(slots, curPkts, false);
    }

    function GetTotalCount(): nat
      reads this
    {
      numBufs
    }

    function At(idx: nat): T
      requires Valid() && idx < numBufs
      reads this, pkts
    {
      pkts[idx]
    }
  }
}
