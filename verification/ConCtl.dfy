// TcpConCtlSimple: the duplicate-acknowledgement counter behind fast retransmit.
module ConCtls {
  import opened Words
  import opened Options

  datatype ConCtl = ConCtl(lastAck: U32, alreadySeen: U32) {
    function HandlePacket(seqNo: U32, ackNo: U32): ConCtl {
      if lastAck == ackNo && ackNo < seqNo then this.(alreadySeen := Wrap32(alreadySeen + 1))
      else ConCtl(ackNo, 0)
    }

    function Reset(): Option<U32> {
      if alreadySeen >= 3 then Some(lastAck) else None
    }
  }

  const CON_WINDOW: U32 := 0xffff_ffff

  const FRESH := ConCtl(0, 0)

  // One handlePacket call: our next sequence number and the acknowledgement that came in.
  datatype Call = Call(seqNo: U32, ackNo: U32)

  function After(calls: seq<Call>): ConCtl {
    if calls == [] then FRESH
    else
      var last := calls[|calls| - 1];
      After(calls[..|calls| - 1]).HandlePacket(last.seqNo, last.ackNo)
  }

  // Call k repeated the acknowledgement before it while data was outstanding.
  predicate IsDuplicate(calls: seq<Call>, k: nat)
    requires k < |calls|
  {
    calls[k].ackNo == (if k == 0 then 0 else calls[k - 1].ackNo) && calls[k].ackNo < calls[k].seqNo
  }

  // The length of the unbroken run of duplicates that ends the history.
  function DuplicateRun(calls: seq<Call>): nat {
    if calls == [] then 0
    else if IsDuplicate(calls, |calls| - 1) then DuplicateRun(calls[..|calls| - 1]) + 1
    else 0
  }

  // The segment-loss signal of section 3.2 of RFC 5681, counted as this code counts it.
  predicate LastThreeAreDuplicates(calls: seq<Call>) {
    var n := |calls|;
    n >= 3 && IsDuplicate(calls, n - 1) && IsDuplicate(calls, n - 2) && IsDuplicate(calls, n - 3)
  }

  lemma {:induction false} CounterIsDuplicateRun(calls: seq<Call>)
    ensures After(calls).alreadySeen == Wrap32(DuplicateRun(calls))
    ensures After(calls).lastAck == if calls == [] then 0 else calls[|calls| - 1].ackNo
    ensures DuplicateRun(calls) <= |calls|
  {
    if calls != [] {
      var front := calls[..|calls| - 1];
      CounterIsDuplicateRun(front);
      Wrap32Add(DuplicateRun(front), 1);
    }
  }

  lemma RunOfThree(calls: seq<Call>)
    ensures DuplicateRun(calls) >= 3 <==> LastThreeAreDuplicates(calls)
  {
    var n := |calls|;
    if n >= 3 {
      var a, b, c := calls[..n - 1], calls[..n - 2], calls[..n - 3];
      assert a[..n - 2] == b && b[..n - 3] == c;
      assert DuplicateRun(a) == if IsDuplicate(calls, n - 2) then DuplicateRun(b) + 1 else 0;
      assert DuplicateRun(b) == if IsDuplicate(calls, n - 3) then DuplicateRun(c) + 1 else 0;
    } else {
      CounterIsDuplicateRun(calls);
    }
  }

  // reset() fires exactly on the third duplicate in a row and on every further one, unless
  // the 32-bit counter has just wrapped.
  lemma ResetFiresIff(calls: seq<Call>)
    ensures After(calls).Reset().Some? ==> After(calls).Reset().value == calls[|calls| - 1].ackNo
    ensures (After(calls).Reset().Some? <==> LastThreeAreDuplicates(calls))
       <==> !(DuplicateRun(calls) >= 3 && Wrap32(DuplicateRun(calls)) < 3)
  {
    CounterIsDuplicateRun(calls);
    RunOfThree(calls);
  }

  // With fewer than 2^32 calls there is no wrap, so the trigger is exact.
  lemma ResetFiresOnThirdDuplicate(calls: seq<Call>)
    requires |calls| < TWO32
    ensures After(calls).Reset() ==
            if LastThreeAreDuplicates(calls) then Some(calls[|calls| - 1].ackNo) else None
  {
    CounterIsDuplicateRun(calls);
    RunOfThree(calls);
  }

  // 2^32 duplicates of acknowledgement 0 in a row leave the trigger silent.
  lemma ResetMissesAfterWrap()
    ensures var calls := seq(TWO32, _ => Call(1, 0));
            LastThreeAreDuplicates(calls) && After(calls).Reset() == None
  {
    var calls: seq<Call> := seq(TWO32, _ => Call(1, 0));
    AllDuplicates(calls, TWO32);
    assert calls[..TWO32] == calls;
    CounterIsDuplicateRun(calls);
  }

  lemma {:induction false} AllDuplicates(calls: seq<Call>, n: nat)
    requires n <= |calls| && forall k :: 0 <= k < |calls| ==> calls[k] == Call(1, 0)
    ensures DuplicateRun(calls[..n]) == n
  {
    if n > 0 {
      AllDuplicates(calls, n - 1);
      assert calls[..n][..n - 1] == calls[..n - 1];
    }
  }

  class TcpConCtlSimple {
    var lastAck: U32
    var alreadySeen: U32

    ghost function View(): ConCtl
      reads this
    {
      ConCtl(lastAck, alreadySeen)
    }

    constructor ()
      ensures View() == FRESH
    {
      lastAck := 0;
      alreadySeen := 0;
    }

    method HandlePacket(seqNo: U32, ackNo: U32)
      modifies this
      ensures View() == old(View()).HandlePacket(seqNo, ackNo)
    {
      if lastAck == ackNo && ackNo < seqNo {
        alreadySeen := Wrap32(alreadySeen + 1);
      } else {
        lastAck := ackNo;
        alreadySeen := 0;
      }
    }

    method Reset() returns (seqNo: Option<U32>)
      ensures seqNo == View().Reset()
    {
      if alreadySeen >= 3 {
        return Some(lastAck);
      }
      return None;
    }

    function GetConWindow(): U32 {
      CON_WINDOW
    }
  }
}
