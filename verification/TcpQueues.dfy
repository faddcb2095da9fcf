// Segments and what the server does with queues of them: cutting a buffer into segments,
// pruning, requeueing, and the window-limited send loop, all on values.
module TcpQueues {
  import opened Words

  const MSS: nat := 1460

  // A segment owns at most MSS bytes, so the source's 16-bit lengths never truncate.
  type Chunk = d: seq<Byte> | |d| <= MSS

  datatype Segment = Segment(seqNumber: U32, data: Chunk) {
    // The number behind the last byte.
    function End(): U32 {
      Wrap32(seqNumber + |data|)
    }
  }

  function Bytes(q: seq<Segment>): nat {
    if q == [] then 0 else Bytes(q[..|q| - 1]) + |q[|q| - 1].data|
  }

  function Concat(q: seq<Segment>): seq<Byte> {
    if q == [] then [] else Concat(q[..|q| - 1]) + q[|q| - 1].data
  }

  lemma {:induction false} BytesAppend(a: seq<Segment>, b: seq<Segment>)
    ensures Bytes(a + b) == Bytes(a) + Bytes(b)
    ensures Concat(a + b) == Concat(a) + Concat(b)
  {
    if b == [] {
      assert a + b == a;
    } else {
      assert (a + b)[..|a + b| - 1] == a + b[..|b| - 1];
      BytesAppend(a, b[..|b| - 1]);
    }
  }

  lemma BytesEmpty(q: seq<Segment>)
    requires q == []
    ensures Bytes(q) == 0 && Concat(q) == []
  {
  }

  lemma BytesSnoc(q: seq<Segment>, g: Segment)
    ensures Bytes(q + [g]) == Bytes(q) + |g.data|
    ensures Concat(q + [g]) == Concat(q) + g.data
  {
    assert (q + [g])[..|q|] == q;
  }

  lemma BytesHead(q: seq<Segment>)
    requires q != []
    ensures Bytes(q) == |q[0].data| + Bytes(q[1..])
    ensures Concat(q) == q[0].data + Concat(q[1..])
  {
    assert q == [q[0]] + q[1..];
    BytesAppend([q[0]], q[1..]);
    assert [q[0]][..0] == [];
  }

  // Sequence numbers run from `first` without gap or overlap.
  predicate Tiles(first: int, q: seq<Segment>) {
    q == [] || (Tiles(first, q[..|q| - 1]) && q[|q| - 1].seqNumber == Wrap32(first + Bytes(q[..|q| - 1])))
  }

  lemma {:induction false} TilesAppend(first: int, a: seq<Segment>, b: seq<Segment>)
    requires Tiles(first, a) && Tiles(first + Bytes(a), b)
    ensures Tiles(first, a + b)
  {
    if b == [] {
      assert a + b == a;
    } else {
      var front := b[..|b| - 1];
      assert (a + b)[..|a + b| - 1] == a + front;
      TilesAppend(first, a, front);
      BytesAppend(a, front);
    }
  }

  lemma TilesOne(first: U32, g: Segment)
    requires g.seqNumber == first
    ensures Tiles(first, [g]) && Bytes([g]) == |g.data|
  {
    assert [g][..0] == [];
  }

  lemma {:induction false} TilesShift(first: int, q: seq<Segment>)
    requires Tiles(Wrap32(first), q)
    ensures Tiles(first, q)
  {
    if q != [] {
      TilesShift(first, q[..|q| - 1]);
      Wrap32Add(first, Bytes(q[..|q| - 1]));
    }
  }

  // The i-th segment starts where the first i segments end.
  lemma {:induction false} TilesAt(first: int, q: seq<Segment>, i: nat)
    requires Tiles(first, q) && i < |q|
    ensures q[i].seqNumber == Wrap32(first + Bytes(q[..i]))
  {
    if i < |q| - 1 {
      TilesAt(first, q[..|q| - 1], i);
      assert q[..|q| - 1][..i] == q[..i];
    }
  }

  // --- TcpIface::sendData ---

  function Segmentize(first: U32, data: seq<Byte>): seq<Segment>
    decreases |data|
  {
    if |data| <= MSS then [Segment(first, data)]
    else [Segment(first, data[..MSS])] + Segmentize(Wrap32(first + MSS), data[MSS..])
  }

  // Cutting loses nothing: max(1, ceil(len / MSS)) segments, whose data is the input and
  // whose numbers tile the range that seqLocal advances over.
  lemma {:induction false} SegmentizeRoundTrip(first: U32, data: seq<Byte>)
    ensures Concat(Segmentize(first, data)) == data
    ensures Bytes(Segmentize(first, data)) == |data|
    decreases |data|
  {
    var q := Segmentize(first, data);
    if |data| > MSS {
      SegmentizeRoundTrip(Wrap32(first + MSS), data[MSS..]);
      assert data == data[..MSS] + data[MSS..];
      assert q[1..] == Segmentize(Wrap32(first + MSS), data[MSS..]);
      BytesHead(q);
    } else {
      assert q[..0] == [];
    }
  }

  lemma SegmentizeShort(first: U32, data: seq<Byte>)
    requires |data| <= MSS
    ensures Segmentize(first, data) == [Segment(first, data)]
  {
  }

  lemma {:induction false} SegmentizeTiles(first: U32, data: seq<Byte>)
    ensures Tiles(first, Segmentize(first, data))
    decreases |data|
  {
    if |data| > MSS {
      var head := [Segment(first, data[..MSS])];
      SegmentizeTiles(Wrap32(first + MSS), data[MSS..]);
      TilesShift(first + MSS, Segmentize(Wrap32(first + MSS), data[MSS..]));
      TilesOne(first, head[0]);
      TilesAppend(first, head, Segmentize(Wrap32(first + MSS), data[MSS..]));
    }
  }

  // The next segment of a buffer that still has data, and what is then left to do.
  function Remaining(first: U32, data: seq<Byte>): seq<Segment> {
    if data == [] then [] else Segmentize(first, data)
  }

  lemma SegmentizeNext(first: U32, data: seq<Byte>, size: nat)
    requires data != [] && size == if |data| < MSS then |data| else MSS
    ensures Segmentize(first, data)
         == [Segment(first, data[..size])] + Remaining(Wrap32(first + size), data[size..])
  {
    if |data| <= MSS {
      assert data[..size] == data;
      assert [Segment(first, data)] + [] == [Segment(first, data)];
    }
  }

  // One segment for an empty buffer, otherwise as many as full segments are needed.
  lemma {:induction false} SegmentizeCount(first: U32, data: seq<Byte>)
    ensures var n := |Segmentize(first, data)|;
            if data == [] then n == 1 else (n - 1) * MSS < |data| <= n * MSS
    decreases |data|
  {
    if |data| > MSS {
      SegmentizeCount(Wrap32(first + MSS), data[MSS..]);
    }
  }

  // Only the last segment of a buffer is short.
  lemma {:induction false} SegmentizeFills(first: U32, data: seq<Byte>, i: nat)
    requires i < |Segmentize(first, data)| - 1
    ensures |Segmentize(first, data)[i].data| == 1460
    decreases |data|
  {
    if i > 0 {
      SegmentizeFills(Wrap32(first + MSS), data[MSS..], i - 1);
    }
  }

  // --- the two filters over dataAlreadySent ---

  // AckedBy is the pruning test, Beyond the requeueing test; both compare 32-bit numbers.
  datatype Test = AckedBy(ackNo: U32) | Beyond(resetSeq: U32) {
    predicate Holds(g: Segment) {
      match this
      case AckedBy(ackNo) => ackNo > g.End()
      case Beyond(resetSeq) => g.seqNumber > resetSeq
    }
  }

  function Select(q: seq<Segment>, t: Test, want: bool): seq<Segment> {
    if q == [] then []
    else
      var last := q[|q| - 1];
      Select(q[..|q| - 1], t, want) + if t.Holds(last) == want then [last] else []
  }

  function Reverse(q: seq<Segment>): seq<Segment> {
    if q == [] then [] else [q[|q| - 1]] + Reverse(q[..|q| - 1])
  }

  // A filter and its complement share out the queue, each segment to the side its test names.
  lemma {:induction false} SelectPartitions(q: seq<Segment>, t: Test)
    ensures multiset(Select(q, t, true)) + multiset(Select(q, t, false)) == multiset(q)
  {
    hide Select;
    if q == [] {
      SelectEmpty(q, t);
    } else {
      var front, last := q[..|q| - 1], q[|q| - 1];
      SelectPartitions(front, t);
      SelectLast(q, t);
      SnocShares(Select(front, t, t.Holds(last)), Select(front, t, !t.Holds(last)), front, last);
      assert q == front + [last];
    }
  }

  lemma SelectEmpty(q: seq<Segment>, t: Test)
    requires q == []
    ensures forall want :: Select(q, t, want) == []
  {
  }

  lemma SelectLast(q: seq<Segment>, t: Test)
    requires q != []
    ensures var front, last := q[..|q| - 1], q[|q| - 1];
            && Select(q, t, t.Holds(last)) == Select(front, t, t.Holds(last)) + [last]
            && Select(q, t, !t.Holds(last)) == Select(front, t, !t.Holds(last))
  {
  }

  lemma SnocShares(a: seq<Segment>, b: seq<Segment>, front: seq<Segment>, last: Segment)
    requires multiset(a) + multiset(b) == multiset(front)
    ensures multiset(a + [last]) + multiset(b) == multiset(front + [last])
  {
  }

  lemma {:induction false} SelectBytes(q: seq<Segment>, t: Test)
    ensures Bytes(Select(q, t, true)) + Bytes(Select(q, t, false)) == Bytes(q)
  {
    if q != [] {
      var front, last := q[..|q| - 1], q[|q| - 1];
      var keep := t.Holds(last);
      SelectBytes(front, t);
      BytesSnoc(Select(front, t, keep), last);
      assert Select(q, t, !keep) == Select(front, t, !keep);
      assert Select(q, t, keep) == Select(front, t, keep) + [last];
    }
  }

  lemma {:induction false} SelectHolds(q: seq<Segment>, t: Test, want: bool, g: Segment)
    ensures g in Select(q, t, want) <==> g in q && t.Holds(g) == want
  {
    if q != [] {
      var front, last := q[..|q| - 1], q[|q| - 1];
      SelectHolds(front, t, want, g);
      assert q == front + [last];
    }
  }

  lemma SelectStep(q: seq<Segment>, i: nat, t: Test, want: bool)
    requires i < |q|
    ensures Select(q[..i + 1], t, want)
         == if t.Holds(q[i]) == want then Select(q[..i], t, want) + [q[i]] else Select(q[..i], t, want)
  {
    assert q[..i + 1][..i] == q[..i];
  }

  lemma {:induction false} ReverseKeeps(q: seq<Segment>)
    ensures multiset(Reverse(q)) == multiset(q)
  {
    if q != [] {
      ReverseKeeps(q[..|q| - 1]);
      assert q == q[..|q| - 1] + [q[|q| - 1]];
    }
  }

  lemma {:induction false} ReverseBytes(q: seq<Segment>)
    ensures Bytes(Reverse(q)) == Bytes(q)
  {
    if q != [] {
      ReverseBytes(q[..|q| - 1]);
      BytesHead(Reverse(q));
      assert Reverse(q)[1..] == Reverse(q[..|q| - 1]);
    }
  }

  lemma {:induction false} ReverseAt(q: seq<Segment>, i: nat)
    requires i < |q|
    ensures |Reverse(q)| == |q| && Reverse(q)[i] == q[|q| - 1 - i]
  {
    if |q| > 1 {
      ReverseAt(q[..|q| - 1], if i == 0 then 0 else i - 1);
    }
  }

  // --- the send loop ---

  datatype Sending = Sending(toSend: seq<Segment>, sent: seq<Segment>, written: seq<Segment>, used: nat, cut: bool)

  // A segment that does not fit is cut as the source cuts it: the length already taken is
  // subtracted again on both halves, which leaves both of them empty.
  function SendAll(toSend: seq<Segment>, sent: seq<Segment>, window: nat): Sending {
    if window == 0 || toSend == [] then Sending(toSend, sent, [], 0, false)
    else
      var head := toSend[0];
      if |head.data| <= window then
        var rest := SendAll(toSend[1..], sent + [head], window - |head.data|);
        rest.(written := [head] + rest.written, used := |head.data| + rest.used)
      else
        var done, remains := Segment(head.seqNumber, []), Segment(Wrap32(head.seqNumber + window), []);
        Sending([remains] + toSend[1..], sent + [done], [done], window, true)
  }

  // The window ends on a segment boundary of the queue, or beyond the queue.
  ghost predicate Fits(toSend: seq<Segment>, window: nat) {
    Bytes(toSend) <= window || exists k :: 0 <= k <= |toSend| && Bytes(toSend[..k]) == window
  }

  // The loop never counts or writes more than the window, and stops only when the queue is
  // empty or the window exactly used.
  lemma {:induction false} SendAllRespectsWindow(toSend: seq<Segment>, sent: seq<Segment>, window: nat)
    ensures var r := SendAll(toSend, sent, window);
            && Bytes(r.written) <= r.used <= window
            && (r.toSend == [] || r.used == window)
            && (if r.cut then r.used == window && r.toSend != [] else Bytes(r.written) == r.used)
  {
    hide Bytes;
    var r := SendAll(toSend, sent, window);
    if window == 0 || toSend == [] {
      BytesEmpty(r.written);
    } else {
      var head := toSend[0];
      BytesHead(r.written);
      if |head.data| <= window {
        SendAllRespectsWindow(toSend[1..], sent + [head], window - |head.data|);
        assert r.written[1..] == SendAll(toSend[1..], sent + [head], window - |head.data|).written;
      } else {
        BytesEmpty(r.written[1..]);
      }
    }
  }

  lemma {:induction false} CutIffWindowEndsInside(toSend: seq<Segment>, sent: seq<Segment>, window: nat)
    ensures SendAll(toSend, sent, window).cut <==> !Fits(toSend, window)
  {
    hide Bytes, Fits;
    if toSend == [] || window == 0 {
      FitsTrivially(toSend, window);
    } else {
      FitsHead(toSend, window);
      if |toSend[0].data| <= window {
        CutIffWindowEndsInside(toSend[1..], sent + [toSend[0]], window - |toSend[0].data|);
      }
    }
  }

  lemma FitsTrivially(toSend: seq<Segment>, window: nat)
    requires toSend == [] || window == 0
    ensures Fits(toSend, window)
  {
    hide Bytes;
    BytesEmpty(toSend[..0]);
    if toSend == [] {
      BytesEmpty(toSend);
    }
  }

  lemma FitsHead(toSend: seq<Segment>, window: nat)
    requires toSend != [] && window > 0
    ensures Fits(toSend, window) <==>
            |toSend[0].data| <= window && Fits(toSend[1..], window - |toSend[0].data|)
  {
    hide Bytes;
    var head, tail := toSend[0], toSend[1..];
    BytesHead(toSend);
    BytesEmpty(toSend[..0]);
    forall k | 1 <= k <= |toSend| ensures Bytes(toSend[..k]) == |head.data| + Bytes(tail[..k - 1]) {
      BytesHead(toSend[..k]);
      assert toSend[..k][1..] == tail[..k - 1];
    }
    if |head.data| <= window {
      var left := window - |head.data|;
      if k :| 0 <= k <= |tail| && Bytes(tail[..k]) == left {
        assert Bytes(toSend[..k + 1]) == window;
      }
      if k :| 0 <= k <= |toSend| && Bytes(toSend[..k]) == window {
        assert Bytes(tail[..k - 1]) == left;
      }
    }
  }

  // Without a cut the loop moves a prefix of the queue, in order, onto the sent queue.
  lemma {:induction false} SendAllMovesPrefix(toSend: seq<Segment>, sent: seq<Segment>, window: nat)
    requires !SendAll(toSend, sent, window).cut
    ensures toSend == SendAll(toSend, sent, window).written + SendAll(toSend, sent, window).toSend
    ensures SendAll(toSend, sent, window).sent == sent + SendAll(toSend, sent, window).written
  {
    if window > 0 && toSend != [] {
      var head, left := toSend[0], window - |toSend[0].data|;
      SendAllMovesPrefix(toSend[1..], sent + [head], left);
      Regroup(toSend, sent, SendAll(toSend[1..], sent + [head], left));
    }
  }

  lemma Regroup(toSend: seq<Segment>, sent: seq<Segment>, rest: Sending)
    requires toSend != [] && toSend[1..] == rest.written + rest.toSend
    requires rest.sent == (sent + [toSend[0]]) + rest.written
    ensures toSend == ([toSend[0]] + rest.written) + rest.toSend
    ensures rest.sent == sent + ([toSend[0]] + rest.written)
  {
  }

  lemma SendAllKeeps(toSend: seq<Segment>, sent: seq<Segment>, window: nat)
    requires !SendAll(toSend, sent, window).cut
    ensures var r := SendAll(toSend, sent, window);
            multiset(r.toSend) + multiset(r.sent) == multiset(toSend) + multiset(sent)
  {
    SendAllMovesPrefix(toSend, sent, window);
  }

  // A cut drops the whole data of the segment it splits, so bytes survive the loop exactly
  // when nothing is cut.
  lemma {:induction false} BytesSurviveIffNoCut(toSend: seq<Segment>, sent: seq<Segment>, window: nat)
    ensures var r := SendAll(toSend, sent, window);
            && Bytes(r.sent) + Bytes(r.toSend) <= Bytes(sent) + Bytes(toSend)
            && (Bytes(r.sent) + Bytes(r.toSend) == Bytes(sent) + Bytes(toSend) <==> !r.cut)
  {
    if window > 0 && toSend != [] {
      var head, r := toSend[0], SendAll(toSend, sent, window);
      BytesHead(toSend);
      assert (sent + [head])[..|sent|] == sent;
      if |head.data| <= window {
        BytesSurviveIffNoCut(toSend[1..], sent + [head], window - |head.data|);
      } else {
        BytesHead(r.toSend);
        assert r.toSend[1..] == toSend[1..];
        assert r.sent[..|sent|] == sent;
      }
    }
  }

  // Cut or not, what is written is what joins the sent queue.
  lemma {:induction false} SendAllAppends(toSend: seq<Segment>, sent: seq<Segment>, window: nat)
    ensures SendAll(toSend, sent, window).sent == sent + SendAll(toSend, sent, window).written
  {
    if window > 0 && toSend != [] && |toSend[0].data| <= window {
      SendAllAppends(toSend[1..], sent + [toSend[0]], window - |toSend[0].data|);
    }
  }

  lemma WritesNothingIff(toSend: seq<Segment>, sent: seq<Segment>, window: nat)
    ensures SendAll(toSend, sent, window).written == [] <==> toSend == [] || window == 0
  {
  }

  // The loop turns at most once exactly when the queue holds no second segment or the first
  // one takes the whole window.
  lemma WritesAtMostOneIff(toSend: seq<Segment>, sent: seq<Segment>, window: nat)
    ensures |SendAll(toSend, sent, window).written| <= 1 <==> |toSend| <= 1 || window <= |toSend[0].data|
  {
    if window > 0 && toSend != [] && |toSend[0].data| <= window {
      WritesNothingIff(toSend[1..], sent + [toSend[0]], window - |toSend[0].data|);
    }
  }

  // What a cut does: the segments before it have left whole; of the one cut, an empty half
  // with its number is sent, an empty half numbered behind the window's end stays in front.
  lemma {:induction false} CutHalves(toSend: seq<Segment>, sent: seq<Segment>, window: nat) returns (i: nat)
    requires SendAll(toSend, sent, window).cut
    ensures i < |toSend| && Bytes(toSend[..i]) < window < Bytes(toSend[..i]) + |toSend[i].data|
    ensures var r, g := SendAll(toSend, sent, window), toSend[i];
            && r.written == toSend[..i] + [Segment(g.seqNumber, [])]
            && r.toSend == [Segment(Wrap32(g.seqNumber + (window - Bytes(toSend[..i]))), [])] + toSend[i + 1..]
  {
    hide Bytes;
    var head := toSend[0];
    if |head.data| <= window {
      var rest := SendAll(toSend[1..], sent + [head], window - |head.data|);
      var j := CutHalves(toSend[1..], sent + [head], window - |head.data|);
      i := j + 1;
      assert toSend[..i][1..] == toSend[1..][..j];
      BytesHead(toSend[..i]);
      assert toSend[..i] == [head] + toSend[1..][..j];
    } else {
      i := 0;
      BytesEmpty(toSend[..0]);
    }
  }

  // A two-byte segment against a window of one: both halves come out empty.
  lemma CutLosesData()
    ensures var r := SendAll([Segment(1, [7, 8])], [], 1);
            r.cut && r.toSend == [Segment(2, [])] && r.sent == [Segment(1, [])] && Concat(r.written) == []
  {
    var done := [Segment(1, [])];
    assert done[..0] == [];
    BytesEmpty(done[..0]);
  }
}
