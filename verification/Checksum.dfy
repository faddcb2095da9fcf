// IPv4::calcChecksum: an end-around-carry accumulator over the 16-bit words that start at
// the IP header, proved equal to the one's-complement sum of section 3.1 of RFC 791.
module Checksum {
  import opened Words

  const CHECKSUM_WORD := 5
  const ONES := 0xffff

  // One turn of the loop: add, and fold bit 16 back in.
  function AddWord(acc: U16, w: U16): U16 {
    var sum := acc + w;
    if (sum / TWO16) % 2 == 1 then sum % TWO16 + 1 else sum
  }

  function Fold(ws: seq<U16>): U16 {
    if ws == [] then 0 else AddWord(Fold(ws[..|ws| - 1]), ws[|ws| - 1])
  }

  function Complement(w: U16): U16 {
    ONES - w
  }

  // The header length nibble, in 32-bit words, sits in the first half-word.
  function Ihl(w: U16): nat {
    (w / 256) % 16
  }

  // Reference definition: the plain integer sum, reduced to the range 1..0xffff.
  function Sum(ws: seq<U16>): nat {
    if ws == [] then 0 else Sum(ws[..|ws| - 1]) + ws[|ws| - 1]
  }

  function Reduced(sum: nat): U16 {
    if sum == 0 then 0 else (sum - 1) % ONES + 1
  }

  lemma ReducedUnique(sum: nat, r: nat, k: nat)
    requires sum == r + ONES * k && 1 <= r <= ONES
    ensures Reduced(sum) == r
  {
    assert sum - 1 == ONES * k + (r - 1);
  }

  lemma AddWordReduces(sum: nat, w: U16)
    ensures AddWord(Reduced(sum), w) == Reduced(sum + w)
  {
    if sum > 0 {
      var k, r := (sum - 1) / ONES, Reduced(sum);
      assert sum == r + ONES * k;
      if r + w <= ONES {
        ReducedUnique(sum + w, r + w, k);
      } else {
        ReducedUnique(sum + w, r + w - ONES, k + 1);
      }
    }
  }

  lemma ReducedMod(sum: nat)
    ensures Reduced(sum) % ONES == sum % ONES
  {
    if sum > 0 {
      var k := (sum - 1) / ONES;
      assert sum == Reduced(sum) + ONES * k;
      if Reduced(sum) == ONES {
        assert sum == ONES * (k + 1);
      }
    }
  }

  // The accumulator is the plain sum, reduced.
  lemma {:induction false} FoldIsOnesComplementSum(ws: seq<U16>)
    ensures Fold(ws) == Reduced(Sum(ws))
  {
    if ws != [] {
      FoldIsOnesComplementSum(ws[..|ws| - 1]);
      AddWordReduces(Sum(ws[..|ws| - 1]), ws[|ws| - 1]);
    }
  }

  // Congruent to the sum modulo 0xffff, and zero only when every word is zero.
  lemma FoldRange(ws: seq<U16>)
    ensures Fold(ws) % ONES == Sum(ws) % ONES
    ensures Fold(ws) == 0 <==> forall k :: 0 <= k < |ws| ==> ws[k] == 0
  {
    FoldIsOnesComplementSum(ws);
    ReducedMod(Sum(ws));
    ZeroSum(ws);
  }

  lemma {:induction false} ZeroSum(ws: seq<U16>)
    ensures Sum(ws) == 0 <==> forall k :: 0 <= k < |ws| ==> ws[k] == 0
  {
    if ws != [] {
      var front := ws[..|ws| - 1];
      ZeroSum(front);
      assert ws == front + [ws[|ws| - 1]];
      assert forall k :: 0 <= k < |front| ==> front[k] == ws[k];
      if Sum(ws) == 0 {
        forall k | 0 <= k < |ws| ensures ws[k] == 0 {
          assert k < |front| ==> front[k] == 0;
        }
      }
    }
  }

  lemma {:induction false} SumAppend(a: seq<U16>, b: seq<U16>)
    ensures Sum(a + b) == Sum(a) + Sum(b)
  {
    if b == [] {
      assert a + b == a;
    } else {
      assert (a + b)[..|a + b| - 1] == a + b[..|b| - 1];
      SumAppend(a, b[..|b| - 1]);
    }
  }

  lemma SumUpdate(ws: seq<U16>, k: nat, w: U16)
    requires k < |ws|
    ensures Sum(ws[k := w]) == Sum(ws) - ws[k] + w
  {
    assert ws == ws[..k] + [ws[k]] + ws[k + 1..];
    assert ws[k := w] == ws[..k] + [w] + ws[k + 1..];
    SumAppend(ws[..k] + [ws[k]], ws[k + 1..]);
    SumAppend(ws[..k] + [w], ws[k + 1..]);
    SumAppend(ws[..k], [ws[k]]);
    SumAppend(ws[..k], [w]);
  }

  lemma {:induction false} SumOfPermutation(a: seq<U16>, b: seq<U16>)
    requires multiset(a) == multiset(b)
    ensures Sum(a) == Sum(b)
    decreases |a|
  {
    if a == [] {
      assert |multiset(b)| == 0;
    } else {
      var last := a[|a| - 1];
      assert a == a[..|a| - 1] + [last];
      assert last in multiset(b);
      var k :| 0 <= k < |b| && b[k] == last;
      assert b == b[..k] + [last] + b[k + 1..];
      var rest := b[..k] + b[k + 1..];
      assert multiset(a[..|a| - 1]) == multiset(a) - multiset{last} == multiset(rest);
      SumOfPermutation(a[..|a| - 1], rest);
      SumAppend(b[..k], b[k + 1..]);
      SumAppend(b[..k] + [last], b[k + 1..]);
      SumAppend(b[..k], [last]);
    }
  }

  // The order of the words does not matter.
  lemma FoldIsOrderIndependent(a: seq<U16>, b: seq<U16>)
    requires multiset(a) == multiset(b)
    ensures Fold(a) == Fold(b)
  {
    SumOfPermutation(a, b);
    FoldIsOnesComplementSum(a);
    FoldIsOnesComplementSum(b);
  }

  // What calcChecksum leaves behind when it covers n words.
  function Stored(ws: seq<U16>, n: nat): seq<U16>
    requires CHECKSUM_WORD < |ws| && n <= |ws|
  {
    ws[CHECKSUM_WORD := Complement(Fold(ws[CHECKSUM_WORD := 0][..n]))]
  }

  lemma StoredSum(ws: seq<U16>, n: nat)
    requires CHECKSUM_WORD < n <= |ws|
    ensures Sum(Stored(ws, n)[..n]) % ONES == 0
    ensures Sum(Stored(ws, n)[..n]) > 0
  {
    var zeroed := ws[CHECKSUM_WORD := 0][..n];
    var c := Complement(Fold(zeroed));
    assert Stored(ws, n)[..n] == zeroed[CHECKSUM_WORD := c];
    SumUpdate(zeroed, CHECKSUM_WORD, c);
    FoldIsOnesComplementSum(zeroed);
    var s := Sum(zeroed);
    assert Sum(Stored(ws, n)[..n]) == s + ONES - Reduced(Sum(zeroed));
    if s > 0 {
      assert s - 1 == ONES * ((s - 1) / ONES) + (s - 1) % ONES;
      assert s + ONES - Reduced(Sum(zeroed)) == ONES * ((s - 1) / ONES + 1);
    }
  }

  // Nothing but the checksum, the sixth half-word of the header, is changed.
  lemma OnlyChecksumChanges(ws: seq<U16>, n: nat)
    requires 5 < |ws| && n <= |ws|
    ensures |Stored(ws, n)| == |ws| && forall k :: 0 <= k < |ws| && k != 5 ==> Stored(ws, n)[k] == ws[k]
  {
  }

  // The header length is the low nibble of the first byte.
  lemma IhlIsLowNibble(version: nat, ihl: nat, tos: nat)
    requires version < 16 && ihl < 16 && tos < 256
    ensures Ihl(version * 4096 + ihl * 256 + tos) == ihl
  {
    assert (version * 4096 + ihl * 256 + tos) / 256 == version * 16 + ihl;
  }

  // The receiver's test: the covered words, stored checksum included, fold to 0xffff.
  lemma CoveredWordsVerify(ws: seq<U16>, n: nat)
    requires CHECKSUM_WORD < n <= |ws|
    ensures Fold(Stored(ws, n)[..n]) == ONES
  {
    StoredSum(ws, n);
    FoldIsOnesComplementSum(Stored(ws, n)[..n]);
    AllOnes(Sum(Stored(ws, n)[..n]));
  }

  // The loop covers 4 * ihl half-words, twice the header. The header alone passes the
  // receiver's test exactly when the half-words behind it sum to zero modulo 0xffff.
  lemma HeaderVerifiesIffTrailerCancels(ws: seq<U16>)
    requires |ws| > CHECKSUM_WORD && Ihl(ws[0]) >= 5 && 4 * Ihl(ws[0]) <= |ws|
    ensures var n := Ihl(ws[0]);
            Fold(Stored(ws, 4 * n)[..2 * n]) == ONES <==> Fold(ws[2 * n..4 * n]) in {0, ONES}
  {
    var n := Ihl(ws[0]);
    var out := Stored(ws, 4 * n);
    var header, trailer := out[..2 * n], out[2 * n..4 * n];
    assert out[..4 * n] == header + trailer && trailer == ws[2 * n..4 * n];
    SumAppend(header, trailer);
    StoredSum(ws, 4 * n);
    FoldIsOnesComplementSum(header);
    FoldIsOnesComplementSum(trailer);
    assert header[0] == ws[0] != 0;
    ZeroSum(header);
    Cancelling(Sum(header), Sum(trailer));
    AllOnes(Sum(header));
    AllOnes(Sum(trailer));
  }

  lemma Cancelling(h: nat, t: nat)
    requires (h + t) % ONES == 0
    ensures h % ONES == 0 <==> t % ONES == 0
  {
    var q := (h + t) / ONES;
    if h % ONES == 0 {
      assert t == ONES * (q - h / ONES);
    }
    if t % ONES == 0 {
      assert h == ONES * (q - t / ONES);
    }
  }

  lemma AllOnes(sum: nat)
    ensures Reduced(sum) == ONES <==> sum > 0 && sum % ONES == 0
  {
    if sum > 0 {
      ReducedMod(sum);
    }
  }

  // A plain 20-byte header followed by one non-zero half-word fails the receiver's test.
  lemma HeaderMayFailToVerify()
    ensures var ws := seq(20, i => if i == 0 then 0x4500 else if i == 10 then 1 else 0);
            Fold(Stored(ws, 4 * Ihl(ws[0]))[..10]) != ONES
  {
    var ws: seq<U16> := seq(20, i => if i == 0 then 0x4500 else if i == 10 then 1 else 0);
    HeaderVerifiesIffTrailerCancels(ws);
    var trailer := ws[10..20];
    SumAppend(trailer[..1], trailer[1..]);
    assert trailer == trailer[..1] + trailer[1..];
    FoldIsOnesComplementSum(trailer[1..]);
    FoldIsOnesComplementSum(trailer);
    assert trailer[..1] == [1];
    assert Sum([1]) == 1 by { SumAppend([], [1]); assert [1][..0] == []; }
    ZeroSum(trailer[1..]);
  }

  method CalcChecksum(words: array<U16>)
    requires CHECKSUM_WORD < words.Length && 4 * Ihl(words[0]) <= words.Length
    modifies words
    ensures words[..] == Stored(old(words[..]), 4 * Ihl(old(words[0])))
  {
    var result: U32 := 0;
    words[CHECKSUM_WORD] := 0;
    ghost var zeroed := words[..];
    var i := 0;
    while i < Ihl(words[0]) * 4
      invariant 0 <= i <= Ihl(words[0]) * 4
      invariant words[..] == zeroed
      invariant result == Fold(zeroed[..i])
    {
      assert zeroed[..i + 1][..i] == zeroed[..i];
      result := result + words[i];
      if (result / TWO16) % 2 == 1 {
        result := result % TWO16;
        result := result + 1;
      }
      i := i + 1;
    }
    words[CHECKSUM_WORD] := ONES - result;
  }
}
