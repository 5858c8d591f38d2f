/** From symbol frequencies to codes that the decoder's tables read back. */
module EncoderTree {
  import opened Bits
  import opened TreeShape
  import opened BitLengths
  import opened LengthLimit
  import opened HuffmanTree
  import opened Huffman
  import opened OptimalLengths
  import HuffmanOptimal
  import InflateTable

  /** The symbols of length l among the first k. */
  ghost function OfLength(dl: seq<nat>, k: nat, l: nat): set<nat> {
    set n: nat | n < k && n < |dl| && dl[n] == l
  }

  lemma {:induction false} CountIsSize(lens: seq<nat>, l: nat)
    ensures Count(lens, l) == |OfLength(lens, |lens|, l)|
    decreases |lens|
  {
    if lens == [] {
      assert OfLength(lens, 0, l) == {};
    } else {
      var n := |lens| - 1;
      CountIsSize(lens[..n], l);
      var s, s' := OfLength(lens[..n], n, l), OfLength(lens, n + 1, l);
      if lens[n] == l {
        assert s' == s + {n};
      } else {
        assert s' == s;
      }
    }
  }

  /** The counts of the lengths given to the leaves are those of the length table. */
  lemma CountsAgree(ml: nat, leaves: set<nat>, dl: seq<nat>, bl: seq<nat>, lens: seq<nat>, l: nat)
    requires LengthsDone(ml, leaves, dl, bl) && 1 <= l <= ml && |lens| <= |dl| && lens == dl[..|lens|]
    requires forall n {:trigger n in leaves} :: n in leaves ==> n < |lens|
    requires forall n {:trigger lens[n]} :: 0 <= n < |lens| && n !in leaves ==> lens[n] == 0
    ensures bl[l] == Count(lens, l)
  {
    hide KraftOf, SymsOf;
    CountIsSize(lens, l);
    assert OfLength(lens, |lens|, l) == set n | n in leaves && n < |dl| && dl[n] == l;
  }

  lemma {:induction false} SameKraft(ml: nat, bl: seq<nat>, lens: seq<nat>, l: nat)
    requires l <= ml && |bl| == ml + 1 && forall i {:trigger bl[i]} :: 1 <= i <= ml ==> bl[i] == Count(lens, i)
    ensures KraftOf(ml, bl, l) == Kraft(ml, lens, l)
  {
    if l > 0 {
      SameKraft(ml, bl, lens, l - 1);
    }
  }

  /** The code space in units of a longer code. */
  lemma {:induction false} Rescaled(ml: nat, w: nat, lens: seq<nat>, l: nat)
    requires l <= ml <= w
    ensures Kraft(w, lens, l) == Shl(Kraft(ml, lens, l), w - ml)
  {
    hide Count, Shl;
    if l > 0 {
      Rescaled(ml, w, lens, l - 1);
      ShlAdd(Kraft(ml, lens, l - 1), Shl(Count(lens, l), ml - l), w - ml);
      ShlShl(Count(lens, l), ml - l, w - ml);
    } else {
      Shl0(w - ml);
    }
  }

  lemma {:induction false} NoLonger(ml: nat, w: nat, lens: seq<nat>, l: nat)
    requires ml <= l <= w && LensOK(ml, lens)
    ensures Kraft(w, lens, l) == Kraft(w, lens, ml)
  {
    hide Count, Shl;
    if l > ml {
      NoLonger(ml, w, lens, l - 1);
      NoSymbols(ml, lens, l);
      Shl0(w - l);
    }
  }

  lemma {:induction false} NoSymbols(ml: nat, lens: seq<nat>, l: nat)
    requires LensOK(ml, lens) && l > ml
    ensures Count(lens, l) == 0
    decreases |lens|
  {
    if lens != [] {
      NoSymbols(ml, lens[..|lens| - 1], l);
    }
  }

  /** Codes of at most ml bits that fill the code space of ml bits fill that of w bits. */
  lemma FillsLonger(ml: nat, w: nat, bl: seq<nat>, lens: seq<nat>)
    requires ml <= w && |bl| == ml + 1 && KraftOf(ml, bl, ml) == Pow2(ml) && LensOK(ml, lens)
    requires forall i {:trigger bl[i]} :: 1 <= i <= ml ==> bl[i] == Count(lens, i)
    ensures Kraft(w, lens, w) == Pow2(w)
  {
    hide KraftOf, Kraft, Pow2, Shl, Count;
    SameKraft(ml, bl, lens, ml);
    Rescaled(ml, w, lens, ml);
    NoLonger(ml, w, lens, w);
    Pow2Shl(ml, w - ml);
  }

  /** A finished code: the symbols that occur, and others only to make two, have
      lengths in 1..ml, the lengths fill the code space, and every such symbol has its
      canonical code. */
  ghost predicate CodeFor(ml: nat, w: nat, elems: nat, freq: seq<nat>, lens: seq<nat>, codes: seq<nat>) {
    && ml <= w && |lens| == |codes| <= elems <= |freq| && LensOK(w, lens) && LensOK(ml, lens)
    && (forall n {:trigger freq[n]} :: 0 <= n < elems && freq[n] != 0 ==> n < |lens| && lens[n] >= 1)
    && (|Used(freq, elems)| >= 2 ==> forall n {:trigger lens[n]} :: 0 <= n < |lens| && lens[n] >= 1 ==> freq[n] != 0)
    && (forall n {:trigger lens[n]} :: 0 <= n < |lens| && lens[n] >= 1 && freq[n] == 0 ==> n <= 2)
    && |lens| > 0 && lens[|lens| - 1] > 0
    && Kraft(w, lens, w) == Pow2(w)
    && (forall n {:trigger codes[n]} :: 0 <= n < |lens| && lens[n] > 0 ==> codes[n] == CodeOf(w, lens, n))
  }

  lemma LengthFacts(ml: nat, w: nat, elems: nat, freq0: seq<nat>, freq: seq<nat>, leaves: set<nat>, maxCode: nat, dl: seq<nat>, bl: seq<nat>, lens: seq<nat>)
    requires LengthsDone(ml, leaves, dl, bl) && Forced(elems, freq0, freq, leaves) && Largest(leaves, maxCode)
    requires ml <= w && maxCode < elems <= |freq0| && elems <= |dl| && lens == dl[..maxCode + 1]
    requires forall n {:trigger dl[n]} :: 0 <= n < elems && n !in leaves ==> dl[n] == 0
    ensures LensOK(w, lens) && LensOK(ml, lens) && Kraft(w, lens, w) == Pow2(w) && lens[maxCode] > 0
    ensures |bl| == ml + 1 && bl[0] == 0 && forall l {:trigger bl[l]} :: 1 <= l <= ml ==> bl[l] == Count(lens, l)
    ensures forall n {:trigger freq0[n]} :: 0 <= n < elems && freq0[n] != 0 ==> n < |lens| && lens[n] >= 1
    ensures forall n {:trigger lens[n]} :: 0 <= n < |lens| ==> (lens[n] >= 1 <==> n in leaves)
  {
    hide KraftOf, Kraft, Pow2, Count;
    forall n | 0 <= n < |lens| ensures lens[n] >= 1 <==> n in leaves {
      assert lens[n] == dl[n];
    }
    forall n | 0 <= n < elems && freq0[n] != 0 ensures n < |lens| && lens[n] >= 1 {
      assert n in Used(freq0, elems);
      assert n in leaves;
    }
    forall l | 1 <= l <= ml ensures bl[l] == Count(lens, l) {
      CountsAgree(ml, leaves, dl, bl, lens, l);
    }
    forall n | 0 <= n < |lens| ensures lens[n] <= ml {
      assert lens[n] == dl[n];
    }
    FillsLonger(ml, w, bl, lens);
  }

  /** No other lengths for which there are codes for all symbols that occur take fewer bits. */
  ghost predicate Optimal(elems: nat, freq: seq<nat>, lens: seq<nat>) {
    forall d: nat, rival: seq<nat> {:trigger Decodable(d, elems, freq, rival)} ::
      Decodable(d, elems, freq, rival) ==> TotalBits(freq, lens, elems) <= TotalBits(freq, rival, elems)
  }

  lemma NoneBetter(elems: nat, leaves: set<nat>, freq: seq<nat>, weights: seq<nat>, heap: seq<nat>, dl: seq<nat>, lens: seq<nat>)
    requires elems <= |freq| && leaves == Used(freq, elems) && SameLeaves(elems, freq, weights) && |leaves| >= 2
    requires 2 * (|leaves| - 1) <= |heap| && elems + |leaves| - 1 <= |freq|
    requires HuffmanOptimal.Greedy(leaves, Weight(weights), MergesOf(elems, heap, |leaves| - 1), {elems + |leaves| - 2})
    requires TreeDepths(elems, leaves, heap, dl) && |lens| <= |dl| && lens == dl[..|lens|]
    requires forall n {:trigger n in leaves} :: n in leaves ==> n < |lens|
    ensures Optimal(elems, freq, lens)
  {
    hide HuffmanOptimal.Greedy, MergesOf, TreeDepths, Decodable, TotalBits, SameLeaves, Used;
    forall d: nat, rival: seq<nat> | Decodable(d, elems, freq, rival)
      ensures TotalBits(freq, lens, elems) <= TotalBits(freq, rival, elems)
    {
      BestLengths(elems, leaves, freq, weights, heap, dl, lens, d, rival);
    }
  }

  /** The lengths are in the order of the frequencies, as depths or as given out anew. */
  lemma InOrder(w: nat, elems: nat, leaves: set<nat>, freq: seq<nat>, weights: seq<nat>, heap: seq<nat>, max: nat, dl0: seq<nat>, dl: seq<nat>, lens: seq<nat>, limited: bool)
    requires elems <= |freq| && leaves == Used(freq, elems) && SameLeaves(elems, freq, weights) && |leaves| >= 2
    requires 2 * (|leaves| - 1) <= |heap| && elems + |leaves| - 1 <= |freq| && Complete(elems, leaves, heap, max, dl0)
    requires HuffmanOptimal.Greedy(leaves, Weight(weights), MergesOf(elems, heap, |leaves| - 1), {elems + |leaves| - 2})
    requires if limited then LaterLonger(elems, heap, max, 0, dl) else TreeDepths(elems, leaves, heap, dl)
    requires |lens| <= elems <= |dl| && lens == dl[..|lens|] && LensOK(w, lens) && Kraft(w, lens, w) == Pow2(w)
    requires forall n {:trigger n in leaves} :: n in leaves ==> n < |lens| && n < elems
    requires forall n {:trigger lens[n]} :: 0 <= n < |lens| ==> (lens[n] >= 1 <==> n in leaves)
    ensures FrequentShorter(freq, lens) && BestGrouped(elems, freq, lens)
  {
    hide HuffmanOptimal.Greedy, MergesOf, TreeDepths, LaterLonger, SameLeaves, Complete, HuffmanOptimal.LighterLonger, FrequentShorter, BestGrouped, Kraft, Pow2;
    CompleteBounds(elems, leaves, heap, max, dl0);
    if limited {
      LimitedLighterLonger(elems, leaves, Weight(weights), heap, max, {elems + |leaves| - 2}, dl);
    } else {
      forall n | 0 <= n < elems && freq[n] != 0 ensures n < |lens| && lens[n] >= 1 {
        assert n in leaves;
      }
      assert Decodable(w, elems, freq, lens);
      DepthsLighterLonger(w, elems, leaves, freq, weights, heap, dl, lens);
    }
    LengthsInOrder(elems, leaves, freq, weights, dl, lens);
  }

  /** What holds of the lengths because the lightest and lowest nodes were merged. */
  lemma LengthLaws(w: nat, elems: nat, leaves: set<nat>, freq: seq<nat>, weights: seq<nat>, heights: seq<nat>, heap: seq<nat>, max: nat, dl0: seq<nat>, dl: seq<nat>, lens: seq<nat>, limited: bool)
    requires elems <= |freq| && leaves == Used(freq, elems) && SameLeaves(elems, freq, weights) && |leaves| >= 2
    requires 2 * (|leaves| - 1) <= |heap| && elems + |leaves| - 1 <= |freq| && Complete(elems, leaves, heap, max, dl0)
    requires Finished(leaves, weights, heights, MergesOf(elems, heap, |leaves| - 1), elems + |leaves| - 2, TotalCount(freq, elems))
    requires if limited then LaterLonger(elems, heap, max, 0, dl) else TreeDepths(elems, leaves, heap, dl)
    requires |lens| <= elems <= |dl| && lens == dl[..|lens|] && LensOK(w, lens) && Kraft(w, lens, w) == Pow2(w)
    requires forall n {:trigger n in leaves} :: n in leaves ==> n < |lens| && n < elems
    requires forall n {:trigger lens[n]} :: 0 <= n < |lens| ==> (lens[n] >= 1 <==> n in leaves)
    ensures !limited ==> Optimal(elems, freq, lens) && LowestOptimal(elems, freq, lens)
    ensures FrequentShorter(freq, lens) && BestGrouped(elems, freq, lens)
  {
    hide *;
    FinishedIsGreedy(leaves, weights, heights, MergesOf(elems, heap, |leaves| - 1), elems + |leaves| - 2, TotalCount(freq, elems));
    if !limited {
      NoneBetter(elems, leaves, freq, weights, heap, dl, lens);
      NoneIsLower(elems, leaves, freq, weights, heights, heap, TotalCount(freq, elems), dl, lens);
    }
    InOrder(w, elems, leaves, freq, weights, heap, max, dl0, dl, lens, limited);
  }

  /** Builds the tree for the frequencies freq0 of elems symbols, with codes of at
      most ml bits, ml at most w, and gives every symbol its code. */
  method BuildTree(ml: nat, w: nat, elems: nat, freq0: seq<nat>, depth0: seq<nat>, dl0: seq<nat>, heap0: seq<nat>)
    returns (freq: seq<nat>, lens: seq<nat>, codes: seq<nat>, limited: bool)
    requires 1 <= ml <= w < 16 && 3 <= elems <= Pow2(ml)
    requires |freq0| == |depth0| == |dl0| && 2 * elems - 1 <= |dl0| && 2 * elems < |heap0|
    ensures CodeFor(ml, w, elems, freq0, lens, codes)
    ensures |freq| == |freq0| && |Used(freq, elems)| == if |Used(freq0, elems)| < 2 then 2 else |Used(freq0, elems)|
    ensures forall n {:trigger freq[n]} :: 0 <= n < elems ==>
              freq[n] == if n < |lens| && lens[n] >= 1 && freq0[n] == 0 then 1 else freq0[n]
    // unless a code would be too long, or the frequencies exceed sixteen bits, no other code sends the symbols in fewer bits
    ensures !limited && TotalCount(freq, elems) < 65536 ==> Optimal(elems, freq, lens)
    // and of those that take as few none has a shorter longest code
    ensures !limited && TotalCount(freq, elems) < 65536 ==> LowestOptimal(elems, freq, lens)
    // codes are not too long if there are few symbols, or they occur seldom
    ensures |Used(freq, elems)| <= ml + 1 || TotalCount(freq, elems) < HuffmanOptimal.Fib(ml + 1) ==> !limited
    // limited or not, more frequent symbols have no longer codes, and no other way to give out the lengths takes fewer bits
    ensures TotalCount(freq, elems) < 65536 ==> FrequentShorter(freq, lens) && BestGrouped(elems, freq, lens)
  {
    hide FrequentShorter, BestGrouped, LowestOptimal, Finished, Graded, HuffmanOptimal.Fib, LaterLonger, HuffmanOptimal.LighterLonger, Kraft, Pow2, CodeOf, HeapOf, Forced, LengthsDone, Complete, Used, WithForced, Mass, HuffmanOptimal.Greedy, MergesOf, TreeDepths, SameLeaves,
      Optimal, TotalCount, Count;
    var heap, len, max1, depth, dl := InitHeap(elems, freq0, depth0, dl0, heap0);
    UsedDepths(elems, freq0, depth);
    HeapSize(heap, len, Used(freq0, elems));
    var maxCode: nat;
    ghost var leaves: set<nat>;
    freq, heap, len, maxCode, depth, leaves := ForceTwo(elems, freq0, heap, len, max1, depth);
    HeapSize(heap, len, leaves);
    LeafBounds(elems, freq0, freq, leaves, maxCode);
    heap := Heapify(freq, depth, heap, len, leaves);
    var max: nat;
    ghost var dl1 := dl;
    var weights: seq<nat>, heights: seq<nat>;
    heap, max, dl, weights, heights := MergeAll(elems, leaves, freq, depth, heap, len, dl);
    ghost var grade := Grade(ml, elems, leaves, freq, weights, heights, heap, max, dl);
    var bl: seq<nat>;
    ghost var dl2 := dl;
    dl, bl, limited := GenBitLen(ml, elems, leaves, maxCode, heap, max, dl, grade);
    lens := dl[..maxCode + 1];
    MassIs(freq, elems);
    UnusedZero(elems, freq0, freq, leaves, dl1, dl2, dl);
    LengthFacts(ml, w, elems, freq0, freq, leaves, maxCode, dl, bl, lens);
    if TotalCount(freq, elems) < 65536 {
      LengthLaws(w, elems, leaves, freq, weights, heights, heap, max, dl2, dl, lens, limited);
    }
    var blCount := bl + seq(w - ml, _ => 0);
    PaddedCounts(ml, w, bl, lens, blCount);
    codes := GenCodes(w, lens, blCount);
    FreqFacts(elems, freq0, freq, leaves, lens, max1);
  }

  lemma UsedDepths(elems: nat, freq: seq<nat>, depth: seq<nat>)
    requires elems <= |freq| == |depth| && forall n {:trigger depth[n]} :: 0 <= n < elems && freq[n] != 0 ==> depth[n] == 0
    ensures forall n {:trigger n in Used(freq, elems)} :: n in Used(freq, elems) ==> n < |depth| && depth[n] == 0
  {
    forall n | n in Used(freq, elems) ensures n < |depth| && depth[n] == 0 {
      assert depth[n] == 0;
    }
  }

  /** Why nodes are not too deep: by their heights if the tree is light, else by their ages. */
  lemma Grade(ml: nat, elems: nat, leaves: set<nat>, freq: seq<nat>, weights: seq<nat>, heights: seq<nat>, heap: seq<nat>, max: nat, dl: seq<nat>) returns (grade: nat -> nat)
    requires elems <= |freq| && leaves == Used(freq, elems) && Complete(elems, leaves, heap, max, dl) && ml <= 15
    requires |leaves| >= 2 && 2 * (|leaves| - 1) <= |heap|
    requires Mass(leaves, freq) < 65536 ==> Finished(leaves, weights, heights, MergesOf(elems, heap, |leaves| - 1), elems + |leaves| - 2, Mass(leaves, freq))
    ensures Graded(elems, heap, grade, |leaves| - 1)
    ensures |leaves| <= ml + 1 || TotalCount(freq, elems) < HuffmanOptimal.Fib(ml + 1) ==> grade(elems + |leaves| - 2) <= ml
  {
    hide Complete, HuffmanOptimal.GreedyLow, MergesOf, Graded, HuffmanOptimal.Fib, Mass, TotalCount;
    MassIs(freq, elems);
    FibSmall(ml);
    if TotalCount(freq, elems) < HuffmanOptimal.Fib(ml + 1) {
      grade := Weight(heights);
      GradedByHeight(elems, leaves, Weight(weights), grade, heap, |leaves| - 1, {elems + |leaves| - 2});
      LowByWeight(ml, grade(elems + |leaves| - 2), Mass(leaves, freq));
    } else {
      grade := ByAge(elems);
      GradedByAge(elems, leaves, heap, max, dl);
    }
  }

  lemma FibSixteen()
    ensures HuffmanOptimal.Fib(16) == 2584
  {
    assert HuffmanOptimal.Fib(6) == 21 && HuffmanOptimal.Fib(7) == 34;
    assert HuffmanOptimal.Fib(11) == 233 && HuffmanOptimal.Fib(12) == 377;
  }

  lemma FibSmall(ml: nat)
    requires ml <= 15
    ensures HuffmanOptimal.Fib(ml + 1) < 65536
  {
    hide HuffmanOptimal.Fib;
    HuffmanOptimal.FibMonotone(ml + 1, 16);
    FibSixteen();
  }

  lemma FinishedIsGreedy(leaves: set<nat>, weights: seq<nat>, heights: seq<nat>, gs: seq<HuffmanOptimal.Merge>, root: nat, mass: nat)
    requires Finished(leaves, weights, heights, gs, root, mass)
    ensures HuffmanOptimal.Greedy(leaves, Weight(weights), gs, {root})
  {
    HuffmanOptimal.LowIsGreedy(leaves, Weight(weights), Weight(heights), gs, {root});
  }

  lemma NoneIsLower(elems: nat, leaves: set<nat>, freq: seq<nat>, weights: seq<nat>, heights: seq<nat>, heap: seq<nat>, mass: nat, dl: seq<nat>, lens: seq<nat>)
    requires elems <= |freq| && leaves == Used(freq, elems) && SameLeaves(elems, freq, weights) && |leaves| >= 2
    requires 2 * (|leaves| - 1) <= |heap| && elems + |leaves| - 1 <= |freq|
    requires Finished(leaves, weights, heights, MergesOf(elems, heap, |leaves| - 1), elems + |leaves| - 2, mass)
    requires TreeDepths(elems, leaves, heap, dl) && |lens| <= |dl| && lens == dl[..|lens|]
    requires forall n {:trigger n in leaves} :: n in leaves ==> n < |lens|
    requires forall n {:trigger lens[n]} :: 0 <= n < |lens| ==> (lens[n] >= 1 <==> n in leaves)
    ensures LowestOptimal(elems, freq, lens)
  {
    hide Finished, MergesOf, TreeDepths, Decodable, TotalBits, SameLeaves, Used, Bounded;
    forall d: nat, rival: seq<nat>, b: nat |
      Decodable(d, elems, freq, rival) && TotalBits(freq, rival, elems) <= TotalBits(freq, lens, elems) && Bounded(elems, freq, rival, b)
      ensures LensOK(b, lens)
    {
      NoneLower(elems, leaves, freq, weights, heights, heap, mass, dl, lens, d, rival, b);
    }
  }

  lemma LeafBounds(elems: nat, freq0: seq<nat>, freq: seq<nat>, leaves: set<nat>, maxCode: nat)
    requires Forced(elems, freq0, freq, leaves) && Largest(leaves, maxCode)
    ensures |freq| == |freq0| && leaves == Used(freq, elems)
    ensures forall n {:trigger n in leaves} :: n in leaves ==> n <= maxCode && n < elems && n < |freq| && freq[n] != 0
  {
  }

  lemma UnusedZero(elems: nat, freq0: seq<nat>, freq: seq<nat>, leaves: set<nat>, dl1: seq<nat>, dl2: seq<nat>, dl: seq<nat>)
    requires Forced(elems, freq0, freq, leaves) && elems <= |freq0| == |dl1|
    requires OnlyNodes(elems, leaves, dl1, dl2) && OnlyNodes(elems, leaves, dl2, dl)
    requires forall n {:trigger dl1[n]} :: 0 <= n < elems && freq0[n] == 0 ==> dl1[n] == 0
    ensures |dl| == |dl1| && forall n {:trigger dl[n]} :: 0 <= n < elems && n !in leaves ==> dl[n] == 0
  {
    forall n | 0 <= n < elems && n !in leaves ensures dl[n] == 0 {
      assert n !in Used(freq0, elems);
      assert dl[n] == dl2[n] && dl2[n] == dl1[n];
    }
  }

  lemma PaddedCounts(ml: nat, w: nat, bl: seq<nat>, lens: seq<nat>, blCount: seq<nat>)
    requires ml <= w && |bl| == ml + 1 && bl[0] == 0 && LensOK(ml, lens)
    requires forall l {:trigger bl[l]} :: 1 <= l <= ml ==> bl[l] == Count(lens, l)
    requires blCount == bl + seq(w - ml, _ => 0)
    ensures |blCount| == w + 1 && blCount[0] == 0
    ensures forall l {:trigger blCount[l]} :: 1 <= l <= w ==> blCount[l] == Count(lens, l)
  {
    hide Count;
    forall l | 1 <= l <= w ensures blCount[l] == Count(lens, l) {
      if l <= ml {
        assert blCount[l] == bl[l];
      } else {
        NoSymbols(ml, lens, l);
      }
    }
  }

  lemma FreqFacts(elems: nat, freq0: seq<nat>, freq: seq<nat>, leaves: set<nat>, lens: seq<nat>, max0: int)
    requires Forced(elems, freq0, freq, leaves) && |lens| <= elems <= |freq0|
    requires forall n {:trigger lens[n]} :: 0 <= n < |lens| ==> (lens[n] >= 1 <==> n in leaves)
    requires forall n {:trigger n in leaves} :: n in leaves ==> n < |lens|
    requires max0 >= -1 && leaves == WithForced(Used(freq0, elems), max0)
    ensures |freq| == |freq0|
    ensures forall n {:trigger lens[n]} :: 0 <= n < |lens| && lens[n] >= 1 && freq0[n] == 0 ==> n <= 2
    ensures forall n {:trigger freq[n]} :: 0 <= n < elems ==>
              freq[n] == if n < |lens| && lens[n] >= 1 && freq0[n] == 0 then 1 else freq0[n]
    ensures freq == freq0 ==> forall n {:trigger lens[n]} :: 0 <= n < |lens| && lens[n] >= 1 ==> freq0[n] != 0
  {
    forall n | 0 <= n < |lens| && lens[n] >= 1 && freq0[n] == 0 ensures n <= 2 {
      assert n in leaves && n !in Used(freq0, elems);
      ForcedSmall(Used(freq0, elems), max0, n);
    }
    forall n | 0 <= n < elems ensures freq[n] == if n < |lens| && lens[n] >= 1 && freq0[n] == 0 then 1 else freq0[n] {
      assert n in Used(freq0, elems) <==> freq0[n] != 0;
      assert n in leaves ==> n < |lens|;
      if n < |lens| {
        assert lens[n] >= 1 <==> n in leaves;
      }
    }
  }

  /** The decoder accepts every tree the encoder builds, and from a code as it was sent,
      followed by any bits, it reads the symbol and uses exactly the code. */
  method RoundTrip(ml: nat, w: nat, kind: InflateTable.CodeType, elems: nat, freq0: seq<nat>, depth0: seq<nat>, dl0: seq<nat>, heap0: seq<nat>, bits: nat)
    returns (lens: seq<nat>, codes: seq<nat>, ret: int, table: map<nat, InflateTable.Entry>, root: nat)
    requires 1 <= ml <= w < 16 && 3 <= elems <= Pow2(ml) && elems <= InflateTable.MaxSymbols(kind)
    requires |freq0| == |depth0| == |dl0| && 2 * elems - 1 <= |dl0| && 2 * elems < |heap0|
    ensures CodeFor(ml, w, elems, freq0, lens, codes)
    ensures ret == 0 || (ret == 1 && kind == InflateTable.LENS)
    ensures ret == 0 ==> forall n: nat, rest: nat {:trigger Sent(lens, codes, n, rest)} ::
              n < |lens| && lens[n] > 0 ==> InflateTable.Decodes(table, root, Sent(lens, codes, n, rest), kind, n, lens[n])
  {
    hide Kraft, Pow2, CodeOf, InflateTable.BeginsWith, InflateTable.Decodes, InflateTable.Lookup, Sent;
    var freq: seq<nat>;
    var limited;
    freq, lens, codes, limited := BuildTree(ml, w, elems, freq0, depth0, dl0, heap0);
    var used;
    ret, table, root, used := InflateTable.Build(w, kind, lens, bits);
    if ret == 0 {
      forall n: nat, rest: nat | n < |lens| && lens[n] > 0
        ensures InflateTable.Decodes(table, root, Sent(lens, codes, n, rest), kind, n, lens[n])
      {
        SentIs(w, lens, codes, n, rest);
      }
    }
  }

  /** The bits of symbol n's code, first bit lowest, followed by rest. */
  ghost function Sent(lens: seq<nat>, codes: seq<nat>, n: nat, rest: nat): nat {
    if n < |lens| && n < |codes| then codes[n] + Shl(rest, lens[n]) else 0
  }

  lemma SentIs(w: nat, lens: seq<nat>, codes: seq<nat>, n: nat, rest: nat)
    requires LensOK(w, lens) && |codes| == |lens| && n < |lens| && lens[n] > 0 && codes[n] == CodeOf(w, lens, n)
    ensures InflateTable.BeginsWith(w, lens, Sent(lens, codes, n, rest), n)
  {
    hide CodeOf, Shl, InflateTable.BeginsWith;
    InflateTable.SentBeginsWith(w, lens, n, rest);
  }
}
