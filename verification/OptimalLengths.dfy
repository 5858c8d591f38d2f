/** The bit lengths of a Huffman tree are optimal: no other code for the symbols that occur
    sends them in fewer bits. */
module OptimalLengths {
  import opened Bits
  import opened Huffman
  import opened BitLengths
  import opened HuffmanOptimal
  import opened HuffmanTree
  import opened LengthLimit
  import TreeShape

  /** How many bits the first k symbols take, each as often as it occurs. */
  ghost function TotalBits(freq: seq<nat>, lens: seq<nat>, k: nat): nat {
    if k == 0 then 0 else TotalBits(freq, lens, k - 1) + Times(Weight(freq)(k - 1), Weight(lens)(k - 1))
  }

  /** How often the first k symbols occur. */
  ghost function TotalCount(freq: seq<nat>, k: nat): nat
    requires k <= |freq|
  {
    if k == 0 then 0 else TotalCount(freq, k - 1) + freq[k - 1]
  }

  /** Lengths of at most d bits for which there are codes, one for every symbol that occurs. */
  ghost predicate Decodable(d: nat, elems: nat, freq: seq<nat>, lens: seq<nat>) {
    && LensOK(d, lens) && NotOversubscribed(d, lens)
    && forall n {:trigger freq[n]} :: 0 <= n < elems && n < |freq| && freq[n] != 0 ==> n < |lens| && lens[n] >= 1
  }

  // ---------- totals ----------

  lemma {:induction false} BitsAreCost(freq: seq<nat>, elems: nat, lens: seq<nat>, k: nat)
    requires elems <= |freq| && k <= elems
    ensures Cost(Used(freq, elems), Weight(freq), Weight(lens), k) == TotalBits(freq, lens, k)
  {
    hide Times, Weight;
    if k > 0 {
      BitsAreCost(freq, elems, lens, k - 1);
      if freq[k - 1] == 0 {
        NotUsed(freq, k - 1);
        NoWeight(Weight(lens)(k - 1));
      }
    }
  }

  lemma NotUsed(freq: seq<nat>, n: nat)
    requires n < |freq| && freq[n] == 0
    ensures Weight(freq)(n) == 0
  {
  }

  lemma {:induction false} CountIsMass(freq: seq<nat>, elems: nat, k: nat)
    requires elems <= |freq| && k <= elems
    ensures Cost(Used(freq, elems), Weight(freq), Ones(), k) == TotalCount(freq, k)
  {
    if k > 0 {
      CountIsMass(freq, elems, k - 1);
    }
  }

  /** Nodes beyond b add nothing if there are none in s. */
  lemma {:induction false} NothingBeyond(s: set<nat>, w: nat -> nat, r: nat -> nat, d: nat, b: nat, k: nat)
    requires b <= k && forall x {:trigger x in s} :: x in s ==> x < b
    ensures Cost(s, w, r, k) == Cost(s, w, r, b) && Space(s, r, d, k) == Space(s, r, d, b)
  {
    if b < k {
      NothingBeyond(s, w, r, d, b, k - 1);
    }
  }

  // ---------- the code space ----------

  lemma {:induction false} KraftOneMore(d: nat, lens: seq<nat>, l: nat)
    requires lens != [] && l <= d
    ensures var n := |lens| - 1;
            Kraft(d, lens, l) == Kraft(d, lens[..n], l) + if 1 <= lens[n] <= l then Pow2(d - lens[n]) else 0
  {
    hide Pow2, Shl, Count;
    if l > 0 {
      var n := |lens| - 1;
      KraftOneMore(d, lens, l - 1);
      CountOneMore(lens, l);
      ShlAdd(Count(lens[..n], l), 1, d - l);
      Pow2Shl(0, d - l);
    }
  }

  lemma CountOneMore(lens: seq<nat>, l: nat)
    requires lens != []
    ensures var n := |lens| - 1; Count(lens, l) == Count(lens[..n], l) + if lens[n] == l then 1 else 0
  {
  }

  /** The code space of the symbols in s is part of that of all. */
  lemma {:induction false} SpaceIsKraft(s: set<nat>, d: nat, lens: seq<nat>)
    requires LensOK(d, lens) && forall x {:trigger x in s} :: x in s && x < |lens| ==> lens[x] >= 1
    ensures Space(s, Weight(lens), d, |lens|) <= Kraft(d, lens, d)
    decreases |lens|
  {
    hide Pow2, Kraft;
    if lens != [] {
      var n := |lens| - 1;
      SpaceIsKraft(s, d, lens[..n]);
      KraftOneMore(d, lens, d);
      Same(s, Ones(), Weight(lens), Weight(lens[..n]), d, n);
    }
  }

  lemma RivalFits(d: nat, elems: nat, freq: seq<nat>, lens: seq<nat>, k: nat)
    requires elems <= |freq| && elems <= k && Decodable(d, elems, freq, lens)
    ensures Fits(Used(freq, elems), Weight(lens), d, k)
  {
    hide Pow2, Kraft, Space;
    var s := Used(freq, elems);
    SpaceIsKraft(s, d, lens);
    NothingBeyond(s, Ones(), Weight(lens), d, if |lens| <= k then |lens| else k, if |lens| <= k then k else |lens|);
  }

  // ---------- the tree ----------

  lemma TreeIsDeep(elems: nat, leaves: set<nat>, heap: seq<nat>, dl: seq<nat>)
    requires TreeDepths(elems, leaves, heap, dl) && 2 * (|leaves| - 1) <= |heap|
    ensures Depths(Weight(dl), MergesOf(elems, heap, |leaves| - 1)) && Weight(dl)(elems + |leaves| - 2) == 0
  {
    var gs := MergesOf(elems, heap, |leaves| - 1);
    forall s | 0 <= s < |gs|
      ensures Weight(dl)(gs[s].n) == Weight(dl)(gs[s].p) + 1 && Weight(dl)(gs[s].m) == Weight(dl)(gs[s].p) + 1
    {
      assert SonsDeep(elems, heap, dl, s);
    }
  }

  /** The lengths in the tree are at least as good as any others. */
  lemma BestLengths(elems: nat, leaves: set<nat>, freq: seq<nat>, freq': seq<nat>, heap: seq<nat>, dl: seq<nat>, lens: seq<nat>, d: nat, rival: seq<nat>)
    requires elems <= |freq| && leaves == Used(freq, elems) && SameLeaves(elems, freq, freq') && |leaves| >= 2
    requires 2 * (|leaves| - 1) <= |heap| && elems + |leaves| - 1 <= |freq|
    requires Greedy(leaves, Weight(freq'), MergesOf(elems, heap, |leaves| - 1), {elems + |leaves| - 2})
    requires TreeDepths(elems, leaves, heap, dl) && |lens| <= |dl| && lens == dl[..|lens|]
    requires forall n {:trigger n in leaves} :: n in leaves ==> n < |lens|
    requires Decodable(d, elems, freq, rival)
    ensures TotalBits(freq, lens, elems) <= TotalBits(freq, rival, elems)
  {
    hide Greedy, Cost, Space, Depths, TreeDepths, MergesOf, Decodable, TotalBits, Fits;
    var k := |freq|;
    TreeIsDeep(elems, leaves, heap, dl);
    MergesBelow(elems, heap, |leaves| - 1);
    RivalFits(d, elems, freq, rival, k);
    StillBelow(MergesOf(elems, heap, |leaves| - 1), elems + |leaves| - 1, k);
    Optimal(leaves, Weight(freq'), MergesOf(elems, heap, |leaves| - 1), elems + |leaves| - 2, Weight(dl), Weight(rival), d, k);
    SameWeights(leaves, Weight(freq), Weight(freq'), Weight(dl), k);
    SameWeights(leaves, Weight(freq), Weight(freq'), Weight(rival), k);
    Same(leaves, Weight(freq), Weight(dl), Weight(lens), 0, k);
    NothingBeyond(leaves, Weight(freq), Weight(lens), 0, elems, k);
    NothingBeyond(leaves, Weight(freq), Weight(rival), 0, elems, k);
    BitsAreCost(freq, elems, lens, elems);
    BitsAreCost(freq, elems, rival, elems);
  }

  lemma StillBelow(gs: seq<Merge>, j: nat, k: nat)
    requires Below(gs, j) && j <= k
    ensures Below(gs, k)
  {
  }

  /** The frequencies of the leaves together. */
  lemma MassIs(freq: seq<nat>, elems: nat)
    requires elems <= |freq|
    ensures Mass(Used(freq, elems), freq) == TotalCount(freq, elems)
  {
    hide Cost, Weight;
    CountIsMass(freq, elems, elems);
    NothingBeyond(Used(freq, elems), Weight(freq), Ones(), 0, elems, |freq|);
  }

  // ---------- with a limit on the lengths ----------

  /** The merged nodes stand in the order of their weights, the lightest last. */
  lemma {:induction false} WeightsDescend(elems: nat, leaves: set<nat>, w: nat -> nat, heap: seq<nat>, t: nat, root: set<nat>, i: nat, j: nat)
    requires 2 * t <= |heap| && Greedy(leaves, w, MergesOf(elems, heap, t), root) && |heap| - 2 * t <= i <= j < |heap|
    ensures w(heap[i]) >= w(heap[j])
    decreases j - i
  {
    hide Greedy;
    if i < j {
      WeightsDescend(elems, leaves, w, heap, t, root, i + 1, j);
      var gs, p := MergesOf(elems, heap, t), |heap| - 1 - (i + 1);
      MergedInOrder(leaves, w, gs, root, p / 2);
      if p % 2 == 0 {
        assert heap[i + 1] == gs[p / 2].n && heap[i] == gs[p / 2].m;
      } else {
        assert heap[i + 1] == gs[p / 2].m && heap[i] == gs[p / 2 + 1].n;
      }
    }
  }

  /** Where a leaf stands. */
  lemma LeafPosition(elems: nat, leaves: set<nat>, heap: seq<nat>, max: nat, x: nat) returns (i: nat)
    requires x in leaves && x < elems && |leaves| >= 2 && max <= |heap| && heap[max..] != [] && heap[max] >= elems
    requires multiset(heap[max..]) == multiset(TreeShape.Nodes(elems, leaves, |leaves| - 1))
    ensures max < i < |heap| && heap[i] == x
  {
    assert x in TreeShape.Nodes(elems, leaves, |leaves| - 1);
    assert x in multiset(heap[max..]);
    var j :| 0 <= j < |heap[max..]| && heap[max..][j] == x;
    i := max + j;
  }

  /** The second pass gives lighter leaves codes that are not shorter. */
  lemma LimitedLighterLonger(elems: nat, leaves: set<nat>, w: nat -> nat, heap: seq<nat>, max: nat, root: set<nat>, dl: seq<nat>)
    requires |leaves| >= 2 && 1 <= max == |heap| + 1 - 2 * |leaves| && heap[max] >= elems && elems <= |dl|
    requires (forall n {:trigger n in leaves} :: n in leaves ==> n < elems)
    requires multiset(heap[max..]) == multiset(TreeShape.Nodes(elems, leaves, |leaves| - 1))
    requires Greedy(leaves, w, MergesOf(elems, heap, |leaves| - 1), root) && LaterLonger(elems, heap, max, 0, dl)
    ensures LighterLonger(leaves, w, Weight(dl))
  {
    hide Greedy, MergesOf, TreeShape.Nodes;
    forall x, y | x in leaves && y in leaves && w(x) < w(y) ensures Weight(dl)(x) >= Weight(dl)(y) {
      var i := LeafPosition(elems, leaves, heap, max, y);
      var j := LeafPosition(elems, leaves, heap, max, x);
      if j <= i {
        WeightsDescend(elems, leaves, w, heap, |leaves| - 1, root, j, i);
      } else {
        assert dl[heap[i]] <= dl[heap[j]];
      }
    }
  }

  // ---------- the order of the lengths ----------

  /** More frequent symbols have codes that are not longer. */
  ghost predicate FrequentShorter(freq: seq<nat>, lens: seq<nat>) {
    forall m, n {:trigger lens[m], lens[n]} ::
      0 <= m < |lens| && 0 <= n < |lens| && m < |freq| && n < |freq| && lens[m] > 0 && lens[n] > 0 && freq[m] < freq[n] ==> lens[m] >= lens[n]
  }

  /** The same lengths, given to the same symbols in another way. */
  ghost predicate Regrouped(lens: seq<nat>, rival: seq<nat>) {
    multiset(rival) == multiset(lens) && |rival| == |lens| && forall n {:trigger rival[n]} {:trigger lens[n]} :: 0 <= n < |lens| ==> (rival[n] > 0 <==> lens[n] > 0)
  }

  /** No other way to give out the lengths takes fewer bits. */
  ghost predicate BestGrouped(elems: nat, freq: seq<nat>, lens: seq<nat>) {
    forall rival {:trigger Regrouped(lens, rival)} :: Regrouped(lens, rival) ==> TotalBits(freq, lens, elems) <= TotalBits(freq, rival, elems)
  }

  ghost function NotIn(s: set<nat>, k: nat): multiset<nat> {
    if k == 0 then multiset{} else NotIn(s, k - 1) + if k - 1 in s then multiset{} else multiset{0}
  }

  lemma {:induction false} LensOfSeq(lens: seq<nat>, s: set<nat>, k: nat)
    requires k <= |lens| && forall n {:trigger lens[n]} :: 0 <= n < k && n !in s ==> lens[n] == 0
    ensures multiset(lens[..k]) == LensOf(s, Weight(lens), k) + NotIn(s, k)
  {
    hide LensOf, NotIn, Weight;
    if k > 0 {
      LensOfSeq(lens, s, k - 1);
      LensStep(lens, s, k - 1);
    } else {
      NoLens(lens, s);
    }
  }

  lemma LensStep(lens: seq<nat>, s: set<nat>, n: nat)
    requires n < |lens| && (n !in s ==> lens[n] == 0) && multiset(lens[..n]) == LensOf(s, Weight(lens), n) + NotIn(s, n)
    ensures multiset(lens[..n + 1]) == LensOf(s, Weight(lens), n + 1) + NotIn(s, n + 1)
  {
    hide LensOf, NotIn, Weight;
    var r := Weight(lens);
    var m, m', a, a', b, b' := multiset(lens[..n]), multiset(lens[..n + 1]), LensOf(s, r, n), LensOf(s, r, n + 1), NotIn(s, n), NotIn(s, n + 1);
    OneMore(lens, n);
    OneMoreLen(lens, s, n);
    if n in s {
      AddLeft(m, m', a, a', b, lens[n]);
    } else {
      AddLeft(m, m', b, b', a, lens[n]);
    }
  }

  lemma OneMoreLen(lens: seq<nat>, s: set<nat>, k: nat)
    requires k < |lens| && (k !in s ==> lens[k] == 0)
    ensures k in s ==> LensOf(s, Weight(lens), k + 1) == LensOf(s, Weight(lens), k) + multiset{lens[k]} && NotIn(s, k + 1) == NotIn(s, k)
    ensures k !in s ==> LensOf(s, Weight(lens), k + 1) == LensOf(s, Weight(lens), k) && NotIn(s, k + 1) == NotIn(s, k) + multiset{lens[k]}
  {
  }

  lemma OneMore(lens: seq<nat>, k: nat)
    requires k < |lens|
    ensures multiset(lens[..k + 1]) == multiset(lens[..k]) + multiset{lens[k]}
  {
    assert lens[..k + 1] == lens[..k] + [lens[k]];
  }

  lemma AddLeft(m: multiset<nat>, m': multiset<nat>, a: multiset<nat>, a': multiset<nat>, b: multiset<nat>, x: nat)
    requires (m == a + b || m == b + a) && m' == m + multiset{x} && a' == a + multiset{x}
    ensures m' == a' + b && m' == b + a'
  {
  }

  lemma NoLens(lens: seq<nat>, s: set<nat>)
    ensures multiset(lens[..0]) == LensOf(s, Weight(lens), 0) + NotIn(s, 0)
  {
    assert lens[..0] == [];
  }

  lemma {:induction false} LensBeyond(s: set<nat>, r: nat -> nat, b: nat, k: nat)
    requires b <= k && forall x {:trigger x in s} :: x in s ==> x < b
    ensures LensOf(s, r, k) == LensOf(s, r, b)
  {
    if b < k {
      LensBeyond(s, r, b, k - 1);
    }
  }

  lemma SamePart(a: multiset<nat>, b: multiset<nat>, c: multiset<nat>)
    requires a + c == b + c
    ensures a == b
  {
    forall x: nat ensures a[x] == b[x] {
      assert (a + c)[x] == (b + c)[x];
    }
  }

  /** Lengths in the order of the weights are given out in the best way. */
  lemma OrderedIsBest(elems: nat, freq: seq<nat>, lens: seq<nat>, rival: seq<nat>)
    requires |lens| <= elems <= |freq| && LighterLonger(Used(freq, elems), Weight(freq), Weight(lens)) && Regrouped(lens, rival)
    requires forall n {:trigger n in Used(freq, elems)} :: n in Used(freq, elems) ==> n < |lens|
    requires forall n {:trigger lens[n]} :: 0 <= n < |lens| ==> (lens[n] > 0 <==> n in Used(freq, elems))
    ensures TotalBits(freq, lens, elems) <= TotalBits(freq, rival, elems)
  {
    hide LighterLonger, Used, Cost, LensOf, TotalBits, NotIn, Weight;
    var s, k := Used(freq, elems), elems;
    LensOfSeq(lens, s, |lens|);
    LensOfSeq(rival, s, |lens|);
    assert lens[..|lens|] == lens && rival[..|lens|] == rival;
    SamePart(LensOf(s, Weight(lens), |lens|), LensOf(s, Weight(rival), |lens|), NotIn(s, |lens|));
    LensBeyond(s, Weight(lens), |lens|, k);
    LensBeyond(s, Weight(rival), |lens|, k);
    BestAssignment(s, Weight(freq), Weight(lens), Weight(rival), k);
    BitsAreCost(freq, elems, lens, k);
    BitsAreCost(freq, elems, rival, k);
  }

  /** What the order of the leaves says of the symbols. */
  lemma LengthsInOrder(elems: nat, leaves: set<nat>, freq: seq<nat>, freq': seq<nat>, dl: seq<nat>, lens: seq<nat>)
    requires elems <= |freq| && |lens| <= elems && leaves == Used(freq, elems) && SameLeaves(elems, freq, freq')
    requires LighterLonger(leaves, Weight(freq'), Weight(dl)) && |lens| <= |dl| && lens == dl[..|lens|]
    requires forall n {:trigger n in leaves} :: n in leaves ==> n < |lens|
    requires forall n {:trigger lens[n]} :: 0 <= n < |lens| ==> (lens[n] >= 1 <==> n in leaves)
    ensures FrequentShorter(freq, lens) && BestGrouped(elems, freq, lens)
  {
    forall m, n | 0 <= m < |lens| && 0 <= n < |lens| && lens[m] > 0 && lens[n] > 0 && freq[m] < freq[n] ensures lens[m] >= lens[n] {
      assert m in leaves && n in leaves;
      assert Weight(freq')(m) == freq[m] && Weight(freq')(n) == freq[n];
    }
    forall x, y | x in leaves && y in leaves && Weight(freq)(x) < Weight(freq)(y) ensures Weight(lens)(x) >= Weight(lens)(y) {
      assert lens[x] >= 1 && lens[y] >= 1;
    }
    forall rival | Regrouped(lens, rival) ensures TotalBits(freq, lens, elems) <= TotalBits(freq, rival, elems) {
      OrderedIsBest(elems, freq, lens, rival);
    }
  }

  /** The depths in the tree fit the code space, so they are in the order of the weights. */
  lemma DepthsLighterLonger(ml: nat, elems: nat, leaves: set<nat>, freq: seq<nat>, freq': seq<nat>, heap: seq<nat>, dl: seq<nat>, lens: seq<nat>)
    requires elems <= |freq| && leaves == Used(freq, elems) && |leaves| >= 2
    requires 2 * (|leaves| - 1) <= |heap| && elems + |leaves| - 1 <= |freq|
    requires Greedy(leaves, Weight(freq'), MergesOf(elems, heap, |leaves| - 1), {elems + |leaves| - 2})
    requires TreeDepths(elems, leaves, heap, dl) && |lens| <= |dl| && lens == dl[..|lens|]
    requires forall n {:trigger n in leaves} :: n in leaves ==> n < |lens|
    requires Decodable(ml, elems, freq, lens)
    ensures LighterLonger(leaves, Weight(freq'), Weight(dl))
  {
    hide Greedy, Cost, Space, Depths, TreeDepths, MergesOf, Decodable, Pow2, Used, LighterLonger;
    var k := |freq|;
    TreeIsDeep(elems, leaves, heap, dl);
    MergesBelow(elems, heap, |leaves| - 1);
    StillBelow(MergesOf(elems, heap, |leaves| - 1), elems + |leaves| - 1, k);
    RivalFits(ml, elems, freq, lens, k);
    Same(leaves, Ones(), Weight(lens), Weight(dl), ml, k);
    TreeLighterLonger(leaves, Weight(freq'), MergesOf(elems, heap, |leaves| - 1), elems + |leaves| - 2, Weight(dl), ml, k);
  }

  // ---------- the longest code ----------

  /** The codes of the symbols that occur have at most b bits. */
  ghost predicate Bounded(elems: nat, freq: seq<nat>, lens: seq<nat>, b: nat) {
    forall n {:trigger freq[n]} :: 0 <= n < elems && n < |freq| && freq[n] != 0 ==> n < |lens| && lens[n] <= b
  }

  /** No other lengths that take as few bits have a shorter longest code. */
  ghost predicate LowestOptimal(elems: nat, freq: seq<nat>, lens: seq<nat>) {
    forall d: nat, rival: seq<nat>, b: nat {:trigger Decodable(d, elems, freq, rival), Bounded(elems, freq, rival, b)} ::
      Decodable(d, elems, freq, rival) && TotalBits(freq, rival, elems) <= TotalBits(freq, lens, elems) && Bounded(elems, freq, rival, b) ==>
        LensOK(b, lens)
  }

  lemma NoneLower(elems: nat, leaves: set<nat>, freq: seq<nat>, freq': seq<nat>, depth: seq<nat>, heap: seq<nat>, mass: nat, dl: seq<nat>, lens: seq<nat>,
                  d: nat, rival: seq<nat>, b: nat)
    requires elems <= |freq| && leaves == Used(freq, elems) && SameLeaves(elems, freq, freq') && |leaves| >= 2
    requires 2 * (|leaves| - 1) <= |heap| && elems + |leaves| - 1 <= |freq|
    requires Finished(leaves, freq', depth, MergesOf(elems, heap, |leaves| - 1), elems + |leaves| - 2, mass)
    requires TreeDepths(elems, leaves, heap, dl) && |lens| <= |dl| && lens == dl[..|lens|]
    requires forall n {:trigger n in leaves} :: n in leaves ==> n < |lens|
    requires forall n {:trigger lens[n]} :: 0 <= n < |lens| && n !in leaves ==> lens[n] == 0
    requires Decodable(d, elems, freq, rival) && TotalBits(freq, rival, elems) <= TotalBits(freq, lens, elems) && Bounded(elems, freq, rival, b)
    ensures LensOK(b, lens)
  {
    hide GreedyLow, Greedy, Cost, Space, Depths, TreeDepths, MergesOf, Decodable, TotalBits, Fits, Fib, Fathers, Within, Bounded, LensOK, SameLeaves, Below;
    var k, gs, root, w, h := |freq|, MergesOf(elems, heap, |leaves| - 1), elems + |leaves| - 2, Weight(freq'), Weight(depth);
    TreeIsDeep(elems, leaves, heap, dl);
    MergesBelow(elems, heap, |leaves| - 1);
    RivalFits(d, elems, freq, rival, k);
    StillBelow(gs, elems + |leaves| - 1, k);
    LowIsGreedy(leaves, w, h, gs, {root});
    TreeTotal(leaves, w, gs, {root}, Weight(dl), k);
    SameBits(elems, leaves, freq, freq', dl, lens, k);
    SameBits(elems, leaves, freq, freq', rival, rival, k);
    BoundedWithin(elems, leaves, freq, rival, h, b);
    LowestTree(leaves, w, h, gs, root, Weight(rival), d, k, b);
    DepthWithinHeight(leaves, w, h, gs, root, Weight(dl));
    WithinIsBound(leaves, h, h(root), b, dl, lens);
  }

  lemma BoundedWithin(elems: nat, leaves: set<nat>, freq: seq<nat>, lens: seq<nat>, h: nat -> nat, b: nat)
    requires elems <= |freq| && leaves == Used(freq, elems) && Bounded(elems, freq, lens, b)
    requires forall x {:trigger x in leaves} :: x in leaves ==> h(x) == 0
    ensures Within(leaves, Weight(lens), h, b)
  {
    forall x | x in leaves ensures Weight(lens)(x) + h(x) <= b {
      assert freq[x] != 0;
    }
  }

  lemma WithinIsBound(leaves: set<nat>, h: nat -> nat, a: nat, b: nat, dl: seq<nat>, lens: seq<nat>)
    requires Within(leaves, Weight(dl), h, a) && a <= b && |lens| <= |dl| && lens == dl[..|lens|]
    requires forall n {:trigger lens[n]} :: 0 <= n < |lens| && n !in leaves ==> lens[n] == 0
    ensures LensOK(b, lens)
  {
    forall n | 0 <= n < |lens| ensures lens[n] <= b {
      if n in leaves {
        assert Weight(dl)(n) + h(n) <= a;
      }
    }
  }

  /** The bits of the symbols are the cost of the leaves. */
  lemma SameBits(elems: nat, leaves: set<nat>, freq: seq<nat>, freq': seq<nat>, dl: seq<nat>, lens: seq<nat>, k: nat)
    requires elems <= |freq| == k && leaves == Used(freq, elems) && SameLeaves(elems, freq, freq')
    requires |lens| <= |dl| && lens == dl[..|lens|] && (lens == dl || forall n {:trigger n in leaves} :: n in leaves ==> n < |lens|)
    ensures Cost(leaves, Weight(freq'), Weight(dl), k) == TotalBits(freq, lens, elems)
  {
    hide Cost, Space, TotalBits;
    SameWeights(leaves, Weight(freq), Weight(freq'), Weight(dl), k);
    Same(leaves, Weight(freq), Weight(dl), Weight(lens), 0, k);
    NothingBeyond(leaves, Weight(freq), Weight(lens), 0, elems, k);
    BitsAreCost(freq, elems, lens, elems);
  }

  // ---------- when the limit is not hit ----------

  /** Fathers are made after their sons. */
  ghost function ByAge(elems: nat): nat -> nat {
    n => if n >= elems then n - elems + 1 else 0
  }

  lemma GradedByAge(elems: nat, leaves: set<nat>, heap: seq<nat>, max: nat, dl: seq<nat>)
    requires TreeShape.Complete(elems, leaves, heap, max, dl)
    ensures Graded(elems, heap, ByAge(elems), |leaves| - 1)
  {
    forall s | 0 <= s < |leaves| - 1 ensures GradedAt(elems, heap, ByAge(elems), s) {
      assert TreeShape.Pair(elems, heap, dl, s);
    }
  }

  lemma {:induction false} FatherHeight(s: set<nat>, w: nat -> nat, h: nat -> nat, gs: seq<Merge>, t: set<nat>, i: nat)
    requires GreedyLow(s, w, h, gs, t) && i < |gs|
    ensures h(gs[i].p) == Larger(h(gs[i].n), h(gs[i].m)) + 1
    decreases |gs|
  {
    if i > 0 {
      FatherHeight(After(s, gs[0]), w, h, gs[1..], t, i - 1);
    }
  }

  lemma GradedByHeight(elems: nat, leaves: set<nat>, w: nat -> nat, h: nat -> nat, heap: seq<nat>, merges: nat, root: set<nat>)
    requires 2 * merges <= |heap| && GreedyLow(leaves, w, h, MergesOf(elems, heap, merges), root)
    ensures Graded(elems, heap, h, merges)
  {
    hide GreedyLow;
    var gs := MergesOf(elems, heap, merges);
    forall s | 0 <= s < merges ensures GradedAt(elems, heap, h, s) {
      FatherHeight(leaves, w, h, gs, root, s);
      assert gs[s] == Merge(heap[|heap| - 1 - 2 * s], heap[|heap| - 2 - 2 * s], elems + s);
    }
  }

  /** A tree of depth ml + 1 weighs at least the Fibonacci number of that. */
  lemma LowByWeight(ml: nat, height: nat, mass: nat)
    requires Fib(height) <= mass < Fib(ml + 1)
    ensures height <= ml
  {
    hide Fib;
    if height > ml {
      FibMonotone(ml + 1, height);
    }
  }
}
