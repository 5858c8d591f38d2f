/** Building one Huffman tree: the initial heap, merging the two least frequent
    nodes until one is left, bit lengths and codes. */
module HuffmanTree {
  import opened Bits
  import opened TreeHeap
  import opened TreeShape
  import opened BitLengths
  import opened LengthLimit
  import opened HuffmanOptimal
  import Huffman

  /** The symbols among the first k that occur. */
  ghost function Used(freq: seq<nat>, k: nat): set<nat> {
    set n: nat | n < k && n < |freq| && freq[n] != 0
  }

  ghost predicate HeapOf(heap: seq<nat>, len: nat, s: set<nat>) {
    len < |heap| && multiset(heap[1..len + 1]) == multiset(s)
  }

  lemma HeapAdd(heap: seq<nat>, len: nat, s: set<nat>, n: nat)
    requires HeapOf(heap, len, s) && len + 1 < |heap| && n !in s
    ensures HeapOf(heap[len + 1 := n], len + 1, s + {n})
  {
    assert heap[len + 1 := n][1..len + 2] == heap[1..len + 1] + [n];
  }

  lemma HeapSize(heap: seq<nat>, len: nat, s: set<nat>)
    requires HeapOf(heap, len, s)
    ensures |s| == len
  {
    assert |multiset(heap[1..len + 1])| == len;
  }

  /** The largest code used, or -1. */
  ghost predicate Largest(s: set<nat>, maxCode: int) {
    && maxCode >= -1 && (forall n {:trigger n in s} :: n in s ==> n <= maxCode)
    && (maxCode == -1 || maxCode in s)
  }

  /** Puts every symbol that occurs on the heap; the others get length 0. */
  method InitHeap(elems: nat, freq: seq<nat>, depth0: seq<nat>, dl0: seq<nat>, heap0: seq<nat>)
    returns (heap: seq<nat>, len: nat, maxCode: int, depth: seq<nat>, dl: seq<nat>)
    requires elems <= |freq| == |depth0| == |dl0| && elems < |heap0|
    ensures |heap| == |heap0| && |depth| == |dl| == |freq| && HeapOf(heap, len, Used(freq, elems)) && len <= elems
    ensures Largest(Used(freq, elems), maxCode) && maxCode < elems
    ensures forall n {:trigger dl[n]} :: 0 <= n < elems && freq[n] == 0 ==> dl[n] == 0
    ensures forall n {:trigger depth[n]} :: 0 <= n < elems && freq[n] != 0 ==> depth[n] == 0
  {
    hide HeapOf;
    heap, len, maxCode, depth, dl := heap0, 0, -1, depth0, dl0;
    HeapEmpty(heap, freq);
    for n := 0 to elems
      invariant |heap| == |heap0| && |depth| == |dl| == |freq| && len <= n && maxCode < n
      invariant HeapOf(heap, len, Used(freq, n)) && Largest(Used(freq, n), maxCode)
      invariant forall i {:trigger dl[i]} :: 0 <= i < n && freq[i] == 0 ==> dl[i] == 0
      invariant forall i {:trigger depth[i]} :: 0 <= i < n && freq[i] != 0 ==> depth[i] == 0
    {
      UsedStep(freq, n);
      if freq[n] != 0 {
        HeapAdd(heap, len, Used(freq, n), n);
        len := len + 1;
        heap := heap[len := n];
        maxCode := n;
        depth := depth[n := 0];
      } else {
        dl := dl[n := 0];
      }
    }
  }

  lemma HeapEmpty(heap: seq<nat>, freq: seq<nat>)
    requires |heap| > 0
    ensures HeapOf(heap, 0, Used(freq, 0))
  {
    assert Used(freq, 0) == {};
    assert heap[1..1] == [];
  }

  lemma UsedStep(freq: seq<nat>, n: nat)
    requires n < |freq|
    ensures Used(freq, n + 1) == if freq[n] != 0 then Used(freq, n) + {n} else Used(freq, n)
  {
  }

  /** Exactly the leaves have a frequency; those that had none got 1. */
  ghost predicate Forced(elems: nat, freq0: seq<nat>, freq: seq<nat>, leaves: set<nat>) {
    && |freq| == |freq0| && leaves == Used(freq, elems) && Used(freq0, elems) <= leaves
    && forall n {:trigger freq[n]} :: 0 <= n < |freq| ==>
         freq[n] == if n in leaves && n !in Used(freq0, elems) then 1 else freq0[n]
  }

  lemma ForcedStep(elems: nat, freq0: seq<nat>, freq: seq<nat>, leaves: set<nat>, node: nat)
    requires Forced(elems, freq0, freq, leaves) && node !in leaves && node < elems <= |freq|
    ensures Forced(elems, freq0, freq[node := 1], leaves + {node})
  {
    assert Used(freq[node := 1], elems) == leaves + {node};
  }

  /** The symbols with codes, when used occur and maxCode is the largest of them or -1. */
  ghost function WithForced(used: set<nat>, maxCode: int): set<nat>
    requires maxCode >= -1
  {
    if |used| >= 2 then used
    else if |used| == 1 then used + {if maxCode < 2 then (maxCode + 1) as nat else 0}
    else {0, 1}
  }

  /** A forced code can be 2: when only symbol 1 occurs. */
  lemma ForcedCodeTwo()
    ensures WithForced({1}, 1) == {1, 2}
  {
    var used: set<nat> := {1};
    assert |used| == 1;
  }

  lemma ForcedSmall(used: set<nat>, maxCode: int, n: nat)
    requires maxCode >= -1 && n in WithForced(used, maxCode) && n !in used
    ensures n <= 2
  {
  }

  /** At least two codes are used, so that every code has at least one bit. */
  method ForceTwo(elems: nat, freq0: seq<nat>, heap0: seq<nat>, len0: nat, maxCode0: int, depth0: seq<nat>)
    returns (freq: seq<nat>, heap: seq<nat>, len: nat, maxCode: nat, depth: seq<nat>, ghost leaves: set<nat>)
    requires 3 <= elems <= |freq0| == |depth0| && elems < |heap0| && len0 <= elems
    requires HeapOf(heap0, len0, Used(freq0, elems)) && Largest(Used(freq0, elems), maxCode0) && maxCode0 < elems
    requires forall n {:trigger n in Used(freq0, elems)} :: n in Used(freq0, elems) ==> n < |depth0| && depth0[n] == 0
    ensures forall n {:trigger n in leaves} :: n in leaves ==> n < |depth| && depth[n] == 0
    ensures |depth| == |freq0| && |heap| == |heap0| && HeapOf(heap, len, leaves)
    ensures len == (if len0 < 2 then 2 else len0)
    ensures len0 >= 2 ==> freq == freq0
    ensures Largest(leaves, maxCode) && maxCode < elems && Forced(elems, freq0, freq, leaves)
    ensures leaves == WithForced(Used(freq0, elems), maxCode0)
  {
    hide HeapOf, Used, Forced, Forcing, WithForced;
    var max := maxCode0;
    freq, heap, len, depth, leaves := freq0, heap0, len0, depth0, Used(freq0, elems);
    HeapSize(heap, len, leaves);
    ForcedStart(elems, freq0);
    ForcingStart(leaves, max);
    while len < 2
      invariant |freq| == |depth| == |freq0| && |heap| == |heap0| && HeapOf(heap, len, leaves)
      invariant -1 <= max < elems && Largest(leaves, max) && |leaves| == len
      invariant len0 >= 2 ==> freq == freq0
      invariant len0 <= len && (len0 < len ==> len <= 2)
      invariant Forced(elems, freq0, freq, leaves) && forall n {:trigger n in leaves} :: n in leaves ==> n < |depth| && depth[n] == 0
      invariant Forcing(Used(freq0, elems), maxCode0, len, max, leaves)
    {
      FreshCode(leaves, len, max);
      ghost var max0 := max;
      var node: nat;
      if max < 2 {
        max := max + 1;
        node := max;
      } else {
        node := 0;
      }
      ForcingStep(Used(freq0, elems), maxCode0, len, max0, leaves, max, node);
      HeapAdd(heap, len, leaves, node);
      ForcedStep(elems, freq0, freq, leaves, node);
      len := len + 1;
      heap := heap[len := node];
      freq := freq[node := 1];
      depth := depth[node := 0];
      leaves := leaves + {node};
    }
    HeapSize(heap, len, leaves);
    MaxIsNat(leaves, max);
    ForcingEnd(Used(freq0, elems), maxCode0, len, max, leaves);
    maxCode := max;
  }

  /** Codes are being forced: none yet, or one of two, or all. */
  ghost predicate Forcing(used: set<nat>, maxCode0: int, len: nat, max: int, leaves: set<nat>) {
    && maxCode0 >= -1 && |leaves| == len
    && if len == |used| then leaves == used && max == maxCode0 && (len == 0 ==> max == -1)
       else |used| < 2 && if len < 2 then max == 0 && leaves == {0} else leaves == WithForced(used, maxCode0)
  }

  lemma ForcingStart(s: set<nat>, maxCode: int)
    requires Largest(s, maxCode)
    ensures Forcing(s, maxCode, |s|, maxCode, s)
  {
  }

  lemma ForcingStep(used: set<nat>, maxCode0: int, len: nat, max: int, leaves: set<nat>, max': int, node: nat)
    requires Forcing(used, maxCode0, len, max, leaves) && len < 2 && max >= -1 && node !in leaves && |used| <= len
    requires if max < 2 then max' == max + 1 && node == max' else max' == max && node == 0
    ensures Forcing(used, maxCode0, len + 1, max', leaves + {node})
  {
    if len == 0 {
      assert leaves == {};
      assert leaves + {node} == {0};
    } else if |used| == 0 {
      assert leaves + {node} == {0, 1};
    }
  }

  lemma ForcingEnd(used: set<nat>, maxCode0: int, len: nat, max: int, leaves: set<nat>)
    requires Forcing(used, maxCode0, len, max, leaves) && len >= 2
    ensures leaves == WithForced(used, maxCode0)
  {
  }

  lemma ForcedStart(elems: nat, freq: seq<nat>)
    ensures Forced(elems, freq, freq, Used(freq, elems))
  {
  }

  lemma MaxIsNat(s: set<nat>, maxCode: int)
    requires Largest(s, maxCode) && |s| > 0
    ensures maxCode >= 0
  {
    var n :| n in s;
  }

  /** The code that is forced is not used yet. */
  lemma FreshCode(s: set<nat>, len: nat, maxCode: int)
    requires Largest(s, maxCode) && |s| == len < 2
    ensures maxCode >= 2 ==> 0 !in s
    ensures maxCode + 1 !in s
  {
    if maxCode >= 2 && 0 in s {
      assert {0, maxCode} <= s;
      Subset({0, maxCode}, s);
    }
  }

  lemma Subset(a: set<nat>, b: set<nat>)
    requires a <= b
    ensures |a| <= |b|
  {
    assert b == a + (b - a);
  }

  // ---------- one merge ----------

  /** n and m are the two least nodes on the heap. */
  ghost predicate Least(freq: seq<nat>, depth: seq<nat>, heap: seq<nat>, len: nat, n: nat, m: nat)
    requires NodesOK(freq, depth, heap, len) && n < |freq| && m < |freq|
  {
    && n in multiset(heap[1..len + 1]) && m in multiset(heap[1..len + 1]) - Single(n)
    && (forall x: nat {:trigger Single(x)} :: x in multiset(heap[1..len + 1]) && x < |freq| ==> Smaller(freq, depth, n, x))
    && (forall x: nat {:trigger Single(x)} :: x in multiset(heap[1..len + 1]) - Single(n) && x < |freq| ==> Smaller(freq, depth, m, x))
  }

  lemma RemoveFirst(heap: seq<nat>, len: nat)
    requires 2 <= len < |heap|
    ensures multiset(heap[1 := heap[len]][1..len]) == multiset(heap[1..len + 1]) - Single(heap[1])
    ensures heap[1] in multiset(heap[1..len + 1])
  {
    assert heap[1..len + 1] == [heap[1]] + heap[2..len] + [heap[len]];
    assert heap[1 := heap[len]][1..len] == [heap[len]] + heap[2..len];
  }

  lemma ReplaceFirst(heap: seq<nat>, len: nat, v: nat)
    requires 1 <= len < |heap|
    ensures multiset(heap[1 := v][1..len + 1]) == multiset(heap[1..len + 1]) - Single(heap[1]) + Single(v)
    ensures heap[1] in multiset(heap[1..len + 1])
  {
    assert heap[1..len + 1] == [heap[1]] + heap[2..len + 1];
    assert heap[1 := v][1..len + 1] == [v] + heap[2..len + 1];
  }

  lemma FirstIsLeast(freq: seq<nat>, depth: seq<nat>, heap: seq<nat>, len: nat, x: nat)
    requires NodesOK(freq, depth, heap, len) && HeapFrom(freq, depth, heap, len, 1) && len >= 1
    requires x in multiset(heap[1..len + 1]) && x < |freq|
    ensures Smaller(freq, depth, heap[1], x)
  {
    hide HeapFrom, Smaller;
    var i :| 0 <= i < |heap[1..len + 1]| && heap[1..len + 1][i] == x;
    FirstIsSmallest(freq, depth, heap, len, i + 1);
  }

  lemma LeastTwo(freq: seq<nat>, depth: seq<nat>, heap: seq<nat>, len: nat, heap1: seq<nat>)
    requires NodesOK(freq, depth, heap, len) && HeapFrom(freq, depth, heap, len, 1) && len >= 2
    requires NodesOK(freq, depth, heap1, len - 1) && HeapFrom(freq, depth, heap1, len - 1, 1)
    requires multiset(heap1[1..len]) == multiset(heap[1..len + 1]) - Single(heap[1])
    ensures len < |heap| && len - 1 < |heap1| && heap[1] < |freq| && heap1[1] < |freq|
    ensures Least(freq, depth, heap, len, heap[1], heap1[1])
  {
    hide HeapFrom, Smaller, Single;
    assert heap[1..len + 1][0] == heap[1] && heap1[1..len][0] == heap1[1];
    forall x: nat | x in multiset(heap[1..len + 1]) && x < |freq| ensures Smaller(freq, depth, heap[1], x) {
      FirstIsLeast(freq, depth, heap, len, x);
    }
    forall x: nat | x in multiset(heap1[1..len]) && x < |freq| ensures Smaller(freq, depth, heap1[1], x) {
      FirstIsLeast(freq, depth, heap1, len - 1, x);
    }
  }

  /** Without its last node and with another first one, a heap is still one below the first. */
  lemma HeapBelow(freq: seq<nat>, depth: seq<nat>, heap: seq<nat>, len: nat, freq': seq<nat>, depth': seq<nat>, heap': seq<nat>, len': nat)
    requires NodesOK(freq, depth, heap, len) && HeapFrom(freq, depth, heap, len, 1)
    requires NodesOK(freq', depth', heap', len') && len' <= len
    requires forall i {:trigger heap'[i]} :: 2 <= i <= len' ==>
               heap'[i] == heap[i] && freq'[heap[i]] == freq[heap[i]] && depth'[heap[i]] == depth[heap[i]]
    ensures HeapFrom(freq', depth', heap', len', 2)
  {
    forall j | 4 <= j <= len' ensures Smaller(freq', depth', heap'[j / 2], heap'[j]) {
      assert heap'[j / 2] == heap[j / 2];
      assert Smaller(freq, depth, heap[j / 2], heap[j]);
    }
  }

  lemma ActiveOK(elems: nat, leaves: set<nat>, freq: seq<nat>, depth: seq<nat>, heap: seq<nat>, len: nat, max: nat, dl: seq<nat>, t: nat)
    requires Merging(elems, leaves, heap, len, max, dl, t) && elems + t <= |freq| == |depth|
    ensures 1 <= len < max <= |heap| && NodesOK(freq, depth, heap, len)
    ensures forall i {:trigger heap[i]} :: 1 <= i <= len ==> heap[i] < elems + t
  {
    forall i | 1 <= i <= len ensures heap[i] < elems + t {
      InNodes(elems, leaves, heap, len, max, dl, t, i);
    }
  }

  /** The depth of a father, in eight bits. */
  function DepthOver(a: nat, b: nat): nat {
    ((if a >= b then a else b) + 1) % 256
  }

  /** heap1 is the heap without n, with len nodes left. */
  ghost predicate Taken(heap: seq<nat>, len: nat, heap1: seq<nat>, n: nat) {
    && 1 <= len && len + 1 < |heap| == |heap1| && n in multiset(heap[1..len + 2])
    && multiset(heap1[1..len + 1]) == multiset(heap[1..len + 2]) - Single(n) && heap1[len + 1..] == heap[len + 1..]
  }

  /** In heap, node is in the place of the first of the len nodes of heap1; the rest is that of heap2. */
  ghost predicate Replaced(heap1: seq<nat>, heap2: seq<nat>, heap: seq<nat>, len: nat, node: nat) {
    && 1 <= len < |heap1| == |heap2| == |heap|
    && multiset(heap[1..len + 1]) == multiset(heap1[1..len + 1]) - Single(heap1[1]) + Single(node)
    && heap[len + 1..] == heap2[len + 1..]
  }

  lemma TakenTwo(heap: seq<nat>, len: nat, heap1: seq<nat>, n: nat)
    requires Taken(heap, len, heap1, n)
    ensures len + 1 < |heap| == |heap1| && n in multiset(heap[1..len + 2]) && heap1[1] in multiset(heap[1..len + 2]) - Single(n)
  {
    assert heap1[1..len + 1][0] == heap1[1];
    assert heap1[1] in multiset(heap1[1..len + 1]);
  }

  /** Takes the least node off the heap and looks at the next. */
  method TakeTwo(freq: seq<nat>, depth: seq<nat>, heap: seq<nat>, len: nat) returns (n: nat, m: nat, heap1: seq<nat>)
    requires len >= 2 && NodesOK(freq, depth, heap, len) && HeapFrom(freq, depth, heap, len, 1)
    ensures |heap1| == |heap| && len < |heap| && n < |freq| && m < |freq| && |depth| == |freq|
    ensures Least(freq, depth, heap, len, n, m) && m == heap1[1]
    ensures Taken(heap, len - 1, heap1, n)
    ensures NodesOK(freq, depth, heap1, len - 1) && HeapFrom(freq, depth, heap1, len - 1, 1)
  {
    hide HeapFrom, Least, Smaller, Single;
    n, heap1 := PqRemove(freq, depth, heap, len);
    LeastTwo(freq, depth, heap, len, heap1);
    m := heap1[1];
    FirstTwo(freq, depth, heap, len, n, m);
  }

  /** Takes the two least frequent nodes off the heap and puts their father on it. */
  method MergeLeast(elems: nat, ghost leaves: set<nat>, freq0: seq<nat>, depth0: seq<nat>, heap0: seq<nat>, len0: nat, max0: nat,
                    dl0: seq<nat>, node: nat, ghost t: nat)
    returns (freq: seq<nat>, depth: seq<nat>, heap: seq<nat>, len: nat, max: nat, dl: seq<nat>, ghost n0: nat, ghost m0: nat)
    requires Merging(elems, leaves, heap0, len0, max0, dl0, t) && node == elems + t && len0 >= 2 && max0 > len0 + 1
    requires |dl0| == |freq0| == |depth0| > elems + t
    requires NodesOK(freq0, depth0, heap0, len0) && HeapFrom(freq0, depth0, heap0, len0, 1)
    ensures Merging(elems, leaves, heap, len, max, dl, t + 1) && len == len0 - 1 && max == max0 - 2
    ensures |dl| == |freq| == |depth| == |freq0| && |heap| == |heap0|
    ensures NodesOK(freq, depth, heap, len) && HeapFrom(freq, depth, heap, len, 1)
    // the sons are the two least nodes
    ensures n0 < |freq0| && m0 < |freq0| && Least(freq0, depth0, heap0, len0, n0, m0)
    ensures dl == dl0[n0 := node][m0 := node] && freq == freq0[node := Huffman.Ush(freq0[n0] + freq0[m0])]
    ensures depth == depth0[node := DepthOver(depth0[n0], depth0[m0])]
    ensures PairMoved(heap0, len0, heap, t, n0, m0, node)
  {
    hide PairMoved, Merging, HeapFrom, Least, Smaller, Single, NodesOK, DepthOver, Huffman.Ush, Taken;
    ActiveOK(elems, leaves, freq0, depth0, heap0, len0, max0, dl0, t);
    len := len0 - 1;
    var n, m, heap1 := TakeTwo(freq0, depth0, heap0, len0);
    n0, m0 := n, m;
    TakenTwo(heap0, len, heap1, n);
    NodeBound(heap0, len0, node, n, m);
    max := max0 - 2;
    freq := freq0[node := Huffman.Ush(freq0[n] + freq0[m])];
    depth := depth0[node := DepthOver(depth0[n], depth0[m])];
    dl := dl0[n := node][m := node];
    heap := StoreAndInsert(elems, leaves, freq0, depth0, freq, depth, heap0, heap1, len, max0, dl0, t, node, n, m);
  }

  /** Stores the merged nodes beyond the heap and puts their father on it. */
  method StoreAndInsert(elems: nat, ghost leaves: set<nat>, ghost freq0: seq<nat>, ghost depth0: seq<nat>, freq: seq<nat>, depth: seq<nat>,
                        ghost heap0: seq<nat>, heap1: seq<nat>, len: nat, max: nat, ghost dl: seq<nat>, ghost t: nat, node: nat, n: nat, m: nat)
    returns (heap: seq<nat>)
    requires Merging(elems, leaves, heap0, len + 1, max, dl, t) && 1 <= len && len + 2 < max <= |heap0| == |heap1| && node == elems + t <= |dl|
    requires Taken(heap0, len, heap1, n) && m == heap1[1]
    requires NodesOK(freq0, depth0, heap1, len) && HeapFrom(freq0, depth0, heap1, len, 1)
    requires forall i {:trigger heap0[i]} :: 1 <= i <= len + 1 ==> heap0[i] < node
    requires |freq| == |depth| == |freq0| == |depth0| && node < |freq| && freq == freq0[node := freq[node]] && depth == depth0[node := depth[node]]
    ensures |heap| == |heap0| && n < |dl| && m < |dl| && Merging(elems, leaves, heap, len, max - 2, dl[n := node][m := node], t + 1)
    ensures PairMoved(heap0, len + 1, heap, t, n, m, node)
    ensures NodesOK(freq, depth, heap, len) && HeapFrom(freq, depth, heap, len, 1)
  {
    hide PairMoved, Merging, HeapFrom, Single, NodesOK, Taken, Replaced;
    var heap2: seq<nat> := heap1[max - 1 := n][max - 2 := m];
    StoredPair(heap1, len, max, n, m);
    StillActive(heap1, len, heap0, node, n);
    heap := InsertFather(freq0, depth0, freq, depth, heap1, heap2, len, node);
    Merged(elems, leaves, heap0, heap1, heap2, heap, len, max, dl, t, n, m);
  }

  lemma Merged(elems: nat, leaves: set<nat>, heap0: seq<nat>, heap1: seq<nat>, heap2: seq<nat>, heap: seq<nat>,
               len: nat, max: nat, dl: seq<nat>, t: nat, n: nat, m: nat)
    requires Merging(elems, leaves, heap0, len + 1, max, dl, t) && 1 <= len && len + 2 < max <= |heap0| == |heap1| == |heap|
    requires Taken(heap0, len, heap1, n) && m == heap1[1] && elems + t <= |dl|
    requires heap2 == heap1[max - 1 := n][max - 2 := m] && Replaced(heap1, heap2, heap, len, elems + t)
    ensures n < |dl| && m < |dl| && Merging(elems, leaves, heap, len, max - 2, dl[n := elems + t][m := elems + t], t + 1)
    ensures PairMoved(heap0, len + 1, heap, t, n, m, elems + t)
  {
    hide Merging, Single, PairMoved, Taken, Replaced;
    MergingSize(elems, leaves, heap0, len + 1, max, dl, t);
    TakenTwo(heap0, len, heap1, n);
    MergedPair(heap0, heap1, heap2, heap, len, max, t, n, m, elems + t);
    MergeStep(elems, leaves, heap0, len + 1, max, dl, t, n, m, heap);
  }

  lemma MergedPair(heap0: seq<nat>, heap1: seq<nat>, heap2: seq<nat>, heap: seq<nat>, len: nat, max: nat, t: nat, n: nat, m: nat, node: nat)
    requires 1 <= len && len + 2 < max <= |heap0| == |heap1| == |heap| && max == |heap0| - 2 * t
    requires Taken(heap0, len, heap1, n) && m == heap1[1]
    requires heap2 == heap1[max - 1 := n][max - 2 := m] && Replaced(heap1, heap2, heap, len, node)
    ensures PairMoved(heap0, len + 1, heap, t, n, m, node)
  {
    hide Single, PairMoved;
    TailOf(heap0, heap1, heap2, heap, len, max, n, m);
    PairIsMoved(heap0, len + 1, heap, t, n, m, node, max);
  }

  lemma PairIsMoved(heap: seq<nat>, len: nat, heap': seq<nat>, t: nat, n: nat, m: nat, node: nat, max: nat)
    requires 1 <= len < |heap| == |heap'| && 2 <= max == |heap| - 2 * t
    requires multiset(heap'[1..len]) == multiset(heap[1..len + 1]) - Single(n) - Single(m) + Single(node)
    requires heap'[max - 2..] == [m, n] + heap[max..]
    ensures PairMoved(heap, len, heap', t, n, m, node)
  {
    hide Single;
  }

  lemma MergingSize(elems: nat, leaves: set<nat>, heap: seq<nat>, len: nat, max: nat, dl: seq<nat>, t: nat)
    requires Merging(elems, leaves, heap, len, max, dl, t)
    ensures max == |heap| - 2 * t
  {
  }

  /** Takes the first node off the heap. */
  method PqRemove(freq: seq<nat>, depth: seq<nat>, heap0: seq<nat>, len: nat) returns (n: nat, heap: seq<nat>)
    requires len >= 2 && NodesOK(freq, depth, heap0, len) && HeapFrom(freq, depth, heap0, len, 1)
    ensures |heap| == |heap0| && len < |heap0| && n == heap0[1]
    ensures multiset(heap[1..len]) == multiset(heap0[1..len + 1]) - Single(n)
    ensures heap[len..] == heap0[len..]
    ensures NodesOK(freq, depth, heap, len - 1) && HeapFrom(freq, depth, heap, len - 1, 1)
  {
    hide HeapFrom, SameNodes, Single;
    n := heap0[1];
    heap := heap0[1 := heap0[len]];
    RemoveFirst(heap0, len);
    HeapBelow(freq, depth, heap0, len, freq, depth, heap, len - 1);
    ghost var before := heap;
    heap := PqDownHeap(freq, depth, heap, len - 1, 1);
    SameParts(before, heap, len - 1);
  }

  /** Puts the new node in the place of the first. */
  method InsertFather(ghost freq0: seq<nat>, ghost depth0: seq<nat>, freq: seq<nat>, depth: seq<nat>, ghost heap1: seq<nat>,
                      heap2: seq<nat>, len: nat, node: nat) returns (heap: seq<nat>)
    requires len >= 1 && NodesOK(freq0, depth0, heap1, len) && HeapFrom(freq0, depth0, heap1, len, 1)
    requires |heap2| == |heap1| && heap2[1..len + 1] == heap1[1..len + 1]
    requires |freq| == |depth| == |freq0| && node < |freq| && freq == freq0[node := freq[node]] && depth == depth0[node := depth[node]]
    requires forall i {:trigger heap1[i]} :: 1 <= i <= len ==> heap1[i] < node
    ensures |heap| == |heap2| && Replaced(heap1, heap2, heap, len, node)
    ensures NodesOK(freq, depth, heap, len) && HeapFrom(freq, depth, heap, len, 1)
  {
    hide HeapFrom, SameNodes, Single;
    heap := heap2[1 := node];
    forall i | 1 <= i <= len ensures heap2[i] == heap1[i] {
      assert heap2[1..len + 1][i - 1] == heap1[1..len + 1][i - 1];
    }
    ReplaceFirst(heap2, len, node);
    HeapBelow(freq0, depth0, heap1, len, freq, depth, heap, len);
    ghost var before := heap;
    heap := PqDownHeap(freq, depth, heap, len, 1);
    SameParts(before, heap, len);
  }

  /** The merged nodes are stored beyond the heap. */
  lemma StoredPair(heap: seq<nat>, len: nat, max: nat, n: nat, m: nat)
    requires 1 <= len && len + 2 < max <= |heap|
    ensures heap[max - 1 := n][max - 2 := m][1..len + 1] == heap[1..len + 1]
  {
  }

  lemma NodeBound(heap: seq<nat>, len: nat, node: nat, n: nat, m: nat)
    requires len < |heap| && forall i {:trigger heap[i]} :: 1 <= i <= len ==> heap[i] < node
    requires n in multiset(heap[1..len + 1]) && m in multiset(heap[1..len + 1]) - Single(n)
    ensures n < node && m < node
  {
    assert m in multiset(heap[1..len + 1]);
  }

  lemma FirstTwo(freq: seq<nat>, depth: seq<nat>, heap: seq<nat>, len: nat, n: nat, m: nat)
    requires NodesOK(freq, depth, heap, len) && n < |freq| && m < |freq| && Least(freq, depth, heap, len, n, m)
    ensures n in multiset(heap[1..len + 1]) && m in multiset(heap[1..len + 1]) - Single(n)
  {
  }

  lemma SameParts(heap: seq<nat>, heap': seq<nat>, len: nat)
    requires SameNodes(heap, heap', len)
    ensures |heap'| == |heap| && len < |heap| && heap'[len + 1..] == heap[len + 1..]
    ensures multiset(heap'[1..len + 1]) == multiset(heap[1..len + 1])
  {
  }

  lemma StillActive(heap: seq<nat>, len: nat, heap0: seq<nat>, node: nat, n: nat)
    requires Taken(heap0, len, heap, n)
    requires forall i {:trigger heap0[i]} :: 1 <= i <= len + 1 ==> heap0[i] < node
    ensures forall i {:trigger heap[i]} :: 1 <= i <= len ==> heap[i] < node
  {
    forall i | 1 <= i <= len ensures heap[i] < node {
      assert heap[1..len + 1][i - 1] in multiset(heap[1..len + 1]);
      assert heap[i] in multiset(heap0[1..len + 2]);
    }
  }

  lemma TailOf(heap0: seq<nat>, heap1: seq<nat>, heap2: seq<nat>, heap: seq<nat>, len: nat, max: nat, n: nat, m: nat)
    requires |heap0| == |heap1| == |heap| && 1 <= len && len + 2 < max <= |heap0|
    requires heap1[len + 1..] == heap0[len + 1..]
    requires heap2 == heap1[max - 1 := n][max - 2 := m]
    requires heap[len + 1..] == heap2[len + 1..]
    ensures heap[max - 2..] == [m, n] + heap0[max..]
  {
    forall i | max - 2 <= i < |heap| ensures heap[i] == ([m, n] + heap0[max..])[i - (max - 2)] {
      assert heap[len + 1..][i - (len + 1)] == heap2[len + 1..][i - (len + 1)];
      assert heap1[len + 1..][i - (len + 1)] == heap0[len + 1..][i - (len + 1)];
    }
  }

  // ---------- the whole tree ----------

  lemma MergingStart(elems: nat, leaves: set<nat>, heap: seq<nat>, len: nat, dl: seq<nat>)
    requires HeapOf(heap, len, leaves) && 1 <= len < |heap| && (forall n :: n in leaves ==> n < elems)
    ensures Merging(elems, leaves, heap, len, |heap|, dl, 0)
  {
    HeapSize(heap, len, leaves);
    assert heap[|heap|..] == [];
    assert Nodes(elems, leaves, 0) == leaves;
  }

  lemma HeapOfSame(heap: seq<nat>, heap': seq<nat>, len: nat, s: set<nat>)
    requires HeapOf(heap, len, s) && SameNodes(heap, heap', len)
    ensures HeapOf(heap', len, s)
  {
  }

  lemma HeapOfOK(freq: seq<nat>, depth: seq<nat>, heap: seq<nat>, len: nat, s: set<nat>)
    requires HeapOf(heap, len, s) && |freq| == |depth| && forall n :: n in s ==> n < |freq|
    ensures NodesOK(freq, depth, heap, len) && HeapFrom(freq, depth, heap, len, len / 2 + 1)
  {
    forall i | 1 <= i <= len ensures heap[i] < |freq| {
      assert heap[1..len + 1][i - 1] in multiset(heap[1..len + 1]);
    }
  }

  /** Makes a heap of the nodes at 1..len. */
  method Heapify(freq: seq<nat>, depth: seq<nat>, heap0: seq<nat>, len: nat, ghost leaves: set<nat>) returns (heap: seq<nat>)
    requires HeapOf(heap0, len, leaves) && |freq| == |depth| && forall n :: n in leaves ==> n < |freq|
    ensures |heap| == |heap0| && HeapOf(heap, len, leaves)
    ensures NodesOK(freq, depth, heap, len) && HeapFrom(freq, depth, heap, len, 1)
  {
    hide HeapFrom, HeapOf, SameNodes, NodesOK;
    heap := heap0;
    HeapOfOK(freq, depth, heap, len, leaves);
    var n := len / 2;
    while n >= 1
      invariant 0 <= n <= len / 2 && |heap| == |heap0| && HeapOf(heap, len, leaves)
      invariant NodesOK(freq, depth, heap, len) && HeapFrom(freq, depth, heap, len, n + 1)
    {
      ghost var before := heap;
      heap := PqDownHeap(freq, depth, heap, len, n);
      SameParts(before, heap, len);
      HeapOfSame(before, heap, len, leaves);
      n := n - 1;
    }
  }

  // ---------- the merges that were made ----------

  ghost function Weight(freq: seq<nat>): nat -> nat {
    (x: nat) => if x < |freq| then freq[x] else 0
  }

  /** The frequencies of all leaves together. */
  ghost function Mass(leaves: set<nat>, freq: seq<nat>): nat {
    Cost(leaves, Weight(freq), Ones(), |freq|)
  }

  /** The first t merges, as they are recorded at the end of the heap array. */
  ghost function MergesOf(elems: nat, heap: seq<nat>, t: nat): seq<Merge>
    requires 2 * t <= |heap|
  {
    seq(t, s requires 0 <= s < t => Merge(heap[|heap| - 1 - 2 * s], heap[|heap| - 2 - 2 * s], elems + s))
  }

  /** The nodes act are left after t merges, which were always of the two lightest nodes and of
      the lowest of those, if the frequencies do not exceed sixteen bits. */
  ghost predicate Merges(elems: nat, leaves: set<nat>, freq0: seq<nat>, freq: seq<nat>, depth: seq<nat>, heap: seq<nat>, len: nat, t: nat, act: set<nat>) {
    && Left(heap, len, act, elems + t) && 2 * t <= |heap| && elems + t <= |freq| == |depth|
    && SameLeaves(elems, freq0, freq)
    && (Mass(leaves, freq0) < 65536 ==> Reached(leaves, freq, depth, MergesOf(elems, heap, t), act, Mass(leaves, freq0)))
  }

  /** The nodes on the heap are those of act, all below k. */
  ghost predicate Left(heap: seq<nat>, len: nat, act: set<nat>, k: nat) {
    len < |heap| && multiset(heap[1..len + 1]) == multiset(act) && forall x {:trigger x in act} :: x in act ==> x < k
  }

  ghost predicate SameLeaves(elems: nat, freq0: seq<nat>, freq: seq<nat>) {
    |freq| == |freq0| && forall x {:trigger freq[x]} :: 0 <= x < elems && x < |freq| ==> freq[x] == freq0[x]
  }

  /** The merges lead to the nodes act, which weigh as much as the leaves. */
  ghost predicate Reached(leaves: set<nat>, freq: seq<nat>, depth: seq<nat>, gs: seq<Merge>, act: set<nat>, mass: nat) {
    && GreedyLow(leaves, Weight(freq), Weight(depth), gs, act) && Cost(act, Weight(freq), Ones(), |freq|) == mass
    && Heavy(act, Weight(freq), Weight(depth)) && (forall x {:trigger x in leaves} :: x in leaves ==> Weight(depth)(x) == 0)
  }

  lemma MergesStart(elems: nat, leaves: set<nat>, freq: seq<nat>, depth: seq<nat>, heap: seq<nat>, len: nat)
    requires HeapOf(heap, len, leaves) && elems <= |freq| == |depth|
    requires forall n {:trigger n in leaves} :: n in leaves ==> n < elems && freq[n] != 0 && depth[n] == 0
    ensures Merges(elems, leaves, freq, freq, depth, heap, len, 0, leaves)
  {
    hide Cost, Heavy;
    assert MergesOf(elems, heap, 0) == [];
    HeavyLeaves(leaves, Weight(freq), Weight(depth));
  }

  /** The merge that is made is of the two lightest nodes, the lowest of those. */
  lemma MergeIsLowest(freq: seq<nat>, depth: seq<nat>, heap: seq<nat>, len: nat, act: set<nat>, n: nat, m: nat, node: nat, freq': seq<nat>, depth': seq<nat>)
    requires NodesOK(freq, depth, heap, len) && n < |freq| && m < |freq| && Least(freq, depth, heap, len, n, m)
    requires Left(heap, len, act, node) && node < |freq|
    requires freq' == freq[node := freq[n] + freq[m]] && depth' == depth[node := Larger(depth[n], depth[m]) + 1]
    ensures n in act && m in act && n != m && Lowest(act, Weight(freq'), Weight(depth'), Merge(n, m, node))
  {
    assert n in multiset(act) && m in multiset(act);
    assert n != m by {
      assert multiset(act)[n] == 1;
    }
    forall x | x in act ensures Smaller(freq, depth, n, x) && (x != n ==> Smaller(freq, depth, m, x)) {
      assert x in multiset(heap[1..len + 1]);
      assert Single(x)[x] == 1;
      if x != n {
        assert x in multiset(heap[1..len + 1]) - Single(n);
      }
    }
  }

  lemma MergesOfMore(elems: nat, heap: seq<nat>, len: nat, heap': seq<nat>, t: nat, n: nat, m: nat)
    requires PairMoved(heap, len, heap', t, n, m, elems + t)
    ensures 2 * t + 2 <= |heap| == |heap'| && MergesOf(elems, heap', t + 1) == MergesOf(elems, heap, t) + [Merge(n, m, elems + t)]
  {
    var h := |heap|;
    var tail := heap'[h - 2 * t - 2..];
    assert heap'[h - 2 * t - 2] == tail[0] && heap'[h - 2 * t - 1] == tail[1];
    forall s | 0 <= s < t ensures MergesOf(elems, heap', t + 1)[s] == MergesOf(elems, heap, t)[s] {
      assert heap'[h - 1 - 2 * s] == tail[2 * t + 1 - 2 * s] == heap[h - 2 * t..][2 * t - 1 - 2 * s];
      assert heap'[h - 2 - 2 * s] == tail[2 * t - 2 * s] == heap[h - 2 * t..][2 * t - 2 - 2 * s];
    }
  }

  lemma MergesBelow(elems: nat, heap: seq<nat>, t: nat)
    requires 2 * t <= |heap|
    ensures Below(MergesOf(elems, heap, t), elems + t)
  {
  }

  /** A tree of so little weight is so low that depths do not exceed eight bits. */
  lemma DepthFits(act: set<nat>, freq: seq<nat>, depth: seq<nat>, x: nat, mass: nat)
    requires Heavy(act, Weight(freq), Weight(depth)) && x in act && x < |freq| == |depth| && freq[x] <= mass < 65536
    ensures depth[x] < 24
  {
    hide Fib;
    FibLarge();
    if depth[x] >= 24 {
      FibMonotone(24, depth[x]);
    }
  }

  lemma FibLarge()
    ensures Fib(24) >= 65536
  {
    assert Fib(10) == 144 && Fib(11) == 233;
    assert Fib(17) == 4181 && Fib(18) == 6765;
  }

  /** The frequencies and depths are exact, and the new father makes no difference to earlier merges. */
  lemma GreedyStep(elems: nat, leaves: set<nat>, freq: seq<nat>, depth: seq<nat>, heap: seq<nat>, len: nat, act: set<nat>, n: nat, m: nat,
                   t: nat, freq': seq<nat>, depth': seq<nat>, gs: seq<Merge>, mass: nat)
    requires NodesOK(freq, depth, heap, len) && n < |freq| && m < |freq| && Least(freq, depth, heap, len, n, m)
    requires Left(heap, len, act, elems + t) && elems + t < |freq|
    requires (forall x {:trigger x in leaves} :: x in leaves ==> x < elems) && Below(gs, elems + t)
    requires freq' == freq[elems + t := Huffman.Ush(freq[n] + freq[m])] && depth' == depth[elems + t := DepthOver(depth[n], depth[m])]
    requires Reached(leaves, freq, depth, gs, act, mass) && mass < 65536
    ensures Reached(leaves, freq', depth', gs + [Merge(n, m, elems + t)], After(act, Merge(n, m, elems + t)), mass)
  {
    hide GreedyLow, Cost, Lightest, Lowest, Least, Below, Heavy;
    LeftBelow(heap, len, act, elems + t);
    var w, w', h, h', g := Weight(freq), Weight(freq'), Weight(depth), Weight(depth'), Merge(n, m, elems + t);
    MergeIsLowest(freq, depth, heap, len, act, n, m, elems + t, freq[elems + t := freq[n] + freq[m]],
      depth[elems + t := Larger(depth[n], depth[m]) + 1]);
    PartOfMass(act, w, n, m, |freq|);
    DepthFits(act, freq, depth, n, mass);
    DepthFits(act, freq, depth, m, mass);
    assert freq' == freq[elems + t := freq[n] + freq[m]];
    assert depth' == depth[elems + t := Larger(depth[n], depth[m]) + 1];
    GreedyLowSame(leaves, w, w', h, h', gs, act, elems + t);
    GreedyLowMore(leaves, w', h', gs, act, g);
    LowestIsLightest(act, w', h', g);
    SameMass(act, w', g, |freq|);
    SameWeights(act, w, w', Ones(), |freq|);
    HeavySame(act, w, w', h, h');
    HeavyStep(act, w', h', g);
  }

  lemma LowestIsLightest(s: set<nat>, w: nat -> nat, h: nat -> nat, g: Merge)
    requires Lowest(s, w, h, g)
    ensures Lightest(s, w, g) && h(g.p) == Larger(h(g.n), h(g.m)) + 1
  {
  }

  lemma HeavySame(s: set<nat>, w: nat -> nat, w': nat -> nat, h: nat -> nat, h': nat -> nat)
    requires Heavy(s, w, h) && forall x {:trigger x in s} :: x in s ==> w(x) == w'(x) && h(x) == h'(x)
    ensures Heavy(s, w', h')
  {
    hide Fib;
  }

  lemma MergesStep(elems: nat, leaves: set<nat>, freq0: seq<nat>, freq: seq<nat>, depth: seq<nat>, heap: seq<nat>, len: nat, t: nat, act: set<nat>,
                   n: nat, m: nat, freq': seq<nat>, depth': seq<nat>, heap': seq<nat>) returns (act': set<nat>)
    requires Merges(elems, leaves, freq0, freq, depth, heap, len, t, act) && len >= 2 && elems + t < |freq|
    requires NodesOK(freq, depth, heap, len) && n < |freq| && m < |freq| && Least(freq, depth, heap, len, n, m)
    requires forall x {:trigger x in leaves} :: x in leaves ==> x < elems
    requires freq' == freq[elems + t := Huffman.Ush(freq[n] + freq[m])] && PairMoved(heap, len, heap', t, n, m, elems + t)
    requires depth' == depth[elems + t := DepthOver(depth[n], depth[m])]
    ensures Merges(elems, leaves, freq0, freq', depth', heap', len - 1, t + 1, act')
  {
    hide NodesOK, Least, Reached, Mass, MergesOf, Left, SameLeaves, PairMoved, Huffman.Ush, DepthOver;
    act' := After(act, Merge(n, m, elems + t));
    MergesOfMore(elems, heap, len, heap', t, n, m);
    NewActive(freq, depth, heap, len, act, n, m, t, elems + t, heap');
    StillSame(elems, freq0, freq, elems + t, freq'[elems + t]);
    if Mass(leaves, freq0) < 65536 {
      MergesBelow(elems, heap, t);
      GreedyStep(elems, leaves, freq, depth, heap, len, act, n, m, t, freq', depth', MergesOf(elems, heap, t), Mass(leaves, freq0));
    }
  }

  lemma LeftBelow(heap: seq<nat>, len: nat, act: set<nat>, k: nat)
    requires Left(heap, len, act, k)
    ensures forall x {:trigger x in act} :: x in act ==> x < k
  {
  }

  lemma StillSame(elems: nat, freq0: seq<nat>, freq: seq<nat>, node: nat, v: nat)
    requires SameLeaves(elems, freq0, freq) && elems <= node < |freq|
    ensures SameLeaves(elems, freq0, freq[node := v])
  {
  }

  lemma NewActive(freq: seq<nat>, depth: seq<nat>, heap: seq<nat>, len: nat, act: set<nat>, n: nat, m: nat, t: nat, node: nat, heap': seq<nat>)
    requires NodesOK(freq, depth, heap, len) && n < |freq| && m < |freq| && Least(freq, depth, heap, len, n, m)
    requires Left(heap, len, act, node) && len >= 2 && PairMoved(heap, len, heap', t, n, m, node)
    ensures Left(heap', len - 1, After(act, Merge(n, m, node)), node + 1) && 2 * t + 2 <= |heap'|
  {
    var act' := After(act, Merge(n, m, node));
    var all := multiset(act);
    assert n in all && m in all - Single(n);
    assert all[n] == 1 && all[m] == 1;
    assert multiset(act') == all - Single(n) - Single(m) + Single(node);
  }

  /** All merges are made: only the root is left, and it weighs as much as all leaves. */
  lemma MergesEnd(elems: nat, leaves: set<nat>, freq0: seq<nat>, freq: seq<nat>, depth: seq<nat>, heap: seq<nat>, t: nat, act: set<nat>, max: nat, heap': seq<nat>)
    requires Merges(elems, leaves, freq0, freq, depth, heap, 1, t, act) && 1 < max <= |heap| - 2 * t && t > 0
    requires heap' == heap[max - 1 := heap[1]] && heap[1] == elems + t - 1
    ensures 2 * t <= |heap'| && (Mass(leaves, freq0) < 65536 ==> Finished(leaves, freq, depth, MergesOf(elems, heap', t), heap[1], Mass(leaves, freq0)))
  {
    hide GreedyLow, Cost, Weight, Fib;
    assert heap[1..2] == [heap[1]];
    assert act == {heap[1]} by {
      assert multiset(act) == multiset{heap[1]};
      forall x | x in act ensures x == heap[1] {
        assert x in multiset(act);
      }
      assert heap[1] in multiset(act);
    }
    assert MergesOf(elems, heap', t) == MergesOf(elems, heap, t);
    if Mass(leaves, freq0) < 65536 {
      OneMass(heap[1], Weight(freq), |freq|);
    }
  }

  lemma OneMass(x: nat, w: nat -> nat, k: nat)
    requires x < k
    ensures Cost({x}, w, Ones(), k) == w(x)
  {
    hide Cost, Space, Unit;
    Take({x}, w, Ones(), 0, x, k);
    assert {x} - {x} == {};
    NoneCost(w, k);
  }

  lemma {:induction false} NoneCost(w: nat -> nat, k: nat)
    ensures Cost({}, w, Ones(), k) == 0
  {
    if k > 0 {
      NoneCost(w, k - 1);
    }
  }

  /** All merges were of the two lightest nodes, the lowest of those, and the tree is not higher than
      its weight allows. */
  ghost predicate Finished(leaves: set<nat>, freq: seq<nat>, depth: seq<nat>, gs: seq<Merge>, root: nat, mass: nat) {
    && GreedyLow(leaves, Weight(freq), Weight(depth), gs, {root}) && Fib(Weight(depth)(root)) <= mass
    && (forall x {:trigger x in leaves} :: x in leaves ==> Weight(depth)(x) == 0)
  }

  /** Merges the nodes of a heap until only the root is left. */
  method MergeAll(elems: nat, ghost leaves: set<nat>, freq0: seq<nat>, depth0: seq<nat>, heap0: seq<nat>, len0: nat, dl0: seq<nat>)
    returns (heap: seq<nat>, max: nat, dl: seq<nat>, freq: seq<nat>, depth: seq<nat>)
    requires HeapOf(heap0, len0, leaves) && 2 <= len0 <= elems <= |freq0| == |depth0|
    requires forall n {:trigger n in leaves} :: n in leaves ==> n < elems && freq0[n] != 0 && depth0[n] == 0
    requires |dl0| == |freq0| == |depth0| && 2 * elems - 1 <= |dl0| && 2 * elems < |heap0|
    requires NodesOK(freq0, depth0, heap0, len0) && HeapFrom(freq0, depth0, heap0, len0, 1)
    ensures |heap| == |heap0| && |dl| == |dl0| && |leaves| == len0
    ensures Complete(elems, leaves, heap, max, dl) && OnlyNodes(elems, leaves, dl0, dl)
    // unless the frequencies exceed sixteen bits, always the two lightest nodes were merged
    ensures SameLeaves(elems, freq0, freq)
    ensures |depth| == |freq0|
    ensures Mass(leaves, freq0) < 65536 ==> Finished(leaves, freq, depth, MergesOf(elems, heap, len0 - 1), elems + len0 - 2, Mass(leaves, freq0))
  {
    hide Merging, HeapFrom, HeapOf, Least, Single, NodesOK, Complete, Merges, Mass, Finished, MergesOf, Weight, OnlyNodes, PairMoved, SameLeaves, Huffman.Ush, DepthOver;
    OnlyNodesStart(elems, leaves, dl0);
    HeapSize(heap0, len0, leaves);
    MergingStart(elems, leaves, heap0, len0, dl0);
    MergesStart(elems, leaves, freq0, depth0, heap0, len0);
    var len := len0;
    heap, dl, max, freq, depth := heap0, dl0, |heap0|, freq0, depth0;
    ghost var t: nat, act: set<nat> := 0, leaves;
    var node := elems;
    while len >= 2
      invariant 1 <= len && len + t == len0 && max == |heap| - 2 * t && node == elems + t
      invariant |heap| == |heap0| && |dl| == |freq| == |depth| == |dl0|
      invariant Merging(elems, leaves, heap, len, max, dl, t)
      invariant NodesOK(freq, depth, heap, len) && HeapFrom(freq, depth, heap, len, 1)
      invariant OnlyNodes(elems, leaves, dl0, dl) && Merges(elems, leaves, freq0, freq, depth, heap, len, t, act)
    {
      ghost var n, m, old1, heap1, len1, max1 := 0, 0, dl, heap, len, max;
      ghost var freq1, depth1 := freq, depth;
      freq, depth, heap, len, max, dl, n, m := MergeLeast(elems, leaves, freq, depth, heap, len, max, dl, node, t);
      LeastTwoNodes(elems, leaves, freq1, depth1, heap1, len1, max1, old1, t, n, m);
      OnlyNodesMerged(elems, leaves, dl0, old1, n, m, node);
      act := MergesStep(elems, leaves, freq0, freq1, depth1, heap1, len1, t, act, n, m, freq, depth, heap);
      t := t + 1;
      node := node + 1;
    }
    StoreRoot(elems, leaves, heap, max, dl);
    RootLeft(elems, leaves, heap, max, dl, t);
    MergesEnd(elems, leaves, freq0, freq, depth, heap, t, act, max, heap[max - 1 := heap[1]]);
    SameFrequencies(elems, leaves, freq0, freq, depth, heap, t, act);
    max := max - 1;
    heap := heap[max := heap[1]];
  }

  lemma OnlyNodesStart(elems: nat, leaves: set<nat>, dl: seq<nat>)
    ensures OnlyNodes(elems, leaves, dl, dl)
  {
  }

  lemma OnlyNodesMerged(elems: nat, leaves: set<nat>, dl0: seq<nat>, dl: seq<nat>, n: nat, m: nat, node: nat)
    requires OnlyNodes(elems, leaves, dl0, dl) && n < |dl| && m < |dl| && (n < elems ==> n in leaves) && (m < elems ==> m in leaves)
    ensures OnlyNodes(elems, leaves, dl0, dl[n := node][m := node])
  {
  }

  lemma RootLeft(elems: nat, leaves: set<nat>, heap: seq<nat>, max: nat, dl: seq<nat>, t: nat)
    requires Merging(elems, leaves, heap, 1, max, dl, t) && t > 0
    ensures heap[1] == elems + t - 1
  {
  }

  lemma SameFrequencies(elems: nat, leaves: set<nat>, freq0: seq<nat>, freq: seq<nat>, depth: seq<nat>, heap: seq<nat>, t: nat, act: set<nat>)
    requires Merges(elems, leaves, freq0, freq, depth, heap, 1, t, act)
    ensures SameLeaves(elems, freq0, freq)
  {
  }

  lemma LeastTwoNodes(elems: nat, leaves: set<nat>, freq: seq<nat>, depth: seq<nat>, heap: seq<nat>, len: nat, max: nat, dl: seq<nat>, t: nat, n: nat, m: nat)
    requires Merging(elems, leaves, heap, len, max, dl, t) && NodesOK(freq, depth, heap, len)
    requires n < |freq| && m < |freq| && Least(freq, depth, heap, len, n, m)
    ensures n < elems ==> n in leaves
    ensures m < elems ==> m in leaves
  {
    hide Nodes, Pair, Smaller;
    assert n in multiset(Nodes(elems, leaves, t));
    assert m in multiset(heap[1..len + 1]);
    assert m in multiset(Nodes(elems, leaves, t));
  }
}
