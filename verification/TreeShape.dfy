/** The Huffman tree as the encoder records it: merged nodes in pairs at the end
    of the heap array, each with its father. Leaves are symbols below elems, the
    father made by the t-th merge is node elems + t. */
module TreeShape {

  function Single(n: nat): multiset<nat> {
    multiset{n}
  }

  /** The leaves and the first t fathers. */
  ghost function Nodes(elems: nat, leaves: set<nat>, t: nat): (r: set<nat>)
    ensures forall i: nat {:trigger i in r} :: i in r <==> i in leaves || elems <= i < elems + t
  {
    if t == 0 then leaves else Nodes(elems, leaves, t - 1) + {elems + t - 1}
  }

  /** The s-th merged pair: older nodes whose father is elems + s. */
  ghost predicate Pair(elems: nat, heap: seq<nat>, dl: seq<nat>, s: nat) {
    && 2 * s + 2 <= |heap|
    && var n, m := heap[|heap| - 1 - 2 * s], heap[|heap| - 2 - 2 * s];
       n < elems + s && m < elems + s && n < |dl| && m < |dl| && dl[n] == elems + s && dl[m] == elems + s
  }

  /** t merges are done: the nodes not yet merged are at 1..len, the merged ones from max on. */
  ghost predicate Merging(elems: nat, leaves: set<nat>, heap: seq<nat>, len: nat, max: nat, dl: seq<nat>, t: nat) {
    && (forall n :: n in leaves ==> n < elems)
    && len + t == |leaves| && 1 <= len && len < max && max == |heap| - 2 * t
    && multiset(heap[1..len + 1]) + multiset(heap[max..]) == multiset(Nodes(elems, leaves, t))
    && (forall s {:trigger Pair(elems, heap, dl, s)} :: 0 <= s < t ==> Pair(elems, heap, dl, s))
    && (t > 0 && len == 1 ==> heap[1] == elems + t - 1)
  }

  lemma InNodes(elems: nat, leaves: set<nat>, heap: seq<nat>, len: nat, max: nat, dl: seq<nat>, t: nat, i: nat)
    requires Merging(elems, leaves, heap, len, max, dl, t) && (1 <= i <= len || max <= i < |heap|)
    ensures heap[i] in Nodes(elems, leaves, t) && heap[i] < elems + t
  {
    if i <= len {
      assert heap[1..len + 1][i - 1] == heap[i];
      assert heap[i] in multiset(heap[1..len + 1]);
    } else {
      assert heap[max..][i - max] == heap[i];
      assert heap[i] in multiset(heap[max..]);
    }
    assert heap[i] in multiset(Nodes(elems, leaves, t));
  }

  lemma NodesStep(elems: nat, leaves: set<nat>, t: nat)
    requires forall n :: n in leaves ==> n < elems
    ensures multiset(Nodes(elems, leaves, t + 1)) == multiset(Nodes(elems, leaves, t)) + Single(elems + t)
  {
    assert Nodes(elems, leaves, t + 1) == Nodes(elems, leaves, t) + {elems + t};
  }

  /** In the heap, node is in the place of n and m, which are recorded as the t-th pair. */
  ghost predicate PairMoved(heap: seq<nat>, len: nat, heap': seq<nat>, t: nat, n: nat, m: nat, node: nat) {
    && 1 <= len < |heap| == |heap'| && 2 * t + 2 <= |heap|
    && multiset(heap'[1..len]) == multiset(heap[1..len + 1]) - Single(n) - Single(m) + Single(node)
    && heap'[|heap| - 2 * t - 2..] == [m, n] + heap[|heap| - 2 * t..]
  }

  /** The next merge: n and m become the sons of the new node. */
  lemma MergeStep(elems: nat, leaves: set<nat>, heap: seq<nat>, len: nat, max: nat, dl: seq<nat>, t: nat,
                  n: nat, m: nat, heap': seq<nat>)
    requires Merging(elems, leaves, heap, len, max, dl, t) && len >= 2
    requires n in multiset(heap[1..len + 1]) && m in multiset(heap[1..len + 1]) - Single(n)
    requires |dl| >= elems + t && max > len + 1 && PairMoved(heap, len, heap', t, n, m, elems + t)
    ensures n < elems + t && m < elems + t
    ensures Merging(elems, leaves, heap', len - 1, max - 2, dl[n := elems + t][m := elems + t], t + 1)
  {
    hide Nodes, Pair, Single, PairMoved;
    MergedNodes(elems, leaves, heap, len, max, dl, t, n, m, heap');
    var dl' := dl[n := elems + t][m := elems + t];
    forall s | 0 <= s < t + 1 ensures Pair(elems, heap', dl', s) {
      PairsKept(elems, leaves, heap, len, max, dl, t, n, m, heap', s);
    }
    if len == 2 {
      OnlyRoot(heap, heap', t, n, m, elems + t);
    }
  }

  /** The nodes on the heap and the merged ones, after a merge. */
  lemma MergedNodes(elems: nat, leaves: set<nat>, heap: seq<nat>, len: nat, max: nat, dl: seq<nat>, t: nat,
                    n: nat, m: nat, heap': seq<nat>)
    requires Merging(elems, leaves, heap, len, max, dl, t) && len >= 2
    requires n in multiset(heap[1..len + 1]) && m in multiset(heap[1..len + 1]) - Single(n)
    requires PairMoved(heap, len, heap', t, n, m, elems + t)
    ensures |heap'| == |heap| && max >= 2 && heap'[max - 2..] == [m, n] + heap[max..]
    ensures n < elems + t && m < elems + t && m in multiset(heap[1..len + 1])
    ensures multiset(heap'[1..len]) + multiset(heap'[max - 2..]) == multiset(Nodes(elems, leaves, t + 1))
  {
    hide Nodes, Pair;
    var active, tail := multiset(heap[1..len + 1]), multiset(heap[max..]);
    assert active - Single(n) <= active;
    ActiveNode(elems, leaves, active, tail, t, n);
    ActiveNode(elems, leaves, active, tail, t, m);
    NodesStep(elems, leaves, t);
    Regroup(active, tail, n, m, elems + t);
    assert multiset([m, n] + heap[max..]) == Single(m) + Single(n) + tail;
  }

  lemma OnlyRoot(heap: seq<nat>, heap': seq<nat>, t: nat, n: nat, m: nat, node: nat)
    requires PairMoved(heap, 2, heap', t, n, m, node)
    requires n in multiset(heap[1..3]) && m in multiset(heap[1..3]) - Single(n)
    ensures heap'[1] == node
  {
    LastOne(multiset(heap[1..3]), n, m, node, heap'[1..2]);
    assert heap'[1..2][0] == heap'[1];
  }

  lemma ActiveNode(elems: nat, leaves: set<nat>, active: multiset<nat>, tail: multiset<nat>, t: nat, n: nat)
    requires active + tail == multiset(Nodes(elems, leaves, t)) && n in active
    requires forall n :: n in leaves ==> n < elems
    ensures n < elems + t
  {
    assert n in multiset(Nodes(elems, leaves, t));
    assert n in Nodes(elems, leaves, t);
  }

  lemma Regroup(active: multiset<nat>, tail: multiset<nat>, n: nat, m: nat, node: nat)
    requires n in active && m in active - Single(n)
    ensures active - Single(n) - Single(m) + Single(node) + (Single(m) + Single(n) + tail) == active + tail + Single(node)
  {
  }

  lemma LastOne(active: multiset<nat>, n: nat, m: nat, node: nat, s: seq<nat>)
    requires n in active && m in active - Single(n) && |s| == 1
    requires multiset(s) == active - Single(n) - Single(m) + Single(node)
    ensures s[0] == node
  {
    assert node in multiset(s);
  }

  lemma PairsKept(elems: nat, leaves: set<nat>, heap: seq<nat>, len: nat, max: nat, dl: seq<nat>, t: nat,
                  n: nat, m: nat, heap': seq<nat>, s: nat)
    requires Merging(elems, leaves, heap, len, max, dl, t) && |heap'| == |heap|
    requires n in multiset(heap[1..len + 1]) && m in multiset(heap[1..len + 1])
    requires n < elems + t <= |dl| && m < elems + t && s <= t
    requires max >= 2 && heap'[max - 2..] == [m, n] + heap[max..]
    ensures Pair(elems, heap', dl[n := elems + t][m := elems + t], s)
  {
    hide Nodes;
    var h := |heap|;
    if s < t {
      assert Pair(elems, heap, dl, s);
      assert heap'[max - 2..][h - 1 - 2 * s - (max - 2)] == heap[max..][h - 1 - 2 * s - max];
      assert heap'[max - 2..][h - 2 - 2 * s - (max - 2)] == heap[max..][h - 2 - 2 * s - max];
      NotMergedTwice(elems, leaves, heap, len, max, t, h - 1 - 2 * s, n, m);
      NotMergedTwice(elems, leaves, heap, len, max, t, h - 2 - 2 * s, n, m);
    } else {
      assert heap'[max - 2..][0] == m && heap'[max - 2..][1] == n;
    }
  }

  lemma NotMergedTwice(elems: nat, leaves: set<nat>, heap: seq<nat>, len: nat, max: nat, t: nat, i: nat, n: nat, m: nat)
    requires len < max <= i < |heap|
    requires multiset(heap[1..len + 1]) + multiset(heap[max..]) == multiset(Nodes(elems, leaves, t))
    requires n in multiset(heap[1..len + 1]) && m in multiset(heap[1..len + 1])
    ensures heap[i] != n && heap[i] != m
  {
    assert heap[max..][i - max] == heap[i];
    assert heap[i] in multiset(heap[max..]);
    var all := multiset(Nodes(elems, leaves, t));
    assert all[heap[i]] <= 1;
  }

  /** All merges are done and the root is stored before the pairs. */
  ghost predicate Complete(elems: nat, leaves: set<nat>, heap: seq<nat>, max: nat, dl: seq<nat>) {
    && (forall n :: n in leaves ==> n < elems)
    && |leaves| >= 2 && 1 <= max && max == |heap| + 1 - 2 * |leaves|
    && heap[max] == elems + |leaves| - 2
    && multiset(heap[max..]) == multiset(Nodes(elems, leaves, |leaves| - 1))
    && (forall s {:trigger Pair(elems, heap, dl, s)} :: 0 <= s < |leaves| - 1 ==> Pair(elems, heap, dl, s))
  }

  lemma StoreRoot(elems: nat, leaves: set<nat>, heap: seq<nat>, max: nat, dl: seq<nat>)
    requires |leaves| >= 2 && Merging(elems, leaves, heap, 1, max, dl, |leaves| - 1) && max >= 2
    ensures Complete(elems, leaves, heap[max - 1 := heap[1]], max - 1, dl)
  {
    var t := |leaves| - 1;
    var heap' := heap[max - 1 := heap[1]];
    assert heap[1..2] == [heap[1]];
    assert heap'[max - 1..] == [heap[1]] + heap[max..];
    forall s | 0 <= s < t ensures Pair(elems, heap', dl, s) {
      assert Pair(elems, heap, dl, s);
    }
  }
}
