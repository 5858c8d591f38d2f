/** The heap of tree nodes that the encoder builds Huffman trees with. Index 0 is
    not used; the sons of index n are 2n and 2n+1. */
module TreeHeap {

  /** Node n before node m: by frequency, the depth of the subtree breaking ties. */
  predicate Smaller(freq: seq<nat>, depth: seq<nat>, n: nat, m: nat)
    requires n < |freq| && m < |freq| && |depth| == |freq|
  {
    freq[n] < freq[m] || (freq[n] == freq[m] && depth[n] <= depth[m])
  }

  ghost predicate NodesOK(freq: seq<nat>, depth: seq<nat>, heap: seq<nat>, len: nat) {
    && |depth| == |freq| && len < |heap|
    && forall i {:trigger heap[i]} :: 1 <= i <= len ==> heap[i] < |freq|
  }

  /** Fathers from index s on are smaller than their sons, leaving out the sons and
      the father of index hole. */
  ghost predicate HeapBut(freq: seq<nat>, depth: seq<nat>, heap: seq<nat>, len: nat, s: nat, hole: nat)
    requires NodesOK(freq, depth, heap, len) && s >= 1
  {
    forall j {:trigger heap[j]} :: 2 * s <= j <= len && j != hole && j / 2 != hole ==>
      Smaller(freq, depth, heap[j / 2], heap[j])
  }

  /** Every father from index s on is smaller than its sons. */
  ghost predicate HeapFrom(freq: seq<nat>, depth: seq<nat>, heap: seq<nat>, len: nat, s: nat)
    requires NodesOK(freq, depth, heap, len) && s >= 1
  {
    HeapBut(freq, depth, heap, len, s, 0)
  }

  /** The first node of a heap is the smallest. */
  lemma {:induction false} FirstIsSmallest(freq: seq<nat>, depth: seq<nat>, heap: seq<nat>, len: nat, j: nat)
    requires NodesOK(freq, depth, heap, len) && HeapFrom(freq, depth, heap, len, 1) && 1 <= j <= len
    ensures Smaller(freq, depth, heap[1], heap[j])
  {
    if j > 1 {
      FirstIsSmallest(freq, depth, heap, len, j / 2);
      assert Smaller(freq, depth, heap[j / 2], heap[j]);
    }
  }

  /** The node v that belongs in the hole, and the sons of the hole, are not smaller than its father. */
  ghost predicate OverHole(freq: seq<nat>, depth: seq<nat>, heap: seq<nat>, len: nat, s: nat, hole: nat, v: nat)
    requires NodesOK(freq, depth, heap, len) && v < |freq|
  {
    && 1 <= s <= hole <= len
    && (hole == s ||
        (hole / 2 >= s && Smaller(freq, depth, heap[hole / 2], v)
         && (forall j {:trigger heap[j]} :: j / 2 == hole && j <= len ==> Smaller(freq, depth, heap[hole / 2], heap[j]))))
  }

  /** The same nodes at the indices 1..len, and the rest unchanged. */
  ghost predicate SameNodes(heap: seq<nat>, heap': seq<nat>, len: nat) {
    && |heap'| == |heap| && len < |heap| && heap'[0] == heap[0] && heap'[len + 1..] == heap[len + 1..]
    && multiset(heap'[1..len + 1]) == multiset(heap[1..len + 1])
  }

  /** Moving the smaller son j up into the hole moves the hole to j. */
  lemma SinkStep(freq: seq<nat>, depth: seq<nat>, heap: seq<nat>, len: nat, s: nat, k: nat, v: nat, j: nat)
    requires NodesOK(freq, depth, heap, len) && v < |freq| && 1 <= s
    requires OverHole(freq, depth, heap, len, s, k, v) && HeapBut(freq, depth, heap, len, s, k)
    requires j / 2 == k && j <= len && !Smaller(freq, depth, v, heap[j])
    requires forall i {:trigger heap[i]} :: i / 2 == k && i <= len ==> Smaller(freq, depth, heap[j], heap[i])
    ensures var heap' := heap[k := heap[j]];
            && NodesOK(freq, depth, heap', len)
            && OverHole(freq, depth, heap', len, s, j, v) && HeapBut(freq, depth, heap', len, s, j)
  {
    var heap' := heap[k := heap[j]];
    forall i | i / 2 == j && i <= len ensures Smaller(freq, depth, heap'[k], heap'[i]) {
      assert Smaller(freq, depth, heap[i / 2], heap[i]);
    }
    forall i | 2 * s <= i <= len && i != j && i / 2 != j ensures Smaller(freq, depth, heap'[i / 2], heap'[i]) {
      if i == k {
        assert Smaller(freq, depth, heap[k / 2], heap[j]);
      } else if i / 2 == k {
        assert Smaller(freq, depth, heap[j], heap[i]);
      } else {
        assert Smaller(freq, depth, heap[i / 2], heap[i]);
      }
    }
  }

  lemma SinkEnd(freq: seq<nat>, depth: seq<nat>, heap: seq<nat>, len: nat, s: nat, k: nat, v: nat)
    requires NodesOK(freq, depth, heap, len) && v < |freq| && 1 <= s
    requires OverHole(freq, depth, heap, len, s, k, v) && HeapBut(freq, depth, heap, len, s, k)
    requires forall i {:trigger heap[i]} :: i / 2 == k && i <= len ==> Smaller(freq, depth, v, heap[i])
    ensures NodesOK(freq, depth, heap[k := v], len) && HeapFrom(freq, depth, heap[k := v], len, s)
  {
    var heap' := heap[k := v];
    forall i | 2 * s <= i <= len ensures Smaller(freq, depth, heap'[i / 2], heap'[i]) {
      if i != k && i / 2 != k {
        assert Smaller(freq, depth, heap[i / 2], heap[i]);
      }
    }
  }

  /** The smaller of the two sons is smaller than both. */
  lemma SmallestSon(freq: seq<nat>, depth: seq<nat>, heap: seq<nat>, len: nat, k: nat, j: nat)
    requires NodesOK(freq, depth, heap, len) && 1 <= k && 2 * k <= len
    requires j == if 2 * k < len && Smaller(freq, depth, heap[2 * k + 1], heap[2 * k]) then 2 * k + 1 else 2 * k
    ensures forall i {:trigger heap[i]} :: i / 2 == k && i <= len ==> Smaller(freq, depth, heap[j], heap[i])
  {
  }

  /** Moves node heap[k0] down until it is smaller than its sons. */
  method PqDownHeap(freq: seq<nat>, depth: seq<nat>, heap0: seq<nat>, len: nat, k0: nat) returns (heap: seq<nat>)
    requires NodesOK(freq, depth, heap0, len) && 1 <= k0 <= len
    requires HeapFrom(freq, depth, heap0, len, k0 + 1)
    ensures SameNodes(heap0, heap, len) && NodesOK(freq, depth, heap, len)
    ensures HeapFrom(freq, depth, heap, len, k0)
  {
    hide OverHole, HeapBut, HeapFrom, SameNodes, Smaller;
    heap := heap0;
    var k := k0;
    var v := heap[k];
    var j := k * 2;
    SinkStart(freq, depth, heap, len, k0);
    ghost var full := heap;
    while j <= len
      invariant |heap| == |heap0| && NodesOK(freq, depth, heap, len) && v < |freq|
      invariant j == 2 * k && k0 <= k <= len
      invariant OverHole(freq, depth, heap, len, k0, k, v) && HeapBut(freq, depth, heap, len, k0, k)
      invariant full == heap[k := v] && SameNodes(heap0, full, len)
      decreases len - k
    {
      if j < len && Smaller(freq, depth, heap[j + 1], heap[j]) {
        j := j + 1;
      }
      SmallestSon(freq, depth, heap, len, k, j);
      if Smaller(freq, depth, v, heap[j]) {
        SmallerThanSons(freq, depth, heap, len, k, v, j);
        SinkEnd(freq, depth, heap, len, k0, k, v);
        heap := heap[k := v];
        return;
      }
      SinkStep(freq, depth, heap, len, k0, k, v, j);
      SwapDown(heap0, full, len, k, j);
      full := full[k := full[j]][j := full[k]];
      heap := heap[k := heap[j]];
      k := j;
      j := j * 2;
    }
    SinkEnd(freq, depth, heap, len, k0, k, v);
    heap := heap[k := v];
  }

  lemma SinkStart(freq: seq<nat>, depth: seq<nat>, heap: seq<nat>, len: nat, k: nat)
    requires NodesOK(freq, depth, heap, len) && 1 <= k <= len && HeapFrom(freq, depth, heap, len, k + 1)
    ensures OverHole(freq, depth, heap, len, k, k, heap[k]) && HeapBut(freq, depth, heap, len, k, k)
    ensures heap[k := heap[k]] == heap && SameNodes(heap, heap, len)
  {
  }

  lemma SmallerThanSons(freq: seq<nat>, depth: seq<nat>, heap: seq<nat>, len: nat, k: nat, v: nat, j: nat)
    requires NodesOK(freq, depth, heap, len) && v < |freq| && 1 <= j <= len && 1 <= k && Smaller(freq, depth, v, heap[j])
    requires forall i {:trigger heap[i]} :: i / 2 == k && i <= len ==> Smaller(freq, depth, heap[j], heap[i])
    ensures forall i {:trigger heap[i]} :: i / 2 == k && i <= len ==> Smaller(freq, depth, v, heap[i])
  {
  }

  lemma SwapDown(heap: seq<nat>, s: seq<nat>, len: nat, i: nat, j: nat)
    requires SameNodes(heap, s, len) && 1 <= i <= len && 1 <= j <= len
    ensures SameNodes(heap, s[i := s[j]][j := s[i]], len)
  {
    var t := s[i := s[j]][j := s[i]];
    var a := s[1..len + 1];
    assert t[len + 1..] == s[len + 1..];
    assert t[1..len + 1] == a[i - 1 := a[j - 1]][j - 1 := a[i - 1]];
  }
}
