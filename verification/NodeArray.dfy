/** The array of partition nodes with its lookup table, and the quicksort that
    arranges it. A node is represented by its number, the index it was
    inserted at. */
module NodeArray {
  import opened Heap
  import opened Compare

  /** lua is the inverse of the permutation a. */
  ghost predicate Inverse(a: seq<nat>, lua: seq<nat>) {
    && |a| == |lua|
    && (forall i {:trigger a[i]} :: 0 <= i < |a| ==> a[i] < |lua| && lua[a[i]] == i)
    && (forall v {:trigger lua[v]} :: 0 <= v < |lua| ==> lua[v] < |a| && a[lua[v]] == v)
  }

  /** b rearranges only the positions l..r of the array a, whose inverse is lua. */
  ghost predicate Rearranged(a: seq<nat>, lua: seq<nat>, b: seq<nat>, l: int, r: int) {
    && |b| == |a| == |lua|
    && (forall k {:trigger b[k]} :: 0 <= k < |a| && !(l <= k <= r) ==> b[k] == a[k])
    && (forall k {:trigger b[k]} :: 0 <= k < |a| && l <= k <= r ==> b[k] < |lua| && l <= lua[b[k]] <= r)
  }

  ghost predicate Sorted(s: Store, nodes: seq<Addr>, a: seq<nat>, l: int, r: int)
    requires forall i :: 0 <= i < |a| ==> a[i] < |nodes|
    requires forall v :: 0 <= v < |nodes| ==> nodes[v] in s
  {
    forall i, j :: 0 <= l <= i <= j <= r < |a| ==> CompareNodes(s, nodes[a[i]], nodes[a[j]]) <= 0
  }

  class DynNodeArray {
    var a: seq<nat>
    var lua: seq<nat>
    var nodes: seq<Addr>

    ghost predicate Valid()
      reads this
    {
      Inverse(a, lua) && |nodes| == |a|
    }

    constructor ()
      ensures Valid() && a == [] && nodes == []
    {
      a, lua, nodes := [], [], [];
    }

    /** Appends a node and returns its number. */
    method InitNext(node: Addr) returns (num: nat)
      requires Valid()
      modifies this
      ensures Valid()
      ensures num == old(|a|) && a == old(a) + [num] && nodes == old(nodes) + [node]
    {
      num := |a|;
      a, lua, nodes := a + [num], lua + [num], nodes + [node];
    }

    method Swap(i: nat, j: nat)
      requires Valid() && i < |a| && j < |a|
      modifies this`a, this`lua
      ensures Valid()
      ensures a == old(a)[i := old(a)[j]][j := old(a)[i]]
      ensures lua == old(lua)[old(a)[i] := j][old(a)[j] := i]
    {
      var wi, wj := a[i], a[j];
      a := a[i := wj];
      a := a[j := wi];
      lua := lua[wi := j];
      lua := lua[wj := i];
    }

    /** Scans right from position i for a node not smaller than v; there is one at j. */
    method ScanUp(s: Store, v: Addr, i: nat, j: nat) returns (k: nat)
      requires Valid() && Closed(s) && Unmixed(s) && v in s
      requires forall v :: 0 <= v < |nodes| ==> nodes[v] in s
      requires i <= j < |a| && CompareNodes(s, v, nodes[a[j]]) <= 0
      ensures i <= k <= j
      ensures forall m :: i <= m < k ==> CompareNodes(s, nodes[a[m]], v) <= 0
      ensures CompareNodes(s, v, nodes[a[k]]) <= 0
    {
      hide CompareNodes;
      k := i;
      while CompareNodes(s, nodes[a[k]], v) == -1
        invariant i <= k <= j
        invariant forall m :: i <= m < k ==> CompareNodes(s, nodes[a[m]], v) <= 0
        decreases j - k
      {
        TotalPreorder(s, nodes[a[k]], v, v);
        k := k + 1;
      }
      TotalPreorder(s, nodes[a[k]], v, v);
    }

    /** Scans left from position j for a node not greater than v, but not beyond l. */
    method ScanDown(s: Store, v: Addr, l: nat, j: nat) returns (k: nat)
      requires Valid() && Closed(s) && Unmixed(s) && v in s
      requires forall v :: 0 <= v < |nodes| ==> nodes[v] in s
      requires l <= j < |a|
      ensures l <= k <= j
      ensures forall m :: k < m <= j ==> CompareNodes(s, v, nodes[a[m]]) <= 0
      ensures k == l || CompareNodes(s, nodes[a[k]], v) <= 0
    {
      hide CompareNodes;
      k := j;
      while CompareNodes(s, v, nodes[a[k]]) == -1
        invariant l <= k <= j
        invariant forall m :: k < m <= j ==> CompareNodes(s, v, nodes[a[m]]) <= 0
        decreases k
      {
        if k == l {
          break;
        }
        k := k - 1;
      }
      TotalPreorder(s, v, nodes[a[k]], v);
    }

    /** One quicksort step: the node that was last in l..r ends at position i with
        nothing greater before it and nothing smaller after it. */
    method PartitionRange(s: Store, l: nat, r: nat) returns (i: int)
      requires Valid() && Closed(s) && Unmixed(s)
      requires forall v :: 0 <= v < |nodes| ==> nodes[v] in s
      requires l < r < |a|
      modifies this`a, this`lua
      ensures Valid() && 0 <= l <= i <= r < |a|
      ensures Rearranged(old(a), old(lua), a, l, r)
      ensures forall k :: l <= k < i ==> CompareNodes(s, nodes[a[k]], nodes[a[i]]) <= 0
      ensures forall k :: i < k <= r ==> CompareNodes(s, nodes[a[i]], nodes[a[k]]) <= 0
    {
      hide CompareNodes, Closed, Unmixed;
      var v := nodes[a[r]];
      TotalPreorder(s, v, v, v);
      i := l - 1;
      var j: int := r;
      while true
        invariant Valid() && l - 1 <= i < j <= r && l < j
        invariant Rearranged(old(a), old(lua), a, l, r)
        invariant Parted(s, nodes, a, v, l, i, j, r)
        decreases j - i
      {
        ghost var i0, j0 := i, j;
        i := ScanUp(s, v, i + 1, j);
        j := ScanDown(s, v, l, j - 1);
        PartedScan(s, nodes, a, v, l, i0, j0, r, i, j);
        if i >= j {
          break;
        }
        SwapRearranges(old(a), old(lua), a, lua, i, j, l, r);
        PartedSwap(s, nodes, a, v, l, i, j, r);
        Swap(i, j);
      }
      PartedEnd(s, nodes, a, v, l, i, j, r);
      SwapRearranges(old(a), old(lua), a, lua, i, r, l, r);
      Swap(i, r);
    }

    /** Quicksort of the positions l..r. */
    method Sort(s: Store, l: int, r: int)
      requires Valid() && Closed(s) && Unmixed(s)
      requires forall v :: 0 <= v < |nodes| ==> nodes[v] in s
      requires 0 <= l && r < |a|
      modifies this`a, this`lua
      ensures Valid()
      ensures Rearranged(old(a), old(lua), a, l, r)
      ensures Sorted(s, nodes, a, l, r)
      decreases r - l
    {
      if r <= l {
        if r == l {
          TotalPreorder(s, nodes[a[l]], nodes[a[l]], nodes[a[l]]);
        }
        return;
      }
      hide CompareNodes, Closed, Unmixed;
      var i := PartitionRange(s, l, r);
      ghost var a1, lua1 := a, lua;
      Sort(s, l, i - 1);
      ghost var a2, lua2 := a, lua;
      Sort(s, i + 1, r);
      Joined(s, nodes, old(a), old(lua), a1, lua1, a2, lua2, a, l, i, r);
    }
  }

  /** Nothing greater than v in l..i, nothing smaller in j..r, and v itself at r. */
  ghost predicate Parted(s: Store, nodes: seq<Addr>, a: seq<nat>, v: Addr, l: nat, i: int, j: int, r: int) {
    && v in s && 0 <= j && r < |a|
    && (forall k {:trigger a[k]} :: 0 <= k < |a| ==> a[k] < |nodes| && nodes[a[k]] in s)
    && (r >= 0 ==> nodes[a[r]] == v)
    && (forall k {:trigger a[k]} :: l <= k <= i && k < |a| ==> CompareNodes(s, nodes[a[k]], v) <= 0)
    && (forall k {:trigger a[k]} :: j <= k <= r ==> CompareNodes(s, v, nodes[a[k]]) <= 0)
  }

  lemma PartedScan(s: Store, nodes: seq<Addr>, a: seq<nat>, v: Addr, l: nat, i0: int, j0: int, r: int, i: int, j: int)
    requires l - 1 <= i0 < i <= j0 <= r && 0 <= j < j0 && Parted(s, nodes, a, v, l, i0, j0, r)
    requires forall m :: i0 < m < i ==> CompareNodes(s, nodes[a[m]], v) <= 0
    requires forall m :: j < m < j0 ==> CompareNodes(s, v, nodes[a[m]]) <= 0
    ensures Parted(s, nodes, a, v, l, i - 1, j + 1, r)
  {
    hide CompareNodes;
  }

  lemma PartedSwap(s: Store, nodes: seq<Addr>, a: seq<nat>, v: Addr, l: nat, i: int, j: int, r: int)
    requires l <= i < j < r && Parted(s, nodes, a, v, l, i - 1, j + 1, r)
    requires CompareNodes(s, v, nodes[a[i]]) <= 0 && CompareNodes(s, nodes[a[j]], v) <= 0
    ensures Parted(s, nodes, a[i := a[j]][j := a[i]], v, l, i, j, r)
  {
    hide CompareNodes;
  }

  lemma PartedEnd(s: Store, nodes: seq<Addr>, a: seq<nat>, v: Addr, l: nat, i: int, j: int, r: int)
    requires l <= i <= r && 0 <= j <= i && Parted(s, nodes, a, v, l, i - 1, j + 1, r)
    requires CompareNodes(s, v, nodes[a[i]]) <= 0
    ensures var b := a[i := a[r]][r := a[i]];
            && (forall k :: l <= k < i ==> CompareNodes(s, nodes[b[k]], nodes[b[i]]) <= 0)
            && (forall k :: i < k <= r ==> CompareNodes(s, nodes[b[i]], nodes[b[k]]) <= 0)
  {
    hide CompareNodes;
  }

  lemma SwapRearranges(a0: seq<nat>, lua0: seq<nat>, a: seq<nat>, lua: seq<nat>, i: nat, j: nat, l: nat, r: nat)
    requires Inverse(a0, lua0) && Inverse(a, lua) && Rearranged(a0, lua0, a, l, r)
    requires l <= i <= r < |a| && l <= j <= r
    ensures Rearranged(a0, lua0, a[i := a[j]][j := a[i]], l, r)
  {
  }

  /** Two sorted parts around a pivot make a sorted whole. */
  lemma Joined(s: Store, nodes: seq<Addr>, a0: seq<nat>, lua0: seq<nat>, a1: seq<nat>, lua1: seq<nat>,
               a2: seq<nat>, lua2: seq<nat>, a3: seq<nat>, l: int, i: int, r: int)
    requires Closed(s) && Unmixed(s) && 0 <= l <= i <= r < |a0| == |nodes|
    requires forall v :: 0 <= v < |nodes| ==> nodes[v] in s
    requires Inverse(a0, lua0) && Inverse(a1, lua1) && Inverse(a2, lua2)
    requires Rearranged(a0, lua0, a1, l, r)
    requires Rearranged(a1, lua1, a2, l, i - 1)
    requires Rearranged(a2, lua2, a3, i + 1, r)
    requires forall k :: l <= k < i ==> CompareNodes(s, nodes[a1[k]], nodes[a1[i]]) <= 0
    requires forall k :: i < k <= r ==> CompareNodes(s, nodes[a1[i]], nodes[a1[k]]) <= 0
    requires Sorted(s, nodes, a2, l, i - 1) && Sorted(s, nodes, a3, i + 1, r)
    ensures Rearranged(a0, lua0, a3, l, r)
    ensures Sorted(s, nodes, a3, l, r)
  {
    forall k | l <= k <= r
      ensures a3[k] < |nodes| && l <= lua1[a3[k]] <= r && l <= lua0[a3[k]] <= r
      ensures k < i ==> CompareNodes(s, nodes[a3[k]], nodes[a1[i]]) <= 0
      ensures k > i ==> CompareNodes(s, nodes[a1[i]], nodes[a3[k]]) <= 0
      ensures k == i ==> a3[k] == a1[i]
    {
      var k2 := if k > i then lua2[a3[k]] else k;
      assert a2[k2] == a3[k];
      var k1 := if k < i then lua1[a2[k2]] else k2;
      assert a1[k1] == a3[k];
    }
    forall x, y | l <= x <= y <= r
      ensures CompareNodes(s, nodes[a3[x]], nodes[a3[y]]) <= 0
    {
      TotalPreorder(s, nodes[a3[x]], nodes[a1[i]], nodes[a3[y]]);
      if x < i && y < i {
        assert a3[x] == a2[x] && a3[y] == a2[y];
      }
    }
  }
}
