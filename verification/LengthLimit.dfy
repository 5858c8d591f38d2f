/** The second half of the bit-length computation: repairing the counts when
    nodes were too deep, and giving every leaf a length anew from the counts. */
module LengthLimit {
  import opened Bits
  import opened TreeShape
  import opened BitLengths

  // ---------- the repair ----------

  /** The counts use e units of code space too many. */
  ghost predicate Excess(ml: nat, bl: seq<nat>, total: nat, e: nat) {
    && |bl| == ml + 1 && bl[0] == 0 && Total(bl, ml) == total <= Pow2(ml)
    && KraftOf(ml, bl, ml) == Pow2(ml) + e
    && (e > 0 ==> bl[ml] > e)
  }

  lemma {:induction false} OnlyLongest(ml: nat, bl: seq<nat>, l: nat)
    requires l < ml < |bl| && forall i {:trigger bl[i]} :: 1 <= i <= l ==> bl[i] == 0
    ensures KraftOf(ml, bl, l) == 0 && Total(bl, l) == 0
  {
    if l > 0 {
      OnlyLongest(ml, bl, l - 1);
      Shl0(ml - l);
    }
  }

  /** Some code is shorter than the longest. */
  lemma ShorterExists(ml: nat, bl: seq<nat>, total: nat, e: nat) returns (l: nat)
    requires ml >= 1 && Excess(ml, bl, total, e) && e > 0
    ensures 1 <= l < ml && bl[l] > 0
  {
    if l' :| 1 <= l' < ml && bl[l'] > 0 {
      l := l';
    } else {
      OnlyLongest(ml, bl, ml - 1);
      assert false;
    }
  }

  /** A leaf of length b becomes the father of itself and of a node that was too deep. */
  lemma RepairStep(ml: nat, bl: seq<nat>, total: nat, e: nat, b: nat, bl': seq<nat>)
    requires Excess(ml, bl, total, e) && e > 0 && 1 <= b < ml && bl[b] > 0
    requires var bl1 := bl[b := bl[b] - 1]; var bl2 := bl1[b + 1 := bl1[b + 1] + 2];
             bl2[ml] > 0 && bl' == bl2[ml := bl2[ml] - 1]
    ensures Excess(ml, bl', total, e - 1)
  {
    hide KraftOf, Total, Shl, Pow2;
    var bl1: seq<nat> := bl[b := bl[b] - 1];
    var bl2: seq<nat> := bl1[b + 1 := bl1[b + 1] + 2];
    KraftUpdate(ml, bl, ml, b, bl[b] - 1);
    KraftUpdate(ml, bl1, ml, b + 1, bl1[b + 1] + 2);
    KraftUpdate(ml, bl2, ml, ml, bl2[ml] - 1);
    TotalUpdate(bl, ml, b, bl[b] - 1);
    TotalUpdate(bl1, ml, b + 1, bl1[b + 1] + 2);
    TotalUpdate(bl2, ml, ml, bl2[ml] - 1);
    ShlAdd(bl[b] - 1, 1, ml - b);
    ShlAdd(bl1[b + 1], 2, ml - (b + 1));
    ShlAdd(bl2[ml] - 1, 1, 0);
    TwoSons(ml - b);
  }

  lemma TwoSons(n: nat)
    requires n > 0
    ensures Shl(2, n - 1) == Shl(1, n) && Shl(1, 0) == 1
  {
    ShlDouble(1, n - 1);
  }

  /** Moves leaves down until the counts fill the code space exactly. */
  method RepairCounts(ml: nat, bl0: seq<nat>, overflow0: nat, ghost total: nat) returns (bl: seq<nat>)
    requires ml >= 1 && overflow0 > 0 && overflow0 % 2 == 0 && Excess(ml, bl0, total, overflow0 / 2)
    ensures Excess(ml, bl, total, 0)
  {
    hide Excess;
    bl := bl0;
    var overflow: int := overflow0;
    while overflow > 0
      invariant overflow >= 0 && overflow % 2 == 0 && Excess(ml, bl, total, overflow / 2)
    {
      ghost var l := ShorterExists(ml, bl, total, overflow / 2);
      var bits := ml - 1;
      LongestLeft(ml, bl, total, overflow / 2);
      while bl[bits] == 0
        invariant l <= bits < ml
        decreases bits
      {
        bits := bits - 1;
      }
      var bl1 := bl[bits := bl[bits] - 1];
      var bl2 := bl1[bits + 1 := bl1[bits + 1] + 2];
      RepairStep(ml, bl, total, overflow / 2, bits, bl2[ml := bl2[ml] - 1]);
      bl := bl2[ml := bl2[ml] - 1];
      overflow := overflow - 2;
    }
  }

  lemma LongestLeft(ml: nat, bl: seq<nat>, total: nat, e: nat)
    requires Excess(ml, bl, total, e)
    ensures |bl| == ml + 1 && (e > 0 ==> bl[ml] > e)
  {
  }

  // ---------- the reassignment ----------

  /** The leaves at the positions from h on got their lengths anew: all those of
      more than bits bits, and all but n of those of bits bits. */
  ghost predicate Regiven(ml: nat, elems: nat, heap: seq<nat>, dl: seq<nat>, bl: seq<nat>, h: nat, bits: nat, n: nat, got: seq<nat>) {
    && h <= |heap| && |bl| == |got| == ml + 1 && bits <= ml && n <= bl[bits] && (bits == 0 ==> n == 0)
    && Counted(ml, elems, dl, At(heap, h, |heap|), got)
    && (forall l {:trigger got[l]} :: 1 <= l <= ml ==>
          got[l] == if l > bits then bl[l] else if l == bits then bl[l] - n else 0)
    && (forall m {:trigger m in At(heap, h, |heap|)} :: m in At(heap, h, |heap|) && m < elems ==> m < |dl| && 1 <= dl[m] <= ml)
  }

  lemma AtFront(heap: seq<nat>, h: nat)
    requires 0 < h <= |heap|
    ensures At(heap, h - 1, |heap|) == At(heap, h, |heap|) + {heap[h - 1]}
  {
    assert heap[h - 1..|heap|] == [heap[h - 1]] + heap[h..|heap|];
  }

  lemma NotAfter(elems: nat, leaves: set<nat>, heap: seq<nat>, max: nat, h: nat)
    requires |leaves| >= 1 && max <= h < |heap|
    requires multiset(heap[max..]) == multiset(Nodes(elems, leaves, |leaves| - 1))
    ensures heap[h] !in At(heap, h + 1, |heap|)
  {
    if heap[h] in At(heap, h + 1, |heap|) {
      var i :| 0 <= i < |heap[h + 1..]| && heap[h + 1..][i] == heap[h];
      Occurs(elems, leaves, heap, max, h, h + 1 + i);
    }
  }

  lemma CountedSkip(ml: nat, elems: nat, dl: seq<nat>, proc: set<nat>, bl: seq<nat>, n: nat)
    requires Counted(ml, elems, dl, proc, bl) && n >= elems
    ensures Counted(ml, elems, dl, proc + {n}, bl)
  {
    forall l | 1 <= l <= ml ensures LeavesOf(elems, dl, proc + {n}, l) == LeavesOf(elems, dl, proc, l) {
    }
    assert (set i | i in proc + {n} && i < elems) == (set i | i in proc && i < elems);
  }

  lemma {:induction false} TotalLess(ml: nat, a: seq<nat>, b: seq<nat>, l: nat)
    requires |a| == |b| == ml + 1 && l <= ml
    requires forall i {:trigger a[i]} :: 1 <= i <= ml ==> a[i] <= b[i]
    ensures Total(a, l) <= Total(b, l)
    ensures forall i :: 1 <= i <= l && a[i] < b[i] ==> Total(a, l) < Total(b, l)
    ensures (forall i :: 1 <= i <= l ==> a[i] == b[i]) ==> Total(a, l) == Total(b, l)
  {
    if l > 0 {
      TotalLess(ml, a, b, l - 1);
    }
  }

  /** While a length has leaves to give, there are leaves left. */
  lemma LeavesLeft(ml: nat, elems: nat, leaves: set<nat>, heap: seq<nat>, max: nat, dl: seq<nat>, bl: seq<nat>,
                   h: nat, bits: nat, n: nat, got: seq<nat>)
    requires Regiven(ml, elems, heap, dl, bl, h, bits, n, got) && n > 0 && max <= h
    requires |leaves| >= 1 && Total(bl, ml) == |leaves| && (forall m :: m in leaves ==> m < elems)
    requires max <= |heap| && multiset(heap[max..]) == multiset(Nodes(elems, leaves, |leaves| - 1))
    ensures h > max
  {
    assert got[bits] < bl[bits];
    TotalLess(ml, got, bl, ml);
    if h == max {
      AllLeaves(elems, leaves, heap, max);
    }
  }

  lemma AllLeaves(elems: nat, leaves: set<nat>, heap: seq<nat>, max: nat)
    requires |leaves| >= 1 && (forall m :: m in leaves ==> m < elems)
    requires max <= |heap| && multiset(heap[max..]) == multiset(Nodes(elems, leaves, |leaves| - 1))
    ensures (set i | i in At(heap, max, |heap|) && i < elems) == leaves
  {
    assert heap[max..|heap|] == heap[max..];
    forall n: nat ensures n in At(heap, max, |heap|) <==> n in Nodes(elems, leaves, |leaves| - 1) {
      assert n in At(heap, max, |heap|) <==> n in multiset(heap[max..]);
    }
  }

  lemma RegivenStart(ml: nat, elems: nat, heap: seq<nat>, dl: seq<nat>, bl: seq<nat>)
    requires |bl| == ml + 1
    ensures Regiven(ml, elems, heap, dl, bl, |heap|, ml, if ml == 0 then 0 else bl[ml], seq(ml + 1, _ => 0))
  {
    var got: seq<nat> := seq(ml + 1, _ => 0);
    var proc := At(heap, |heap|, |heap|);
    assert proc == {};
    forall l | 1 <= l <= ml ensures LeavesOf(elems, dl, proc, l) == {} {
    }
    assert (set i | i in proc && i < elems) == {};
    ZeroCounts(ml, got, ml);
  }

  lemma RegivenLeaf(ml: nat, elems: nat, leaves: set<nat>, heap: seq<nat>, max: nat, dl: seq<nat>, bl: seq<nat>,
                    h: nat, bits: nat, n: nat, got: seq<nat>)
    requires Regiven(ml, elems, heap, dl, bl, h, bits, n, got) && n > 0 && max < h && heap[h - 1] < |dl|
    requires |leaves| >= 1 && multiset(heap[max..]) == multiset(Nodes(elems, leaves, |leaves| - 1)) && heap[h - 1] < elems
    ensures Regiven(ml, elems, heap, dl[heap[h - 1] := bits], bl, h - 1, bits, n - 1, got[bits := got[bits] + 1])
  {
    hide Counted, Nodes, At;
    AtFront(heap, h);
    NotAfter(elems, leaves, heap, max, h - 1);
    CountedStep(ml, elems, dl, At(heap, h, |heap|), got, heap[h - 1], bits, got[bits := got[bits] + 1]);
  }

  lemma RegivenSkip(ml: nat, elems: nat, heap: seq<nat>, dl: seq<nat>, bl: seq<nat>,
                    h: nat, bits: nat, n: nat, got: seq<nat>)
    requires Regiven(ml, elems, heap, dl, bl, h, bits, n, got) && 0 < h && heap[h - 1] >= elems
    ensures Regiven(ml, elems, heap, dl, bl, h - 1, bits, n, got)
  {
    hide Counted, At;
    AtFront(heap, h);
    CountedSkip(ml, elems, dl, At(heap, h, |heap|), got, heap[h - 1]);
  }

  lemma RegivenNext(ml: nat, elems: nat, heap: seq<nat>, dl: seq<nat>, bl: seq<nat>, h: nat, bits: nat, got: seq<nat>)
    requires Regiven(ml, elems, heap, dl, bl, h, bits, 0, got) && bits > 0
    ensures Regiven(ml, elems, heap, dl, bl, h, bits - 1, if bits == 1 then 0 else bl[bits - 1], got)
  {
    hide Counted, At;
  }

  /** What the lengths of a tree's leaves must be: every leaf has one, of at most ml
      bits, bl counts them, and together they fill the code space. */
  ghost predicate LengthsDone(ml: nat, leaves: set<nat>, dl: seq<nat>, bl: seq<nat>) {
    && (forall n {:trigger n in leaves} :: n in leaves ==> n < |dl| && 1 <= dl[n] <= ml)
    && |bl| == ml + 1 && bl[0] == 0
    && (forall l {:trigger bl[l]} :: 1 <= l <= ml ==> bl[l] == |set n | n in leaves && n < |dl| && dl[n] == l|)
    && KraftOf(ml, bl, ml) == Pow2(ml)
  }

  lemma CountedDone(ml: nat, elems: nat, leaves: set<nat>, dl: seq<nat>, proc: set<nat>, bl: seq<nat>)
    requires Counted(ml, elems, dl, proc, bl) && KraftOf(ml, bl, ml) == Pow2(ml)
    requires (set i | i in proc && i < elems) == leaves
    requires forall n {:trigger n in leaves} :: n in leaves ==> n < |dl| && 1 <= dl[n] <= ml
    ensures LengthsDone(ml, leaves, dl, bl)
  {
    hide KraftOf, Total;
    forall l | 1 <= l <= ml ensures LeavesOf(elems, dl, proc, l) == set n | n in leaves && n < |dl| && dl[n] == l {
      forall n ensures n in LeavesOf(elems, dl, proc, l) <==> n in leaves && n < |dl| && dl[n] == l {
        assert n in leaves <==> n in (set i | i in proc && i < elems);
      }
    }
  }

  /** When every count is used up, every leaf has its length. */
  lemma RegivenDone(ml: nat, elems: nat, leaves: set<nat>, heap: seq<nat>, max: nat, dl: seq<nat>, bl: seq<nat>, h: nat, got: seq<nat>)
    requires Regiven(ml, elems, heap, dl, bl, h, 0, 0, got) && max <= h
    requires Excess(ml, bl, |leaves|, 0) && |leaves| >= 1 && (forall m :: m in leaves ==> m < elems)
    requires multiset(heap[max..]) == multiset(Nodes(elems, leaves, |leaves| - 1))
    ensures LengthsDone(ml, leaves, dl, bl) && (set i | i in At(heap, h, |heap|) && i < elems) == leaves
  {
    hide KraftOf, Pow2, At, Nodes;
    assert got == bl;
    SomeLeaves(elems, leaves, heap, max, h);
    AllCounted(ml, elems, dl, At(heap, h, |heap|), bl, leaves);
    hide Counted, LengthsDone;
    CountedDone(ml, elems, leaves, dl, At(heap, h, |heap|), bl);
  }

  lemma SomeLeaves(elems: nat, leaves: set<nat>, heap: seq<nat>, max: nat, h: nat)
    requires |leaves| >= 1 && (forall m :: m in leaves ==> m < elems) && max <= h <= |heap|
    requires multiset(heap[max..]) == multiset(Nodes(elems, leaves, |leaves| - 1))
    ensures (set i | i in At(heap, h, |heap|) && i < elems) <= leaves
  {
    AllLeaves(elems, leaves, heap, max);
    forall n | n in At(heap, h, |heap|) ensures n in At(heap, max, |heap|) {
      assert heap[max..|heap|] == heap[max..h] + heap[h..|heap|];
      assert n in heap[h..|heap|];
    }
    forall n | n in At(heap, h, |heap|) && n < elems ensures n in leaves {
      assert n in (set i | i in At(heap, max, |heap|) && i < elems);
    }
  }

  lemma AllCounted(ml: nat, elems: nat, dl: seq<nat>, proc: set<nat>, bl: seq<nat>, leaves: set<nat>)
    requires Counted(ml, elems, dl, proc, bl) && Total(bl, ml) == |leaves|
    requires (set i | i in proc && i < elems) <= leaves
    ensures (set i | i in proc && i < elems) == leaves
  {
    SameSize((set i | i in proc && i < elems), leaves);
  }

  lemma SameSize(a: set<nat>, b: set<nat>)
    requires a <= b && |a| == |b|
    ensures a == b
  {
    assert b == a + (b - a);
  }

  /** From position h on, leaves have codes of at least bits bits, and later ones no shorter codes. */
  ghost predicate LaterLonger(elems: nat, heap: seq<nat>, h: nat, bits: nat, dl: seq<nat>) {
    && h <= |heap|
    && (forall j {:trigger heap[j]} :: h <= j < |heap| && heap[j] < elems ==> heap[j] < |dl| && dl[heap[j]] >= bits)
    && (forall i, j {:trigger heap[i], heap[j]} :: h <= i <= j < |heap| && heap[i] < elems && heap[j] < elems ==> dl[heap[i]] <= dl[heap[j]])
  }

  lemma LaterNone(elems: nat, heap: seq<nat>, bits: nat, dl: seq<nat>)
    ensures LaterLonger(elems, heap, |heap|, bits, dl)
  {
  }

  lemma LaterLeaf(elems: nat, leaves: set<nat>, heap: seq<nat>, max: nat, h: nat, bits: nat, dl: seq<nat>)
    requires LaterLonger(elems, heap, h, bits, dl) && max < h && heap[h - 1] < |dl|
    requires |leaves| >= 1 && multiset(heap[max..]) == multiset(Nodes(elems, leaves, |leaves| - 1))
    ensures LaterLonger(elems, heap, h - 1, bits, dl[heap[h - 1] := bits])
  {
    hide Nodes;
    forall j | h <= j < |heap| ensures heap[j] != heap[h - 1] {
      Occurs(elems, leaves, heap, max, h - 1, j);
    }
  }

  lemma LaterSkip(elems: nat, heap: seq<nat>, h: nat, bits: nat, dl: seq<nat>)
    requires LaterLonger(elems, heap, h, bits, dl) && 0 < h && heap[h - 1] >= elems
    ensures LaterLonger(elems, heap, h - 1, bits, dl)
  {
  }

  lemma LaterNext(elems: nat, heap: seq<nat>, h: nat, bits: nat, dl: seq<nat>)
    requires LaterLonger(elems, heap, h, bits, dl) && bits > 0
    ensures LaterLonger(elems, heap, h, bits - 1, dl)
  {
  }

  /** No leaf is left out. */
  lemma LaterAll(elems: nat, leaves: set<nat>, heap: seq<nat>, max: nat, h: nat, dl: seq<nat>)
    requires LaterLonger(elems, heap, h, 0, dl) && max <= h <= |heap|
    requires |leaves| >= 1 && multiset(heap[max..]) == multiset(Nodes(elems, leaves, |leaves| - 1))
    requires (set i | i in At(heap, h, |heap|) && i < elems) == leaves
    ensures LaterLonger(elems, heap, max, 0, dl)
  {
    hide Nodes;
    forall i | max <= i < h ensures heap[i] >= elems {
      if heap[i] < elems {
        NodeAt(elems, leaves, heap, max, i);
        assert heap[i] in (set i | i in At(heap, h, |heap|) && i < elems);
        var j :| 0 <= j < |heap[h..|heap|]| && heap[h..|heap|][j] == heap[i];
        Occurs(elems, leaves, heap, max, i, h + j);
      }
    }
  }

  /** Gives the longest codes to the leaves merged first. */
  method Reassign(ml: nat, elems: nat, ghost leaves: set<nat>, maxCode: nat, heap: seq<nat>, max: nat, dl0: seq<nat>, bl: seq<nat>)
    returns (dl: seq<nat>)
    requires ml >= 1 && Excess(ml, bl, |leaves|, 0) && |leaves| >= 1 && elems <= |dl0|
    requires (forall n :: n in leaves ==> n < elems)
    requires maxCode < elems && forall n {:trigger n in leaves} :: n in leaves ==> n <= maxCode
    requires max <= |heap| && multiset(heap[max..]) == multiset(Nodes(elems, leaves, |leaves| - 1))
    ensures LengthsDone(ml, leaves, dl, bl) && OnlyNodes(elems, leaves, dl0, dl)
    // leaves that were merged earlier get no shorter codes
    ensures LaterLonger(elems, heap, max, 0, dl)
  {
    hide Regiven, Excess, Nodes, At, LengthsDone, Total, LaterLonger;
    dl := dl0;
    var h := |heap|;
    var bits := ml;
    TotalOf(ml, bl, |leaves|);
    RegivenStart(ml, elems, heap, dl, bl);
    LaterNone(elems, heap, ml, dl);
    ghost var got: seq<nat> := seq(ml + 1, _ => 0);
    while bits != 0
      invariant bits <= ml && max <= h <= |heap| && |got| == ml + 1
      invariant Regiven(ml, elems, heap, dl, bl, h, bits, if bits == 0 then 0 else bl[bits], got)
      invariant OnlyNodes(elems, leaves, dl0, dl) && LaterLonger(elems, heap, h, bits, dl)
    {
      var n := bl[bits];
      while n != 0
        invariant 0 <= n && max <= h <= |heap| && |got| == ml + 1
        invariant Regiven(ml, elems, heap, dl, bl, h, bits, n, got)
        invariant OnlyNodes(elems, leaves, dl0, dl) && LaterLonger(elems, heap, h, bits, dl)
        decreases h
      {
        LeavesLeft(ml, elems, leaves, heap, max, dl, bl, h, bits, n, got);
        h := h - 1;
        var m := heap[h];
        LeafByCode(elems, leaves, heap, max, maxCode, h);
        if m <= maxCode {
          RegivenLeaf(ml, elems, leaves, heap, max, dl, bl, h + 1, bits, n, got);
          OnlyNodesStep(elems, leaves, heap, max, dl0, dl, h, bits);
          LaterLeaf(elems, leaves, heap, max, h + 1, bits, dl);
          dl := dl[m := bits];
          got := got[bits := got[bits] + 1];
          n := n - 1;
        } else {
          RegivenSkip(ml, elems, heap, dl, bl, h + 1, bits, n, got);
          LaterSkip(elems, heap, h + 1, bits, dl);
        }
      }
      RegivenNext(ml, elems, heap, dl, bl, h, bits, got);
      LaterNext(elems, heap, h, bits, dl);
      bits := bits - 1;
    }
    RegivenDone(ml, elems, leaves, heap, max, dl, bl, h, got);
    LaterAll(elems, leaves, heap, max, h, dl);
  }

  lemma TotalOf(ml: nat, bl: seq<nat>, total: nat)
    requires Excess(ml, bl, total, 0)
    ensures |bl| == ml + 1 && Total(bl, ml) == total
  {
  }

  // ---------- both passes ----------

  lemma PassDone(ml: nat, elems: nat, leaves: set<nat>, heap: seq<nat>, max: nat, dl: seq<nat>, bl: seq<nat>, e: nat)
    requires ml >= 1 && Pass(ml, elems, leaves, heap, max, dl, bl, 0, e) && |leaves| <= Pow2(ml)
    ensures Excess(ml, bl, |leaves|, e)
    ensures e == 0 ==> LengthsDone(ml, leaves, dl, bl)
  {
    hide KraftOf, Total, Nodes, Pow2, LengthsDone, At;
    AllLeaves(elems, leaves, heap, max);
    var proc := At(heap, max, |heap|);
    if e == 0 {
      forall n | n in leaves ensures n < |dl| && 1 <= dl[n] <= ml {
        assert n in (set i | i in proc && i < elems);
      }
      CountedDone(ml, elems, leaves, dl, proc, bl);
    }
  }

  /** Bit lengths for the leaves of a finished tree. */
  method GenBitLen(ml: nat, elems: nat, ghost leaves: set<nat>, maxCode: nat, heap: seq<nat>, max: nat, dl0: seq<nat>, ghost grade: nat -> nat)
    returns (dl: seq<nat>, bl: seq<nat>, limited: bool)
    requires ml >= 1 && Complete(elems, leaves, heap, max, dl0) && elems + |leaves| <= |dl0| + 1
    requires maxCode < elems && forall n {:trigger n in leaves} :: n in leaves ==> n <= maxCode
    requires |leaves| <= Pow2(ml) && Graded(elems, heap, grade, |leaves| - 1)
    ensures LengthsDone(ml, leaves, dl, bl) && OnlyNodes(elems, leaves, dl0, dl)
    // unless some node is too deep, the lengths are the depths in the tree
    ensures !limited ==> TreeDepths(elems, leaves, heap, dl)
    ensures |leaves| >= 2 && (grade(elems + |leaves| - 2) <= ml ==> !limited)
    // and else the longest codes go to the nodes that were merged first
    ensures limited ==> LaterLonger(elems, heap, max, 0, dl)
  {
    hide Pass, Excess, LengthsDone, Pow2, Complete, Nodes, TreeDepths, LaterLonger, Graded;
    var overflow: nat;
    ghost var e: nat;
    dl, bl, overflow, e := FirstPass(ml, elems, leaves, maxCode, heap, max, dl0, grade);
    PassDone(ml, elems, leaves, heap, max, dl, bl, e);
    limited := overflow != 0;
    if overflow == 0 {
      return;
    }
    bl := RepairCounts(ml, bl, overflow, |leaves|);
    CompleteBounds(elems, leaves, heap, max, dl0);
    dl := Reassign(ml, elems, leaves, maxCode, heap, max, dl, bl);
  }
}
