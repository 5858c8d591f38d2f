/** The bit lengths of a Huffman tree, limited to ml bits: the first pass over the
    tree, the repair of the counts after an overflow, and the reassignment. */
module BitLengths {
  import opened Bits
  import opened TreeShape

  // ---------- counts of lengths ----------

  /** The code space used by the codes counted in bl, in units of the longest code. */
  function KraftOf(ml: nat, bl: seq<nat>, l: nat): nat
    requires l <= ml && ml < |bl|
  {
    if l == 0 then 0 else KraftOf(ml, bl, l - 1) + Shl(bl[l], ml - l)
  }

  function Total(bl: seq<nat>, l: nat): nat
    requires l < |bl|
  {
    if l == 0 then 0 else Total(bl, l - 1) + bl[l]
  }

  lemma {:induction false} KraftUpdate(ml: nat, bl: seq<nat>, l: nat, i: nat, x: nat)
    requires l <= ml < |bl| && 1 <= i <= ml
    ensures KraftOf(ml, bl[i := x], l) + (if i <= l then Shl(bl[i], ml - i) else 0)
         == KraftOf(ml, bl, l) + (if i <= l then Shl(x, ml - i) else 0)
  {
    if l > 0 {
      KraftUpdate(ml, bl, l - 1, i, x);
    }
  }

  lemma {:induction false} TotalUpdate(bl: seq<nat>, l: nat, i: nat, x: nat)
    requires l < |bl| && 1 <= i < |bl|
    ensures Total(bl[i := x], l) + (if i <= l then bl[i] else 0) == Total(bl, l) + (if i <= l then x else 0)
  {
    if l > 0 {
      TotalUpdate(bl, l - 1, i, x);
    }
  }

  // ---------- nodes whose sons are still to come ----------

  /** The sum of the weights of those of the first t fathers that are in proc. */
  ghost function OpenSum(elems: nat, dl: seq<nat>, proc: set<nat>, wt: seq<nat>, t: nat): nat {
    if t == 0 then 0
    else
      OpenSum(elems, dl, proc, wt, t - 1)
      + (var n := elems + t - 1; if n in proc && n < |dl| && dl[n] < |wt| then wt[dl[n]] else 0)
  }

  lemma {:induction false} OpenAdd(elems: nat, dl: seq<nat>, proc: set<nat>, wt: seq<nat>, t: nat, n: nat, b: nat)
    requires n < |dl| && n !in proc && b < |wt|
    ensures OpenSum(elems, dl[n := b], proc + {n}, wt, t)
         == OpenSum(elems, dl, proc, wt, t) + if elems <= n < elems + t then wt[b] else 0
  {
    if t > 0 {
      OpenAdd(elems, dl, proc, wt, t - 1, n, b);
    }
  }

  /** The width of a code of each length. */
  function Widths(ml: nat): (r: seq<nat>)
    ensures |r| == ml + 1 && forall b {:trigger r[b]} :: 0 <= b <= ml ==> r[b] == Pow2(ml - b)
  {
    seq(ml + 1, b requires 0 <= b < ml + 1 => Pow2(ml - b))
  }

  /** One for the longest length. */
  function AtMost(ml: nat): (r: seq<nat>)
    ensures |r| == ml + 1 && forall b {:trigger r[b]} :: 0 <= b <= ml ==> r[b] == if b == ml then 1 else 0
  {
    seq(ml + 1, b requires 0 <= b < ml + 1 => if b == ml then 1 else 0)
  }

  /** The leaves of length l among the nodes in proc. */
  ghost function LeavesOf(elems: nat, dl: seq<nat>, proc: set<nat>, l: nat): set<nat> {
    set n | n in proc && n < elems && n < |dl| && dl[n] == l
  }

  /** The counts are those of the leaves in proc. */
  ghost predicate Counted(ml: nat, elems: nat, dl: seq<nat>, proc: set<nat>, bl: seq<nat>) {
    && |bl| == ml + 1 && bl[0] == 0
    && (forall l {:trigger bl[l]} :: 1 <= l <= ml ==> bl[l] == |LeavesOf(elems, dl, proc, l)|)
    && Total(bl, ml) == |set n | n in proc && n < elems|
  }

  /** What the lengths given so far use of the code space: too much by one unit for
      every two nodes that were too deep. */
  ghost predicate Balanced(ml: nat, elems: nat, dl: seq<nat>, proc: set<nat>, bl: seq<nat>, t: nat, e: nat)
    requires |bl| == ml + 1
  {
    && KraftOf(ml, bl, ml) + OpenSum(elems, dl, proc, Widths(ml), t) == Pow2(ml) + e
    && var c := bl[ml] + OpenSum(elems, dl, proc, AtMost(ml), t);
       c >= e && (c + e > 0 ==> c >= e + 2)
  }

  /** Giving node n its length. */
  lemma AssignOne(ml: nat, elems: nat, dl: seq<nat>, proc: set<nat>, bl: seq<nat>, t: nat, n: nat, b: nat, bl': seq<nat>)
    requires Counted(ml, elems, dl, proc, bl) && n < |dl| && n !in proc && 1 <= b <= ml && n < elems + t
    requires bl' == if n < elems then bl[b := bl[b] + 1] else bl
    ensures Counted(ml, elems, dl[n := b], proc + {n}, bl')
    ensures KraftOf(ml, bl', ml) + OpenSum(elems, dl[n := b], proc + {n}, Widths(ml), t)
         == KraftOf(ml, bl, ml) + OpenSum(elems, dl, proc, Widths(ml), t) + Pow2(ml - b)
    ensures bl'[ml] + OpenSum(elems, dl[n := b], proc + {n}, AtMost(ml), t)
         == bl[ml] + OpenSum(elems, dl, proc, AtMost(ml), t) + if b == ml then 1 else 0
  {
    OpenAdd(elems, dl, proc, Widths(ml), t, n, b);
    OpenAdd(elems, dl, proc, AtMost(ml), t, n, b);
    if n < elems {
      KraftUpdate(ml, bl, ml, b, bl[b] + 1);
      ShlAdd(bl[b], 1, ml - b);
      Pow2Shl(0, ml - b);
    }
    CountedStep(ml, elems, dl, proc, bl, n, b, bl');
  }

  lemma CountedStep(ml: nat, elems: nat, dl: seq<nat>, proc: set<nat>, bl: seq<nat>, n: nat, b: nat, bl': seq<nat>)
    requires Counted(ml, elems, dl, proc, bl) && n < |dl| && n !in proc && 1 <= b <= ml
    requires bl' == if n < elems then bl[b := bl[b] + 1] else bl
    ensures Counted(ml, elems, dl[n := b], proc + {n}, bl')
  {
    hide LeavesOf, Total;
    var dl', proc' := dl[n := b], proc + {n};
    forall l | 1 <= l <= ml ensures bl'[l] == |LeavesOf(elems, dl', proc', l)| {
      LeavesAdd(elems, dl, proc, n, b, l);
    }
    LeafAdd(elems, proc, n);
    TotalUpdate(bl, ml, b, bl[b] + 1);
  }

  lemma LeavesAdd(elems: nat, dl: seq<nat>, proc: set<nat>, n: nat, b: nat, l: nat)
    requires n < |dl| && n !in proc
    ensures |LeavesOf(elems, dl[n := b], proc + {n}, l)| == |LeavesOf(elems, dl, proc, l)| + if n < elems && l == b then 1 else 0
  {
    var s, s' := LeavesOf(elems, dl, proc, l), LeavesOf(elems, dl[n := b], proc + {n}, l);
    if n < elems && l == b {
      assert s' == s + {n};
    } else {
      assert s' == s;
    }
  }

  lemma LeafAdd(elems: nat, proc: set<nat>, n: nat)
    requires n !in proc
    ensures |set i | i in proc + {n} && i < elems| == |set i | i in proc && i < elems| + if n < elems then 1 else 0
  {
    var s, s' := set i | i in proc && i < elems, set i | i in proc + {n} && i < elems;
    if n < elems {
      assert s' == s + {n};
    } else {
      assert s' == s;
    }
  }

  function Capped(ml: nat, d: nat): nat {
    if d + 1 > ml then ml else d + 1
  }

  lemma OpenTop(ml: nat, elems: nat, dl: seq<nat>, proc: set<nat>, t: nat)
    requires t >= 1 && elems + t - 1 in proc && elems + t - 1 < |dl| && dl[elems + t - 1] <= ml && ml >= 1
    ensures var d := dl[elems + t - 1];
            && OpenSum(elems, dl, proc, Widths(ml), t) == OpenSum(elems, dl, proc, Widths(ml), t - 1) + Pow2(ml - d)
            && OpenSum(elems, dl, proc, AtMost(ml), t) == OpenSum(elems, dl, proc, AtMost(ml), t - 1) + (if d == ml then 1 else 0)
            && Pow2(ml - d) + (if d == ml then 1 else 0) == 2 * Pow2(ml - Capped(ml, d))
  {
  }

  /** Closing a father: its two sons share its width. */
  lemma PairStep(ml: nat, elems: nat, dl: seq<nat>, proc: set<nat>, bl: seq<nat>, t: nat, e: nat, n: nat, m: nat, b: nat,
                 bl1: seq<nat>, bl2: seq<nat>)
    requires ml >= 1 && t >= 1 && Counted(ml, elems, dl, proc, bl) && Balanced(ml, elems, dl, proc, bl, t, e)
    requires elems + t - 1 in proc && elems + t - 1 < |dl| && dl[elems + t - 1] <= ml
    requires n != m && n !in proc && m !in proc && n < elems + t - 1 && m < elems + t - 1
    requires b == Capped(ml, dl[elems + t - 1])
    requires bl1 == if m < elems then bl[b := bl[b] + 1] else bl
    requires bl2 == if n < elems then bl1[b := bl1[b] + 1] else bl1
    ensures Counted(ml, elems, dl[m := b][n := b], proc + {m} + {n}, bl2)
    ensures Balanced(ml, elems, dl[m := b][n := b], proc + {m} + {n}, bl2, t - 1,
                     if dl[elems + t - 1] == ml then e + 1 else e)
  {
    hide KraftOf, Counted, OpenSum, Pow2;
    AssignOne(ml, elems, dl, proc, bl, t - 1, m, b, bl1);
    AssignOne(ml, elems, dl[m := b], proc + {m}, bl1, t - 1, n, b, bl2);
    OpenTop(ml, elems, dl, proc, t);
    CountedBounds(ml, elems, dl, proc, bl);
    CountedBounds(ml, elems, dl[m := b][n := b], proc + {m} + {n}, bl2);
  }

  lemma CountedBounds(ml: nat, elems: nat, dl: seq<nat>, proc: set<nat>, bl: seq<nat>)
    requires Counted(ml, elems, dl, proc, bl)
    ensures |bl| == ml + 1
  {
  }

  // ---------- the first pass ----------

  /** The nodes at the positions i..j-1. */
  ghost function At(heap: seq<nat>, i: int, j: int): set<nat>
    requires 0 <= i <= j <= |heap|
  {
    set n | n in heap[i..j]
  }

  lemma AtStep(heap: seq<nat>, i: int, j: int)
    requires 0 <= i <= j < |heap|
    ensures At(heap, i, j + 1) == At(heap, i, j) + {heap[j]}
  {
    assert heap[i..j + 1] == heap[i..j] + [heap[j]];
  }

  /** No node occurs twice among the merged nodes. */
  lemma Occurs(elems: nat, leaves: set<nat>, heap: seq<nat>, max: nat, i: int, j: int)
    requires |leaves| >= 1 && max <= i < j < |heap|
    requires multiset(heap[max..]) == multiset(Nodes(elems, leaves, |leaves| - 1))
    ensures heap[i] != heap[j]
  {
    hide Nodes;
    var tail := heap[max..];
    assert tail == tail[..j - max] + [tail[j - max]] + tail[j - max + 1..];
    assert tail[..j - max][i - max] == heap[i];
    assert heap[i] in multiset(tail[..j - max]);
    assert tail[j - max] == heap[j];
    if heap[i] == heap[j] {
      TwiceIn(tail, i - max, j - max);
    }
  }

  lemma TwiceIn(s: seq<nat>, i: int, j: int)
    requires 0 <= i < j < |s| && s[i] == s[j]
    ensures multiset(s)[s[i]] >= 2
  {
    assert s == s[..j] + s[j..];
    assert s[i] in multiset(s[..j]);
    assert s[j..][0] == s[j];
    assert s[j] in multiset(s[j..]);
  }

  lemma NotBefore(elems: nat, leaves: set<nat>, heap: seq<nat>, max: nat, j: int)
    requires |leaves| >= 1 && max <= j < |heap|
    requires multiset(heap[max..]) == multiset(Nodes(elems, leaves, |leaves| - 1))
    ensures heap[j] !in At(heap, max, j)
  {
    hide Nodes;
    if heap[j] in At(heap, max, j) {
      var i :| 0 <= i < |heap[max..j]| && heap[max..j][i] == heap[j];
      Occurs(elems, leaves, heap, max, max + i, j);
    }
  }

  /** The nodes of the last t pairs are older than the father of the t-th. */
  lemma LastAreOlder(elems: nat, heap: seq<nat>, dl: seq<nat>, t: nat, p: nat)
    requires 1 <= t && 2 * t <= |heap| && |heap| - 2 * t <= p < |heap|
    requires forall s {:trigger Pair(elems, heap, dl, s)} :: 0 <= s < t ==> Pair(elems, heap, dl, s)
    ensures heap[p] < elems + t - 1
  {
    var s := (|heap| - 1 - p) / 2;
    assert Pair(elems, heap, dl, s);
    assert p == |heap| - 1 - 2 * s || p == |heap| - 2 - 2 * s;
  }

  /** The father of the next pair has its length already. */
  lemma FatherDone(elems: nat, leaves: set<nat>, heap: seq<nat>, max: nat, dl: seq<nat>, t: nat)
    requires 1 <= t <= |leaves| - 1 && max + 2 * t + 1 <= |heap| + 1 && max <= |heap| - 2 * t
    requires multiset(heap[max..]) == multiset(Nodes(elems, leaves, |leaves| - 1))
    requires forall s {:trigger Pair(elems, heap, dl, s)} :: 0 <= s < t ==> Pair(elems, heap, dl, s)
    ensures elems + t - 1 in At(heap, max, |heap| - 2 * t)
  {
    var f := elems + t - 1;
    assert f in Nodes(elems, leaves, |leaves| - 1);
    assert f in multiset(heap[max..]);
    var i :| 0 <= i < |heap[max..]| && heap[max..][i] == f;
    var p := max + i;
    assert heap[p] == f;
    if p >= |heap| - 2 * t {
      LastAreOlder(elems, heap, dl, t, p);
    }
    assert heap[max..|heap| - 2 * t][i] == f;
  }

  /** The nodes in proc have lengths of at most ml bits, the leaves of at least one bit. */
  ghost predicate Given(ml: nat, leaves: set<nat>, dl: seq<nat>, proc: set<nat>) {
    forall n {:trigger n in proc} :: n in proc ==> n < |dl| && dl[n] <= ml && (n in leaves ==> dl[n] >= 1)
  }

  lemma GivenStep(ml: nat, leaves: set<nat>, dl: seq<nat>, proc: set<nat>, m: nat, n: nat, b: nat)
    requires Given(ml, leaves, dl, proc) && m < |dl| && n < |dl| && 1 <= b <= ml
    ensures Given(ml, leaves, dl[m := b][n := b], proc + {m} + {n})
  {
  }

  /** The lengths of the nodes before the last t pairs are given. */
  ghost predicate Pass(ml: nat, elems: nat, leaves: set<nat>, heap: seq<nat>, max: nat, dl: seq<nat>, bl: seq<nat>, t: nat, e: nat) {
    && |leaves| >= 2 && t <= |leaves| - 1 && max == |heap| + 1 - 2 * |leaves| && elems + |leaves| <= |dl| + 1
    && (forall n :: n in leaves ==> n < elems)
    && multiset(heap[max..]) == multiset(Nodes(elems, leaves, |leaves| - 1))
    && (forall s {:trigger Pair(elems, heap, dl, s)} :: 0 <= s < t ==> Pair(elems, heap, dl, s))
    && Given(ml, leaves, dl, At(heap, max, |heap| - 2 * t))
    && |bl| == ml + 1 && Counted(ml, elems, dl, At(heap, max, |heap| - 2 * t), bl)
    && Balanced(ml, elems, dl, At(heap, max, |heap| - 2 * t), bl, t, e)
  }

  lemma PassStart(ml: nat, elems: nat, leaves: set<nat>, heap: seq<nat>, max: nat, dl: seq<nat>)
    requires ml >= 1 && Complete(elems, leaves, heap, max, dl) && elems + |leaves| <= |dl| + 1
    ensures heap[max] < |dl| && Pass(ml, elems, leaves, heap, max, dl[heap[max] := 0], seq(ml + 1, _ => 0), |leaves| - 1, 0)
  {
    var t := |leaves| - 1;
    var root := heap[max];
    var dl', bl := dl[root := 0], seq(ml + 1, _ => 0);
    assert heap[max..max] == [];
    AtStep(heap, max, max);
    var proc := At(heap, max, |heap| - 2 * t);
    assert proc == {root};
    forall s | 0 <= s < t ensures Pair(elems, heap, dl', s) {
      assert Pair(elems, heap, dl, s);
    }
    forall l | 1 <= l <= ml ensures |LeavesOf(elems, dl', proc, l)| == 0 {
      assert LeavesOf(elems, dl', proc, l) == {};
    }
    assert (set n | n in proc && n < elems) == {};
    ZeroCounts(ml, bl, ml);
    OpenNone(elems, dl', proc, Widths(ml), t - 1, root);
    OpenNone(elems, dl', proc, AtMost(ml), t - 1, root);
  }

  lemma {:induction false} ZeroCounts(ml: nat, bl: seq<nat>, l: nat)
    requires l <= ml && |bl| == ml + 1 && forall i {:trigger bl[i]} :: 0 <= i <= ml ==> bl[i] == 0
    ensures KraftOf(ml, bl, l) == 0 && Total(bl, l) == 0
  {
    if l > 0 {
      ZeroCounts(ml, bl, l - 1);
      Shl0(ml - l);
    }
  }

  lemma {:induction false} OpenNone(elems: nat, dl: seq<nat>, proc: set<nat>, wt: seq<nat>, t: nat, root: nat)
    requires proc == {root} && root >= elems + t
    ensures OpenSum(elems, dl, proc, wt, t) == 0
  {
    if t > 0 {
      OpenNone(elems, dl, proc, wt, t - 1, root);
    }
  }

  /** The two nodes of the t-th last pair, and what their father gives them. */
  lemma PairFacts(ml: nat, elems: nat, leaves: set<nat>, heap: seq<nat>, max: nat, dl: seq<nat>, bl: seq<nat>, t: nat, e: nat)
    requires t >= 1 && Pass(ml, elems, leaves, heap, max, dl, bl, t, e)
    ensures |bl| == ml + 1
    ensures max < |heap| - 2 * t + 1 < |heap| && elems + t - 1 < |dl| && elems + t - 1 in At(heap, max, |heap| - 2 * t)
    ensures var m, n, f := heap[|heap| - 2 * t], heap[|heap| - 2 * t + 1], elems + t - 1;
            && m < f && n < f && dl[m] == f && dl[n] == f && dl[f] <= ml && m != n
            && m !in At(heap, max, |heap| - 2 * t) && n !in At(heap, max, |heap| - 2 * t)
            && At(heap, max, |heap| - 2 * (t - 1)) == At(heap, max, |heap| - 2 * t) + {m} + {n}
  {
    hide Counted, Balanced, Nodes;
    var i := |heap| - 2 * t;
    assert Pair(elems, heap, dl, t - 1);
    Occurs(elems, leaves, heap, max, i, i + 1);
    NotBefore(elems, leaves, heap, max, i);
    NotBefore(elems, leaves, heap, max, i + 1);
    AtStep(heap, max, i);
    AtStep(heap, max, i + 1);
    FatherDone(elems, leaves, heap, max, dl, t);
  }

  /** One more pair has its lengths. */
  lemma PassStep(ml: nat, elems: nat, leaves: set<nat>, heap: seq<nat>, max: nat, dl: seq<nat>, bl: seq<nat>, t: nat, e: nat,
                 m: nat, n: nat, b: nat, bl1: seq<nat>, bl2: seq<nat>)
    requires ml >= 1 && t >= 1 && Pass(ml, elems, leaves, heap, max, dl, bl, t, e)
    requires 0 <= |heap| - 2 * t && m == heap[|heap| - 2 * t] && n == heap[|heap| - 2 * t + 1]
    requires elems + t - 1 < |dl| && b == Capped(ml, dl[elems + t - 1]) && |bl| == ml + 1
    requires bl1 == if m < elems then bl[b := bl[b] + 1] else bl
    requires bl2 == if n < elems then bl1[b := bl1[b] + 1] else bl1
    ensures m < |dl| && n < |dl|
    ensures Pass(ml, elems, leaves, heap, max, dl[m := b][n := b], bl2, t - 1,
                 if dl[elems + t - 1] == ml then e + 1 else e)
  {
    hide Counted, Balanced, Nodes, At;
    PairFacts(ml, elems, leaves, heap, max, dl, bl, t, e);
    PairStep(ml, elems, dl, At(heap, max, |heap| - 2 * t), bl, t, e, n, m, b, bl1, bl2);
    GivenStep(ml, leaves, dl, At(heap, max, |heap| - 2 * t), m, n, b);
    var dl' := dl[m := b][n := b];
    forall s | 0 <= s < t - 1 ensures Pair(elems, heap, dl', s) {
      assert Pair(elems, heap, dl, s);
      OtherPair(elems, leaves, heap, max, t, s);
    }
  }

  lemma OtherPair(elems: nat, leaves: set<nat>, heap: seq<nat>, max: nat, t: nat, s: nat)
    requires s < t - 1 && max <= |heap| - 2 * t && |leaves| >= 1
    requires multiset(heap[max..]) == multiset(Nodes(elems, leaves, |leaves| - 1))
    ensures forall i, j :: |heap| - 2 * t <= i <= |heap| - 2 * t + 1 && |heap| - 2 - 2 * s <= j <= |heap| - 1 - 2 * s ==> heap[i] != heap[j]
  {
    forall i, j | |heap| - 2 * t <= i <= |heap| - 2 * t + 1 && |heap| - 2 - 2 * s <= j <= |heap| - 1 - 2 * s ensures heap[i] != heap[j] {
      Occurs(elems, leaves, heap, max, i, j);
    }
  }

  /** The sons of the fathers from the t-th on are one bit longer than those. */
  ghost predicate Deep(elems: nat, heap: seq<nat>, dl: seq<nat>, t: nat, merges: nat) {
    forall s {:trigger SonsDeep(elems, heap, dl, s)} :: t <= s < merges ==> SonsDeep(elems, heap, dl, s)
  }

  ghost predicate SonsDeep(elems: nat, heap: seq<nat>, dl: seq<nat>, s: nat) {
    && 2 * s + 2 <= |heap| && elems + s < |dl|
    && var n, m := heap[|heap| - 1 - 2 * s], heap[|heap| - 2 - 2 * s];
       n < |dl| && m < |dl| && dl[n] == dl[elems + s] + 1 && dl[m] == dl[elems + s] + 1
  }

  /** One more pair, if it is not too deep. */
  lemma DeepStep(ml: nat, elems: nat, leaves: set<nat>, heap: seq<nat>, max: nat, dl: seq<nat>, bl: seq<nat>, t: nat, e: nat, b: nat)
    requires t >= 1 && Pass(ml, elems, leaves, heap, max, dl, bl, t, e) && Deep(elems, heap, dl, t, |leaves| - 1)
    requires 2 * t <= |heap| && elems + t - 1 < |dl| && b == dl[elems + t - 1] + 1
    ensures var m, n := heap[|heap| - 2 * t], heap[|heap| - 2 * t + 1];
            m < |dl| && n < |dl| && Deep(elems, heap, dl[m := b][n := b], t - 1, |leaves| - 1)
  {
    hide Counted, Balanced, Nodes, At;
    PairFacts(ml, elems, leaves, heap, max, dl, bl, t, e);
    var m, n := heap[|heap| - 2 * t], heap[|heap| - 2 * t + 1];
    var dl' := dl[m := b][n := b];
    forall s | t - 1 <= s < |leaves| - 1 ensures SonsDeep(elems, heap, dl', s) {
      if s >= t {
        assert SonsDeep(elems, heap, dl, s);
        OtherPair(elems, leaves, heap, max, s + 1, t - 1);
      }
    }
  }

  /** Every father is above 0, and above those of its sons that are fathers. */
  ghost predicate Graded(elems: nat, heap: seq<nat>, grade: nat -> nat, merges: nat) {
    forall s {:trigger GradedAt(elems, heap, grade, s)} :: 0 <= s < merges ==> GradedAt(elems, heap, grade, s)
  }

  ghost predicate GradedAt(elems: nat, heap: seq<nat>, grade: nat -> nat, s: nat) {
    && 2 * s + 2 <= |heap| && grade(elems + s) >= 1
    && var n, m := heap[|heap| - 1 - 2 * s], heap[|heap| - 2 - 2 * s];
       (n >= elems ==> grade(n) < grade(elems + s)) && (m >= elems ==> grade(m) < grade(elems + s))
  }

  /** No father is deeper than its grade leaves room for. */
  ghost predicate Shallow(elems: nat, dl: seq<nat>, proc: set<nat>, grade: nat -> nat, bound: nat) {
    forall n {:trigger n in proc} :: n in proc && n >= elems ==> n < |dl| && dl[n] + grade(n) <= bound
  }

  lemma ShallowStep(ml: nat, elems: nat, leaves: set<nat>, heap: seq<nat>, max: nat, dl: seq<nat>, bl: seq<nat>, t: nat, e: nat, b: nat,
                    grade: nat -> nat, bound: nat)
    requires t >= 1 && Pass(ml, elems, leaves, heap, max, dl, bl, t, e) && 0 <= max <= |heap| - 2 * t
    requires Shallow(elems, dl, At(heap, max, |heap| - 2 * t), grade, bound) && GradedAt(elems, heap, grade, t - 1)
    requires elems + t - 1 < |dl| && b == Capped(ml, dl[elems + t - 1])
    ensures dl[elems + t - 1] < bound
    ensures var m, n := heap[|heap| - 2 * t], heap[|heap| - 2 * t + 1];
            m < |dl| && n < |dl| && Shallow(elems, dl[m := b][n := b], At(heap, max, |heap| - 2 * (t - 1)), grade, bound)
  {
    hide Counted, Balanced, Nodes, At;
    PairFacts(ml, elems, leaves, heap, max, dl, bl, t, e);
    var f := elems + t - 1;
    assert f in At(heap, max, |heap| - 2 * t);
  }

  lemma ShallowStart(elems: nat, heap: seq<nat>, max: nat, dl: seq<nat>, grade: nat -> nat)
    requires max < |heap| && heap[max] < |dl| && dl[heap[max]] == 0
    ensures Shallow(elems, dl, At(heap, max, max + 1), grade, grade(heap[max]))
  {
    assert heap[max..max + 1] == [heap[max]];
  }

  /** The root has length 0 and, if there was no overflow, every node its depth. */
  ghost predicate TreeDepths(elems: nat, leaves: set<nat>, heap: seq<nat>, dl: seq<nat>) {
    |leaves| >= 2 && elems + |leaves| - 2 < |dl| && dl[elems + |leaves| - 2] == 0 && Deep(elems, heap, dl, 0, |leaves| - 1)
  }

  /** Everything that holds between two pairs. */
  ghost predicate Passing(ml: nat, elems: nat, leaves: set<nat>, heap: seq<nat>, max: nat, dl: seq<nat>, bl: seq<nat>, t: nat, e: nat,
                          grade: nat -> nat) {
    && Pass(ml, elems, leaves, heap, max, dl, bl, t, e) && 0 <= max <= |heap| - 2 * t
    && elems + |leaves| - 2 < |dl| && dl[elems + |leaves| - 2] == 0
    && (e == 0 ==> Deep(elems, heap, dl, t, |leaves| - 1))
    && Shallow(elems, dl, At(heap, max, |heap| - 2 * t), grade, grade(elems + |leaves| - 2))
    && (grade(elems + |leaves| - 2) <= ml ==> e == 0)
  }

  /** A pair is done. */
  lemma PairDone(ml: nat, elems: nat, leaves: set<nat>, heap: seq<nat>, max: nat, dl: seq<nat>, bl: seq<nat>, t: nat, e: nat, b: nat, bl2: seq<nat>,
                 grade: nat -> nat)
    requires ml >= 1 && t >= 1 && Passing(ml, elems, leaves, heap, max, dl, bl, t, e, grade) && |bl| == ml + 1 && GradedAt(elems, heap, grade, t - 1)
    requires 2 * t <= |heap| && elems + t - 1 < |dl| && b == Capped(ml, dl[elems + t - 1])
    requires var m, n := heap[|heap| - 2 * t], heap[|heap| - 2 * t + 1];
             var bl1 := if m < elems then bl[b := bl[b] + 1] else bl;
             bl2 == if n < elems then bl1[b := bl1[b] + 1] else bl1
    ensures var m, n := heap[|heap| - 2 * t], heap[|heap| - 2 * t + 1];
            m < |dl| && n < |dl|
            && Passing(ml, elems, leaves, heap, max, dl[m := b][n := b], bl2, t - 1, if dl[elems + t - 1] == ml then e + 1 else e, grade)
  {
    hide Pass, At, Deep, Shallow, GradedAt;
    var m, n := heap[|heap| - 2 * t], heap[|heap| - 2 * t + 1];
    PairFacts(ml, elems, leaves, heap, max, dl, bl, t, e);
    TreeSize(ml, elems, leaves, heap, max, dl, bl, t, e);
    PassStep(ml, elems, leaves, heap, max, dl, bl, t, e, m, n, b, if m < elems then bl[b := bl[b] + 1] else bl, bl2);
    ShallowStep(ml, elems, leaves, heap, max, dl, bl, t, e, b, grade, grade(elems + |leaves| - 2));
    if e == 0 && dl[elems + t - 1] < ml {
      DeepStep(ml, elems, leaves, heap, max, dl, bl, t, e, b);
    }
  }

  lemma PassingStart(ml: nat, elems: nat, leaves: set<nat>, heap: seq<nat>, max: nat, dl: seq<nat>, grade: nat -> nat)
    requires ml >= 1 && Complete(elems, leaves, heap, max, dl) && elems + |leaves| <= |dl| + 1
    ensures heap[max] < |dl| && Passing(ml, elems, leaves, heap, max, dl[heap[max] := 0], seq(ml + 1, _ => 0), |leaves| - 1, 0, grade)
  {
    hide Pass, Complete, At, Deep, Shallow;
    CompleteBounds(elems, leaves, heap, max, dl);
    PassStart(ml, elems, leaves, heap, max, dl);
    DeepStart(elems, heap, dl[heap[max] := 0], |leaves| - 1);
    ShallowStart(elems, heap, max, dl[heap[max] := 0], grade);
  }

  lemma PassingFacts(ml: nat, elems: nat, leaves: set<nat>, heap: seq<nat>, max: nat, dl: seq<nat>, bl: seq<nat>, t: nat, e: nat,
                     grade: nat -> nat)
    requires Passing(ml, elems, leaves, heap, max, dl, bl, t, e, grade)
    ensures Pass(ml, elems, leaves, heap, max, dl, bl, t, e)
    ensures t == 0 && e == 0 ==> TreeDepths(elems, leaves, heap, dl)
    ensures |leaves| >= 2 && (grade(elems + |leaves| - 2) <= ml ==> e == 0)
  {
    hide Counted, Balanced, Nodes, At, Deep, Shallow;
  }

  /** Lengths by depth, cut at ml; overflow counts the nodes that were deeper. */
  method FirstPass(ml: nat, elems: nat, ghost leaves: set<nat>, maxCode: nat, heap: seq<nat>, max: nat, dl0: seq<nat>, ghost grade: nat -> nat)
    returns (dl: seq<nat>, bl: seq<nat>, overflow: nat, ghost e: nat)
    requires ml >= 1 && Complete(elems, leaves, heap, max, dl0) && elems + |leaves| <= |dl0| + 1
    requires maxCode < elems && forall n {:trigger n in leaves} :: n in leaves ==> n <= maxCode
    requires Graded(elems, heap, grade, |leaves| - 1)
    ensures Pass(ml, elems, leaves, heap, max, dl, bl, 0, e) && overflow == 2 * e
    ensures OnlyNodes(elems, leaves, dl0, dl)
    ensures overflow == 0 ==> TreeDepths(elems, leaves, heap, dl)
    ensures |leaves| >= 2 && (grade(elems + |leaves| - 2) <= ml ==> overflow == 0)
  {
    hide Pass, Complete, At, Nodes, Passing, TreeDepths, GradedAt;
    CompleteBounds(elems, leaves, heap, max, dl0);
    PassingStart(ml, elems, leaves, heap, max, dl0, grade);
    bl := seq(ml + 1, _ => 0);
    dl := dl0[heap[max] := 0];
    overflow := 0;
    e := 0;
    var h := max + 1;
    ghost var t: nat, dl1: seq<nat>, bl1: seq<nat> := |leaves| - 1, dl, bl;
    OnlyNodesStep(elems, leaves, heap, max, dl0, dl0, max, 0);
    while h < |heap|
      invariant |dl| == |dl0| == |dl1| && |bl| == |bl1| == ml + 1 && h <= |heap|
      invariant |heap| - 2 * t <= h <= |heap| - 2 * t + 1 && 0 <= |heap| - 2 * t
      invariant Passing(ml, elems, leaves, heap, max, dl1, bl1, t, e, grade) && t <= |leaves| - 1
      invariant h == |heap| - 2 * t ==> dl == dl1 && bl == bl1 && overflow == 2 * e
      invariant h == |heap| - 2 * t + 1 ==>
                  && t >= 1 && elems + t - 1 < |dl1| && heap[h - 1] < |dl|
                  && var b := Capped(ml, dl1[elems + t - 1]);
                     && b <= ml && dl == dl1[heap[h - 1] := b]
                     && bl == (if heap[h - 1] < elems then bl1[b := bl1[b] + 1] else bl1)
                     && overflow == 2 * e + (if dl1[elems + t - 1] == ml then 1 else 0)
      invariant OnlyNodes(elems, leaves, dl0, dl)
    {
      PassingFacts(ml, elems, leaves, heap, max, dl1, bl1, t, e, grade);
      PairFacts(ml, elems, leaves, heap, max, dl1, bl1, t, e);
      LeafByCode(elems, leaves, heap, max, maxCode, h);
      var n := heap[h];
      var bits := dl[dl[n]] + 1;
      if bits > ml {
        bits := ml;
        overflow := overflow + 1;
      }
      OnlyNodesStep(elems, leaves, heap, max, dl0, dl, h, bits);
      dl := dl[n := bits];
      if n <= maxCode {
        bl := bl[bits := bl[bits] + 1];
      }
      h := h + 1;
      if h == |heap| - 2 * t + 2 {
        assert GradedAt(elems, heap, grade, t - 1);
        PairDone(ml, elems, leaves, heap, max, dl1, bl1, t, e, bits, bl, grade);
        e := if dl1[elems + t - 1] == ml then e + 1 else e;
        t := t - 1;
        dl1 := dl;
        bl1 := bl;
      }
    }
    PassingFacts(ml, elems, leaves, heap, max, dl, bl, t, e, grade);
  }

  lemma DeepStart(elems: nat, heap: seq<nat>, dl: seq<nat>, t: nat)
    ensures Deep(elems, heap, dl, t, t)
  {
  }

  lemma TreeSize(ml: nat, elems: nat, leaves: set<nat>, heap: seq<nat>, max: nat, dl: seq<nat>, bl: seq<nat>, t: nat, e: nat)
    requires Pass(ml, elems, leaves, heap, max, dl, bl, t, e)
    ensures t <= |leaves| - 1
  {
  }

  /** Only nodes of the tree have changed their Dad or Len field. */
  ghost predicate OnlyNodes(elems: nat, leaves: set<nat>, dl0: seq<nat>, dl: seq<nat>) {
    |dl| == |dl0| && forall n {:trigger dl[n]} :: 0 <= n < elems && n < |dl| && n !in leaves ==> dl[n] == dl0[n]
  }

  lemma OnlyNodesStep(elems: nat, leaves: set<nat>, heap: seq<nat>, max: nat, dl0: seq<nat>, dl: seq<nat>, h: nat, b: nat)
    requires OnlyNodes(elems, leaves, dl0, dl) && |leaves| >= 1 && max <= h < |heap| && heap[h] < |dl|
    requires multiset(heap[max..]) == multiset(Nodes(elems, leaves, |leaves| - 1))
    ensures OnlyNodes(elems, leaves, dl0, dl[heap[h] := b])
  {
    NodeAt(elems, leaves, heap, max, h);
  }

  lemma NodeAt(elems: nat, leaves: set<nat>, heap: seq<nat>, max: nat, h: nat)
    requires |leaves| >= 1 && max <= h < |heap|
    requires multiset(heap[max..]) == multiset(Nodes(elems, leaves, |leaves| - 1))
    ensures heap[h] in Nodes(elems, leaves, |leaves| - 1)
    ensures heap[h] in leaves || elems <= heap[h] < elems + |leaves| - 1
  {
    assert heap[max..][h - max] == heap[h];
    assert heap[h] in multiset(heap[max..]);
    assert heap[h] in multiset(Nodes(elems, leaves, |leaves| - 1));
  }

  lemma LeafByCode(elems: nat, leaves: set<nat>, heap: seq<nat>, max: nat, maxCode: nat, h: nat)
    requires |leaves| >= 1 && max <= h < |heap|
    requires multiset(heap[max..]) == multiset(Nodes(elems, leaves, |leaves| - 1))
    requires maxCode < elems && forall n {:trigger n in leaves} :: n in leaves ==> n <= maxCode
    ensures heap[h] <= maxCode <==> heap[h] < elems
  {
    NodeAt(elems, leaves, heap, max, h);
  }

  lemma CompleteBounds(elems: nat, leaves: set<nat>, heap: seq<nat>, max: nat, dl: seq<nat>)
    requires Complete(elems, leaves, heap, max, dl)
    ensures |leaves| >= 2 && max == |heap| + 1 - 2 * |leaves| && 1 <= max && heap[max] == elems + |leaves| - 2
    ensures multiset(heap[max..]) == multiset(Nodes(elems, leaves, |leaves| - 1))
  {
  }
}
