/** Why merging the two least nodes is best: no other lengths of codes that fit the code
    space give a smaller total. */
module HuffmanOptimal {
  import opened Bits

  // ---------- sums over a set of nodes ----------

  function Times(a: nat, b: nat): nat {
    a * b
  }

  /** The total of the lengths r of the nodes of s below k, weighted by w. */
  ghost function Cost(s: set<nat>, w: nat -> nat, r: nat -> nat, k: nat): nat {
    if k == 0 then 0 else Cost(s, w, r, k - 1) + if k - 1 in s then Times(w(k - 1), r(k - 1)) else 0
  }

  /** The code space a code of l bits takes, in units of codes of d bits. */
  function Unit(d: nat, l: nat): nat {
    if l <= d then Pow2(d - l) else 0
  }

  /** The code space that codes of the lengths r take. */
  ghost function Space(s: set<nat>, r: nat -> nat, d: nat, k: nat): nat {
    if k == 0 then 0 else Space(s, r, d, k - 1) + if k - 1 in s then Unit(d, r(k - 1)) else 0
  }

  /** Lengths of at most d bits that fit the code space. */
  ghost predicate Fits(s: set<nat>, r: nat -> nat, d: nat, k: nat) {
    (forall x {:trigger x in s} :: x in s ==> x < k && r(x) <= d) && Space(s, r, d, k) <= Pow2(d)
  }

  /** Without the node n. */
  lemma {:induction false} Take(s: set<nat>, w: nat -> nat, r: nat -> nat, d: nat, n: nat, k: nat)
    ensures Cost(s, w, r, k) == Cost(s - {n}, w, r, k) + if n in s && n < k then Times(w(n), r(n)) else 0
    ensures Space(s, r, d, k) == Space(s - {n}, r, d, k) + if n in s && n < k then Unit(d, r(n)) else 0
  {
    hide Times, Unit;
    if k > 0 {
      Take(s, w, r, d, n, k - 1);
    }
  }

  lemma {:induction false} Same(s: set<nat>, w: nat -> nat, r: nat -> nat, r': nat -> nat, d: nat, k: nat)
    requires forall x {:trigger x in s} :: x in s && x < k ==> r(x) == r'(x)
    ensures Cost(s, w, r, k) == Cost(s, w, r', k) && Space(s, r, d, k) == Space(s, r', d, k)
  {
    hide Times, Unit;
    if k > 0 {
      Same(s, w, r, r', d, k - 1);
    }
  }

  ghost function With(r: nat -> nat, n: nat, v: nat): nat -> nat {
    x => if x == n then v else r(x)
  }

  /** Giving n another length changes only its own part. */
  lemma Changed(s: set<nat>, w: nat -> nat, r: nat -> nat, d: nat, n: nat, v: nat, k: nat)
    requires n in s && n < k
    ensures Cost(s, w, With(r, n, v), k) + Times(w(n), r(n)) == Cost(s, w, r, k) + Times(w(n), v)
    ensures Space(s, With(r, n, v), d, k) + Unit(d, r(n)) == Space(s, r, d, k) + Unit(d, v)
  {
    hide Cost, Space, Times, Unit;
    var q := With(r, n, v);
    Take(s, w, r, d, n, k);
    Take(s, w, q, d, n, k);
    Same(s - {n}, w, r, q, d, k);
  }

  // ---------- exchanging lengths ----------

  lemma Exchange(a: nat, b: nat, p: nat, q: nat)
    requires a <= b && p <= q
    ensures Times(a, q) + Times(b, p) <= Times(a, p) + Times(b, q)
  {
    assert (b - a) * (q - p) >= 0;
  }

  /** A lighter node can have the longer of two lengths. */
  lemma Swapped(s: set<nat>, w: nat -> nat, r: nat -> nat, d: nat, n: nat, x: nat, k: nat) returns (r': nat -> nat)
    requires n in s && x in s && n < k && x < k && w(n) <= w(x) && r(n) <= r(x)
    ensures r'(n) == r(x) && r'(x) == r(n) && forall y {:trigger r'(y)} :: y != n && y != x ==> r'(y) == r(y)
    ensures Cost(s, w, r', k) <= Cost(s, w, r, k) && Space(s, r', d, k) == Space(s, r, d, k)
  {
    hide Cost, Space, Times, Unit;
    var q := With(r, n, r(x));
    r' := With(q, x, r(n));
    Changed(s, w, r, d, n, r(x), k);
    Changed(s, w, q, d, x, r(n), k);
    Exchange(w(n), w(x), r(n), r(x));
  }

  lemma {:induction false} Deepest(s: set<nat>, r: nat -> nat, k: nat) returns (x: nat)
    requires exists y :: y in s && y < k
    ensures x in s && x < k && forall y {:trigger y in s} :: y in s && y < k ==> r(y) <= r(x)
  {
    if exists y :: y in s && y < k - 1 {
      x := Deepest(s, r, k - 1);
      if k - 1 in s && r(k - 1) > r(x) {
        x := k - 1;
      }
    } else {
      x := k - 1;
    }
  }

  /** The lightest node can have the longest code. */
  lemma LightestDeepest(s: set<nat>, w: nat -> nat, r: nat -> nat, d: nat, n: nat, k: nat) returns (r': nat -> nat, x: nat)
    requires Fits(s, r, d, k) && n in s && forall x {:trigger x in s} :: x in s ==> w(n) <= w(x)
    ensures Fits(s, r', d, k) && Cost(s, w, r', k) <= Cost(s, w, r, k) && Space(s, r', d, k) == Space(s, r, d, k)
    ensures x in s && r'(n) == r(x) && forall y {:trigger y in s} :: y in s ==> r'(y) <= r'(n)
    ensures forall y {:trigger r'(y)} :: y !in s ==> r'(y) == r(y)
  {
    hide Cost, Space, Pow2;
    x := Deepest(s, r, k);
    r' := Swapped(s, w, r, d, n, x, k);
  }

  /** Codes of at most l bits take whole units of codes of l bits. */
  lemma {:induction false} WholeUnits(s: set<nat>, r: nat -> nat, d: nat, l: nat, k: nat) returns (q: nat)
    requires l <= d && forall x {:trigger x in s} :: x in s ==> r(x) <= l
    ensures Space(s, r, d, k) == Shl(q, d - l)
  {
    hide Pow2, Shl;
    if k == 0 {
      Shl0(d - l);
      q := 0;
    } else {
      var q0 := WholeUnits(s, r, d, l, k - 1);
      q := q0;
      if k - 1 in s {
        Pow2Shl(l - r(k - 1), d - l);
        ShlAdd(q0, Pow2(l - r(k - 1)), d - l);
        q := q0 + Pow2(l - r(k - 1));
      }
    }
  }

  /** Where whole units and some more fit, one more whole unit fits. */
  lemma OneMoreUnit(x: nat, q: nat, d: nat, l: nat, more: nat)
    requires l <= d && x == Shl(q, d - l) && more >= 1 && x + more <= Pow2(d)
    ensures x + Pow2(d - l) <= Pow2(d)
  {
    hide Pow2, Shl;
    Pow2Shl(l, d - l);
    ShlMonotone(q, Pow2(l), d - l);
    ShlAdd(q, 1, d - l);
    Pow2Shl(0, d - l);
    ShlMonotone(Pow2(l), q + 1, d - l);
  }

  /** A node that alone has the longest code can have one as short as the next. */
  lemma Shortened(s: set<nat>, w: nat -> nat, r: nat -> nat, d: nat, n: nat, l: nat, k: nat)
    requires Fits(s, r, d, k) && n in s && l <= r(n) && forall x {:trigger x in s} :: x in s && x != n ==> r(x) <= l
    ensures Fits(s, With(r, n, l), d, k) && Cost(s, w, With(r, n, l), k) <= Cost(s, w, r, k)
  {
    hide Cost, Space, Pow2, Shl, Times;
    var q := WholeUnits(s - {n}, r, d, l, k);
    Take(s, w, r, d, n, k);
    Changed(s, w, r, d, n, l, k);
    PositivePower(d - r(n));
    OneMoreUnit(Space(s - {n}, r, d, k), q, d, l, Pow2(d - r(n)));
    Exchange(0, w(n), l, r(n));
    NoWeight(l);
    NoWeight(r(n));
  }

  lemma PositivePower(n: nat)
    ensures Pow2(n) >= 1
  {
  }

  lemma NoWeight(l: nat)
    ensures Times(0, l) == 0
  {
  }

  // ---------- one merge ----------

  /** The nodes n and m are merged into p. */
  datatype Merge = Merge(n: nat, m: nat, p: nat)

  function After(s: set<nat>, g: Merge): set<nat> {
    s - {g.n} - {g.m} + {g.p}
  }

  /** They are the two lightest nodes of s, and the weight of p is theirs. */
  ghost predicate Lightest(s: set<nat>, w: nat -> nat, g: Merge) {
    && g.n in s && g.m in s && g.n != g.m && g.p !in s && w(g.p) == w(g.n) + w(g.m)
    && (forall x {:trigger x in s} :: x in s ==> w(g.n) <= w(x))
    && (forall x {:trigger x in s} :: x in s && x != g.n ==> w(g.m) <= w(x))
  }

  /** Other lengths for all but n that take the same space. */
  lemma FitsWith(s: set<nat>, w: nat -> nat, r: nat -> nat, r': nat -> nat, d: nat, n: nat, k: nat)
    requires Fits(s, r, d, k) && n in s && r'(n) == r(n) && Fits(s - {n}, r', d, k)
    requires Space(s - {n}, r', d, k) == Space(s - {n}, r, d, k) && Cost(s - {n}, w, r', k) <= Cost(s - {n}, w, r, k)
    ensures Fits(s, r', d, k) && Cost(s, w, r', k) <= Cost(s, w, r, k)
  {
    hide Cost, Space, Pow2, Times, Unit;
    Take(s, w, r, d, n, k);
    Take(s, w, r', d, n, k);
    forall x | x in s ensures x < k && r'(x) <= d {
      assert x == n || x in s - {n};
    }
  }

  lemma FitsWithout(s: set<nat>, w: nat -> nat, r: nat -> nat, d: nat, n: nat, k: nat)
    requires Fits(s, r, d, k)
    ensures Fits(s - {n}, r, d, k)
  {
    hide Cost, Space, Pow2, Times, Unit;
    Take(s, w, r, d, n, k);
  }

  /** Both lightest nodes can have codes of the same length, the longest there is. */
  lemma TwinsDeepest(s: set<nat>, w: nat -> nat, r: nat -> nat, d: nat, g: Merge, k: nat) returns (r': nat -> nat)
    requires Lightest(s, w, g) && Fits(s, r, d, k)
    ensures Fits(s, r', d, k) && Cost(s, w, r', k) <= Cost(s, w, r, k) && r'(g.n) == r'(g.m)
  {
    hide Cost, Space, Pow2, Times, Unit, Fits;
    var r1, x1 := LightestDeepest(s, w, r, d, g.n, k);
    var s1 := s - {g.n};
    FitsWithout(s, w, r1, d, g.n, k);
    assert g.m in s1;
    var r2, x2 := LightestDeepest(s1, w, r1, d, g.m, k);
    assert x2 in s && r2(g.n) == r1(g.n);
    FitsWith(s, w, r1, r2, d, g.n, k);
    forall x | x in s && x != g.n ensures r2(x) <= r2(g.m) {
      assert x in s1;
    }
    Shortened(s, w, r2, d, g.n, r2(g.m), k);
    r' := With(r2, g.n, r2(g.m));
  }

  /** The length of the father in place of those of its two sons. */
  lemma MergeBound(s: set<nat>, w: nat -> nat, r: nat -> nat, d: nat, g: Merge, k: nat) returns (r': nat -> nat)
    requires Lightest(s, w, g) && Fits(s, r, d, k) && g.p < k
    ensures Fits(After(s, g), r', d, k) && Cost(After(s, g), w, r', k) + w(g.p) <= Cost(s, w, r, k)
  {
    hide Cost, Space, Pow2, Times;
    var q := TwinsDeepest(s, w, r, d, g, k);
    var l := q(g.n);
    Sons(s, w, q, d, g, k);
    r' := With(q, g.p, if l == 0 then 0 else l - 1);
    Take(After(s, g), w, r', d, g.p, k);
    assert After(s, g) - {g.p} == s - {g.n} - {g.m};
    Same(s - {g.n} - {g.m}, w, q, r', d, k);
    PositivePower(d);
    if l > 0 {
      Doubled(d - l);
      OneLess(w(g.n), w(g.m), l);
    }
  }

  /** The parts of the two sons. */
  lemma Sons(s: set<nat>, w: nat -> nat, r: nat -> nat, d: nat, g: Merge, k: nat)
    requires Lightest(s, w, g) && g.n < k && g.m < k
    ensures var s2 := s - {g.n} - {g.m};
            && Cost(s, w, r, k) == Cost(s2, w, r, k) + Times(w(g.n), r(g.n)) + Times(w(g.m), r(g.m))
            && Space(s, r, d, k) == Space(s2, r, d, k) + Unit(d, r(g.n)) + Unit(d, r(g.m))
  {
    hide Cost, Space, Times, Unit;
    Take(s, w, r, d, g.n, k);
    Take(s - {g.n}, w, r, d, g.m, k);
  }

  lemma Doubled(n: nat)
    ensures Pow2(n + 1) == 2 * Pow2(n)
  {
  }

  lemma OneLess(a: nat, b: nat, l: nat)
    requires l >= 1
    ensures Times(a + b, l - 1) + a + b == Times(a, l) + Times(b, l)
  {
  }

  // ---------- all merges ----------

  /** From the nodes s, the merges, always of the two lightest nodes, lead to the nodes t. */
  ghost predicate Greedy(s: set<nat>, w: nat -> nat, gs: seq<Merge>, t: set<nat>)
    decreases |gs|
  {
    if gs == [] then s == t else Lightest(s, w, gs[0]) && Greedy(After(s, gs[0]), w, gs[1..], t)
  }

  lemma {:induction false} GreedyMore(s: set<nat>, w: nat -> nat, gs: seq<Merge>, t: set<nat>, g: Merge)
    requires Greedy(s, w, gs, t) && Lightest(t, w, g)
    ensures Greedy(s, w, gs + [g], After(t, g))
    decreases |gs|
  {
    hide Lightest, After;
    if gs == [] {
      assert [g][1..] == [];
      assert Greedy(After(t, g), w, [], After(t, g));
    } else {
      assert (gs + [g])[1..] == gs[1..] + [g];
      GreedyMore(After(s, gs[0]), w, gs[1..], t, g);
    }
  }

  /** The weights of nodes from k on do not matter. */
  lemma {:induction false} GreedySame(s: set<nat>, w: nat -> nat, w': nat -> nat, gs: seq<Merge>, t: set<nat>, k: nat)
    requires Greedy(s, w, gs, t) && Below(gs, k) && forall x {:trigger x in s} :: x in s ==> x < k
    requires forall x: nat {:trigger w(x)} :: x < k ==> w(x) == w'(x)
    ensures Greedy(s, w', gs, t) && forall x {:trigger x in t} :: x in t ==> x < k
    decreases |gs|
  {
    if gs != [] {
      assert gs[0].p < k;
      GreedySame(After(s, gs[0]), w, w', gs[1..], t, k);
    }
  }

  ghost function Ones(): nat -> nat {
    x => 1
  }

  /** The weight of all nodes stays the same. */
  lemma SameMass(s: set<nat>, w: nat -> nat, g: Merge, k: nat)
    requires Lightest(s, w, g) && g.p < k && forall x {:trigger x in s} :: x in s ==> x < k
    ensures Cost(After(s, g), w, Ones(), k) == Cost(s, w, Ones(), k)
  {
    hide Cost, Space, Unit;
    Sons(s, w, Ones(), 0, g, k);
    Take(After(s, g), w, Ones(), 0, g.p, k);
    assert After(s, g) - {g.p} == s - {g.n} - {g.m};
  }

  /** The two sons weigh no more than all. */
  lemma PartOfMass(s: set<nat>, w: nat -> nat, n: nat, m: nat, k: nat)
    requires n in s && m in s && n != m && n < k && m < k
    ensures w(n) + w(m) <= Cost(s, w, Ones(), k)
  {
    hide Cost, Space, Unit;
    Take(s, w, Ones(), 0, n, k);
    Take(s - {n}, w, Ones(), 0, m, k);
  }

  lemma {:induction false} SameWeights(s: set<nat>, w: nat -> nat, w': nat -> nat, r: nat -> nat, k: nat)
    requires forall x {:trigger x in s} :: x in s && x < k ==> w(x) == w'(x)
    ensures Cost(s, w, r, k) == Cost(s, w', r, k)
  {
    if k > 0 {
      SameWeights(s, w, w', r, k - 1);
    }
  }

  /** The weights of all fathers. */
  ghost function Fathers(w: nat -> nat, gs: seq<Merge>): nat
    decreases |gs|
  {
    if gs == [] then 0 else w(gs[0].p) + Fathers(w, gs[1..])
  }

  ghost predicate Below(gs: seq<Merge>, k: nat) {
    forall i {:trigger gs[i]} :: 0 <= i < |gs| ==> gs[i].p < k
  }

  /** No lengths that fit give a total below the weights of the fathers. */
  lemma {:induction false} LowerBound(s: set<nat>, w: nat -> nat, gs: seq<Merge>, t: set<nat>, r: nat -> nat, d: nat, k: nat)
    requires Greedy(s, w, gs, t) && Fits(s, r, d, k) && Below(gs, k)
    ensures Cost(s, w, r, k) >= Fathers(w, gs)
    decreases |gs|
  {
    hide Lightest, Fits, Cost;
    if gs != [] {
      var r' := MergeBound(s, w, r, d, gs[0], k);
      LowerBound(After(s, gs[0]), w, gs[1..], t, r', d, k);
    }
  }

  /** In the tree, the sons of every father are one bit longer. */
  ghost predicate Depths(r: nat -> nat, gs: seq<Merge>) {
    forall i {:trigger gs[i]} :: 0 <= i < |gs| ==> r(gs[i].n) == r(gs[i].p) + 1 && r(gs[i].m) == r(gs[i].p) + 1
  }

  /** One father of the tree. */
  lemma FatherTotal(s: set<nat>, w: nat -> nat, g: Merge, r: nat -> nat, k: nat)
    requires Lightest(s, w, g) && g.p < k && (forall x {:trigger x in s} :: x in s ==> x < k)
    requires r(g.n) == r(g.p) + 1 && r(g.m) == r(g.p) + 1
    ensures Cost(s, w, r, k) == Cost(After(s, g), w, r, k) + w(g.p)
  {
    hide Cost, Space, Times, Unit;
    Sons(s, w, r, 0, g, k);
    Take(After(s, g), w, r, 0, g.p, k);
    assert After(s, g) - {g.p} == s - {g.n} - {g.m};
    OneLess(w(g.n), w(g.m), r(g.p) + 1);
  }

  /** The total of the tree is the sum of the weights of the fathers. */
  lemma {:induction false} TreeTotal(s: set<nat>, w: nat -> nat, gs: seq<Merge>, t: set<nat>, r: nat -> nat, k: nat)
    requires Greedy(s, w, gs, t) && Depths(r, gs) && Below(gs, k) && forall x {:trigger x in s} :: x in s ==> x < k
    requires forall x {:trigger x in t} :: x in t ==> r(x) == 0
    ensures Cost(s, w, r, k) == Fathers(w, gs)
    decreases |gs|
  {
    hide Cost, Depths, Below, Lightest;
    if gs == [] {
      NoLengths(s, w, r, k);
    } else {
      FirstMerge(r, gs, k);
      FatherTotal(s, w, gs[0], r, k);
      TreeTotal(After(s, gs[0]), w, gs[1..], t, r, k);
    }
  }

  lemma FirstMerge(r: nat -> nat, gs: seq<Merge>, k: nat)
    requires Depths(r, gs) && Below(gs, k) && gs != []
    ensures gs[0].p < k && r(gs[0].n) == r(gs[0].p) + 1 && r(gs[0].m) == r(gs[0].p) + 1
    ensures Depths(r, gs[1..]) && Below(gs[1..], k)
  {
  }

  lemma {:induction false} NoLengths(s: set<nat>, w: nat -> nat, r: nat -> nat, k: nat)
    requires forall x {:trigger x in s} :: x in s ==> r(x) == 0
    ensures Cost(s, w, r, k) == 0
  {
    if k > 0 {
      NoLengths(s, w, r, k - 1);
    }
  }

  /** So the lengths of the tree are the best there are. */
  lemma Optimal(s: set<nat>, w: nat -> nat, gs: seq<Merge>, root: nat, r: nat -> nat, r': nat -> nat, d: nat, k: nat)
    requires Greedy(s, w, gs, {root}) && Depths(r, gs) && r(root) == 0 && Below(gs, k) && Fits(s, r', d, k)
    ensures Cost(s, w, r, k) <= Cost(s, w, r', k)
  {
    hide Greedy, Depths, Cost, Space, Pow2;
    TreeTotal(s, w, gs, {root}, r, k);
    LowerBound(s, w, gs, {root}, r', d, k);
  }

  // ---------- the order of the merges ----------

  /** Nodes are merged in the order of their weights. */
  lemma {:induction false} MergedInOrder(s: set<nat>, w: nat -> nat, gs: seq<Merge>, t: set<nat>, i: nat)
    requires Greedy(s, w, gs, t) && i < |gs|
    ensures w(gs[i].n) <= w(gs[i].m) && (i + 1 < |gs| ==> w(gs[i].m) <= w(gs[i + 1].n))
    decreases |gs|
  {
    if i > 0 {
      MergedInOrder(After(s, gs[0]), w, gs[1..], t, i - 1);
    } else if |gs| > 1 {
      assert Lightest(After(s, gs[0]), w, gs[1..][0]);
    }
  }

  // ---------- the best assignment of given lengths ----------

  /** The lengths of the nodes of s below k. */
  ghost function LensOf(s: set<nat>, r: nat -> nat, k: nat): multiset<nat> {
    if k == 0 then multiset{} else LensOf(s, r, k - 1) + if k - 1 in s then multiset{r(k - 1)} else multiset{}
  }

  lemma {:induction false} LensTake(s: set<nat>, r: nat -> nat, n: nat, k: nat)
    ensures LensOf(s, r, k) == LensOf(s - {n}, r, k) + if n in s && n < k then multiset{r(n)} else multiset{}
  {
    if k > 0 {
      LensTake(s, r, n, k - 1);
    }
  }

  lemma {:induction false} LensSame(s: set<nat>, r: nat -> nat, r': nat -> nat, k: nat)
    requires forall x {:trigger x in s} :: x in s && x < k ==> r(x) == r'(x)
    ensures LensOf(s, r, k) == LensOf(s, r', k)
  {
    if k > 0 {
      LensSame(s, r, r', k - 1);
    }
  }

  lemma {:induction false} LensIn(s: set<nat>, r: nat -> nat, k: nat, l: nat)
    ensures l in LensOf(s, r, k) <==> exists x :: x in s && x < k && r(x) == l
  {
    if k > 0 {
      LensIn(s, r, k - 1, l);
    }
  }

  /** Exchanging two lengths keeps the lengths. */
  lemma LensSwapped(s: set<nat>, r: nat -> nat, r': nat -> nat, n: nat, x: nat, k: nat)
    requires n in s && x in s && n < k && x < k && r'(n) == r(x) && r'(x) == r(n)
    requires forall y {:trigger r'(y)} :: y != n && y != x ==> r'(y) == r(y)
    ensures LensOf(s, r', k) == LensOf(s, r, k)
  {
    hide LensOf;
    if n == x {
      LensSame(s, r', r, k);
    } else {
      LensTake(s, r, n, k);
      LensTake(s - {n}, r, x, k);
      LensTake(s, r', n, k);
      LensTake(s - {n}, r', x, k);
      LensSame(s - {n} - {x}, r', r, k);
    }
  }

  /** A lightest node, and of those one with the longest code. */
  lemma {:induction false} LightestLongest(s: set<nat>, w: nat -> nat, r: nat -> nat, k: nat) returns (n: nat)
    requires exists y :: y in s && y < k
    ensures n in s && n < k
    ensures forall x {:trigger x in s} :: x in s && x < k ==> w(n) < w(x) || (w(n) == w(x) && r(x) <= r(n))
  {
    if exists y :: y in s && y < k - 1 {
      n := LightestLongest(s, w, r, k - 1);
      if k - 1 in s && (w(k - 1) < w(n) || (w(k - 1) == w(n) && r(k - 1) > r(n))) {
        n := k - 1;
      }
    } else {
      n := k - 1;
    }
  }

  /** Lighter nodes have codes that are not shorter. */
  ghost predicate LighterLonger(s: set<nat>, w: nat -> nat, r: nat -> nat) {
    forall x, y {:trigger x in s, y in s} :: x in s && y in s && w(x) < w(y) ==> r(x) >= r(y)
  }

  /** The longest of the same lengths is the same. */
  lemma SameLongest(s: set<nat>, r: nat -> nat, r': nat -> nat, n: nat, x: nat, k: nat)
    requires LensOf(s, r, k) == LensOf(s, r', k) && n in s && n < k && x in s && x < k
    requires forall y {:trigger y in s} :: y in s && y < k ==> r(y) <= r(n) && r'(y) <= r'(x)
    ensures r(n) == r'(x)
  {
    hide LensOf;
    LensIn(s, r, k, r(n));
    LensIn(s, r', k, r(n));
    LensIn(s, r, k, r'(x));
    LensIn(s, r', k, r'(x));
  }

  /** So no other way to give out the same lengths has a smaller total. */
  lemma {:induction false} BestAssignment(s: set<nat>, w: nat -> nat, r: nat -> nat, r': nat -> nat, k: nat)
    requires LighterLonger(s, w, r) && LensOf(s, r, k) == LensOf(s, r', k) && forall x {:trigger x in s} :: x in s ==> x < k
    ensures Cost(s, w, r, k) <= Cost(s, w, r', k)
    decreases |s|
  {
    hide Cost, Space, LensOf, Times;
    if s == {} {
      NoLengths(s, w, r, k);
      NoLengths(s, w, r', k);
    } else {
      var y :| y in s;
      var n := LightestLongest(s, w, r, k);
      var x := Deepest(s, r', k);
      assert forall z {:trigger z in s} :: z in s ==> r(z) <= r(n);
      SameLongest(s, r, r', n, x, k);
      var q := Swapped(s, w, r', 0, n, x, k);
      LensSwapped(s, r', q, n, x, k);
      LensTake(s, r, n, k);
      LensTake(s, q, n, k);
      Take(s, w, r, 0, n, k);
      Take(s, w, q, 0, n, k);
      SameRest(LensOf(s - {n}, r, k), LensOf(s - {n}, q, k), r(n));
      StillLonger(s, w, r, n);
      BestAssignment(s - {n}, w, r, q, k);
    }
  }

  lemma SameRest(a: multiset<nat>, b: multiset<nat>, l: nat)
    requires a + multiset{l} == b + multiset{l}
    ensures a == b
  {
    forall x: nat ensures a[x] == b[x] {
      assert (a + multiset{l})[x] == (b + multiset{l})[x];
    }
  }

  lemma StillLonger(s: set<nat>, w: nat -> nat, r: nat -> nat, n: nat)
    requires LighterLonger(s, w, r)
    ensures LighterLonger(s - {n}, w, r)
  {
    forall x, y | x in s - {n} && y in s - {n} && w(x) < w(y) ensures r(x) >= r(y) {
      assert x in s && y in s;
    }
  }

  lemma StrictExchange(a: nat, b: nat, p: nat, q: nat)
    requires a < b && p < q
    ensures Times(a, q) + Times(b, p) < Times(a, p) + Times(b, q)
  {
    assert (b - a) * (q - p) > 0;
  }

  /** In the tree lighter nodes have codes that are not shorter: else exchanging two lengths would be better. */
  lemma TreeLighterLonger(s: set<nat>, w: nat -> nat, gs: seq<Merge>, root: nat, r: nat -> nat, d: nat, k: nat)
    requires Greedy(s, w, gs, {root}) && Depths(r, gs) && r(root) == 0 && Below(gs, k) && Fits(s, r, d, k)
    ensures LighterLonger(s, w, r)
  {
    hide Greedy, Depths, Cost, Space, Pow2, Times, Unit, Below;
    forall x, y | x in s && y in s && w(x) < w(y) ensures r(x) >= r(y) {
      if r(x) < r(y) {
        var q := With(r, x, r(y));
        var r' := With(q, y, r(x));
        Changed(s, w, r, d, x, r(y), k);
        Changed(s, w, q, d, y, r(x), k);
        Optimal(s, w, gs, root, r, r', d, k);
        StrictExchange(w(x), w(y), r(x), r(y));
      }
    }
  }

  // ---------- the lowest of the best trees ----------

  function Larger(a: nat, b: nat): nat {
    if a >= b then a else b
  }

  /** Of nodes of the same weight the lowest are merged first; h is how high nodes are. */
  ghost predicate Lowest(s: set<nat>, w: nat -> nat, h: nat -> nat, g: Merge) {
    && Lightest(s, w, g) && h(g.p) == Larger(h(g.n), h(g.m)) + 1
    && (forall x {:trigger x in s} :: x in s && w(x) == w(g.n) ==> h(g.n) <= h(x))
    && (forall x {:trigger x in s} :: x in s && x != g.n && w(x) == w(g.m) ==> h(g.m) <= h(x))
  }

  ghost predicate GreedyLow(s: set<nat>, w: nat -> nat, h: nat -> nat, gs: seq<Merge>, t: set<nat>)
    decreases |gs|
  {
    if gs == [] then s == t else Lowest(s, w, h, gs[0]) && GreedyLow(After(s, gs[0]), w, h, gs[1..], t)
  }

  lemma {:induction false} LowIsGreedy(s: set<nat>, w: nat -> nat, h: nat -> nat, gs: seq<Merge>, t: set<nat>)
    requires GreedyLow(s, w, h, gs, t)
    ensures Greedy(s, w, gs, t)
    decreases |gs|
  {
    if gs != [] {
      LowIsGreedy(After(s, gs[0]), w, h, gs[1..], t);
    }
  }

  lemma {:induction false} GreedyLowMore(s: set<nat>, w: nat -> nat, h: nat -> nat, gs: seq<Merge>, t: set<nat>, g: Merge)
    requires GreedyLow(s, w, h, gs, t) && Lowest(t, w, h, g)
    ensures GreedyLow(s, w, h, gs + [g], After(t, g))
    decreases |gs|
  {
    hide Lowest, After;
    if gs == [] {
      assert [g][1..] == [];
      assert GreedyLow(After(t, g), w, h, [], After(t, g));
    } else {
      assert (gs + [g])[1..] == gs[1..] + [g];
      GreedyLowMore(After(s, gs[0]), w, h, gs[1..], t, g);
    }
  }

  /** Weights and heights of nodes from k on do not matter. */
  lemma {:induction false} GreedyLowSame(s: set<nat>, w: nat -> nat, w': nat -> nat, h: nat -> nat, h': nat -> nat, gs: seq<Merge>, t: set<nat>, k: nat)
    requires GreedyLow(s, w, h, gs, t) && Below(gs, k) && forall x {:trigger x in s} :: x in s ==> x < k
    requires forall x: nat {:trigger w(x)} {:trigger h(x)} :: x < k ==> w(x) == w'(x) && h(x) == h'(x)
    ensures GreedyLow(s, w', h', gs, t) && forall x {:trigger x in t} :: x in t ==> x < k
    decreases |gs|
  {
    if gs != [] {
      assert gs[0].p < k;
      GreedyLowSame(After(s, gs[0]), w, w', h, h', gs[1..], t, k);
    }
  }

  /** With the lengths r, no node reaches deeper than b. */
  ghost predicate Within(s: set<nat>, r: nat -> nat, h: nat -> nat, b: nat) {
    forall x {:trigger x in s} :: x in s ==> r(x) + h(x) <= b
  }

  /** Exchanging the length of the lightest node with a longer one keeps best lengths best, and
      reaches no deeper: the other node is as light, and not lower. */
  lemma SwappedLow(s: set<nat>, u: set<nat>, w: nat -> nat, h: nat -> nat, gs: seq<Merge>, t: set<nat>, r: nat -> nat, d: nat, n: nat, k: nat, b: nat)
    returns (r': nat -> nat, x: nat)
    requires Greedy(s, w, gs, t) && Below(gs, k) && Fits(s, r, d, k) && Cost(s, w, r, k) <= Fathers(w, gs) && Within(s, r, h, b)
    requires u <= s && n in u && (forall y {:trigger y in u} :: y in u ==> w(n) <= w(y) && (w(y) == w(n) ==> h(n) <= h(y)))
    ensures Fits(s, r', d, k) && Cost(s, w, r', k) <= Fathers(w, gs) && Within(s, r', h, b)
    ensures x in u && r'(n) == r(x) && forall y {:trigger y in u} :: y in u ==> r'(y) <= r'(n)
    ensures forall y {:trigger r'(y)} :: y !in u ==> r'(y) == r(y)
  {
    hide Cost, Space, Pow2, Times, Unit, Greedy, Below, Fathers;
    assert forall y {:trigger y in u} :: y in u ==> y in s;
    x := Deepest(u, r, k);
    r' := Swapped(s, w, r, d, n, x, k);
    if r(n) < r(x) && w(n) < w(x) {
      StrictSwap(s, w, r, r', d, n, x, k);
      LowerBound(s, w, gs, t, r', d, k);
    }
  }

  lemma StrictSwap(s: set<nat>, w: nat -> nat, r: nat -> nat, r': nat -> nat, d: nat, n: nat, x: nat, k: nat)
    requires n in s && x in s && n < k && x < k && w(n) < w(x) && r(n) < r(x) && r'(n) == r(x) && r'(x) == r(n)
    requires forall y {:trigger r'(y)} :: y != n && y != x ==> r'(y) == r(y)
    ensures Cost(s, w, r', k) < Cost(s, w, r, k)
  {
    hide Cost, Space, Times, Unit;
    Take(s, w, r, d, n, k);
    Take(s - {n}, w, r, d, x, k);
    Take(s, w, r', d, n, k);
    Take(s - {n}, w, r', d, x, k);
    Same(s - {n} - {x}, w, r, r', d, k);
    StrictExchange(w(n), w(x), r(n), r(x));
  }

  /** Both lowest nodes can have codes of the same length. */
  lemma TwinsLow(s: set<nat>, w: nat -> nat, h: nat -> nat, gs: seq<Merge>, t: set<nat>, r: nat -> nat, d: nat, k: nat, b: nat) returns (r': nat -> nat)
    requires gs != [] && Lowest(s, w, h, gs[0]) && Greedy(s, w, gs, t) && Below(gs, k)
    requires Fits(s, r, d, k) && Cost(s, w, r, k) <= Fathers(w, gs) && Within(s, r, h, b)
    ensures Fits(s, r', d, k) && Cost(s, w, r', k) <= Fathers(w, gs) && Within(s, r', h, b) && r'(gs[0].n) == r'(gs[0].m)
  {
    hide Cost, Space, Pow2, Times, Unit, Greedy, Below, Fathers, Fits;
    var g := gs[0];
    var r1, x1 := SwappedLow(s, s, w, h, gs, t, r, d, g.n, k, b);
    var s1 := s - {g.n};
    assert g.m in s1;
    assert forall y {:trigger y in s1} :: y in s1 ==> y in s && y != g.n;
    var r2, x2 := SwappedLow(s, s1, w, h, gs, t, r1, d, g.m, k, b);
    assert x2 in s && r2(g.n) == r1(g.n);
    forall x | x in s && x != g.n ensures r2(x) <= r2(g.m) {
      assert x in s1;
    }
    Shortened(s, w, r2, d, g.n, r2(g.m), k);
    r' := With(r2, g.n, r2(g.m));
  }

  /** A merge of the lowest nodes: best lengths stay best and reach no deeper. */
  lemma MergeLow(s: set<nat>, w: nat -> nat, h: nat -> nat, gs: seq<Merge>, t: set<nat>, r: nat -> nat, d: nat, k: nat, b: nat) returns (r': nat -> nat)
    requires gs != [] && Lowest(s, w, h, gs[0]) && Greedy(s, w, gs, t) && Below(gs, k)
    requires Fits(s, r, d, k) && Cost(s, w, r, k) <= Fathers(w, gs) && Within(s, r, h, b)
    ensures Fits(After(s, gs[0]), r', d, k) && Cost(After(s, gs[0]), w, r', k) <= Fathers(w, gs[1..]) && Within(After(s, gs[0]), r', h, b)
  {
    hide Cost, Space, Pow2, Times, Greedy;
    var g := gs[0];
    assert g.p < k;
    var q := TwinsLow(s, w, h, gs, t, r, d, k, b);
    var l := q(g.n);
    Sons(s, w, q, d, g, k);
    r' := With(q, g.p, if l == 0 then 0 else l - 1);
    Take(After(s, g), w, r', d, g.p, k);
    assert After(s, g) - {g.p} == s - {g.n} - {g.m};
    Same(s - {g.n} - {g.m}, w, q, r', d, k);
    PositivePower(d);
    if l > 0 {
      Doubled(d - l);
      OneLess(w(g.n), w(g.m), l);
    }
  }

  /** So no best lengths reach less deep than the tree is high. */
  lemma {:induction false} LowestTree(s: set<nat>, w: nat -> nat, h: nat -> nat, gs: seq<Merge>, root: nat, r: nat -> nat, d: nat, k: nat, b: nat)
    requires GreedyLow(s, w, h, gs, {root}) && Below(gs, k) && Fits(s, r, d, k) && Cost(s, w, r, k) <= Fathers(w, gs) && Within(s, r, h, b)
    ensures h(root) <= b
    decreases |gs|
  {
    hide Fits, Cost, Fathers, Lowest;
    if gs == [] {
      assert root in s;
    } else {
      LowIsGreedy(s, w, h, gs, {root});
      var r' := MergeLow(s, w, h, gs, {root}, r, d, k, b);
      FirstBelow(gs, k);
      LowestTree(After(s, gs[0]), w, h, gs[1..], root, r', d, k, b);
    }
  }

  lemma FirstBelow(gs: seq<Merge>, k: nat)
    requires Below(gs, k) && gs != []
    ensures Below(gs[1..], k)
  {
  }

  /** The tree reaches as deep as it is high. */
  lemma {:induction false} DepthWithinHeight(s: set<nat>, w: nat -> nat, h: nat -> nat, gs: seq<Merge>, root: nat, r: nat -> nat)
    requires GreedyLow(s, w, h, gs, {root}) && Depths(r, gs) && r(root) == 0
    ensures Within(s, r, h, h(root))
    decreases |gs|
  {
    if gs != [] {
      var g := gs[0];
      DepthWithinHeight(After(s, g), w, h, gs[1..], root, r);
      assert g.p in After(s, g);
      forall x | x in s ensures r(x) + h(x) <= h(root) {
        assert x == g.n || x == g.m || x in After(s, g);
      }
    }
  }

  // ---------- how high a tree can be ----------

  function Fib(n: nat): nat {
    if n == 0 then 1 else if n == 1 then 2 else Fib(n - 1) + Fib(n - 2)
  }

  lemma {:induction false} FibMonotone(m: nat, n: nat)
    requires m <= n
    ensures Fib(m) <= Fib(n)
    decreases n
  {
    if m < n {
      FibMonotone(m, n - 1);
    }
  }

  /** High nodes are heavy, and so are all nodes beside them. */
  ghost predicate Heavy(s: set<nat>, w: nat -> nat, h: nat -> nat) {
    && (forall x {:trigger x in s} :: x in s ==> w(x) >= Fib(h(x)))
    && (forall x, y {:trigger x in s, y in s} :: x in s && y in s && h(x) > 0 ==> w(y) >= Fib(h(x) - 1))
  }

  lemma HeavyLeaves(s: set<nat>, w: nat -> nat, h: nat -> nat)
    requires forall x {:trigger x in s} :: x in s ==> w(x) >= 1 && h(x) == 0
    ensures Heavy(s, w, h)
  {
  }

  lemma HeavyStep(s: set<nat>, w: nat -> nat, h: nat -> nat, g: Merge)
    requires Heavy(s, w, h) && Lightest(s, w, g) && h(g.p) == Larger(h(g.n), h(g.m)) + 1
    ensures Heavy(After(s, g), w, h)
  {
    hide Fib;
    var t, top := After(s, g), Larger(h(g.n), h(g.m));
    assert w(g.n) <= w(g.m);
    FatherHeavy(w(g.n), w(g.m), h(g.n), h(g.m), s, w, h, g);
    forall x, y | x in t && y in t && h(x) > 0 ensures w(y) >= Fib(h(x) - 1) {
      if x != g.p {
        assert x in s && g.n in s;
        if y != g.p {
          assert y in s;
        }
      } else if y != g.p {
        assert y in s && y != g.n;
      }
    }
  }

  lemma FatherHeavy(a: nat, b: nat, p: nat, q: nat, s: set<nat>, w: nat -> nat, h: nat -> nat, g: Merge)
    requires Heavy(s, w, h) && Lightest(s, w, g) && a == w(g.n) && b == w(g.m) && p == h(g.n) && q == h(g.m)
    ensures a + b >= Fib(Larger(p, q) + 1) && b >= Fib(Larger(p, q))
  {
    assert g.n in s && g.m in s;
    assert a >= Fib(p) && b >= Fib(q);
    FibMonotone(0, p);
    FibMonotone(0, q);
    if p >= q {
      if p > 0 {
        assert b >= Fib(p - 1);
      }
    } else {
      assert a >= Fib(q - 1);
    }
  }
}
