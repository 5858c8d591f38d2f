/** The state of the partition during refinement, as values, and the invariants
    that one split keeps. */
module Refinement {
  import opened PBlocks
  import opened DataGraph
  import opened NodeArray

  // ---------- block ranges ----------

  /** The blocks tile the array a: every block owns a non-empty range, the nodes in
      the range of a block name it, and the position of every node is in the
      range of its block. */
  ghost predicate Tiles(a: seq<nat>, lua: seq<nat>, blockOf: seq<int>, ba: seq<PBlock>) {
    && |a| == |lua| == |blockOf|
    && (forall b {:trigger ba[b]} :: 0 <= b < |ba| ==> 0 <= ba[b].start <= ba[b].end < |a|)
    && (forall b, i {:trigger ba[b], a[i]} :: 0 <= b < |ba| && ba[b].start <= i <= ba[b].end ==>
          a[i] < |blockOf| && blockOf[a[i]] == b)
    && (forall v {:trigger blockOf[v]} :: 0 <= v < |blockOf| ==>
          0 <= blockOf[v] < |ba| && ba[blockOf[v]].start <= lua[v] <= ba[blockOf[v]].end)
  }

  // ---------- incoming edges ----------

  function EdgeCount(ps: seq<Pred>, e: nat): nat {
    if ps == [] then 0 else EdgeCount(ps[1..], e) + if ps[0].edge == e then 1 else 0
  }

  /** How many edges labelled e lead into the nodes of s. */
  function InEdges(preds: seq<seq<Pred>>, s: seq<nat>, e: nat): nat {
    if s == [] then 0
    else InEdges(preds, s[1..], e) + if s[0] < |preds| then EdgeCount(preds[s[0]], e) else 0
  }

  lemma {:induction false} InEdgesConcat(preds: seq<seq<Pred>>, s: seq<nat>, t: seq<nat>, e: nat)
    ensures InEdges(preds, s + t, e) == InEdges(preds, s, e) + InEdges(preds, t, e)
  {
    if s == [] {
      assert s + t == t;
    } else {
      InEdgesConcat(preds, s[1..], t, e);
      assert (s + t)[1..] == s[1..] + t;
    }
  }

  lemma InEdgesOne(preds: seq<seq<Pred>>, v: nat, e: nat)
    requires v < |preds|
    ensures InEdges(preds, [v], e) == EdgeCount(preds[v], e)
  {
    assert InEdges(preds, [v][1..], e) == 0;
  }

  lemma InEdgesSwap(preds: seq<seq<Pred>>, s: seq<nat>, i: nat, j: nat, e: nat)
    requires i < |s| && j < |s|
    ensures InEdges(preds, s[i := s[j]][j := s[i]], e) == InEdges(preds, s, e)
  {
    if i > j {
      InEdgesSwap(preds, s, j, i, e);
      assert s[i := s[j]][j := s[i]] == s[j := s[i]][i := s[j]];
    } else if i < j {
      var p, m, q := s[..i], s[i + 1..j], s[j + 1..];
      assert s == p + ([s[i]] + (m + ([s[j]] + q)));
      assert s[i := s[j]][j := s[i]] == p + ([s[j]] + (m + ([s[i]] + q)));
      InEdgesFive(preds, p, s[i], m, s[j], q, e);
      InEdgesFive(preds, p, s[j], m, s[i], q, e);
    } else {
      assert s[i := s[j]][j := s[i]] == s;
    }
  }

  lemma InEdgesFive(preds: seq<seq<Pred>>, p: seq<nat>, x: nat, m: seq<nat>, y: nat, q: seq<nat>, e: nat)
    ensures InEdges(preds, p + ([x] + (m + ([y] + q))), e) ==
            InEdges(preds, p, e) + InEdges(preds, [x], e) + InEdges(preds, m, e)
            + InEdges(preds, [y], e) + InEdges(preds, q, e)
  {
    InEdgesConcat(preds, p, [x] + (m + ([y] + q)), e);
    InEdgesConcat(preds, [x], m + ([y] + q), e);
    InEdgesConcat(preds, m, [y] + q, e);
    InEdgesConcat(preds, [y], q, e);
  }

  lemma {:induction false} EdgeCountPositive(ps: seq<Pred>, x: Pred)
    requires x in ps
    ensures EdgeCount(ps, x.edge) > 0
  {
    if ps[0] != x {
      EdgeCountPositive(ps[1..], x);
    }
  }

  lemma {:induction false} InEdgesPositive(preds: seq<seq<Pred>>, s: seq<nat>, v: nat, x: Pred)
    requires v in s && v < |preds| && x in preds[v]
    ensures InEdges(preds, s, x.edge) > 0
  {
    if s[0] == v {
      EdgeCountPositive(preds[v], x);
    } else {
      InEdgesPositive(preds, s[1..], v, x);
    }
  }

  /** The counters of a block over the nodes s are exact. */
  ghost predicate Counts(preds: seq<seq<Pred>>, s: seq<nat>, p: PBlock) {
    && p.CountOK()
    && forall e: nat :: p.GetIncoming(e) == InEdges(preds, s, e)
  }

  ghost predicate Counted(preds: seq<seq<Pred>>, a: seq<nat>, ba: seq<PBlock>) {
    forall b {:trigger ba[b]} :: 0 <= b < |ba| ==>
      0 <= ba[b].start <= ba[b].end < |a| && Counts(preds, a[ba[b].start..ba[b].end + 1], ba[b])
  }

  // ---------- the agenda ----------

  /** The kids of u and v along e are told apart by an agenda entry, or u and v are
      yet to be told apart by the pending splits at the nodes of d for edge x. */
  ghost predicate Covered(g: Graph, blockOf: seq<int>, ba: seq<PBlock>, d: set<nat>, x: int, u: nat, v: nat, e: nat)
    requires u < |g.kids| && v < |g.kids| && e in g.kids[u] && e in g.kids[v]
    requires g.kids[u][e] < |blockOf| && g.kids[v][e] < |blockOf|
  {
    var p, q := blockOf[g.kids[u][e]], blockOf[g.kids[v][e]];
    || p == q
    || (0 <= p < |ba| && ba[p].Marked(e))
    || (0 <= q < |ba| && ba[q].Marked(e))
    || (e == x && (u in d) != (v in d))
  }

  /** If two nodes of one block have e-kids in different blocks, one of those is
      on the agenda with e, except for the pending splits at d. */
  ghost predicate AgendaInv(g: Graph, blockOf: seq<int>, ba: seq<PBlock>, d: set<nat>, x: int)
    requires g.Valid() && |blockOf| == |g.kids|
  {
    forall u: nat, v: nat, e: nat | u < |g.kids| && v < |g.kids| && e in g.kids[u] && e in g.kids[v] ::
      blockOf[u] == blockOf[v] ==> Covered(g, blockOf, ba, d, x, u, v, e)
  }

  /** A node with an e-edge into it makes the counter of its block positive. */
  ghost predicate Witnessed(g: Graph, blockOf: seq<int>, ba: seq<PBlock>)
    requires g.Valid() && |blockOf| == |g.kids|
  {
    forall p: nat, e: nat | p < |g.kids| && e in g.kids[p] ::
      var b := blockOf[g.kids[p][e]];
      0 <= b < |ba| && ba[b].GetIncoming(e) > 0
  }

  /** How the marks of the two halves come out, given the mark of the old block. */
  ghost predicate HalvesMarked(p: PBlock, p': PBlock, q: PBlock) {
    forall e: nat ::
      var m := p.Marked(e) && p'.GetIncoming(e) > 0;
      var smaller := 0 < p'.GetIncoming(e) < q.GetIncoming(e);
      && p'.Marked(e) == (m || smaller)
      && q.Marked(e) == (q.GetIncoming(e) > 0 && (m || !smaller))
  }

  /** Block b gives up its nodes in d to a new block. */
  ghost predicate SplitStep(blockOf: seq<int>, ba: seq<PBlock>, blockOf': seq<int>, ba': seq<PBlock>, b: nat, d: set<nat>)
  {
    && b < |ba| && |ba'| == |ba| + 1
    && |blockOf'| == |blockOf|
    && (forall v {:trigger blockOf'[v]} :: 0 <= v < |blockOf| ==>
          blockOf'[v] == if blockOf[v] == b && v in d then |ba| else blockOf[v])
    && (forall c {:trigger ba'[c]} :: 0 <= c < |ba| && c != b ==> ba'[c] == ba[c])
    && HalvesMarked(ba[b], ba'[b], ba'[|ba|])
  }

  /** Splitting a block and putting only one half on the agenda, unless the block
      was on it, keeps the agenda invariant. */
  lemma SplitKeepsAgenda(g: Graph, blockOf: seq<int>, ba: seq<PBlock>, blockOf': seq<int>, ba': seq<PBlock>,
                         b: nat, d: set<nat>, x: int)
    requires g.Valid() && |blockOf| == |g.kids|
    requires SplitStep(blockOf, ba, blockOf', ba', b, d)
    requires forall v :: 0 <= v < |blockOf| ==> 0 <= blockOf[v] < |ba|
    requires Witnessed(g, blockOf', ba')
    requires AgendaInv(g, blockOf, ba, d, x)
    ensures AgendaInv(g, blockOf', ba', d, x)
  {
    forall u: nat, v: nat, e: nat |
      u < |g.kids| && v < |g.kids| && e in g.kids[u] && e in g.kids[v] && blockOf'[u] == blockOf'[v]
      ensures Covered(g, blockOf', ba', d, x, u, v, e)
    {
      assert blockOf[u] == blockOf[v];
      assert Covered(g, blockOf, ba, d, x, u, v, e);
      KeepsMark(g, blockOf, ba, blockOf', ba', b, d, u, e);
      KeepsMark(g, blockOf, ba, blockOf', ba', b, d, v, e);
    }
  }

  /** If the block of an e-kid was marked for e, its block after the split is. */
  lemma KeepsMark(g: Graph, blockOf: seq<int>, ba: seq<PBlock>, blockOf': seq<int>, ba': seq<PBlock>,
                  b: nat, d: set<nat>, u: nat, e: nat)
    requires g.Valid() && |blockOf| == |g.kids|
    requires SplitStep(blockOf, ba, blockOf', ba', b, d)
    requires forall v :: 0 <= v < |blockOf| ==> 0 <= blockOf[v] < |ba|
    requires Witnessed(g, blockOf', ba')
    requires u < |g.kids| && e in g.kids[u]
    ensures var k := g.kids[u][e];
            ba[blockOf[k]].Marked(e) ==> ba'[blockOf'[k]].Marked(e)
  {
  }

  /** Taking (b, x) off the agenda is paid for by the pending splits at the
      x-parents of block b. */
  lemma UnmarkKeepsAgenda(g: Graph, blockOf: seq<int>, ba: seq<PBlock>, b: nat, x: nat, d: set<nat>)
    requires g.Valid() && |blockOf| == |g.kids|
    requires forall v :: 0 <= v < |blockOf| ==> 0 <= blockOf[v] < |ba|
    requires b < |ba| && ba[b].CountOK()
    requires forall v: nat :: v < |g.kids| ==> (v in d <==> x in g.kids[v] && blockOf[g.kids[v][x]] == b)
    requires AgendaInv(g, blockOf, ba, {}, -1)
    ensures AgendaInv(g, blockOf, ba[b := ba[b].RemoveFromAgenda(x)], d, x)
  {
    Unmark(ba[b], x);
    var ba' := ba[b := ba[b].RemoveFromAgenda(x)];
    forall u: nat, v: nat, e: nat |
      u < |g.kids| && v < |g.kids| && e in g.kids[u] && e in g.kids[v] && blockOf[u] == blockOf[v]
      ensures Covered(g, blockOf, ba', d, x, u, v, e)
    {
      assert Covered(g, blockOf, ba, {}, -1, u, v, e);
    }
  }

  /** Once every block is uniform in d, no split is pending. */
  lemma PendingDone(g: Graph, blockOf: seq<int>, ba: seq<PBlock>, d: set<nat>, x: int)
    requires g.Valid() && |blockOf| == |g.kids|
    requires AgendaInv(g, blockOf, ba, d, x)
    requires forall u: nat, v: nat :: u < |blockOf| && v < |blockOf| && blockOf[u] == blockOf[v] ==> (u in d <==> v in d)
    ensures AgendaInv(g, blockOf, ba, {}, -1)
  {
    forall u: nat, v: nat, e: nat |
      u < |g.kids| && v < |g.kids| && e in g.kids[u] && e in g.kids[v] && blockOf[u] == blockOf[v]
      ensures Covered(g, blockOf, ba, {}, -1, u, v, e)
    {
      assert Covered(g, blockOf, ba, d, x, u, v, e);
    }
  }

  /** With an empty agenda the partition is stable. */
  lemma EmptyAgendaIsStable(g: Graph, blockOf: seq<int>, ba: seq<PBlock>)
    requires g.Valid() && |blockOf| == |g.kids|
    requires forall u, v :: 0 <= u < |blockOf| && 0 <= v < |blockOf| && blockOf[u] == blockOf[v] ==> g.key[u] == g.key[v]
    requires AgendaInv(g, blockOf, ba, {}, -1)
    requires forall b :: 0 <= b < |ba| ==> ba[b].CountOK() && !ba[b].IsOnAgenda()
    ensures Stable(g, blockOf)
  {
    forall u, v, e | 0 <= u < |blockOf| && 0 <= v < |blockOf| && e in g.kids[u] && e in g.kids[v] && blockOf[u] == blockOf[v]
      ensures blockOf[g.kids[u][e]] == blockOf[g.kids[v][e]]
    {
      assert Covered(g, blockOf, ba, {}, -1, u, v, e);
      forall b | 0 <= b < |ba| && ba[b].Marked(e)
        ensures false
      {
        AgendaIffMarked(ba[b]);
      }
    }
  }

  /** Splitting by the x-parents of a block separates no bisimilar nodes. */
  lemma SplitKeepsCoarse(g: Graph, blockOf: seq<int>, ba: seq<PBlock>, blockOf': seq<int>, ba': seq<PBlock>,
                         b: nat, d: set<nat>)
    requires g.Valid() && Coarse(g, blockOf)
    requires SplitStep(blockOf, ba, blockOf', ba', b, d)
    requires BisimClosed(g, d)
    ensures Coarse(g, blockOf')
  {
  }

  ghost predicate BisimClosed(g: Graph, d: set<nat>) {
    forall u: nat, v: nat :: u < |g.kids| && v < |g.kids| && Bisimilar(g, u, v) ==> (u in d <==> v in d)
  }

  lemma ParentsBisimClosed(g: Graph, blockOf: seq<int>, b: nat, x: nat, d: set<nat>)
    requires g.Valid() && Coarse(g, blockOf)
    requires forall v: nat :: v < |g.kids| ==> (v in d <==> x in g.kids[v] && blockOf[g.kids[v][x]] == b)
    ensures BisimClosed(g, d)
  {
    forall u: nat, v: nat | u < |g.kids| && v < |g.kids| && Bisimilar(g, u, v)
      ensures u in d <==> v in d
    {
      var r :| IsBisimulation(g, r) && (u, v) in r;
      assert g.kids[u].Keys == g.kids[v].Keys;
      if x in g.kids[u] {
        assert x in g.kids[v];
        BisimilarChildren(g, u, v, x);
      } else {
        assert x !in g.kids[v];
      }
    }
  }

  ghost predicate Keyed(g: Graph, blockOf: seq<int>) {
    && |blockOf| == |g.key|
    && forall u, v :: 0 <= u < |blockOf| && 0 <= v < |blockOf| && blockOf[u] == blockOf[v] ==> g.key[u] == g.key[v]
  }

  /** What holds of the partition throughout: blocks hold nodes that look the same,
      bisimilar nodes are together, and the agenda invariant with the splits
      pending at d. */
  ghost predicate Refining(g: Graph, blockOf: seq<int>, ba: seq<PBlock>, d: set<nat>, x: int) {
    && g.Valid() && |blockOf| == |g.kids|
    && (forall v {:trigger blockOf[v]} :: 0 <= v < |blockOf| ==> 0 <= blockOf[v] < |ba|)
    && Keyed(g, blockOf) && Coarse(g, blockOf) && BisimClosed(g, d)
    && AgendaInv(g, blockOf, ba, d, x)
  }

  lemma SplitKeepsRefining(g: Graph, blockOf: seq<int>, ba: seq<PBlock>, blockOf': seq<int>, ba': seq<PBlock>,
                           b: nat, d: set<nat>, x: int)
    requires Refining(g, blockOf, ba, d, x)
    requires SplitStep(blockOf, ba, blockOf', ba', b, d)
    requires Witnessed(g, blockOf', ba')
    ensures Refining(g, blockOf', ba', d, x)
  {
    SplitKeepsAgenda(g, blockOf, ba, blockOf', ba', b, d, x);
    SplitKeepsCoarse(g, blockOf, ba, blockOf', ba', b, d);
  }
}
