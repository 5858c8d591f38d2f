/** Value-level facts about the scan that forms the initial blocks. */
module InitialBlocks {
  import opened Heap
  import opened Compare
  import opened PBlocks
  import opened DataGraph
  import opened NodeArray
  import opened Refinement

  /** The blocks tile the first i positions. */
  ghost predicate TilesUpTo(a: seq<nat>, lua: seq<nat>, blockOf: seq<int>, ba: seq<PBlock>, i: nat) {
    && |a| == |lua| == |blockOf| && i <= |a|
    && (forall b {:trigger ba[b]} :: 0 <= b < |ba| ==> 0 <= ba[b].start <= ba[b].end < i)
    && (forall b, k {:trigger ba[b], a[k]} :: 0 <= b < |ba| && ba[b].start <= k <= ba[b].end ==>
          a[k] < |blockOf| && blockOf[a[k]] == b)
    && (forall v {:trigger blockOf[v]} :: 0 <= v < |blockOf| && lua[v] < i ==>
          0 <= blockOf[v] < |ba| && ba[blockOf[v]].start <= lua[v] <= ba[blockOf[v]].end)
  }

  /** Among the first i positions, blocks are the classes of nodes that look the same. */
  ghost predicate KeyedUpTo(g: Graph, a: seq<nat>, blockOf: seq<int>, i: nat) {
    && |a| == |blockOf| == |g.key| && i <= |a|
    && (forall k {:trigger a[k]} :: 0 <= k < |a| ==> a[k] < |a|)
    && forall x, y :: 0 <= x < i && 0 <= y < i ==> (blockOf[a[x]] == blockOf[a[y]] <==> g.key[a[x]] == g.key[a[y]])
  }

  ghost predicate Rested(ba: seq<PBlock>) {
    forall b {:trigger ba[b]} :: 0 <= b < |ba| ==> ba[b].split == ba[b].end
  }

  lemma ScanSame(a: seq<nat>, lua: seq<nat>, blockOf: seq<int>, ba: seq<PBlock>, p: PBlock, q: PBlock, i: nat)
    requires Inverse(a, lua) && i < |a| && TilesUpTo(a, lua, blockOf, ba + [p], i)
    requires p.end == i - 1 && q.start == p.start && q.end == i
    ensures TilesUpTo(a, lua, blockOf[a[i] := |ba|], ba + [q], i + 1)
  {
    var bo, ba0, ba' := blockOf[a[i] := |ba|], ba + [p], ba + [q];
    assert ba0[|ba|] == p && ba'[|ba|] == q;
    assert forall b {:trigger ba'[b]} :: 0 <= b < |ba| ==> ba0[b] == ba'[b];
    forall b, k | 0 <= b < |ba'| && ba'[b].start <= k <= ba'[b].end
      ensures a[k] < |bo| && bo[a[k]] == b
    {
      assert 0 <= ba0[b].start <= ba0[b].end < i;
      if k < i {
        assert lua[a[k]] == k;
        assert ba0[b].start <= k <= ba0[b].end;
      }
    }
    forall v | 0 <= v < |bo| && lua[v] < i + 1
      ensures 0 <= bo[v] < |ba'| && ba'[bo[v]].start <= lua[v] <= ba'[bo[v]].end
    {
      assert a[lua[v]] == v;
      if lua[v] < i {
        assert ba0[blockOf[v]].start <= lua[v] <= ba0[blockOf[v]].end;
      } else {
        assert 0 <= ba0[|ba|].start;
      }
    }
  }

  lemma ScanNew(a: seq<nat>, lua: seq<nat>, blockOf: seq<int>, ba: seq<PBlock>, q: PBlock, i: nat)
    requires Inverse(a, lua) && i < |a| && TilesUpTo(a, lua, blockOf, ba, i)
    requires q.start == q.end == i
    ensures TilesUpTo(a, lua, blockOf[a[i] := |ba|], ba + [q], i + 1)
  {
    var bo, ba' := blockOf[a[i] := |ba|], ba + [q];
    forall v | 0 <= v < |bo| && lua[v] < i + 1
      ensures 0 <= bo[v] < |ba'| && ba'[bo[v]].start <= lua[v] <= ba'[bo[v]].end
    {
      assert a[lua[v]] == v;
    }
  }

  /** The next node joins the last block if it looks the same, else it looks
      different from all nodes before it. */
  lemma ScanKey(s: Store, g: Graph, nodes: seq<Addr>, a: seq<nat>, lua: seq<nat>, blockOf: seq<int>, i: nat, b: int)
    requires Closed(s) && Unmixed(s) && Inverse(a, lua) && |nodes| == |a|
    requires forall v :: 0 <= v < |nodes| ==> nodes[v] in s
    requires |g.key| == |a| && forall v :: 0 <= v < |nodes| ==> g.key[v] == Observe(s, nodes[v])
    requires Sorted(s, nodes, a, 0, |a| - 1)
    requires 0 < i < |a| && KeyedUpTo(g, a, blockOf, i)
    requires if CompareNodes(s, nodes[a[i]], nodes[a[i - 1]]) == 1
             then forall x :: 0 <= x < i ==> blockOf[a[x]] != b
             else b == blockOf[a[i - 1]]
    ensures KeyedUpTo(g, a, blockOf[a[i] := b], i + 1)
  {
    hide CompareNodes, Observe;
    var cur, last := a[i], a[i - 1];
    TotalPreorder(s, nodes[last], nodes[cur], nodes[last]);
    assert CompareNodes(s, nodes[last], nodes[cur]) <= 0;
    EqualIffSameObservation(s, nodes[cur], nodes[last]);
    forall x | 0 <= x < i
      ensures a[x] != a[i]
      ensures blockOf[a[x]] == b <==> g.key[a[x]] == g.key[cur]
    {
      assert lua[a[x]] == x && lua[a[i]] == i;
      EqualIffSameObservation(s, nodes[cur], nodes[a[x]]);
      TotalPreorder(s, nodes[cur], nodes[a[x]], nodes[last]);
      TotalPreorder(s, nodes[a[x]], nodes[last], nodes[last]);
    }
  }

  lemma CountsExtend(preds: seq<seq<Pred>>, a: seq<nat>, l: nat, i: nat, p: PBlock, q: PBlock)
    requires l <= i < |a| && a[i] < |preds|
    requires Counts(preds, a[l..i], p) && q.CountOK()
    requires forall e: nat :: q.GetIncoming(e) == p.GetIncoming(e) + EdgeCount(preds[a[i]], e)
    ensures Counts(preds, a[l..i + 1], q)
  {
    forall e: nat ensures q.GetIncoming(e) == InEdges(preds, a[l..i + 1], e) {
      assert a[l..i + 1] == a[l..i] + [a[i]];
      InEdgesConcat(preds, a[l..i], [a[i]], e);
      InEdgesOne(preds, a[i], e);
    }
  }

  lemma ScanBlocks(a: seq<nat>, lua: seq<nat>, blockOf: seq<int>, ba: seq<PBlock>, p: PBlock, i: nat)
    requires Inverse(a, lua) && 0 < i <= |a| && TilesUpTo(a, lua, blockOf, ba + [p], i) && p.end == i - 1
    ensures |blockOf| == |a| && 0 <= p.start <= i - 1 && blockOf[a[i - 1]] == |ba|
    ensures forall x :: 0 <= x < i ==> 0 <= blockOf[a[x]] < |ba| + 1
  {
    assert (ba + [p])[|ba|] == p;
    forall x | 0 <= x < i ensures 0 <= blockOf[a[x]] < |ba| + 1 {
      assert lua[a[x]] == x;
    }
  }

  lemma ScanDone(a: seq<nat>, lua: seq<nat>, blockOf: seq<int>, ba: seq<PBlock>)
    requires Inverse(a, lua) && TilesUpTo(a, lua, blockOf, ba, |a|)
    ensures Tiles(a, lua, blockOf, ba)
  {
  }

  lemma KeyedDone(g: Graph, a: seq<nat>, lua: seq<nat>, blockOf: seq<int>)
    requires Inverse(a, lua) && KeyedUpTo(g, a, blockOf, |a|)
    ensures |blockOf| == |g.key| &&
            forall u, v :: 0 <= u < |blockOf| && 0 <= v < |blockOf| ==>
              (blockOf[u] == blockOf[v] <==> g.key[u] == g.key[v])
  {
    forall u, v | 0 <= u < |blockOf| && 0 <= v < |blockOf|
      ensures blockOf[u] == blockOf[v] <==> g.key[u] == g.key[v]
    {
      assert a[lua[u]] == u && a[lua[v]] == v;
    }
  }

  /** A finished block: exact counters over its range, no mark, at rest. */
  ghost predicate Finished(preds: seq<seq<Pred>>, a: seq<nat>, p: PBlock) {
    && 0 <= p.start <= p.end < |a| && p.split == p.end
    && Counts(preds, a[p.start..p.end + 1], p)
    && forall e: nat :: !p.Marked(e)
  }

  ghost predicate AllFinished(preds: seq<seq<Pred>>, a: seq<nat>, ba: seq<PBlock>) {
    forall b {:trigger ba[b]} :: 0 <= b < |ba| ==> Finished(preds, a, ba[b])
  }

  lemma FinishedDone(preds: seq<seq<Pred>>, a: seq<nat>, ba: seq<PBlock>)
    requires AllFinished(preds, a, ba)
    ensures Counted(preds, a, ba) && Rested(ba)
    ensures forall b {:trigger ba[b]} :: 0 <= b < |ba| ==> !ba[b].IsOnAgenda()
  {
    forall b | 0 <= b < |ba| ensures !ba[b].IsOnAgenda() {
      AgendaIffMarked(ba[b]);
    }
  }

  lemma NewBlockCounts(preds: seq<seq<Pred>>, start: int, end: int)
    ensures Counts(preds, [], NewBlock(start, end)) && forall e: nat :: !NewBlock(start, end).Marked(e)
  {
    NoNegatives(NewBlock(start, end).inc);
  }

  lemma FinishBlock(preds: seq<seq<Pred>>, a: seq<nat>, p: PBlock, i: nat)
    requires 0 <= p.start < i <= |a| && Counts(preds, a[p.start..i], p) && forall e: nat :: !p.Marked(e)
    ensures Finished(preds, a, p.SetEnd(i - 1).SetSplitIndex(i - 1))
  {
    var q := p.SetEnd(i - 1).SetSplitIndex(i - 1);
    assert forall e: nat :: q.GetIncoming(e) == p.GetIncoming(e) && q.Marked(e) == p.Marked(e);
  }

  lemma SameRangeUpTo(a: seq<nat>, lua: seq<nat>, blockOf: seq<int>, ba: seq<PBlock>, p: PBlock, q: PBlock, i: nat)
    requires TilesUpTo(a, lua, blockOf, ba + [p], i) && p.start == q.start && p.end == q.end
    ensures TilesUpTo(a, lua, blockOf, ba + [q], i)
  {
    assert (ba + [p])[|ba|] == p;
    assert forall b {:trigger (ba + [q])[b]} :: 0 <= b < |ba| ==> (ba + [p])[b] == (ba + [q])[b];
  }

  // ---------- the scan ----------

  /** The first i positions are in blocks; p is the one still growing. */
  ghost predicate Scanning(g: Graph, preds: seq<seq<Pred>>, a: seq<nat>, lua: seq<nat>, blockOf: seq<int>,
                           ba: seq<PBlock>, p: PBlock, i: nat) {
    && 0 < i <= |a| == |preds| == |blockOf| && 0 <= p.start < i
    && TilesUpTo(a, lua, blockOf, ba + [p.SetEnd(i - 1)], i)
    && KeyedUpTo(g, a, blockOf, i)
    && Counts(preds, a[p.start..i], p)
    && (forall e: nat :: !p.Marked(e))
    && AllFinished(preds, a, ba)
  }

  lemma ScanCounts(g: Graph, preds: seq<seq<Pred>>, a: seq<nat>, lua: seq<nat>, blockOf: seq<int>,
                   ba: seq<PBlock>, p: PBlock, i: nat)
    requires Scanning(g, preds, a, lua, blockOf, ba, p, i)
    ensures p.CountOK()
  {
  }

  lemma ScanFirst(g: Graph, preds: seq<seq<Pred>>, a: seq<nat>, lua: seq<nat>, blockOf: seq<int>, p: PBlock)
    requires Inverse(a, lua) && |a| == |blockOf| == |preds| == |g.key| && |a| > 0 && blockOf[a[0]] == 0
    requires SameRange(NewBlock(0, 0), p) && p.CountOK()
    requires forall e: nat :: p.GetIncoming(e) == NewBlock(0, 0).GetIncoming(e) + EdgeCount(preds[a[0]], e)
    requires forall e: nat :: p.Marked(e) == NewBlock(0, 0).Marked(e)
    ensures Scanning(g, preds, a, lua, blockOf, [], p, 1)
  {
    forall v | 0 <= v < |blockOf| && lua[v] < 1 ensures blockOf[v] == 0 {
      assert a[lua[v]] == v;
    }
    NewBlockCounts(preds, 0, 0);
    assert a[0..0] == [];
    CountsExtend(preds, a, 0, 0, NewBlock(0, 0), p);
    assert [] + [p.SetEnd(0)] == [p.SetEnd(0)];
  }

  lemma ScanStep(s: Store, g: Graph, nodes: seq<Addr>, preds: seq<seq<Pred>>, a: seq<nat>, lua: seq<nat>, blockOf: seq<int>,
                 ba: seq<PBlock>, p: PBlock, i: nat, ba': seq<PBlock>, r: PBlock, q: PBlock)
    requires Closed(s) && Unmixed(s) && Inverse(a, lua) && |nodes| == |a| == |g.key|
    requires forall v :: 0 <= v < |nodes| ==> nodes[v] in s && g.key[v] == Observe(s, nodes[v])
    requires Sorted(s, nodes, a, 0, |a| - 1)
    requires Scanning(g, preds, a, lua, blockOf, ba, p, i) && i < |a|
    requires if CompareNodes(s, nodes[a[i]], nodes[a[i - 1]]) == 1
             then ba' == ba + [p.SetEnd(i - 1).SetSplitIndex(i - 1)] && r == NewBlock(i, 0)
             else ba' == ba && r == p
    requires SameRange(r, q) && q.CountOK()
    requires forall e: nat :: q.GetIncoming(e) == r.GetIncoming(e) + EdgeCount(preds[a[i]], e)
    requires forall e: nat :: q.Marked(e) == r.Marked(e)
    ensures Scanning(g, preds, a, lua, blockOf[a[i] := |ba'|], ba', q, i + 1)
  {
    hide CompareNodes, Closed, Unmixed, Observe, Sorted, TilesUpTo, Counts, Inverse;
    ScanBlocks(a, lua, blockOf, ba, p.SetEnd(i - 1), i);
    ScanKey(s, g, nodes, a, lua, blockOf, i, |ba'|);
    if |ba'| == |ba| {
      ScanSame(a, lua, blockOf, ba, p.SetEnd(i - 1), q.SetEnd(i), i);
    } else {
      NewBlockCounts(preds, i, 0);
      assert a[i..i] == [];
      FinishBlock(preds, a, p, i);
      SameRangeUpTo(a, lua, blockOf, ba, p.SetEnd(i - 1), p.SetEnd(i - 1).SetSplitIndex(i - 1), i);
      ScanNew(a, lua, blockOf, ba', q.SetEnd(i), i);
    }
    assert q.CountOK();
    CountsExtend(preds, a, r.start, i, r, q);
  }

  lemma ScanEnd(g: Graph, preds: seq<seq<Pred>>, a: seq<nat>, lua: seq<nat>, blockOf: seq<int>, ba: seq<PBlock>, p: PBlock)
    requires Inverse(a, lua) && |a| > 0 && Scanning(g, preds, a, lua, blockOf, ba, p, |a|)
    ensures var ba' := ba + [p.SetEnd(|a| - 1).SetSplitIndex(|a| - 1)];
            && Tiles(a, lua, blockOf, ba') && Counted(preds, a, ba') && Rested(ba')
            && forall b {:trigger ba'[b]} :: 0 <= b < |ba'| ==> !ba'[b].IsOnAgenda()
    ensures |blockOf| == |g.key| && forall u, v :: 0 <= u < |blockOf| && 0 <= v < |blockOf| ==>
              (blockOf[u] == blockOf[v] <==> g.key[u] == g.key[v])
  {
    hide TilesUpTo, Inverse, Tiles, Counts;
    var q := p.SetEnd(|a| - 1).SetSplitIndex(|a| - 1);
    FinishBlock(preds, a, p, |a|);
    SameRangeUpTo(a, lua, blockOf, ba, p.SetEnd(|a| - 1), q, |a|);
    ScanDone(a, lua, blockOf, ba + [q]);
    FinishedDone(preds, a, ba + [q]);
    KeyedDone(g, a, lua, blockOf);
  }

  lemma RepresentsNodes(s: Store, nodes: seq<Addr>, g: Graph)
    requires Represents(s, nodes, g)
    ensures |nodes| == |g.key|
    ensures forall v :: 0 <= v < |nodes| ==> nodes[v] in s && g.key[v] == Observe(s, nodes[v])
  {
  }

  /** The initial partition into nodes that look the same, with everything on the agenda. */
  lemma InitialRefining(g: Graph, blockOf: seq<int>, ba: seq<PBlock>)
    requires g.Valid() && |blockOf| == |g.kids| && Witnessed(g, blockOf, ba)
    requires forall v {:trigger blockOf[v]} :: 0 <= v < |blockOf| ==> 0 <= blockOf[v] < |ba|
    requires forall u, v :: 0 <= u < |blockOf| && 0 <= v < |blockOf| ==>
               (blockOf[u] == blockOf[v] <==> g.key[u] == g.key[v])
    requires forall b, e: nat :: 0 <= b < |ba| && ba[b].GetIncoming(e) > 0 ==> ba[b].Marked(e)
    ensures Refining(g, blockOf, ba, {}, -1)
  {
    forall u: nat, v: nat | u < |blockOf| && v < |blockOf| && Bisimilar(g, u, v) ensures blockOf[u] == blockOf[v] {
      var r :| IsBisimulation(g, r) && (u, v) in r;
    }
  }
}
