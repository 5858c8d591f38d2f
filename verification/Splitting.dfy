/** Value-level facts about marking nodes for a split and about the split itself. */
module Splitting {
  import opened PBlocks
  import opened DataGraph
  import opened NodeArray
  import opened Refinement

  // ---------- swapping two nodes of one block ----------

  lemma SwapKeepsTiles(a: seq<nat>, lua: seq<nat>, blockOf: seq<int>, ba: seq<PBlock>, b: nat, i: nat, j: nat)
    requires Inverse(a, lua) && Tiles(a, lua, blockOf, ba)
    requires b < |ba| && ba[b].start <= i <= ba[b].end && ba[b].start <= j <= ba[b].end
    ensures Tiles(a[i := a[j]][j := a[i]], lua[a[i] := j][a[j] := i], blockOf, ba)
  {
  }

  lemma SwapKeepsCounted(preds: seq<seq<Pred>>, a: seq<nat>, lua: seq<nat>, blockOf: seq<int>, ba: seq<PBlock>,
                         b: nat, i: nat, j: nat)
    requires Tiles(a, lua, blockOf, ba) && Counted(preds, a, ba)
    requires b < |ba| && ba[b].start <= i <= ba[b].end && ba[b].start <= j <= ba[b].end
    ensures Counted(preds, a[i := a[j]][j := a[i]], ba)
  {
    var a' := a[i := a[j]][j := a[i]];
    forall c | 0 <= c < |ba|
      ensures Counts(preds, a'[ba[c].start..ba[c].end + 1], ba[c])
    {
      var l, r := ba[c].start, ba[c].end + 1;
      assert Counts(preds, a[l..r], ba[c]);
      if c == b {
        SwapKeepsCounts(preds, a, l, r, i, j, ba[c]);
      } else {
        assert blockOf[a[i]] == b == blockOf[a[j]];
        assert a'[l..r] == a[l..r];
      }
    }
  }

  lemma SwapKeepsCounts(preds: seq<seq<Pred>>, a: seq<nat>, l: nat, r: nat, i: nat, j: nat, p: PBlock)
    requires l <= i < r <= |a| && l <= j < r && Counts(preds, a[l..r], p)
    ensures Counts(preds, a[i := a[j]][j := a[i]][l..r], p)
  {
    var s := a[l..r];
    assert a[i := a[j]][j := a[i]][l..r] == s[i - l := s[j - l]][j - l := s[i - l]];
    forall e: nat ensures p.GetIncoming(e) == InEdges(preds, s[i - l := s[j - l]][j - l := s[i - l]], e) {
      InEdgesSwap(preds, s, i - l, j - l, e);
    }
  }

  ghost predicate SameOn(a: seq<nat>, a': seq<nat>, l: int, r: int) {
    |a'| == |a| && forall k {:trigger a'[k]} :: 0 <= k < |a| && l <= k <= r ==> a'[k] == a[k]
  }

  ghost predicate SameOutside(a: seq<nat>, a': seq<nat>, l: int, r: int) {
    |a'| == |a| && forall k {:trigger a'[k]} :: 0 <= k < |a| && !(l <= k <= r) ==> a'[k] == a[k]
  }

  /** What changes only inside one block leaves the range of another as it is. */
  lemma OtherBlock(a0: seq<nat>, a: seq<nat>, a': seq<nat>, lua: seq<nat>, blockOf: seq<int>, ba: seq<PBlock>, b: int, c: int)
    requires Tiles(a, lua, blockOf, ba) && 0 <= b < |ba| && 0 <= c < |ba| && b != c
    requires SameOn(a0, a, ba[b].start, ba[b].end) && SameOutside(a, a', ba[c].start, ba[c].end)
    ensures SameOn(a0, a', ba[b].start, ba[b].end)
  {
    forall k | 0 <= k < |a| && ba[b].start <= k <= ba[b].end ensures a'[k] == a0[k] {
      assert blockOf[a[k]] == b;
    }
  }

  lemma TilesRange(a: seq<nat>, lua: seq<nat>, blockOf: seq<int>, ba: seq<PBlock>, b: nat)
    requires Inverse(a, lua) && Tiles(a, lua, blockOf, ba) && b < |ba|
    ensures |a| == |lua| == |blockOf| && 0 <= ba[b].start <= ba[b].end < |a|
    ensures forall k :: 0 <= k < |a| ==> a[k] < |a|
    ensures forall v :: 0 <= v < |blockOf| ==> 0 <= blockOf[v] < |ba|
  {
  }

  // ---------- marking ----------

  ghost predicate Distinct(s: seq<nat>) {
    forall i, j :: 0 <= i < j < |s| ==> s[i] != s[j]
  }

  lemma DistinctTail(b: nat, rest: seq<nat>)
    requires Distinct([b] + rest)
    ensures b !in rest && Distinct(rest)
  {
    forall i | 0 <= i < |rest| ensures rest[i] != b {
      assert ([b] + rest)[0] != ([b] + rest)[i + 1];
    }
    forall i, j | 0 <= i < j < |rest| ensures rest[i] != rest[j] {
      assert ([b] + rest)[i + 1] != ([b] + rest)[j + 1];
    }
  }

  ghost predicate SplitBounds(ba: seq<PBlock>) {
    forall b {:trigger ba[b]} :: 0 <= b < |ba| ==>
      ba[b].start - 1 <= ba[b].split <= ba[b].end && (ba[b].Singleton() ==> ba[b].split == ba[b].end)
  }

  /** In every block of more than one node the nodes of d are those right of the split index. */
  ghost predicate MarkedNodes(lua: seq<nat>, blockOf: seq<int>, ba: seq<PBlock>, d: set<nat>) {
    && |lua| == |blockOf|
    && forall v: nat {:trigger v in d} {:trigger blockOf[v]} :: v < |blockOf| ==>
         0 <= blockOf[v] < |ba| && (!ba[blockOf[v]].Singleton() ==> (v in d <==> lua[v] > ba[blockOf[v]].split))
  }

  /** toDo lists each block with a marked node once. */
  ghost predicate ToDoList(ba: seq<PBlock>, toDo: seq<nat>) {
    && (forall b: nat {:trigger b in toDo} {:trigger ba[b]} :: b in toDo <==> b < |ba| && ba[b].split < ba[b].end)
    && Distinct(toDo)
  }

  /** The nodes of d are the ones marked for splitting. */
  ghost predicate Marks(lua: seq<nat>, blockOf: seq<int>, ba: seq<PBlock>, d: set<nat>, toDo: seq<nat>) {
    SplitBounds(ba) && MarkedNodes(lua, blockOf, ba, d) && ToDoList(ba, toDo)
  }

  lemma MarkRange(a: seq<nat>, lua: seq<nat>, blockOf: seq<int>, ba: seq<PBlock>, d: set<nat>, toDo: seq<nat>, v: nat)
    requires Inverse(a, lua) && Tiles(a, lua, blockOf, ba) && Marks(lua, blockOf, ba, d, toDo)
    requires v < |blockOf|
    ensures |a| == |lua| == |blockOf| && 0 <= blockOf[v] < |ba| && a[lua[v]] == v
    ensures var p := ba[blockOf[v]];
            && 0 <= p.start <= lua[v] <= p.end < |a| && p.start - 1 <= p.split <= p.end
            && (!p.Singleton() ==> (v in d <==> lua[v] > p.split))
            && (p.Singleton() ==> Marks(lua, blockOf, ba, d + {v}, toDo))
  {
    if ba[blockOf[v]].Singleton() {
      forall w: nat | w < |blockOf| && !ba[blockOf[w]].Singleton()
        ensures w in d + {v} <==> lua[w] > ba[blockOf[w]].split
      {
        assert w in d <==> lua[w] > ba[blockOf[w]].split;
      }
    }
  }

  /** Swapping an unmarked node to the split index and moving the index past it marks
      that node and no other. */
  lemma MarkOne(a: seq<nat>, lua: seq<nat>, blockOf: seq<int>, ba: seq<PBlock>, d: set<nat>, toDo: seq<nat>, v: nat)
    requires Inverse(a, lua) && Tiles(a, lua, blockOf, ba) && Marks(lua, blockOf, ba, d, toDo)
    requires v < |lua| && !ba[blockOf[v]].Singleton() && lua[v] <= ba[blockOf[v]].split
    ensures var b, si := blockOf[v], ba[blockOf[v]].split;
            0 <= si < |a| &&
            var lua' := lua[a[si] := lua[v]][a[lua[v]] := si];
            var toDo' := if si == ba[b].end then [b] + toDo else toDo;
            Marks(lua', blockOf, ba[b := ba[b].SetSplitIndex(si - 1)], d + {v}, toDo')
  {
    var b, si := blockOf[v], ba[blockOf[v]].split;
    hide Inverse, Tiles, SplitBounds, MarkedNodes, ToDoList;
    MarkBounds(a, lua, blockOf, ba, d, toDo, v);
    MarkToDo(ba, toDo, b);
    MarkNodes(a, lua, blockOf, ba, d, v);
  }

  lemma MarkBounds(a: seq<nat>, lua: seq<nat>, blockOf: seq<int>, ba: seq<PBlock>, d: set<nat>, toDo: seq<nat>, v: nat)
    requires Inverse(a, lua) && Tiles(a, lua, blockOf, ba) && Marks(lua, blockOf, ba, d, toDo) && v < |lua|
    requires lua[v] <= ba[blockOf[v]].split
    ensures 0 <= ba[blockOf[v]].start <= lua[v] <= ba[blockOf[v]].split <= ba[blockOf[v]].end < |a|
    ensures a[ba[blockOf[v]].split] < |lua| && a[lua[v]] == v && |a| == |lua| == |blockOf|
  {
  }

  lemma MarkToDo(ba: seq<PBlock>, toDo: seq<nat>, b: nat)
    requires b < |ba| && SplitBounds(ba) && ToDoList(ba, toDo) && ba[b].start <= ba[b].split && !ba[b].Singleton()
    ensures var toDo' := if ba[b].split == ba[b].end then [b] + toDo else toDo;
            var ba' := ba[b := ba[b].SetSplitIndex(ba[b].split - 1)];
            SplitBounds(ba') && ToDoList(ba', toDo')
  {
    assert b in toDo <==> ba[b].split < ba[b].end;
    assert forall c: nat :: c in [b] + toDo <==> c == b || c in toDo;
  }

  lemma MarkNodes(a: seq<nat>, lua: seq<nat>, blockOf: seq<int>, ba: seq<PBlock>, d: set<nat>, v: nat)
    requires Inverse(a, lua) && Tiles(a, lua, blockOf, ba) && v < |lua| && MarkedNodes(lua, blockOf, ba, d)
    requires !ba[blockOf[v]].Singleton() && ba[blockOf[v]].start <= lua[v] <= ba[blockOf[v]].split <= ba[blockOf[v]].end
    ensures var b, si := blockOf[v], ba[blockOf[v]].split;
            var lua' := lua[a[si] := lua[v]][a[lua[v]] := si];
            MarkedNodes(lua', blockOf, ba[b := ba[b].SetSplitIndex(si - 1)], d + {v})
  {
    var b, si := blockOf[v], ba[blockOf[v]].split;
    var lua' := lua[a[si] := lua[v]][a[lua[v]] := si];
    var ba' := ba[b := ba[b].SetSplitIndex(si - 1)];
    forall w: nat | w < |blockOf|
      ensures 0 <= blockOf[w] < |ba'|
      ensures !ba'[blockOf[w]].Singleton() ==> (w in d + {v} <==> lua'[w] > ba'[blockOf[w]].split)
    {
      MarkNode(a, lua, blockOf, ba, d, v, w);
    }
  }

  lemma MarkNode(a: seq<nat>, lua: seq<nat>, blockOf: seq<int>, ba: seq<PBlock>, d: set<nat>, v: nat, w: nat)
    requires Inverse(a, lua) && Tiles(a, lua, blockOf, ba) && v < |lua| && w < |lua|
    requires !ba[blockOf[v]].Singleton() && ba[blockOf[v]].start <= lua[v] <= ba[blockOf[v]].split <= ba[blockOf[v]].end
    requires !ba[blockOf[w]].Singleton() ==> (w in d <==> lua[w] > ba[blockOf[w]].split)
    ensures var b, si := blockOf[v], ba[blockOf[v]].split;
            var lua' := lua[a[si] := lua[v]][a[lua[v]] := si];
            var ba' := ba[b := ba[b].SetSplitIndex(si - 1)];
            !ba'[blockOf[w]].Singleton() ==> (w in d + {v} <==> lua'[w] > ba'[blockOf[w]].split)
  {
    var b, si := blockOf[v], ba[blockOf[v]].split;
    assert a[lua[v]] == v && a[lua[w]] == w;
    assert blockOf[a[si]] == b && lua[a[si]] == si;
  }

  /** The blocks differ at most in their split indices. */
  ghost predicate SameButSplit(ba: seq<PBlock>, ba': seq<PBlock>) {
    && |ba| == |ba'|
    && forall b {:trigger ba'[b]} {:trigger ba[b]} :: 0 <= b < |ba| ==> ba'[b] == ba[b].SetSplitIndex(ba'[b].split)
  }

  lemma SameButSplitKeeps(preds: seq<seq<Pred>>, a: seq<nat>, lua: seq<nat>, blockOf: seq<int>,
                          ba: seq<PBlock>, ba': seq<PBlock>)
    requires SameButSplit(ba, ba') && Tiles(a, lua, blockOf, ba) && Counted(preds, a, ba)
    ensures Tiles(a, lua, blockOf, ba') && Counted(preds, a, ba')
  {
    forall b | 0 <= b < |ba| ensures Counts(preds, a[ba'[b].start..ba'[b].end + 1], ba'[b]) {
      assert Counts(preds, a[ba[b].start..ba[b].end + 1], ba[b]);
      assert ba'[b].inc == ba[b].inc;
    }
  }

  /** The nodes with an x-edge into block b. */
  ghost function ParentsOf(g: Graph, blockOf: seq<int>, b: int, x: nat): set<nat> {
    set v: nat | v < |g.kids| && x in g.kids[v] && g.kids[v][x] < |blockOf| && blockOf[g.kids[v][x]] == b
  }

  /** The x-predecessors listed at the positions l..r-1. */
  ghost function ListedParents(preds: seq<seq<Pred>>, a: seq<nat>, x: nat, l: nat, r: nat): set<nat> {
    set i, j | 0 <= i < |a| && l <= i < r && a[i] < |preds| && 0 <= j < |preds[a[i]]| && preds[a[i]][j].edge == x ::
      preds[a[i]][j].parent
  }

  /** The x-predecessors in one list. */
  ghost function EdgeParents(ps: seq<Pred>, x: nat): set<nat> {
    set j | 0 <= j < |ps| && ps[j].edge == x :: ps[j].parent
  }

  lemma EdgeParentsStep(ps: seq<Pred>, x: nat, j: nat)
    requires j < |ps|
    ensures EdgeParents(ps[j..], x) == EdgeParents(ps[j + 1..], x) + if ps[j].edge == x then {ps[j].parent} else {}
  {
    var s, t := ps[j..], ps[j + 1..];
    forall v | v in EdgeParents(s, x) ensures v in EdgeParents(t, x) + if ps[j].edge == x then {ps[j].parent} else {} {
      var k :| 0 <= k < |s| && s[k].edge == x && s[k].parent == v;
      assert k > 0 ==> t[k - 1] == s[k];
    }
    forall v | v in EdgeParents(t, x) ensures v in EdgeParents(s, x) {
      var k :| 0 <= k < |t| && t[k].edge == x && t[k].parent == v;
      assert s[k + 1] == t[k];
    }
    assert s[0] == ps[j];
  }

  lemma ListedStep(preds: seq<seq<Pred>>, a: seq<nat>, x: nat, l: nat, r: nat)
    requires l <= r < |a| && a[r] < |preds|
    ensures ListedParents(preds, a, x, l, r + 1) == ListedParents(preds, a, x, l, r) + EdgeParents(preds[a[r]], x)
  {
  }

  lemma ParentInRange(g: Graph, preds: seq<seq<Pred>>, v: nat, j: nat)
    requires PredsOK(g, preds) && v < |preds| && j < |preds[v]|
    ensures preds[v][j].parent < |preds|
  {
    assert preds[v][j] in preds[v];
  }

  /** Following the predecessor lists of a whole block back finds exactly its x-parents. */
  lemma ListedAreParents(g: Graph, preds: seq<seq<Pred>>, a: seq<nat>, lua: seq<nat>, blockOf: seq<int>,
                         ba: seq<PBlock>, b: nat, x: nat)
    requires g.Valid() && PredsOK(g, preds) && Inverse(a, lua) && Tiles(a, lua, blockOf, ba)
    requires b < |ba| && |a| == |preds|
    ensures ListedParents(preds, a, x, ba[b].start, ba[b].end + 1) == ParentsOf(g, blockOf, b, x)
  {
    hide PredsOK, Inverse, Tiles;
    TileBounds(a, lua, blockOf, ba, b);
    var l, r := ba[b].start, ba[b].end + 1;
    forall v | v in ListedParents(preds, a, x, l, r) ensures v in ParentsOf(g, blockOf, b, x) {
      var i, j :| 0 <= i < |a| && l <= i < r && a[i] < |preds| && 0 <= j < |preds[a[i]]| && preds[a[i]][j].edge == x
                  && preds[a[i]][j].parent == v;
      ListedIsParent(g, preds, a, lua, blockOf, ba, b, x, i, j);
    }
    forall v: nat | v in ParentsOf(g, blockOf, b, x) ensures v in ListedParents(preds, a, x, l, r) {
      KidInRange(g, preds, a, lua, blockOf, ba, b, v, x);
      ParentIsListed(g, preds, a, lua, v, x, l, r);
    }
  }

  lemma TileBounds(a: seq<nat>, lua: seq<nat>, blockOf: seq<int>, ba: seq<PBlock>, b: nat)
    requires Tiles(a, lua, blockOf, ba) && b < |ba|
    ensures 0 <= ba[b].start <= ba[b].end < |a|
  {
  }

  lemma ListedIsParent(g: Graph, preds: seq<seq<Pred>>, a: seq<nat>, lua: seq<nat>, blockOf: seq<int>, ba: seq<PBlock>, b: nat, x: nat, i: nat, j: nat)
    requires g.Valid() && PredsOK(g, preds) && Tiles(a, lua, blockOf, ba) && b < |ba| && |a| == |preds|
    requires ba[b].start <= i <= ba[b].end && i < |a| && a[i] < |preds| && j < |preds[a[i]]| && preds[a[i]][j].edge == x
    ensures preds[a[i]][j].parent in ParentsOf(g, blockOf, b, x)
  {
    assert preds[a[i]][j] in preds[a[i]];
    assert ba[b].start <= i && blockOf[a[i]] == b;
  }

  lemma KidInRange(g: Graph, preds: seq<seq<Pred>>, a: seq<nat>, lua: seq<nat>, blockOf: seq<int>, ba: seq<PBlock>, b: nat, v: nat, x: nat)
    requires g.Valid() && PredsOK(g, preds) && Tiles(a, lua, blockOf, ba) && b < |ba| && |a| == |preds| && v in ParentsOf(g, blockOf, b, x)
    ensures v < |g.kids| && x in g.kids[v] && g.kids[v][x] < |lua| && ba[b].start <= lua[g.kids[v][x]] <= ba[b].end
  {
  }

  lemma ParentIsListed(g: Graph, preds: seq<seq<Pred>>, a: seq<nat>, lua: seq<nat>, v: nat, x: nat, l: nat, r: nat)
    requires g.Valid() && PredsOK(g, preds) && Inverse(a, lua) && |a| == |preds|
    requires v < |g.kids| && x in g.kids[v] && l <= lua[g.kids[v][x]] < r
    ensures v in ListedParents(preds, a, x, l, r)
  {
    var c := g.kids[v][x];
    assert Pred(x, v) in preds[c];
    var j :| 0 <= j < |preds[c]| && preds[c][j] == Pred(x, v);
    assert a[lua[c]] == c;
    assert preds[a[lua[c]]][j].edge == x;
  }

  // ---------- the split ----------

  /** While splits are pending at the blocks in rest, all other blocks are uniform in d. */
  ghost predicate Pending(lua: seq<nat>, blockOf: seq<int>, ba: seq<PBlock>, d: set<nat>, rest: seq<nat>) {
    && |lua| == |blockOf| && Distinct(rest)
    && (forall v {:trigger blockOf[v]} :: 0 <= v < |blockOf| ==> 0 <= blockOf[v] < |ba|)
    && (forall b {:trigger ba[b]} :: 0 <= b < |ba| ==> ba[b].start - 1 <= ba[b].split <= ba[b].end)
    && (forall b: nat {:trigger b in rest} {:trigger ba[b]} :: b in rest <==> b < |ba| && ba[b].split < ba[b].end)
    && (forall v: nat {:trigger v in d} :: v < |blockOf| && ba[blockOf[v]].split < ba[blockOf[v]].end ==>
          (v in d <==> lua[v] > ba[blockOf[v]].split))
    && (forall u: nat, v: nat | u < |blockOf| && v < |blockOf| && blockOf[u] == blockOf[v] ::
          ba[blockOf[u]].split == ba[blockOf[u]].end ==> (u in d <==> v in d))
  }

  lemma MarksPending(a: seq<nat>, lua: seq<nat>, blockOf: seq<int>, ba: seq<PBlock>, d: set<nat>, toDo: seq<nat>)
    requires Inverse(a, lua) && Tiles(a, lua, blockOf, ba) && Marks(lua, blockOf, ba, d, toDo)
    ensures Pending(lua, blockOf, ba, d, toDo)
  {
    forall u: nat, v: nat | u < |blockOf| && v < |blockOf| && blockOf[u] == blockOf[v]
      && ba[blockOf[u]].split == ba[blockOf[u]].end
      ensures u in d <==> v in d
    {
      if ba[blockOf[u]].Singleton() {
        assert lua[u] == lua[v];
        assert a[lua[u]] == u && a[lua[v]] == v;
      }
    }
  }

  /** The ranges, counters and marks after block b has given the nodes right of its
      split index to the new block q and shrunk to p. */
  lemma AfterSplit(preds: seq<seq<Pred>>, a: seq<nat>, lua: seq<nat>, blockOf: seq<int>, ba: seq<PBlock>,
                   d: set<nat>, b: nat, rest: seq<nat>, p: PBlock, q: PBlock, blockOf': seq<int>)
    requires Inverse(a, lua) && Tiles(a, lua, blockOf, ba) && Counted(preds, a, ba)
    requires Pending(lua, blockOf, ba, d, [b] + rest)
    requires b < |ba| && ba[b].start <= ba[b].split < ba[b].end
    requires p.start == ba[b].start && p.end == p.split == ba[b].split
    requires q.start == ba[b].split + 1 && q.end == q.split == ba[b].end
    requires |blockOf'| == |blockOf|
    requires forall v {:trigger blockOf'[v]} :: 0 <= v < |blockOf| ==>
               blockOf'[v] == if ba[b].split < lua[v] <= ba[b].end then |ba| else blockOf[v]
    requires Counts(preds, a[p.start..p.end + 1], p) && Counts(preds, a[q.start..q.end + 1], q)
    ensures Tiles(a, lua, blockOf', ba[b := p] + [q])
    ensures Counted(preds, a, ba[b := p] + [q])
    ensures Pending(lua, blockOf', ba[b := p] + [q], d, rest)
    ensures forall v: nat :: v < |blockOf| ==> blockOf'[v] == if blockOf[v] == b && v in d then |ba| else blockOf[v]
  {
    assert |blockOf'| == |blockOf| && forall v: nat | v < |blockOf| ::
        blockOf'[v] == if blockOf[v] == b && v in d then |ba| else blockOf[v] by {
      MovedAreMarked(a, lua, blockOf, ba, d, b, rest, blockOf');
    }
    hide Inverse, Counts, Pending, Tiles;
    SplitTiles(a, lua, blockOf, ba, b, p, q, blockOf');
    SplitPending(lua, blockOf, ba, d, b, rest, p, q, blockOf');
    SplitCounted(preds, a, ba, b, p, q);
  }

  lemma SplitCounted(preds: seq<seq<Pred>>, a: seq<nat>, ba: seq<PBlock>, b: nat, p: PBlock, q: PBlock)
    requires Counted(preds, a, ba) && b < |ba| && 0 <= p.start <= p.end < |a| && 0 <= q.start <= q.end < |a|
    requires Counts(preds, a[p.start..p.end + 1], p) && Counts(preds, a[q.start..q.end + 1], q)
    ensures Counted(preds, a, ba[b := p] + [q])
  {
    hide Counts;
  }

  /** The nodes right of the split index of a pending block are its marked ones. */
  lemma MovedAreMarked(a: seq<nat>, lua: seq<nat>, blockOf: seq<int>, ba: seq<PBlock>, d: set<nat>, b: nat, rest: seq<nat>,
                       blockOf': seq<int>)
    requires Inverse(a, lua) && Tiles(a, lua, blockOf, ba) && Pending(lua, blockOf, ba, d, [b] + rest)
    requires b < |ba| && ba[b].start <= ba[b].split < ba[b].end && |blockOf'| == |blockOf|
    requires forall v {:trigger blockOf'[v]} :: 0 <= v < |blockOf| ==>
               blockOf'[v] == if ba[b].split < lua[v] <= ba[b].end then |ba| else blockOf[v]
    ensures forall v: nat {:trigger blockOf'[v]} :: v < |blockOf| ==>
              blockOf'[v] == if blockOf[v] == b && v in d then |ba| else blockOf[v]
  {
    forall v: nat | v < |blockOf|
      ensures blockOf'[v] == if blockOf[v] == b && v in d then |ba| else blockOf[v]
    {
      assert a[lua[v]] == v;
      if ba[b].split < lua[v] <= ba[b].end {
        assert blockOf[a[lua[v]]] == b;
      }
    }
  }

  lemma SplitTiles(a: seq<nat>, lua: seq<nat>, blockOf: seq<int>, ba: seq<PBlock>, b: nat, p: PBlock, q: PBlock,
                   blockOf': seq<int>)
    requires Inverse(a, lua) && Tiles(a, lua, blockOf, ba)
    requires b < |ba| && ba[b].start <= ba[b].split < ba[b].end
    requires p.start == ba[b].start && p.end == p.split == ba[b].split
    requires q.start == ba[b].split + 1 && q.end == q.split == ba[b].end
    requires |blockOf'| == |blockOf|
    requires forall v {:trigger blockOf'[v]} :: 0 <= v < |blockOf| ==>
               blockOf'[v] == if ba[b].split < lua[v] <= ba[b].end then |ba| else blockOf[v]
    ensures Tiles(a, lua, blockOf', ba[b := p] + [q])
  {
    var ba' := ba[b := p] + [q];
    forall c, i | 0 <= c < |ba'| && ba'[c].start <= i <= ba'[c].end
      ensures a[i] < |blockOf'| && blockOf'[a[i]] == c
    {
      if c < |ba| {
        assert blockOf[a[i]] == c;
      }
    }
  }

  lemma SplitPending(lua: seq<nat>, blockOf: seq<int>, ba: seq<PBlock>, d: set<nat>, b: nat, rest: seq<nat>,
                     p: PBlock, q: PBlock, blockOf': seq<int>)
    requires Pending(lua, blockOf, ba, d, [b] + rest) && b < |ba|
    requires p.start == ba[b].start <= p.end == p.split && q.start <= q.end == q.split
    requires |blockOf'| == |blockOf|
    requires forall v {:trigger blockOf'[v]} :: 0 <= v < |blockOf| ==>
               blockOf'[v] == if blockOf[v] == b && v in d then |ba| else blockOf[v]
    ensures Pending(lua, blockOf', ba[b := p] + [q], d, rest)
  {
    var ba' := ba[b := p] + [q];
    assert forall c: nat :: c in rest ==> c in [b] + rest;
    DistinctTail(b, rest);
    forall c: nat ensures c in rest <==> c < |ba'| && ba'[c].split < ba'[c].end {
      assert c in [b] + rest <==> c < |ba| && ba[c].split < ba[c].end;
    }
  }

  /** When all marked nodes are in the block there is nothing to split; its split index is reset. */
  lemma ResetPending(a: seq<nat>, lua: seq<nat>, blockOf: seq<int>, ba: seq<PBlock>, d: set<nat>, b: nat, rest: seq<nat>)
    requires Inverse(a, lua) && Tiles(a, lua, blockOf, ba) && Pending(lua, blockOf, ba, d, [b] + rest)
    requires b < |ba| && ba[b].split < ba[b].start
    ensures Pending(lua, blockOf, ba[b := ba[b].SetSplitIndex(ba[b].end)], d, rest)
  {
    var ba' := ba[b := ba[b].SetSplitIndex(ba[b].end)];
    DistinctTail(b, rest);
    forall c: nat ensures c in rest <==> c < |ba'| && ba'[c].split < ba'[c].end {
      assert c in [b] + rest <==> c < |ba| && ba[c].split < ba[c].end;
    }
    forall v: nat | v < |blockOf| && blockOf[v] == b ensures v in d {
      assert v in d <==> lua[v] > ba[b].split;
    }
  }

  /** Exact counters witness every edge. */
  lemma CountedWitnessed(g: Graph, preds: seq<seq<Pred>>, a: seq<nat>, lua: seq<nat>, blockOf: seq<int>, ba: seq<PBlock>)
    requires g.Valid() && PredsOK(g, preds) && Inverse(a, lua) && |a| == |preds|
    requires Tiles(a, lua, blockOf, ba) && Counted(preds, a, ba)
    ensures Witnessed(g, blockOf, ba)
  {
    hide PredsOK, Inverse, Tiles, Counted, PBlock.GetIncoming;
    SameSize(a, lua, blockOf, ba);
    SameNodes(g, preds);
    forall p: nat, e: nat | p < |g.kids| && e in g.kids[p]
      ensures var b := blockOf[g.kids[p][e]]; 0 <= b < |ba| && ba[b].GetIncoming(e) > 0
    {
      EdgeListed(g, preds, p, e);
      var c := g.kids[p][e];
      NodeInBlock(a, lua, blockOf, ba, c);
      EdgeCounted(preds, a, ba, blockOf[c], c, Pred(e, p));
    }
  }

  lemma SameSize(a: seq<nat>, lua: seq<nat>, blockOf: seq<int>, ba: seq<PBlock>)
    requires Tiles(a, lua, blockOf, ba)
    ensures |blockOf| == |a|
  {
  }

  lemma SameNodes(g: Graph, preds: seq<seq<Pred>>)
    requires PredsOK(g, preds)
    ensures |preds| == |g.kids|
  {
  }

  lemma EdgeListed(g: Graph, preds: seq<seq<Pred>>, p: nat, e: nat)
    requires PredsOK(g, preds) && p < |g.kids| && e in g.kids[p]
    ensures g.kids[p][e] < |preds| && Pred(e, p) in preds[g.kids[p][e]]
  {
  }

  /** A node is in the slice of its block. */
  lemma NodeInBlock(a: seq<nat>, lua: seq<nat>, blockOf: seq<int>, ba: seq<PBlock>, c: nat)
    requires Inverse(a, lua) && Tiles(a, lua, blockOf, ba) && c < |a|
    ensures var b := blockOf[c]; 0 <= b < |ba| && 0 <= ba[b].start <= ba[b].end < |a| && c in a[ba[b].start..ba[b].end + 1]
  {
    var b := blockOf[c];
    assert a[lua[c]] == c;
    assert a[ba[b].start..ba[b].end + 1][lua[c] - ba[b].start] == c;
  }

  /** An edge that is listed at a node of a block is counted by the block. */
  lemma EdgeCounted(preds: seq<seq<Pred>>, a: seq<nat>, ba: seq<PBlock>, b: nat, c: nat, x: Pred)
    requires Counted(preds, a, ba) && b < |ba| && c < |preds| && x in preds[c]
    requires 0 <= ba[b].start <= ba[b].end < |a| && c in a[ba[b].start..ba[b].end + 1]
    ensures ba[b].GetIncoming(x.edge) > 0
  {
    hide PBlock.GetIncoming, PBlock.CountOK, InEdges;
    InEdgesPositive(preds, a[ba[b].start..ba[b].end + 1], c, x);
  }

  // ---------- moving the marked nodes into the new block ----------

  /** The nodes at positions m..i-1 have moved from the block p at l..r-1 to the new block q. */
  ghost predicate Halfway(preds: seq<seq<Pred>>, a: seq<nat>, l: nat, m: nat, i: nat, r: nat, p0: PBlock, p: PBlock, q: PBlock) {
    && l <= m <= i <= r <= |a|
    && p.CountOK() && q.CountOK() && |p.inc| == |p0.inc|
    && (forall e: nat :: p.GetIncoming(e) == InEdges(preds, a[l..m], e) + InEdges(preds, a[i..r], e))
    && (forall e: nat :: q.GetIncoming(e) == InEdges(preds, a[m..i], e))
    && (forall e: nat :: p.Marked(e) == (p0.Marked(e) && p.GetIncoming(e) > 0))
    && (forall e: nat :: !q.Marked(e))
  }

  lemma HalfwayStart(preds: seq<seq<Pred>>, a: seq<nat>, l: nat, m: nat, r: nat, p0: PBlock, p: PBlock, q: PBlock)
    requires l <= m <= r <= |a| && Counts(preds, a[l..r], p0)
    requires p.inc == p0.inc && p.agenda == p0.agenda && q.inc == [Invalid] && q.agenda == 0
    ensures Halfway(preds, a, l, m, m, r, p0, p, q)
  {
    assert a[l..r] == a[l..m] + a[m..r];
    assert a[m..m] == [];
    assert Negatives(q.inc) == 0 by {
      NoNegatives(q.inc);
    }
    forall e: nat ensures p.GetIncoming(e) == InEdges(preds, a[l..m], e) + InEdges(preds, a[m..r], e) {
      InEdgesConcat(preds, a[l..m], a[m..r], e);
    }
  }

  lemma HalfwayRoom(preds: seq<seq<Pred>>, a: seq<nat>, l: nat, m: nat, i: nat, r: nat, p0: PBlock, p: PBlock, q: PBlock)
    requires Halfway(preds, a, l, m, i, r, p0, p, q) && i < r && a[i] < |preds|
    ensures forall e: nat :: EdgeCount(preds[a[i]], e) <= p.GetIncoming(e)
  {
    assert a[i..r][0] == a[i];
  }

  lemma HalfwayStep(preds: seq<seq<Pred>>, a: seq<nat>, l: nat, m: nat, i: nat, r: nat, p0: PBlock,
                    p: PBlock, q: PBlock, p': PBlock, q': PBlock)
    requires Halfway(preds, a, l, m, i, r, p0, p, q) && i < r && a[i] < |preds|
    requires p'.CountOK() && q'.CountOK() && |p'.inc| == |p.inc|
    requires forall e: nat :: p'.GetIncoming(e) == p.GetIncoming(e) - EdgeCount(preds[a[i]], e)
    requires forall e: nat :: q'.GetIncoming(e) == q.GetIncoming(e) + EdgeCount(preds[a[i]], e)
    requires forall e: nat :: p'.Marked(e) == (p.Marked(e) && p'.GetIncoming(e) > 0)
    requires forall e: nat :: q'.Marked(e) == q.Marked(e)
    ensures Halfway(preds, a, l, m, i + 1, r, p0, p', q')
  {
    assert a[i..r][1..] == a[i + 1..r];
    assert a[m..i + 1] == a[m..i] + [a[i]];
    forall e: nat ensures q'.GetIncoming(e) == InEdges(preds, a[m..i + 1], e) {
      InEdgesConcat(preds, a[m..i], [a[i]], e);
      InEdgesOne(preds, a[i], e);
    }
  }

  /** At the end both halves have exact counters, and the old half has a cell for
      every edge label of the new one. */
  lemma HalfwayEnd(preds: seq<seq<Pred>>, a: seq<nat>, l: nat, m: nat, r: nat, p0: PBlock, p: PBlock, q: PBlock)
    requires Halfway(preds, a, l, m, r, r, p0, p, q) && Counts(preds, a[l..r], p0)
    ensures Counts(preds, a[l..m], p) && Counts(preds, a[m..r], q)
    ensures forall e: nat :: q.GetIncoming(e) > 0 ==> e < |p.inc|
  {
    assert a[r..r] == [];
    assert a[l..r] == a[l..m] + a[m..r];
    forall e: nat | q.GetIncoming(e) > 0 ensures e < |p.inc| {
      InEdgesConcat(preds, a[l..m], a[m..r], e);
      assert p0.GetIncoming(e) > 0;
    }
  }

  ghost predicate MovedTo(lua: seq<nat>, blockOf: seq<int>, blockOf': seq<int>, nb: int, m: int, i: int) {
    && |blockOf'| == |blockOf| == |lua|
    && forall v {:trigger blockOf'[v]} :: 0 <= v < |lua| ==> blockOf'[v] == if m <= lua[v] < i then nb else blockOf[v]
  }

  lemma MovedStep(a: seq<nat>, lua: seq<nat>, blockOf: seq<int>, blockOf': seq<int>, nb: int, m: int, i: int)
    requires Inverse(a, lua) && 0 <= m <= i < |a| && MovedTo(lua, blockOf, blockOf', nb, m, i)
    ensures a[i] < |blockOf'| && MovedTo(lua, blockOf, blockOf'[a[i] := nb], nb, m, i + 1)
  {
    forall v | 0 <= v < |lua| && v != a[i] ensures lua[v] != i {
      assert a[lua[v]] == v;
    }
  }
}
