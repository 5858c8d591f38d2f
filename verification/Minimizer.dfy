/** Partition refinement over the data graph. */
module Minimizer {
  import opened Heap
  import opened Compare
  import opened PBlocks
  import opened DataGraph
  import opened NodeArray
  import opened Refinement
  import opened Splitting
  import opened Counters
  import opened InitialBlocks
  import opened Reduction

  /** Every block with a mark is on the agenda stack or is the current one. */
  ghost predicate Stacked(ba: seq<PBlock>, agenda: seq<nat>, cur: int) {
    && (forall b {:trigger ba[b]} :: 0 <= b < |ba| && ba[b].IsOnAgenda() ==> b in agenda || b == cur)
    && (forall k {:trigger agenda[k]} :: 0 <= k < |agenda| ==> agenda[k] < |ba|)
  }

  /** Blocks are added, and the counter arrays of the old ones keep their length. */
  ghost predicate SameCells(ba: seq<PBlock>, ba': seq<PBlock>) {
    |ba| <= |ba'| && forall b {:trigger ba'[b]} :: 0 <= b < |ba| ==> |ba'[b].inc| == |ba[b].inc|
  }

  /** A whole split: ranges, counters, pending splits and the refinement invariants. */
  lemma WholeSplit(g: Graph, preds: seq<seq<Pred>>, a: seq<nat>, lua: seq<nat>, blockOf: seq<int>, ba: seq<PBlock>,
                   d: set<nat>, x: int, b: nat, rest: seq<nat>, p: PBlock, q: PBlock, blockOf': seq<int>)
    requires Inverse(a, lua) && |a| == |preds| && PredsOK(g, preds)
    requires Tiles(a, lua, blockOf, ba) && Counted(preds, a, ba)
    requires Pending(lua, blockOf, ba, d, [b] + rest) && Refining(g, blockOf, ba, d, x)
    requires b < |ba| && ba[b].start <= ba[b].split < ba[b].end
    requires p.start == ba[b].start && p.end == p.split == ba[b].split
    requires q.start == ba[b].split + 1 && q.end == q.split == ba[b].end
    requires MovedTo(lua, blockOf, blockOf', |ba|, ba[b].split + 1, ba[b].end + 1)
    requires Counts(preds, a[p.start..p.end + 1], p) && Counts(preds, a[q.start..q.end + 1], q)
    requires HalvesMarked(ba[b], p, q)
    ensures Tiles(a, lua, blockOf', ba[b := p] + [q]) && Counted(preds, a, ba[b := p] + [q])
    ensures Pending(lua, blockOf', ba[b := p] + [q], d, rest)
    ensures Refining(g, blockOf', ba[b := p] + [q], d, x)
  {
    hide Tiles, Counted, Pending, Inverse, PredsOK, Refining, HalvesMarked, Counts;
    AfterSplit(preds, a, lua, blockOf, ba, d, b, rest, p, q, blockOf');
    var ba' := ba[b := p] + [q];
    assert g.Valid() by {
      RefiningValid(g, blockOf, ba, d, x);
    }
    CountedWitnessed(g, preds, a, lua, blockOf', ba');
    assert ba'[|ba|] == q;
    SplitKeepsRefining(g, blockOf, ba, blockOf', ba', b, d, x);
  }

  lemma RefiningValid(g: Graph, blockOf: seq<int>, ba: seq<PBlock>, d: set<nat>, x: int)
    requires Refining(g, blockOf, ba, d, x)
    ensures g.Valid() && |blockOf| == |g.kids|
  {
  }

  lemma StackedSplit(ba: seq<PBlock>, agenda: seq<nat>, cur: int, b: nat, p: PBlock, q: PBlock, agenda': seq<nat>)
    requires Stacked(ba, agenda, cur) && b < |ba| && agenda <= agenda'
    requires forall c :: c in agenda' ==> c in agenda || c == b || c == |ba|
    requires q.IsOnAgenda() ==> |ba| in agenda'
    requires p.IsOnAgenda() ==> ba[b].IsOnAgenda() || b in agenda'
    ensures Stacked(ba[b := p] + [q], agenda', cur)
  {
    var ba' := ba[b := p] + [q];
    forall c | 0 <= c < |ba'| && ba'[c].IsOnAgenda() ensures c in agenda' || c == cur {
      if c < |ba| && ba[c].IsOnAgenda() {
        assert c in agenda || c == cur;
      }
    }
    forall k | 0 <= k < |agenda'| ensures agenda'[k] < |ba'| {
      assert agenda'[k] in agenda';
      if agenda'[k] in agenda {
        var j :| 0 <= j < |agenda| && agenda[j] == agenda'[k];
      }
    }
  }

  class Partition {
    const na: DynNodeArray
    var preds: seq<seq<Pred>>
    var blockOf: seq<int>
    var ba: seq<PBlock>
    var toDo: seq<nat>

    ghost predicate Loaded(g: Graph)
      reads this, na
    {
      && na.Valid() && |na.a| == |preds| == |blockOf|
      && g.Valid() && PredsOK(g, preds)
    }

    /** The node array is tiled by blocks whose counters are exact. */
    ghost predicate Core(g: Graph)
      reads this, na
    {
      && Loaded(g)
      && Tiles(na.a, na.lua, blockOf, ba)
      && Counted(preds, na.a, ba)
    }

    constructor ()
      ensures fresh(na) && na.Valid() && na.a == [] && na.nodes == []
      ensures preds == [] && blockOf == [] && ba == [] && toDo == []
    {
      na := new DynNodeArray();
      preds, blockOf, ba, toDo := [], [], [], [];
    }

    /** Inserts a node and returns its number. */
    method InsertNode(node: Addr) returns (num: nat)
      requires na.Valid() && |na.a| == |preds| == |blockOf|
      modifies this`preds, this`blockOf, na
      ensures na.Valid() && |na.a| == |preds| == |blockOf|
      ensures num == |old(na.nodes)| && na.nodes == old(na.nodes) + [node] && na.a == old(na.a) + [num]
      ensures preds == old(preds) + [[]]
    {
      num := na.InitNext(node);
      preds, blockOf := preds + [[]], blockOf + [-1];
    }

    /** Adds an incoming edge to the node at the given index. */
    method AddParent(nodeIndex: nat, edge: nat, parent: nat)
      requires nodeIndex < |na.a| && na.a[nodeIndex] < |preds|
      modifies this`preds
      ensures preds == old(preds)[na.a[nodeIndex] := old(preds)[na.a[nodeIndex]] + [Pred(edge, parent)]]
    {
      var p := na.a[nodeIndex];
      preds := preds[p := preds[p] + [Pred(edge, parent)]];
    }

    /** Sorts the nodes and forms one block per class of nodes that look the same. */
    method InitBlocks(s: Store, ghost g: Graph)
      requires Loaded(g) && Represents(s, na.nodes, g) && Closed(s) && Unmixed(s)
      requires |na.a| > 0
      modifies this`ba, this`blockOf, na`a, na`lua
      ensures Core(g) && Rested(ba)
      ensures forall b {:trigger ba[b]} :: 0 <= b < |ba| ==> !ba[b].IsOnAgenda()
      ensures forall u, v :: 0 <= u < |blockOf| && 0 <= v < |blockOf| ==>
                (blockOf[u] == blockOf[v] <==> g.key[u] == g.key[v])
    {
      hide CompareNodes, Closed, Unmixed, Observe, Inverse, PredsOK, Sorted, Represents, Scanning,
           Rearranged, Tiles, Counted, EdgeCount, Sub, PBlock.GetIncoming, PBlock.Marked, PBlock.CountOK;
      RepresentsNodes(s, na.nodes, g);
      na.Sort(s, 0, |na.a| - 1);
      InverseRange(na.a, na.lua);
      ba := [];
      var newBlock := NewBlock(0, 0);
      NewBlockCounts(preds, 0, 0);
      blockOf := blockOf[na.a[0] := 0];
      newBlock := AddIncoming(preds[na.a[0]], newBlock);
      ScanFirst(g, preds, na.a, na.lua, blockOf, newBlock);
      var i := 1;
      while i < |na.a|
        modifies this`ba, this`blockOf
        invariant 1 <= i <= |na.a| && |blockOf| == |preds|
        invariant Scanning(g, preds, na.a, na.lua, blockOf, ba, newBlock, i)
      {
        var cur, last := na.a[i], na.a[i - 1];
        ghost var blockOf0, ba0, p0 := blockOf, ba, newBlock;
        ScanCounts(g, preds, na.a, na.lua, blockOf, ba, newBlock, i);
        if CompareNodes(s, na.nodes[cur], na.nodes[last]) == 1 {
          newBlock := newBlock.SetEnd(i - 1);
          newBlock := newBlock.SetSplitIndex(i - 1);
          ba := ba + [newBlock];
          newBlock := NewBlock(i, 0);
          NewBlockCounts(preds, i, 0);
        }
        blockOf := blockOf[cur := |ba|];
        ghost var r := newBlock;
        newBlock := AddIncoming(preds[cur], newBlock);
        ScanStep(s, g, na.nodes, preds, na.a, na.lua, blockOf0, ba0, p0, i, ba, r, newBlock);
        i := i + 1;
      }
      ScanCounts(g, preds, na.a, na.lua, blockOf, ba, newBlock, i);
      ghost var p0 := newBlock;
      newBlock := newBlock.SetEnd(|na.a| - 1);
      newBlock := newBlock.SetSplitIndex(|na.a| - 1);
      ScanEnd(g, preds, na.a, na.lua, blockOf, ba, p0);
      ba := ba + [newBlock];
    }

    /** Puts every block on the agenda with all its incoming edges. */
    method InitAgenda(ghost g: Graph) returns (agenda: seq<nat>)
      requires Core(g) && Rested(ba)
      requires forall b {:trigger ba[b]} :: 0 <= b < |ba| ==> !ba[b].IsOnAgenda()
      modifies this`ba
      ensures Core(g) && Rested(ba) && Stacked(ba, agenda, -1)
      ensures forall b, e: nat :: 0 <= b < |ba| && ba[b].GetIncoming(e) > 0 ==> ba[b].Marked(e)
    {
      hide Tiles, Counts, Inverse, PredsOK;
      agenda := [];
      var i := |ba|;
      while i != 0
        invariant 0 <= i <= |ba| == |old(ba)|
        invariant Core(g) && Rested(ba) && Stacked(ba, agenda, -1)
        invariant forall b {:trigger ba[b]} :: 0 <= b < i ==> !ba[b].IsOnAgenda()
        invariant forall b, e: nat :: i <= b < |ba| && ba[b].GetIncoming(e) > 0 ==> ba[b].Marked(e)
      {
        i := i - 1;
        CountsOK(preds, na.a[ba[i].start..ba[i].end + 1], ba[i]);
        var p, agenda' := PutCompleteOnAgenda(ba[i], i, agenda);
        SameRangeTiles(na.a, na.lua, blockOf, ba, i, p);
        SameCounts(preds, na.a[ba[i].start..ba[i].end + 1], ba[i], p);
        assert forall b :: b in agenda ==> b in agenda';
        ba, agenda := ba[i := p], agenda';
      }
    }

    /** Marks a node of the given block for splitting. Reports whether it moved. */
    method SplitBlockAtNode(ghost g: Graph, ghost d: set<nat>, block: nat, node: nat) returns (moved: bool)
      requires Core(g) && Marks(na.lua, blockOf, ba, d, toDo)
      requires node < |blockOf| && blockOf[node] == block
      modifies this`ba, this`toDo, na`a, na`lua
      ensures Core(g) && Marks(na.lua, blockOf, ba, d + {node}, toDo)
      ensures SameButSplit(old(ba), ba)
      ensures SameOutside(old(na.a), na.a, ba[block].start, ba[block].end)
      ensures moved <==> !ba[block].Singleton() && node !in d
    {
      hide Marks, Tiles, Counted, Inverse, PredsOK;
      MarkRange(na.a, na.lua, blockOf, ba, d, toDo, node);
      var b := ba[block];
      var nodeIndex := na.lua[node];
      var si, end := b.split, b.end;
      if end - b.start == 0 {
        return false;
      }
      moved := false;
      ghost var ba0 := ba;
      if si >= nodeIndex {
        MarkOne(na.a, na.lua, blockOf, ba, d, toDo, node);
        SwapKeepsTiles(na.a, na.lua, blockOf, ba, block, si, nodeIndex);
        SwapKeepsCounted(preds, na.a, na.lua, blockOf, ba, block, si, nodeIndex);
      } else {
        assert d + {node} == d;
      }
      if si == end {
        toDo := [block] + toDo;
      }
      if si >= nodeIndex {
        na.Swap(si, nodeIndex);
        ba := ba[block := b.SetSplitIndex(si - 1)];
        SameButSplitKeeps(preds, na.a, na.lua, blockOf, ba0, ba);
        moved := true;
      }
    }

    /** Marks the edge-parents of node v, except those in the block itself, which are
        collected in own. */
    method FollowNode(ghost g: Graph, ghost d: set<nat>, block: nat, edge: nat, v: nat, own: seq<nat>)
      returns (ghost d': set<nat>, own': seq<nat>)
      requires Core(g) && Marks(na.lua, blockOf, ba, d, toDo)
      requires v < |preds| && block < |ba| && AllIn(own, blockOf, block)
      modifies this`ba, this`toDo, na`a, na`lua
      ensures Core(g) && Marks(na.lua, blockOf, ba, d', toDo)
      ensures SameButSplit(old(ba), ba)
      ensures SameOn(old(na.a), na.a, ba[block].start, ba[block].end)
      ensures AllIn(own', blockOf, block)
      ensures d' + Elements(own') == d + Elements(own) + EdgeParents(preds[v], edge)
    {
      hide Marks, Counted, Inverse, Tiles, PredsOK, SameOn, SameOutside;
      TilesRange(na.a, na.lua, blockOf, ba, block);
      SameOnRefl(na.a, ba[block].start, ba[block].end);
      d', own' := d, own;
      var ps := preds[v];
      var j := |ps|;
      assert EdgeParents(ps[j..], edge) == {};
      while j != 0
        invariant 0 <= j <= |ps|
        invariant Core(g) && Marks(na.lua, blockOf, ba, d', toDo)
        invariant SameButSplit(old(ba), ba)
        invariant SameOn(old(na.a), na.a, ba[block].start, ba[block].end)
        invariant AllIn(own', blockOf, block)
        invariant d' + Elements(own') == d + Elements(own) + EdgeParents(ps[j..], edge)
      {
        j := j - 1;
        EdgeParentsStep(ps, edge, j);
        ParentInRange(g, preds, v, j);
        if ps[j].edge == edge {
          var parent := ps[j].parent;
          TilesRange(na.a, na.lua, blockOf, ba, block);
          var parentBlock := blockOf[parent];
          if parentBlock == block {
            ElementsPush(parent, own');
            own' := [parent] + own';
          } else {
            ghost var a1, lua1, ba1 := na.a, na.lua, ba;
            var moved := SplitBlockAtNode(g, d', parentBlock, parent);
            OtherBlock(old(na.a), a1, na.a, lua1, blockOf, ba1, block, parentBlock);
            d' := d' + {parent};
          }
        }
      }
      assert ps[0..] == ps;
    }

    /** Marks every node with an edge into the block, its own nodes last. */
    method FollowBack(ghost g: Graph, block: nat, edge: nat)
      requires Core(g) && Marks(na.lua, blockOf, ba, {}, toDo)
      requires block < |ba|
      modifies this`ba, this`toDo, na`a, na`lua
      ensures Core(g) && Marks(na.lua, blockOf, ba, ParentsOf(g, blockOf, block, edge), toDo)
      ensures SameButSplit(old(ba), ba)
    {
      hide Marks, Counted, Inverse, Tiles, PredsOK, SameOutside, ListedParents, ParentsOf;
      TilesRange(na.a, na.lua, blockOf, ba, block);
      var start, end := ba[block].start, ba[block].end;
      ghost var a0 := na.a;
      ListedAreParents(g, preds, na.a, na.lua, blockOf, ba, block, edge);
      ListedNone(preds, a0, edge, start);
      ghost var d: set<nat> := {};
      var own: seq<nat> := [];
      var i := start;
      while i <= end
        invariant start <= i <= end + 1
        invariant Core(g) && Marks(na.lua, blockOf, ba, d, toDo)
        invariant SameButSplit(old(ba), ba)
        invariant SameOn(a0, na.a, start, end)
        invariant AllIn(own, blockOf, block)
        invariant d + Elements(own) == ListedParents(preds, a0, edge, start, i)
      {
        ListedStep(preds, a0, edge, start, i);
        d, own := FollowNode(g, d, block, edge, na.a[i], own);
        i := i + 1;
      }
      while own != []
        invariant Core(g) && Marks(na.lua, blockOf, ba, d, toDo)
        invariant SameButSplit(old(ba), ba)
        invariant AllIn(own, blockOf, block)
        invariant d + Elements(own) == ParentsOf(g, blockOf, block, edge)
        decreases |own|
      {
        ElementsPush(own[0], own[1..]);
        assert own == [own[0]] + own[1..];
        var moved := SplitBlockAtNode(g, d, block, own[0]);
        d := d + {own[0]};
        own := own[1..];
      }
      assert d + Elements(own) == d;
    }

    /** Moves the marked nodes of a block to a new one that is still to be entered. */
    method MoveNodes(ghost g: Graph, block: nat) returns (p: PBlock, q: PBlock)
      requires Core(g) && block < |ba| && ba[block].start <= ba[block].split < ba[block].end
      modifies this`blockOf
      ensures |blockOf| == |old(blockOf)|
      ensures MovedTo(na.lua, old(blockOf), blockOf, |ba|, ba[block].split + 1, ba[block].end + 1)
      ensures p.start == ba[block].start && p.end == p.split == ba[block].split
      ensures q.start == ba[block].split + 1 && q.end == q.split == ba[block].end < |na.a|
      ensures Counts(preds, na.a[p.start..p.end + 1], p) && Counts(preds, na.a[q.start..q.end + 1], q)
      ensures |p.inc| == |ba[block].inc| && forall e: nat :: q.GetIncoming(e) > 0 ==> e < |p.inc|
      ensures forall e: nat :: p.Marked(e) == (ba[block].Marked(e) && p.GetIncoming(e) > 0)
      ensures forall e: nat :: !q.Marked(e)
    {
      hide Tiles, PredsOK, Inverse, Counts, Halfway, MovedTo;
      TilesRange(na.a, na.lua, blockOf, ba, block);
      var pb := ba[block];
      var newEnd := pb.end;
      var newStart := pb.split + 1;
      p := pb.SetEnd(newStart - 1);
      p := p.SetSplitIndex(newStart - 1);
      q := NewBlock(newStart, newEnd);
      HalfwayStart(preds, na.a, pb.start, newStart, newEnd + 1, pb, p, q);
      MovedNone(na.lua, blockOf, |ba|, newStart);
      var i := newStart;
      while i <= newEnd
        invariant newStart <= i <= newEnd + 1
        invariant p.start == pb.start && p.end == p.split == newStart - 1
        invariant q.start == newStart && q.end == q.split == newEnd
        invariant Halfway(preds, na.a, pb.start, newStart, i, newEnd + 1, pb, p, q)
        invariant |blockOf| == |old(blockOf)|
        invariant MovedTo(na.lua, old(blockOf), blockOf, |ba|, newStart, i)
      {
        var v := na.a[i];
        MovedStep(na.a, na.lua, old(blockOf), blockOf, |ba|, newStart, i);
        HalfwayRoom(preds, na.a, pb.start, newStart, i, newEnd + 1, pb, p, q);
        HalfwayCounts(preds, na.a, pb.start, newStart, i, newEnd + 1, pb, p, q);
        blockOf := blockOf[v := |ba|];
        var p', q' := MoveIncoming(preds[v], p, q);
        HalfwayStep(preds, na.a, pb.start, newStart, i, newEnd + 1, pb, p, q, p', q');
        p, q := p', q';
        i := i + 1;
      }
      HalfwayCounts(preds, na.a, pb.start, newStart, i, newEnd + 1, pb, p, q);
      HalfwayEnd(preds, na.a, pb.start, newStart, newEnd + 1, pb, p, q);
    }

    /** Splits one block of the to-do list if some but not all of its nodes are marked. */
    method SplitBlock(ghost g: Graph, ghost d: set<nat>, ghost x: int, block: nat, ghost rest: seq<nat>,
                      ghost cur: int, agenda: seq<nat>) returns (agenda': seq<nat>)
      requires Core(g) && block < |ba| && Pending(na.lua, blockOf, ba, d, [block] + rest)
      requires Refining(g, blockOf, ba, d, x) && Stacked(ba, agenda, cur)
      modifies this`ba, this`blockOf
      ensures Core(g) && Pending(na.lua, blockOf, ba, d, rest)
      ensures Refining(g, blockOf, ba, d, x) && Stacked(ba, agenda', cur)
      ensures SameCells(old(ba), ba)
      ensures |ba| > |old(ba)| || SameButSplit(old(ba), ba)
    {
      hide Tiles, Counted, PredsOK, Inverse, Refining, Pending, MovedTo, Counts, HalvesMarked;
      PendingFront(na.lua, blockOf, ba, d, block, rest);
      var pb := ba[block];
      ghost var ba0 := ba;
      agenda' := agenda;
      if pb.split < pb.start {
        ResetPending(na.a, na.lua, blockOf, ba, d, block, rest);
        ba := ba[block := pb.SetSplitIndex(pb.end)];
        SameButSplitKeeps(preds, na.a, na.lua, blockOf, ba0, ba);
        SameMarksRefining(g, blockOf, ba0, ba, d, x);
        return;
      }
      TilesRange(na.a, na.lua, blockOf, ba, block);
      var p, q := MoveNodes(g, block);
      CountsOK(preds, na.a[p.start..p.end + 1], p);
      CountsOK(preds, na.a[q.start..q.end + 1], q);
      var p', q';
      p', q', agenda' := MarkHalves(p, q, block, |ba|, agenda);
      assert HalvesMarked(pb, p', q') by {
        HalvesOf(pb, p, q, p', q');
      }
      SameCounts(preds, na.a[p.start..p.end + 1], p, p');
      SameCounts(preds, na.a[q.start..q.end + 1], q, q');
      WholeSplit(g, preds, na.a, na.lua, old(blockOf), ba, d, x, block, rest, p', q', blockOf);
      assert p.IsOnAgenda() ==> pb.IsOnAgenda() by {
        FewerMarks(preds, na.a, ba, block, p);
      }
      StackedSplit(ba, agenda, cur, block, p', q', agenda');
      ba := ba[block := p'] + [q'];
    }

    /** Splits every block on the to-do list. */
    method DoSplits(ghost g: Graph, ghost d: set<nat>, ghost x: int, ghost cur: int, agenda: seq<nat>)
      returns (agenda': seq<nat>)
      requires Core(g) && Marks(na.lua, blockOf, ba, d, toDo)
      requires Refining(g, blockOf, ba, d, x) && Stacked(ba, agenda, cur)
      modifies this`ba, this`blockOf, this`toDo
      ensures Core(g) && Marks(na.lua, blockOf, ba, {}, toDo)
      ensures Refining(g, blockOf, ba, {}, -1) && Stacked(ba, agenda', cur)
      ensures SameCells(old(ba), ba)
      ensures |ba| > |old(ba)| || SameButSplit(old(ba), ba)
    {
      hide Marks, Tiles, Counted, PredsOK, Inverse, Refining, Pending, Stacked;
      MarksPending(na.a, na.lua, blockOf, ba, d, toDo);
      agenda' := agenda;
      var rest := toDo;
      while rest != []
        invariant Core(g) && Pending(na.lua, blockOf, ba, d, rest)
        invariant Refining(g, blockOf, ba, d, x) && Stacked(ba, agenda', cur)
        invariant SameCells(old(ba), ba)
        invariant |ba| > |old(ba)| || SameButSplit(old(ba), ba)
        decreases |rest|
      {
        assert rest == [rest[0]] + rest[1..];
        PendingFront(na.lua, blockOf, ba, d, rest[0], rest[1..]);
        agenda' := SplitBlock(g, d, x, rest[0], rest[1..], cur, agenda');
        rest := rest[1..];
      }
      SplitsDone(g, na.a, na.lua, blockOf, ba, d, x);
      toDo := [];
    }

    /** Takes one edge label of a block off the agenda and refines by it: a block is
        added, or else there is one mark less. */
    method ProcessEdge(ghost g: Graph, block: nat, edge: nat, agenda: seq<nat>) returns (agenda': seq<nat>)
      requires Core(g) && Marks(na.lua, blockOf, ba, {}, toDo)
      requires Refining(g, blockOf, ba, {}, -1) && Stacked(ba, agenda, block)
      requires block < |ba| && ba[block].Marked(edge)
      modifies this`ba, this`blockOf, this`toDo, na`a, na`lua
      ensures Core(g) && Marks(na.lua, blockOf, ba, {}, toDo)
      ensures Refining(g, blockOf, ba, {}, -1) && Stacked(ba, agenda', block)
      ensures SameCells(old(ba), ba)
      ensures |ba| > |old(ba)| || (|ba| == |old(ba)| && MarksTotal(ba) < MarksTotal(old(ba)))
    {
      hide Marks, Tiles, Counted, PredsOK, Inverse, Refining, Stacked, ParentsOf, Negatives;
      ghost var d := ParentsOf(g, blockOf, block, edge);
      RefiningUnmark(g, preds, na.a, blockOf, ba, block, edge);
      UnmarkKeepsCore(preds, na.a, na.lua, blockOf, ba, toDo, agenda, block, edge);
      ba := ba[block := ba[block].RemoveFromAgenda(edge)];
      ghost var ba1 := ba;
      FollowBack(g, block, edge);
      ghost var ba2 := ba;
      SameMarksRefining(g, blockOf, ba1, ba2, d, edge);
      SameMarksStacked(ba1, ba2, agenda, block);
      agenda' := DoSplits(g, d, edge, block, agenda);
      if |ba| == |ba2| {
        SameMarksTotal(ba1, ba2);
        SameMarksTotal(ba2, ba);
      }
    }

    /** One pass over the edge labels of the current block. */
    method ProcessEdges(ghost g: Graph, block: nat, pbSize: nat, agenda: seq<nat>) returns (agenda': seq<nat>)
      requires Core(g) && Marks(na.lua, blockOf, ba, {}, toDo)
      requires Refining(g, blockOf, ba, {}, -1) && Stacked(ba, agenda, block)
      requires block < |ba| && ba[block].IsOnAgenda() && |ba[block].inc| == pbSize
      modifies this`ba, this`blockOf, this`toDo, na`a, na`lua
      ensures Core(g) && Marks(na.lua, blockOf, ba, {}, toDo)
      ensures Refining(g, blockOf, ba, {}, -1) && Stacked(ba, agenda', block)
      ensures SameCells(old(ba), ba)
      ensures |ba| > |old(ba)| || (|ba| == |old(ba)| && MarksTotal(ba) < MarksTotal(old(ba)))
    {
      hide Marks, Tiles, Counted, PredsOK, Inverse, Refining, Stacked;
      assert exists e: nat :: e < pbSize && ba[block].Marked(e) by {
        CountedOnAgenda(preds, na.a, ba, block);
      }
      agenda' := agenda;
      var edge := 0;
      while edge <= pbSize
        invariant 0 <= edge <= pbSize + 1
        invariant Core(g) && Marks(na.lua, blockOf, ba, {}, toDo)
        invariant Refining(g, blockOf, ba, {}, -1) && Stacked(ba, agenda', block)
        invariant SameCells(old(ba), ba)
        invariant |ba| > |old(ba)| || (|ba| == |old(ba)| && MarksTotal(ba) < MarksTotal(old(ba)))
                  || (ba == old(ba) && forall e: nat :: e < edge ==> !ba[block].Marked(e))
      {
        if ba[block].Marked(edge) {
          agenda' := ProcessEdge(g, block, edge, agenda');
        }
        edge := edge + 1;
      }
    }

    /** Refines until the agenda is empty. */
    method Refine(ghost g: Graph, agenda0: seq<nat>)
      requires Core(g) && Marks(na.lua, blockOf, ba, {}, toDo)
      requires Refining(g, blockOf, ba, {}, -1) && Stacked(ba, agenda0, -1)
      modifies this`ba, this`blockOf, this`toDo, na`a, na`lua
      ensures Core(g) && Refining(g, blockOf, ba, {}, -1) && Stacked(ba, [], -1)
    {
      hide Marks, Tiles, Counted, PredsOK, Inverse, Refining, Stacked;
      var agenda := agenda0;
      while agenda != []
        invariant Core(g) && Marks(na.lua, blockOf, ba, {}, toDo)
        invariant Refining(g, blockOf, ba, {}, -1) && Stacked(ba, agenda, -1)
        decreases |preds| - |ba|, MarksTotal(ba), |agenda|
      {
        var last := |agenda| - 1;
        var block := agenda[last];
        PopStacked(ba, agenda);
        agenda := agenda[..last];
        var pbSize := ba[block].SizeOfIncoming();
        ghost var ba0 := ba;
        while ba[block].IsOnAgenda()
          invariant Core(g) && Marks(na.lua, blockOf, ba, {}, toDo)
          invariant Refining(g, blockOf, ba, {}, -1) && Stacked(ba, agenda, block)
          invariant SameCells(ba0, ba)
          invariant |ba| > |ba0| || (|ba| == |ba0| && MarksTotal(ba) < MarksTotal(ba0))
                    || (ba == ba0 && |agenda| <= last)
          decreases |preds| - |ba|, MarksTotal(ba)
        {
          agenda := ProcessEdges(g, block, pbSize, agenda);
          BlockBound(na.a, na.lua, blockOf, ba);
        }
        BlockBound(na.a, na.lua, blockOf, ba);
        UnstackIdle(ba, agenda, block);
      }
    }

    /** Replaces every node by the first node of its block, the root leading its own. */
    method ReduceGraph(s: Store, ghost g: Graph) returns (s': Store, ghost rep: seq<nat>)
      requires Core(g) && Represents(s, na.nodes, g) && |na.a| > 0
      modifies na`a, na`lua
      ensures Core(g) && Redirected(s, s', na.nodes, g, rep) && rep[0] == 0
      ensures IsLeaders(na.a, blockOf, ba, rep)
    {
      hide Tiles, Counted, PredsOK, Inverse, Represents, Redirected, PartlyRedirected, RepsInRange, Graph.Valid;
      LeadRoot(g);
      LeaderFacts(na.a, na.lua, blockOf, ba);
      rep := Leaders(na.a, blockOf, ba);
      LeadersInRange(s, na.nodes, g, na.a, na.lua, blockOf, ba);
      NoneRedirected(s, na.nodes, g, rep);
      ghost var done: set<Pred> := {};
      s' := s;
      var i := |ba|;
      while i != 0
        modifies {}
        invariant 0 <= i <= |ba|
        invariant PartlyRedirected(s, s', na.nodes, g, rep, done)
        invariant DoneFrom(preds, na.a, ba, done, i)
      {
        i := i - 1;
        s', done := RedirectBlock(s, s', g, rep, done, i);
      }
      AllDone(preds, na.a, na.lua, blockOf, ba, rep, done);
      AllRedirected(s, s', na.nodes, g, rep, preds, done);
    }

    /** Makes the root the first node of its block. */
    method LeadRoot(ghost g: Graph)
      requires Core(g) && |na.a| > 0
      modifies na`a, na`lua
      ensures Core(g) && |blockOf| > 0 && 0 <= blockOf[0] < |ba|
      ensures 0 <= ba[blockOf[0]].start < |na.a| && na.a[ba[blockOf[0]].start] == 0
    {
      hide Tiles, Counted, PredsOK, Inverse, Graph.Valid;
      LeaderFacts(na.a, na.lua, blockOf, ba);
      var root := na.a[na.lua[0]];
      var rootBlock := blockOf[root];
      var rootStart := ba[rootBlock].start;
      var rbStart := na.a[rootStart];
      if root != rbStart {
        SwapKeepsTiles(na.a, na.lua, blockOf, ba, rootBlock, na.lua[0], na.lua[rbStart]);
        SwapKeepsCounted(preds, na.a, na.lua, blockOf, ba, rootBlock, na.lua[0], na.lua[rbStart]);
        na.Swap(na.lua[0], na.lua[rbStart]);
      }
    }

    method RedirectBlock(ghost s: Store, s1: Store, ghost g: Graph, ghost rep: seq<nat>, ghost done: set<Pred>, i: nat)
      returns (s2: Store, ghost done': set<Pred>)
      requires Core(g) && Represents(s, na.nodes, g) && i < |ba|
      requires IsLeaders(na.a, blockOf, ba, rep)
      requires PartlyRedirected(s, s1, na.nodes, g, rep, done) && DoneFrom(preds, na.a, ba, done, i + 1)
      ensures PartlyRedirected(s, s2, na.nodes, g, rep, done') && DoneFrom(preds, na.a, ba, done', i)
    {
      hide Tiles, Counted, PredsOK, Inverse, Represents, PartlyRedirected, Graph.Valid;
      LeaderFacts(na.a, na.lua, blockOf, ba);
      var start, end := ba[i].start, ba[i].end;
      var leader := na.nodes[na.a[start]];
      s2, done' := s1, done;
      var j := start + 1;
      while j <= end
        invariant start + 1 <= j <= end + 1
        invariant PartlyRedirected(s, s2, na.nodes, g, rep, done')
        invariant done <= done'
        invariant forall k, x :: start < k < j && x in preds[na.a[k]] ==> x in done'
      {
        var c := na.a[j];
        PredsInto(g, preds, c);
        s2 := RedirectNode(s, s2, na.nodes, g, rep, done', c, preds[c], leader);
        done' := done' + (set x | x in preds[c]);
        j := j + 1;
      }
    }

    /** Minimizes the loaded graph: the store is redirected to one representative for
        each class of bisimilar nodes, and the root represents itself. */
    method Minimize(s: Store, ghost g: Graph) returns (s': Store, ghost rep: seq<nat>)
      requires Loaded(g) && Represents(s, na.nodes, g) && Closed(s) && Unmixed(s)
      requires toDo == []
      modifies this`ba, this`blockOf, this`toDo, na`a, na`lua
      ensures Redirected(s, s', na.nodes, g, rep) && IsReps(g, rep)
      ensures |na.nodes| > 0 ==> rep[0] == 0
    {
      hide Closed, Unmixed, PredsOK, Inverse, Represents, Redirected, IsReps, Tiles, Counted,
           Refining, Stacked, Marks, Graph.Valid;
      if |na.a| < 2 {
        s' := s;
        rep := seq(|na.a|, i => i);
        SmallGraph(s, na.nodes, g, rep);
        return;
      }
      InitBlocks(s, g);
      var agenda := InitAgenda(g);
      CountedWitnessed(g, preds, na.a, na.lua, blockOf, ba);
      TilesBlocks(na.a, na.lua, blockOf, ba);
      RepresentsSizes(s, na.nodes, g);
      InitialRefining(g, blockOf, ba);
      RestedMarks(na.a, na.lua, blockOf, ba);
      Refine(g, agenda);
      FinalPartition(g, preds, na.a, blockOf, ba);
      s', rep := ReduceGraph(s, g);
      LeadersAreReps(g, na.a, na.lua, blockOf, ba, rep);
    }
  }

  // ---------- leaders ----------

  /** rep maps every node to the first node of its block. */
  ghost predicate IsLeaders(a: seq<nat>, blockOf: seq<int>, ba: seq<PBlock>, rep: seq<nat>) {
    |rep| == |blockOf| && forall v {:trigger rep[v]} :: 0 <= v < |rep| ==>
      0 <= blockOf[v] < |ba| && 0 <= ba[blockOf[v]].start < |a| && rep[v] == a[ba[blockOf[v]].start]
  }

  ghost function Leaders(a: seq<nat>, blockOf: seq<int>, ba: seq<PBlock>): (rep: seq<nat>)
    requires forall v {:trigger blockOf[v]} :: 0 <= v < |blockOf| ==>
               0 <= blockOf[v] < |ba| && 0 <= ba[blockOf[v]].start < |a|
    ensures IsLeaders(a, blockOf, ba, rep)
  {
    seq(|blockOf|, v requires 0 <= v < |blockOf| => a[ba[blockOf[v]].start])
  }

  lemma LeaderFacts(a: seq<nat>, lua: seq<nat>, blockOf: seq<int>, ba: seq<PBlock>)
    requires Inverse(a, lua) && Tiles(a, lua, blockOf, ba)
    ensures |a| == |lua| == |blockOf|
    ensures forall i {:trigger a[i]} :: 0 <= i < |a| ==> a[i] < |a| && lua[a[i]] == i
    ensures forall v {:trigger lua[v]} :: 0 <= v < |lua| ==> lua[v] < |a| && a[lua[v]] == v
    ensures forall b {:trigger ba[b]} :: 0 <= b < |ba| ==> 0 <= ba[b].start <= ba[b].end < |a|
    ensures forall v {:trigger blockOf[v]} :: 0 <= v < |blockOf| ==>
              0 <= blockOf[v] < |ba| && ba[blockOf[v]].start <= lua[v] <= ba[blockOf[v]].end
    ensures forall b, i {:trigger ba[b], a[i]} :: 0 <= b < |ba| && ba[b].start <= i <= ba[b].end ==> blockOf[a[i]] == b
  {
  }

  lemma LeadersInRange(s: Store, nodes: seq<Addr>, g: Graph, a: seq<nat>, lua: seq<nat>, blockOf: seq<int>, ba: seq<PBlock>)
    requires Inverse(a, lua) && Tiles(a, lua, blockOf, ba) && Represents(s, nodes, g) && |nodes| == |a|
    ensures RepsInRange(nodes, g, Leaders(a, blockOf, ba))
  {
  }

  /** All edges into the followers of the blocks from i on are in done. */
  ghost predicate DoneFrom(preds: seq<seq<Pred>>, a: seq<nat>, ba: seq<PBlock>, done: set<Pred>, i: int) {
    forall b, k, x {:trigger ba[b], x in preds[a[k]]} ::
      i <= b < |ba| && 0 <= b && 0 <= ba[b].start < k <= ba[b].end < |a| && a[k] < |preds| && x in preds[a[k]] ==> x in done
  }

  lemma AllDone(preds: seq<seq<Pred>>, a: seq<nat>, lua: seq<nat>, blockOf: seq<int>, ba: seq<PBlock>, rep: seq<nat>,
                done: set<Pred>)
    requires Inverse(a, lua) && Tiles(a, lua, blockOf, ba) && |preds| == |a| && IsLeaders(a, blockOf, ba, rep)
    requires DoneFrom(preds, a, ba, done, 0)
    ensures forall c, x :: 0 <= c < |preds| && rep[c] != c && x in preds[c] ==> x in done
  {
    forall c, x | 0 <= c < |preds| && rep[c] != c && x in preds[c] ensures x in done {
      assert a[lua[c]] == c;
      assert x in preds[a[lua[c]]];
      assert ba[blockOf[c]].start <= lua[c] <= ba[blockOf[c]].end;
    }
  }

  lemma PredsInto(g: Graph, preds: seq<seq<Pred>>, c: nat)
    requires PredsOK(g, preds) && c < |preds|
    ensures |preds| == |g.kids|
    ensures forall k :: 0 <= k < |preds[c]| ==>
              var x := preds[c][k];
              x.parent < |preds| && x.edge in g.kids[x.parent] && g.kids[x.parent][x.edge] == c
  {
    forall k | 0 <= k < |preds[c]|
      ensures var x := preds[c][k];
              x.parent < |preds| && x.edge in g.kids[x.parent] && g.kids[x.parent][x.edge] == c
    {
      assert preds[c][k] in preds[c];
    }
  }

  /** If blocks are the bisimilarity classes, their leaders represent them. */
  lemma LeadersAreReps(g: Graph, a: seq<nat>, lua: seq<nat>, blockOf: seq<int>, ba: seq<PBlock>, rep: seq<nat>)
    requires g.Valid() && |blockOf| == |g.kids| && Inverse(a, lua) && Tiles(a, lua, blockOf, ba)
    requires IsLeaders(a, blockOf, ba, rep)
    requires forall u: nat, v: nat :: u < |blockOf| && v < |blockOf| ==> (blockOf[u] == blockOf[v] <==> Bisimilar(g, u, v))
    ensures IsReps(g, rep)
  {
    forall v | 0 <= v < |rep| ensures rep[v] < |rep| && blockOf[rep[v]] == blockOf[v] {
      assert ba[blockOf[v]].start <= lua[v];
    }
  }

  /** With an empty agenda the blocks are the bisimilarity classes. */
  lemma FinalPartition(g: Graph, preds: seq<seq<Pred>>, a: seq<nat>, blockOf: seq<int>, ba: seq<PBlock>)
    requires Refining(g, blockOf, ba, {}, -1) && Stacked(ba, [], -1) && Counted(preds, a, ba)
    ensures |blockOf| == |g.kids|
    ensures forall u: nat, v: nat :: u < |blockOf| && v < |blockOf| ==> (blockOf[u] == blockOf[v] <==> Bisimilar(g, u, v))
  {
    EmptyAgendaIsStable(g, blockOf, ba);
    forall u: nat, v: nat | u < |blockOf| && v < |blockOf|
      ensures blockOf[u] == blockOf[v] <==> Bisimilar(g, u, v)
    {
      StableCoarseIsBisimilarity(g, blockOf, u, v);
    }
  }

  /** A graph of at most one node is already minimal. */
  lemma SmallGraph(s: Store, nodes: seq<Addr>, g: Graph, rep: seq<nat>)
    requires Represents(s, nodes, g) && |nodes| < 2 && |rep| == |nodes|
    requires forall v :: 0 <= v < |rep| ==> rep[v] == v
    ensures Redirected(s, s, nodes, g, rep) && IsReps(g, rep)
  {
    hide Bisimilar;
    NothingMoved(s, nodes, g, rep);
    if |nodes| == 1 {
      SelfBisimilar(s, nodes, g);
    }
  }

  lemma SelfBisimilar(s: Store, nodes: seq<Addr>, g: Graph)
    requires Represents(s, nodes, g) && |nodes| == 1
    ensures Bisimilar(g, 0, 0)
  {
    var r := {(0, 0)};
    assert IsBisimulation(g, r) && (0, 0) in r;
  }

  lemma NothingMoved(s: Store, nodes: seq<Addr>, g: Graph, rep: seq<nat>)
    requires Represents(s, nodes, g) && |rep| == |nodes| && forall v :: 0 <= v < |rep| ==> rep[v] == v
    ensures Redirected(s, s, nodes, g, rep)
  {
    hide Observe;
  }

  lemma TilesBlocks(a: seq<nat>, lua: seq<nat>, blockOf: seq<int>, ba: seq<PBlock>)
    requires Tiles(a, lua, blockOf, ba)
    ensures forall v {:trigger blockOf[v]} :: 0 <= v < |blockOf| ==> 0 <= blockOf[v] < |ba|
  {
  }

  lemma RepresentsSizes(s: Store, nodes: seq<Addr>, g: Graph)
    requires Represents(s, nodes, g)
    ensures |nodes| == |g.kids| == |g.key|
  {
  }

  lemma RestedMarks(a: seq<nat>, lua: seq<nat>, blockOf: seq<int>, ba: seq<PBlock>)
    requires Tiles(a, lua, blockOf, ba) && Rested(ba)
    ensures Marks(lua, blockOf, ba, {}, [])
  {
  }

  /** The number of marks over all blocks. */
  ghost function MarksTotal(ba: seq<PBlock>): nat {
    if ba == [] then 0 else MarksTotal(ba[..|ba| - 1]) + Negatives(ba[|ba| - 1].inc)
  }

  lemma {:induction false} MarksTotalUpdate(ba: seq<PBlock>, b: nat, p: PBlock)
    requires b < |ba|
    ensures MarksTotal(ba[b := p]) == MarksTotal(ba) - Negatives(ba[b].inc) + Negatives(p.inc)
  {
    var last := |ba| - 1;
    if b == last {
      assert ba[b := p][..last] == ba[..last];
    } else {
      MarksTotalUpdate(ba[..last], b, p);
      assert ba[b := p][..last] == ba[..last][b := p];
    }
  }

  lemma {:induction false} SameMarksTotal(ba: seq<PBlock>, ba': seq<PBlock>)
    requires SameButSplit(ba, ba')
    ensures MarksTotal(ba) == MarksTotal(ba')
  {
    if ba != [] {
      var last := |ba| - 1;
      SameMarksTotal(ba[..last], ba'[..last]);
      assert ba'[last].inc == ba[last].inc;
    }
  }

  lemma SameMarksStacked(ba: seq<PBlock>, ba': seq<PBlock>, agenda: seq<nat>, cur: int)
    requires Stacked(ba, agenda, cur) && SameButSplit(ba, ba')
    ensures Stacked(ba', agenda, cur)
  {
    forall b | 0 <= b < |ba'| && ba'[b].IsOnAgenda() ensures b in agenda || b == cur {
      assert ba[b].IsOnAgenda();
    }
  }

  lemma PopStacked(ba: seq<PBlock>, agenda: seq<nat>)
    requires Stacked(ba, agenda, -1) && agenda != []
    ensures agenda[|agenda| - 1] < |ba|
    ensures Stacked(ba, agenda[..|agenda| - 1], agenda[|agenda| - 1])
  {
    var last := |agenda| - 1;
    assert agenda == agenda[..last] + [agenda[last]];
  }

  lemma UnstackIdle(ba: seq<PBlock>, agenda: seq<nat>, cur: nat)
    requires Stacked(ba, agenda, cur) && cur < |ba| && !ba[cur].IsOnAgenda()
    ensures Stacked(ba, agenda, -1)
  {
  }

  /** There are no more blocks than nodes. */
  lemma BlockBound(a: seq<nat>, lua: seq<nat>, blockOf: seq<int>, ba: seq<PBlock>)
    requires Tiles(a, lua, blockOf, ba)
    ensures |ba| <= |a|
  {
    var starts := seq(|ba|, b requires 0 <= b < |ba| => ba[b].start);
    forall b, c | 0 <= b < c < |starts| ensures starts[b] != starts[c] {
      assert blockOf[a[ba[b].start]] == b;
      assert blockOf[a[ba[c].start]] == c;
    }
    Pigeonhole(starts, |a|);
  }

  lemma {:induction false} Pigeonhole(f: seq<int>, n: nat)
    requires forall i :: 0 <= i < |f| ==> 0 <= f[i] < n
    requires forall i, j :: 0 <= i < j < |f| ==> f[i] != f[j]
    ensures |f| <= n
    decreases n
  {
    if f != [] {
      assert 0 <= f[0] < n;
      if n - 1 in f {
        var k :| 0 <= k < |f| && f[k] == n - 1;
        Pigeonhole(f[..k] + f[k + 1..], n - 1);
      } else {
        Pigeonhole(f, n - 1);
      }
    }
  }

  lemma CountedOnAgenda(preds: seq<seq<Pred>>, a: seq<nat>, ba: seq<PBlock>, b: nat)
    requires Counted(preds, a, ba) && b < |ba| && ba[b].IsOnAgenda()
    ensures exists e: nat :: e < |ba[b].inc| && ba[b].Marked(e)
  {
    AgendaIffMarked(ba[b]);
  }

  /** Once no splits are pending, the refinement invariants hold outright. */
  lemma SplitsDone(g: Graph, a: seq<nat>, lua: seq<nat>, blockOf: seq<int>, ba: seq<PBlock>, d: set<nat>, x: int)
    requires Inverse(a, lua) && Tiles(a, lua, blockOf, ba)
    requires Pending(lua, blockOf, ba, d, []) && Refining(g, blockOf, ba, d, x)
    ensures Marks(lua, blockOf, ba, {}, []) && Refining(g, blockOf, ba, {}, -1)
  {
    forall b | 0 <= b < |ba| ensures ba[b].split == ba[b].end {
      assert b !in [];
    }
    PendingDone(g, blockOf, ba, d, x);
  }

  lemma RefiningUnmark(g: Graph, preds: seq<seq<Pred>>, a: seq<nat>, blockOf: seq<int>, ba: seq<PBlock>, b: nat, x: nat)
    requires Refining(g, blockOf, ba, {}, -1) && Counted(preds, a, ba) && b < |ba|
    ensures Refining(g, blockOf, ba[b := ba[b].RemoveFromAgenda(x)], ParentsOf(g, blockOf, b, x), x)
  {
    var d := ParentsOf(g, blockOf, b, x);
    UnmarkKeepsAgenda(g, blockOf, ba, b, x, d);
    ParentsBisimClosed(g, blockOf, b, x, d);
  }

  lemma UnmarkKeepsCore(preds: seq<seq<Pred>>, a: seq<nat>, lua: seq<nat>, blockOf: seq<int>, ba: seq<PBlock>,
                        toDo: seq<nat>, agenda: seq<nat>, b: nat, x: nat)
    requires Tiles(a, lua, blockOf, ba) && Counted(preds, a, ba) && b < |ba| && ba[b].Marked(x)
    requires Marks(lua, blockOf, ba, {}, toDo) && Stacked(ba, agenda, b)
    ensures var ba' := ba[b := ba[b].RemoveFromAgenda(x)];
            && Tiles(a, lua, blockOf, ba') && Counted(preds, a, ba')
            && Marks(lua, blockOf, ba', {}, toDo) && Stacked(ba', agenda, b)
            && MarksTotal(ba') < MarksTotal(ba)
            && |ba'[b].inc| == |ba[b].inc|
  {
    hide Tiles, Counted, Marks;
    var q := ba[b].RemoveFromAgenda(x);
    UnmarkCounts(preds, a, ba, b, x);
    MarksTotalUpdate(ba, b, q);
    SameRangeKeeps(a, lua, blockOf, ba, toDo, b, q);
  }

  lemma SameRangeKeeps(a: seq<nat>, lua: seq<nat>, blockOf: seq<int>, ba: seq<PBlock>, toDo: seq<nat>, b: nat, q: PBlock)
    requires Tiles(a, lua, blockOf, ba) && Marks(lua, blockOf, ba, {}, toDo) && b < |ba| && SameRange(ba[b], q)
    ensures Tiles(a, lua, blockOf, ba[b := q]) && Marks(lua, blockOf, ba[b := q], {}, toDo)
  {
  }

  lemma UnmarkCounts(preds: seq<seq<Pred>>, a: seq<nat>, ba: seq<PBlock>, b: nat, x: nat)
    requires Counted(preds, a, ba) && b < |ba|
    ensures var q := ba[b].RemoveFromAgenda(x);
            && Counted(preds, a, ba[b := q]) && SameRange(ba[b], q) && |q.inc| == |ba[b].inc|
            && Negatives(q.inc) == Negatives(ba[b].inc) - if ba[b].Marked(x) then 1 else 0
  {
    Unmark(ba[b], x);
    SameCounts(preds, a[ba[b].start..ba[b].end + 1], ba[b], ba[b].RemoveFromAgenda(x));
  }

  lemma InverseRange(a: seq<nat>, lua: seq<nat>)
    requires Inverse(a, lua)
    ensures |a| == |lua| && forall i :: 0 <= i < |a| ==> a[i] < |a|
  {
  }

  lemma SameRangeTiles(a: seq<nat>, lua: seq<nat>, blockOf: seq<int>, ba: seq<PBlock>, b: nat, q: PBlock)
    requires Tiles(a, lua, blockOf, ba) && b < |ba| && SameRange(ba[b], q)
    ensures Tiles(a, lua, blockOf, ba[b := q])
  {
  }

  lemma HalvesOf(p0: PBlock, p: PBlock, q: PBlock, p': PBlock, q': PBlock)
    requires forall e: nat :: p.Marked(e) == (p0.Marked(e) && p.GetIncoming(e) > 0)
    requires forall e: nat :: p'.GetIncoming(e) == p.GetIncoming(e) && q'.GetIncoming(e) == q.GetIncoming(e)
    requires forall e: nat :: p'.Marked(e) == (p.Marked(e) || OldHalfSmaller(p, q, e))
    requires forall e: nat :: q'.Marked(e) == (q.GetIncoming(e) > 0 && (p.Marked(e) || !OldHalfSmaller(p, q, e)))
    ensures HalvesMarked(p0, p', q')
  {
  }

  lemma FewerMarks(preds: seq<seq<Pred>>, a: seq<nat>, ba: seq<PBlock>, b: nat, p: PBlock)
    requires Counted(preds, a, ba) && b < |ba| && p.CountOK()
    requires forall e: nat :: p.Marked(e) ==> ba[b].Marked(e)
    ensures p.IsOnAgenda() ==> ba[b].IsOnAgenda()
  {
    AgendaIffMarked(p);
    AgendaIffMarked(ba[b]);
    if e: nat :| e < |p.inc| && p.Marked(e) {
      assert ba[b].Marked(e) && e < |ba[b].inc|;
    }
  }

  lemma CountsOK(preds: seq<seq<Pred>>, s: seq<nat>, p: PBlock)
    requires Counts(preds, s, p)
    ensures p.CountOK()
  {
  }

  lemma SameCounts(preds: seq<seq<Pred>>, s: seq<nat>, p: PBlock, p': PBlock)
    requires Counts(preds, s, p) && p'.CountOK()
    requires forall e: nat :: p'.GetIncoming(e) == p.GetIncoming(e)
    ensures Counts(preds, s, p')
  {
  }

  lemma MovedNone(lua: seq<nat>, blockOf: seq<int>, nb: int, m: int)
    requires |lua| == |blockOf|
    ensures MovedTo(lua, blockOf, blockOf, nb, m, m)
  {
  }

  lemma HalfwayCounts(preds: seq<seq<Pred>>, a: seq<nat>, l: nat, m: nat, i: nat, r: nat, p0: PBlock, p: PBlock, q: PBlock)
    requires Halfway(preds, a, l, m, i, r, p0, p, q)
    ensures p.CountOK() && q.CountOK() && |p.inc| == |p0.inc|
    ensures forall e: nat :: p.Marked(e) == (p0.Marked(e) && p.GetIncoming(e) > 0)
    ensures forall e: nat :: !q.Marked(e)
  {
  }

  lemma PendingFront(lua: seq<nat>, blockOf: seq<int>, ba: seq<PBlock>, d: set<nat>, b: nat, rest: seq<nat>)
    requires Pending(lua, blockOf, ba, d, [b] + rest)
    ensures b < |ba| && ba[b].start - 1 <= ba[b].split < ba[b].end
  {
    assert b in [b] + rest;
  }

  /** Split indices do not matter for the refinement invariants. */
  lemma SameMarksRefining(g: Graph, blockOf: seq<int>, ba: seq<PBlock>, ba': seq<PBlock>, d: set<nat>, x: int)
    requires Refining(g, blockOf, ba, d, x) && SameButSplit(ba, ba')
    ensures Refining(g, blockOf, ba', d, x)
  {
    forall u: nat, v: nat, e: nat |
      u < |g.kids| && v < |g.kids| && e in g.kids[u] && e in g.kids[v] && blockOf[u] == blockOf[v]
      ensures Covered(g, blockOf, ba', d, x, u, v, e)
    {
      assert Covered(g, blockOf, ba, d, x, u, v, e);
    }
  }

  ghost predicate AllIn(s: seq<nat>, blockOf: seq<int>, b: int) {
    forall k {:trigger s[k]} :: 0 <= k < |s| ==> s[k] < |blockOf| && blockOf[s[k]] == b
  }

  lemma SameOnRefl(a: seq<nat>, l: int, r: int)
    ensures SameOn(a, a, l, r)
  {
  }

  lemma ListedNone(preds: seq<seq<Pred>>, a: seq<nat>, x: nat, l: nat)
    ensures ListedParents(preds, a, x, l, l) == {}
  {
  }

  ghost function Elements(s: seq<nat>): set<nat> {
    set v | v in s
  }

  lemma ElementsPush(v: nat, s: seq<nat>)
    ensures Elements([v] + s) == Elements(s) + {v}
  {
  }
}
