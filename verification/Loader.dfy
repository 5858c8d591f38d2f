/** The depth-first loader that numbers the nodes reachable from a root and
    records their incoming edges. */
module Loader {
  import opened Wrappers
  import opened Heap
  import opened Compare
  import opened DataGraph
  import opened NodeArray
  import opened Reduction
  import opened Minimizer

  /** A field still to be visited; edge and parent are -1 for the root. */
  datatype Frame = Frame(data: Word, edge: int, parent: int)

  /** The map from visited blocks to their numbers. */
  class PartitionSeen {
    var counter: nat
    var table: map<Addr, nat>

    constructor ()
      ensures counter == 0 && table == map[]
    {
      counter, table := 0, map[];
    }

    method Add(v: Addr)
      modifies this
      ensures table == old(table)[v := old(counter)] && counter == old(counter) + 1
    {
      table := table[v := counter];
      counter := counter + 1;
    }

    method Find(v: Addr) returns (r: Option<nat>)
      ensures r == if v in table then Some(table[v]) else None
    {
      r := if v in table then Some(table[v]) else None;
    }
  }

  // ---------- the invariant ----------

  /** table numbers exactly the nodes. */
  ghost predicate Numbered(s: Store, nodes: seq<Addr>, table: map<Addr, nat>) {
    && (forall v {:trigger nodes[v]} :: 0 <= v < |nodes| ==> nodes[v] in s && nodes[v] in table && table[nodes[v]] == v)
    && (forall a {:trigger table[a]} :: a in table ==> table[a] < |nodes| && nodes[table[a]] == a)
  }

  /** Field e of node p holds w. */
  ghost predicate EdgeAt(s: Store, nodes: seq<Addr>, p: int, e: int, w: Word) {
    0 <= p < |nodes| && nodes[p] in s && 0 <= e < |s[nodes[p]].Fields()| && s[nodes[p]].Fields()[e] == w
  }

  /** The edge (e, p) is recorded at its target or its frame is on the stack. */
  ghost predicate Accounted(preds: seq<seq<Pred>>, table: map<Addr, nat>, stack: seq<Frame>, p: nat, e: nat, a: Addr) {
    || (a in table && table[a] < |preds| && Pred(e, p) in preds[table[a]])
    || Frame(Ptr(a), e, p) in stack
  }

  ghost predicate PredsSound(s: Store, nodes: seq<Addr>, preds: seq<seq<Pred>>) {
    && |preds| == |nodes|
    && (forall c, x {:trigger x in preds[c]} :: 0 <= c < |preds| && x in preds[c] ==>
          EdgeAt(s, nodes, x.parent, x.edge, Ptr(nodes[c])))
  }

  /** No list holds an edge twice. */
  ghost predicate NoRepeats(preds: seq<seq<Pred>>) {
    forall c, i, j :: 0 <= c < |preds| && 0 <= i < j < |preds[c]| ==> preds[c][i] != preds[c][j]
  }

  /** The frames are distinct edges of visited nodes that are not yet recorded. */
  ghost predicate StackOK(s: Store, nodes: seq<Addr>, preds: seq<seq<Pred>>, stack: seq<Frame>) {
    && (forall k {:trigger stack[k]} :: 0 <= k < |stack| ==>
          EdgeAt(s, nodes, stack[k].parent, stack[k].edge, stack[k].data)
          && forall c {:trigger preds[c]} :: 0 <= c < |preds| ==> Pred(stack[k].edge, stack[k].parent) !in preds[c])
    && (forall i, j :: 0 <= i < j < |stack| ==> stack[i].edge != stack[j].edge || stack[i].parent != stack[j].parent)
  }

  ghost predicate Complete(s: Store, nodes: seq<Addr>, preds: seq<seq<Pred>>, table: map<Addr, nat>, stack: seq<Frame>) {
    forall p: nat, e: nat, a: Addr {:trigger EdgeAt(s, nodes, p, e, Ptr(a))} ::
      EdgeAt(s, nodes, p, e, Ptr(a)) ==> Accounted(preds, table, stack, p, e, a)
  }

  ghost predicate AllReached(s: Store, nodes: seq<Addr>) {
    forall v {:trigger nodes[v]} :: 0 <= v < |nodes| ==> Reaches(s, nodes[0], nodes[v])
  }

  ghost predicate Visiting(s: Store, nodes: seq<Addr>, preds: seq<seq<Pred>>, table: map<Addr, nat>, stack: seq<Frame>) {
    && Numbered(s, nodes, table) && PredsSound(s, nodes, preds) && NoRepeats(preds)
    && StackOK(s, nodes, preds, stack) && Complete(s, nodes, preds, table, stack)
    && AllReached(s, nodes)
  }

  /** Either only the root is waiting, or the root is node 0. */
  ghost predicate LoadInv(s: Store, root: Word, nodes: seq<Addr>, preds: seq<seq<Pred>>, table: map<Addr, nat>, stack: seq<Frame>) {
    if nodes == [] then
      preds == [] && table == map[] && (stack == [Frame(root, -1, -1)] || (stack == [] && root.Int?))
    else
      root == Ptr(nodes[0]) && Visiting(s, nodes, preds, table, stack)
  }

  /** The frames of the fields of a block, the last field deepest. */
  function FieldFrames(fields: seq<Word>, num: nat, n: nat): (r: seq<Frame>)
    requires n <= |fields|
  {
    seq(n, k requires 0 <= k < n => Frame(fields[|fields| - 1 - k], |fields| - 1 - k, num))
  }

  // ---------- one step ----------

  lemma {:induction false} FollowStep(s: Store, a: Addr, path: seq<nat>, e: nat)
    requires Follow(s, a, path).Some?
    requires var b := Follow(s, a, path).value;
             b in s && e < |s[b].Fields()| && s[b].Fields()[e].Ptr? && s[b].Fields()[e].a in s
    ensures Follow(s, a, path + [e]) == Some(s[Follow(s, a, path).value].Fields()[e].a)
    decreases path
  {
    if path == [] {
      assert path + [e] == [e];
      assert [e][1..] == [];
    } else {
      FollowStep(s, s[a].Fields()[path[0]].a, path[1..], e);
      assert (path + [e])[1..] == path[1..] + [e];
    }
  }

  lemma PopInt(s: Store, nodes: seq<Addr>, preds: seq<seq<Pred>>, table: map<Addr, nat>, stack: seq<Frame>)
    requires Visiting(s, nodes, preds, table, stack) && stack != [] && stack[|stack| - 1].data.Int?
    ensures Visiting(s, nodes, preds, table, stack[..|stack| - 1])
  {
    hide Numbered, PredsSound, NoRepeats, AllReached, EdgeAt;
    var rest := stack[..|stack| - 1];
    forall p: nat, e: nat, a: Addr | EdgeAt(s, nodes, p, e, Ptr(a)) ensures Accounted(preds, table, rest, p, e, a) {
      assert Accounted(preds, table, stack, p, e, a);
    }
  }

  /** Recording the edge of frame k at its block, which has a number, settles that frame. */
  lemma Record(s: Store, nodes: seq<Addr>, preds: seq<seq<Pred>>, table: map<Addr, nat>, stack: seq<Frame>, k: nat)
    requires Visiting(s, nodes, preds, table, stack) && k < |stack|
    requires stack[k].data.Ptr? && stack[k].data.a in table
    ensures var f := stack[k];
            var c := table[f.data.a];
            c < |preds| && f.edge >= 0 && f.parent >= 0 &&
            Visiting(s, nodes, preds[c := preds[c] + [Pred(f.edge, f.parent)]], table, stack[..k] + stack[k + 1..])
  {
    var f, rest := stack[k], stack[..k] + stack[k + 1..];
    var c := table[f.data.a];
    assert EdgeAt(s, nodes, f.parent, f.edge, f.data);
    var x := Pred(f.edge, f.parent);
    var preds' := preds[c := preds[c] + [x]];
    RecordSound(s, nodes, preds, c, x);
    RecordStack(s, nodes, preds, stack, k, c, x);
    forall p: nat, e: nat, a: Addr | EdgeAt(s, nodes, p, e, Ptr(a)) ensures Accounted(preds', table, rest, p, e, a) {
      assert Accounted(preds, table, stack, p, e, a);
      RestMembers(stack, k, Frame(Ptr(a), e, p));
    }
  }

  lemma RestMembers(stack: seq<Frame>, k: nat, f: Frame)
    requires k < |stack|
    ensures f in stack && f != stack[k] ==> f in stack[..k] + stack[k + 1..]
  {
    if f in stack && f != stack[k] {
      var i :| 0 <= i < |stack| && stack[i] == f;
      assert (stack[..k] + stack[k + 1..])[if i < k then i else i - 1] == f;
    }
  }

  lemma RecordSound(s: Store, nodes: seq<Addr>, preds: seq<seq<Pred>>, c: nat, x: Pred)
    requires PredsSound(s, nodes, preds) && NoRepeats(preds) && c < |preds|
    requires EdgeAt(s, nodes, x.parent, x.edge, Ptr(nodes[c])) && x !in preds[c]
    ensures PredsSound(s, nodes, preds[c := preds[c] + [x]]) && NoRepeats(preds[c := preds[c] + [x]])
  {
  }

  lemma RecordStack(s: Store, nodes: seq<Addr>, preds: seq<seq<Pred>>, stack: seq<Frame>, k: nat, c: nat, x: Pred)
    requires StackOK(s, nodes, preds, stack) && k < |stack| && c < |preds|
    requires x.edge == stack[k].edge && x.parent == stack[k].parent
    ensures StackOK(s, nodes, preds[c := preds[c] + [x]], stack[..k] + stack[k + 1..])
  {
    var rest, preds' := stack[..k] + stack[k + 1..], preds[c := preds[c] + [x]];
    assert forall i {:trigger rest[i]} :: 0 <= i < |rest| ==> rest[i] == stack[if i < k then i else i + 1];
    forall i | 0 <= i < |rest|
      ensures EdgeAt(s, nodes, rest[i].parent, rest[i].edge, rest[i].data)
      ensures forall d {:trigger preds'[d]} :: 0 <= d < |preds'| ==> Pred(rest[i].edge, rest[i].parent) !in preds'[d]
    {
      var i' := if i < k then i else i + 1;
      assert stack[i'] == rest[i];
    }
  }

  /** A new block, entered with no incoming edge yet and with its fields to be visited. */
  lemma NewStep(s: Store, nodes: seq<Addr>, preds: seq<seq<Pred>>, table: map<Addr, nat>, stack: seq<Frame>, a: Addr)
    requires Closed(s) && Visiting(s, nodes, preds, table, stack) && nodes != []
    requires a in s && a !in table && Reaches(s, nodes[0], a)
    ensures Visiting(s, nodes + [a], preds + [[]], table[a := |nodes|],
                     stack + FieldFrames(s[a].Fields(), |nodes|, |s[a].Fields()|))
  {
    var n, fs := |nodes|, s[a].Fields();
    var nodes', preds', table' := nodes + [a], preds + [[]], table[a := n];
    var stack' := stack + FieldFrames(fs, n, |fs|);
    NewStack(s, nodes, preds, stack, a);
    forall p: nat, e: nat, b: Addr | EdgeAt(s, nodes', p, e, Ptr(b)) ensures Accounted(preds', table', stack', p, e, b) {
      if p < n {
        assert EdgeAt(s, nodes, p, e, Ptr(b));
        assert Accounted(preds, table, stack, p, e, b);
      } else {
        assert FieldFrames(fs, n, |fs|)[|fs| - 1 - e] == Frame(Ptr(b), e, p);
      }
    }
    forall c, x: Pred | 0 <= c < |preds'| && x in preds'[c] ensures EdgeAt(s, nodes', x.parent, x.edge, Ptr(nodes'[c])) {
      assert EdgeAt(s, nodes, x.parent, x.edge, Ptr(nodes[c]));
    }
  }

  lemma NewStack(s: Store, nodes: seq<Addr>, preds: seq<seq<Pred>>, stack: seq<Frame>, a: Addr)
    requires PredsSound(s, nodes, preds) && StackOK(s, nodes, preds, stack) && a in s
    ensures StackOK(s, nodes + [a], preds + [[]], stack + FieldFrames(s[a].Fields(), |nodes|, |s[a].Fields()|))
  {
    var n, fs := |nodes|, s[a].Fields();
    var ff := FieldFrames(fs, n, |fs|);
    var nodes', preds', stack' := nodes + [a], preds + [[]], stack + ff;
    forall k | 0 <= k < |stack'|
      ensures EdgeAt(s, nodes', stack'[k].parent, stack'[k].edge, stack'[k].data)
      ensures forall c {:trigger preds'[c]} :: 0 <= c < |preds'| ==> Pred(stack'[k].edge, stack'[k].parent) !in preds'[c]
      ensures k < |stack| ==> stack'[k].parent < n
    {
      if k < |stack| {
        assert stack'[k] == stack[k];
        assert EdgeAt(s, nodes, stack[k].parent, stack[k].edge, stack[k].data);
      }
    }
  }

  /** Visiting the frame of an unseen block: it gets the next number, its edge is
      recorded and its fields are pushed. */
  lemma VisitNew(s: Store, nodes: seq<Addr>, preds: seq<seq<Pred>>, table: map<Addr, nat>, stack: seq<Frame>)
    requires Closed(s) && nodes != [] && Visiting(s, nodes, preds, table, stack) && stack != []
    requires var f := stack[|stack| - 1]; f.data.Ptr? && f.data.a in s && f.data.a !in table
    ensures var f := stack[|stack| - 1];
            var a := f.data.a;
            && f.edge >= 0 && f.parent >= 0
            && Visiting(s, nodes + [a], preds + [[Pred(f.edge, f.parent)]], table[a := |nodes|],
                        stack[..|stack| - 1] + FieldFrames(s[a].Fields(), |nodes|, |s[a].Fields()|))
  {
    hide NoRepeats, Numbered, Complete;
    var k := |stack| - 1;
    var f := stack[k];
    var a := f.data.a;
    assert EdgeAt(s, nodes, f.parent, f.edge, f.data);
    assert Reaches(s, nodes[0], nodes[f.parent]);
    var path: seq<nat> :| Follow(s, nodes[0], path) == Some(nodes[f.parent]);
    FollowStep(s, nodes[0], path, f.edge);
    assert Follow(s, nodes[0], path + [f.edge]) == Some(a);
    NewStep(s, nodes, preds, table, stack, a);
    var ff := FieldFrames(s[a].Fields(), |nodes|, |s[a].Fields()|);
    var n := |nodes|;
    assert (stack + ff)[k] == f;
    Record(s, nodes + [a], preds + [[]], table[a := n], stack + ff, k);
    assert (stack + ff)[..k] + (stack + ff)[k + 1..] == stack[..k] + ff;
    var x := Pred(f.edge, f.parent);
    assert (preds + [[]])[n] + [x] == [x];
    assert (preds + [[]])[n := [x]] == preds + [[x]];
  }

  /** Visiting the root. */
  lemma VisitRoot(s: Store, a: Addr)
    requires Closed(s) && a in s
    ensures Visiting(s, [a], [[]], map[a := 0], [] + FieldFrames(s[a].Fields(), 0, |s[a].Fields()|))
  {
    hide Closed, Numbered, PredsSound, NoRepeats, StackOK, Complete, AllReached, FieldFrames;
    var ff := FieldFrames(s[a].Fields(), 0, |s[a].Fields()|);
    var none: seq<seq<Pred>> := [];
    NothingLoaded(s, none);
    NewStack(s, [], none, [], a);
    assert [] + [a] == [a] && none + [[]] == [[]] && [] + ff == ff;
    RootNumbered(s, a);
    RootEdges(s, a);
  }

  lemma NothingLoaded(s: Store, none: seq<seq<Pred>>)
    requires none == []
    ensures PredsSound(s, [], none) && StackOK(s, [], none, [])
  {
  }

  lemma RootNumbered(s: Store, a: Addr)
    requires a in s
    ensures Numbered(s, [a], map[a := 0]) && PredsSound(s, [a], [[]]) && NoRepeats([[]]) && AllReached(s, [a])
  {
    ReachesSelf(s, a);
  }

  lemma RootEdges(s: Store, a: Addr)
    requires a in s
    ensures Complete(s, [a], [[]], map[a := 0], FieldFrames(s[a].Fields(), 0, |s[a].Fields()|))
  {
    var fs := s[a].Fields();
    var ff := FieldFrames(fs, 0, |fs|);
    forall p: nat, e: nat, b: Addr | EdgeAt(s, [a], p, e, Ptr(b)) ensures Accounted([[]], map[a := 0], ff, p, e, b) {
      assert ff[|fs| - 1 - e] == Frame(Ptr(b), e, p);
    }
  }

  lemma ReachesSelf(s: Store, a: Addr)
    requires a in s
    ensures Reaches(s, a, a)
  {
    assert Follow(s, a, []) == Some(a);
  }

  /** Pushes the fields of a block, the last one first. */
  method PushFields(stack: seq<Frame>, fields: seq<Word>, num: nat) returns (stack': seq<Frame>)
    ensures stack' == stack + FieldFrames(fields, num, |fields|)
  {
    stack' := stack;
    var i := |fields|;
    while i != 0
      invariant 0 <= i <= |fields|
      invariant stack' == stack + FieldFrames(fields, num, |fields| - i)
    {
      i := i - 1;
      assert FieldFrames(fields, num, |fields| - i) == FieldFrames(fields, num, |fields| - i - 1) + [Frame(fields[i], i, num)];
      stack' := stack' + [Frame(fields[i], i, num)];
    }
  }

  /** Loads the graph reachable from the root into the partition. */
  method Run(s: Store, root: Word, p: Partition, seen: PartitionSeen)
    requires Closed(s) && (root.Ptr? ==> root.a in s)
    requires p.na.Valid() && p.na.nodes == [] && p.preds == [] && p.blockOf == []
    requires seen.counter == 0 && seen.table == map[]
    modifies p`preds, p`blockOf, p.na, seen
    ensures p.na.Valid() && |p.na.a| == |p.preds| == |p.blockOf|
    ensures LoadInv(s, root, p.na.nodes, p.preds, seen.table, [])
    ensures seen.counter == |p.na.nodes|
  {
    hide Closed, Inverse, LoadInv, Unseen, FieldFrames;
    var stack := [Frame(root, -1, -1)];
    LoadStart(s, root);
    while stack != []
      invariant p.na.Valid() && |p.na.a| == |p.preds| == |p.blockOf|
      invariant forall i :: 0 <= i < |p.na.a| ==> p.na.a[i] == i
      invariant seen.counter == |p.na.nodes|
      invariant LoadInv(s, root, p.na.nodes, p.preds, seen.table, stack)
      decreases Unseen(s, seen.table), |stack|
    {
      var top := |stack| - 1;
      var f := stack[top];
      ghost var nodes0, preds0, table0 := p.na.nodes, p.preds, seen.table;
      if f.data.Int? {
        LoadInt(s, root, nodes0, preds0, table0, stack);
        stack := stack[..top];
      } else {
        var a := f.data.a;
        LoadPtr(s, root, nodes0, preds0, table0, stack);
        var oldIndex := seen.Find(a);
        if oldIndex.None? {
          FewerUnseen(s, table0, a, |nodes0|);
          var nodeIndex := p.InsertNode(a);
          seen.Add(a);
          if f.parent != -1 {
            p.AddParent(nodeIndex, f.edge, f.parent);
            assert p.preds == preds0 + [[] + [Pred(f.edge, f.parent)]];
          }
          stack := PushFields(stack[..top], s[a].Fields(), nodeIndex);
        } else {
          if f.parent != -1 {
            p.AddParent(oldIndex.value, f.edge, f.parent);
          }
          stack := stack[..top];
        }
      }
    }
  }

  lemma LoadStart(s: Store, root: Word)
    ensures LoadInv(s, root, [], [], map[], [Frame(root, -1, -1)])
  {
  }

  /** A transient on top of the stack. */
  lemma LoadInt(s: Store, root: Word, nodes: seq<Addr>, preds: seq<seq<Pred>>, table: map<Addr, nat>, stack: seq<Frame>)
    requires LoadInv(s, root, nodes, preds, table, stack) && stack != [] && stack[|stack| - 1].data.Int?
    ensures LoadInv(s, root, nodes, preds, table, stack[..|stack| - 1])
  {
    hide Visiting;
    if nodes != [] {
      PopInt(s, nodes, preds, table, stack);
    }
  }

  /** What recording the edge of a frame adds to the predecessors of a node. */
  ghost function Recorded(f: Frame): seq<Pred>
    requires f.parent == -1 || (f.edge >= 0 && f.parent >= 0)
  {
    if f.parent == -1 then [] else [] + [Pred(f.edge, f.parent)]
  }

  /** A pointer on top of the stack: to a block that is new, or has a number already. */
  lemma LoadPtr(s: Store, root: Word, nodes: seq<Addr>, preds: seq<seq<Pred>>, table: map<Addr, nat>, stack: seq<Frame>)
    requires Closed(s) && (root.Ptr? ==> root.a in s) && LoadInv(s, root, nodes, preds, table, stack)
    requires stack != [] && stack[|stack| - 1].data.Ptr?
    ensures var f := stack[|stack| - 1]; var a, rest := f.data.a, stack[..|stack| - 1];
            && a in s && (f.parent == -1 || (f.edge >= 0 && f.parent >= 0))
            && (a !in table ==> LoadInv(s, root, nodes + [a], preds + [Recorded(f)], table[a := |nodes|],
                                        rest + FieldFrames(s[a].Fields(), |nodes|, |s[a].Fields()|)))
            && (a in table ==> && f.parent >= 0 && table[a] < |preds|
                               && LoadInv(s, root, nodes, preds[table[a] := preds[table[a]] + [Pred(f.edge, f.parent)]], table, rest))
  {
    hide Closed, Visiting, FieldFrames;
    TopInStore(s, root, nodes, preds, table, stack);
    var k := |stack| - 1;
    var a := stack[k].data.a;
    if nodes == [] {
      VisitRoot(s, a);
      assert stack[..k] == [] && nodes + [a] == [a] && preds + [[]] == [[]];
    } else if a in table {
      Record(s, nodes, preds, table, stack, k);
      assert stack[..k] + stack[k + 1..] == stack[..k];
    } else {
      VisitNew(s, nodes, preds, table, stack);
      assert Recorded(stack[k]) == [Pred(stack[k].edge, stack[k].parent)];
    }
  }

  /** The blocks without a number. */
  ghost function Unseen(s: Store, table: map<Addr, nat>): set<Addr> {
    s.Keys - table.Keys
  }

  lemma FewerUnseen(s: Store, table: map<Addr, nat>, a: Addr, n: nat)
    requires a in s && a !in table
    ensures Unseen(s, table[a := n]) < Unseen(s, table)
  {
    assert a in Unseen(s, table) && a !in Unseen(s, table[a := n]);
  }

  lemma TopInStore(s: Store, root: Word, nodes: seq<Addr>, preds: seq<seq<Pred>>, table: map<Addr, nat>, stack: seq<Frame>)
    requires Closed(s) && (root.Ptr? ==> root.a in s) && LoadInv(s, root, nodes, preds, table, stack)
    requires stack != [] && stack[|stack| - 1].data.Ptr?
    ensures stack[|stack| - 1].data.a in s
    ensures nodes != [] ==> stack[|stack| - 1].edge >= 0 && stack[|stack| - 1].parent >= 0
    ensures nodes == [] ==> stack == [Frame(root, -1, -1)]
  {
    var f := stack[|stack| - 1];
    if nodes != [] {
      assert EdgeAt(s, nodes, f.parent, f.edge, f.data);
    }
  }

  // ---------- the loaded graph ----------

  /** The graph of the numbered nodes. */
  ghost function GraphOf(s: Store, nodes: seq<Addr>, table: map<Addr, nat>): Graph
    requires forall v :: 0 <= v < |nodes| ==> nodes[v] in s
  {
    Graph(seq(|nodes|, v requires 0 <= v < |nodes| => Observe(s, nodes[v])),
          seq(|nodes|, v requires 0 <= v < |nodes| => KidsOf(s[nodes[v]].Fields(), table)))
  }

  ghost function KidsOf(fields: seq<Word>, table: map<Addr, nat>): map<nat, nat> {
    map e: nat | e < |fields| && fields[e].Ptr? && fields[e].a in table :: table[fields[e].a]
  }

  /** With an empty stack, the numbered nodes are a graph whose predecessor lists are
      exact: every edge is listed once, at the node it leads to. */
  lemma LoadedGraph(s: Store, root: Word, nodes: seq<Addr>, preds: seq<seq<Pred>>, table: map<Addr, nat>)
    requires LoadInv(s, root, nodes, preds, table, [])
    ensures (forall v :: 0 <= v < |nodes| ==> nodes[v] in s)
    ensures var g := GraphOf(s, nodes, table);
            Represents(s, nodes, g) && g.Valid() && PredsOK(g, preds)
    ensures NoRepeats(preds)
    ensures nodes != [] ==> AllReached(s, nodes) && root == Ptr(nodes[0])
    ensures nodes == [] ==> root.Int?
  {
    if nodes != [] {
      assert Numbered(s, nodes, table);
      KidsExact(s, nodes, preds, table);
    }
    RepresentsValid(s, nodes, GraphOf(s, nodes, table));
  }

  lemma KidsExact(s: Store, nodes: seq<Addr>, preds: seq<seq<Pred>>, table: map<Addr, nat>)
    requires Numbered(s, nodes, table) && PredsSound(s, nodes, preds) && Complete(s, nodes, preds, table, [])
    ensures var g := GraphOf(s, nodes, table);
            Represents(s, nodes, g) && PredsOK(g, preds)
  {
    hide Observe;
    var g := GraphOf(s, nodes, table);
    forall v: nat, e: nat | v < |nodes| && e < |s[nodes[v]].Fields()| && s[nodes[v]].Fields()[e].Ptr?
      ensures var a := s[nodes[v]].Fields()[e].a;
              a in table && e in g.kids[v] && g.kids[v][e] == table[a] && Pred(e, v) in preds[table[a]]
    {
      var a := s[nodes[v]].Fields()[e].a;
      assert EdgeAt(s, nodes, v, e, Ptr(a));
      assert Accounted(preds, table, [], v, e, a);
    }
    forall c, x: Pred | 0 <= c < |preds| && x in preds[c]
      ensures x.parent < |g.kids| && x.edge in g.kids[x.parent] && g.kids[x.parent][x.edge] == c
    {
      assert EdgeAt(s, nodes, x.parent, x.edge, Ptr(nodes[c]));
      assert table[nodes[c]] == c;
    }
  }
}
