/** Loading and minimizing together: what happens to the data behind a root. */
module MinimizeData {
  import opened Wrappers
  import opened Heap
  import opened Compare
  import opened DataGraph
  import opened NodeArray
  import opened Reduction
  import opened Minimizer
  import opened Loader
  import opened SharedData

  /** s' holds the same data behind root as s, with maximal sharing. */
  ghost predicate Minimal(s: Store, s': Store, root: Addr) {
    && s'.Keys == s.Keys
    // the data is the same
    && SameUnfolding(s, root, s', root)
    // equal data is shared
    && (forall a, b :: Reaches(s', root, a) && Reaches(s', root, b) && SameUnfolding(s', a, s', b) ==> a == b)
    // nothing is reached that was not reached before, and the rest of the store is as it was
    && (forall a :: Reaches(s', root, a) ==> Reaches(s, root, a))
    && (forall a :: a in s && !Reaches(s, root, a) ==> s'[a] == s[a])
    // what was reached still has the same data
    && (forall a :: Reaches(s, root, a) ==> SameUnfolding(s, a, s', a))
  }

  /** Loads the data behind root and minimizes it. Blocks are replaced by others exactly as
      their labels and mutability allow. */
  method LoadAndMinimize(s: Store, root: Word) returns (s': Store)
    requires Closed(s) && OneKind(s) && (root.Ptr? ==> root.a in s)
    ensures root.Ptr? ==> Minimal(s, s', root.a) && Shared(s, s', root.a)
    ensures root.Int? ==> s' == s
  {
    hide Closed, Unmixed, OneKind, Inverse, Represents, PredsOK, Redirected, IsReps, AllReached, Minimal, Shared, Graph.Valid,
         GraphOf, Visiting, NoRepeats;
    OneKindUnmixed(s);
    var p := new Partition();
    var seen := new PartitionSeen();
    Run(s, root, p, seen);
    LoadedGraph(s, root, p.na.nodes, p.preds, seen.table);
    ghost var g := GraphOf(s, p.na.nodes, seen.table);
    ghost var rep;
    s', rep := p.Minimize(s, g);
    if root.Ptr? {
      Minimized(s, s', p.na.nodes, g, rep);
      OnlyPointersMoved(s, s', p.na.nodes, g, rep);
      MinimalShared(s, s', root.a);
    } else {
      NothingToDo(s, s', root, p.na.nodes, p.preds, seen.table, g, rep);
    }
  }

  lemma Minimized(s: Store, s': Store, nodes: seq<Addr>, g: Graph, rep: seq<nat>)
    requires Represents(s, nodes, g) && IsReps(g, rep) && Redirected(s, s', nodes, g, rep)
    requires |nodes| > 0 && rep[0] == 0 && AllReached(s, nodes)
    ensures Minimal(s, s', nodes[0])
  {
    hide Represents, IsReps, Redirected, Observe;
    var root := nodes[0];
    RedirectedUnfolding(s, s', nodes, g, rep, 0);
    forall a, b | Reaches(s', root, a) && Reaches(s', root, b) && SameUnfolding(s', a, s', b) ensures a == b {
      MaximalSharing(s, s', nodes, g, rep, a, b);
    }
    forall a | Reaches(s', root, a) ensures Reaches(s, root, a) {
      ReachesRepresentatives(s, s', nodes, g, rep, a);
    }
    RedirectedRest(s, s', nodes, g, rep);
    forall a: Addr | Reaches(s, root, a) ensures SameUnfolding(s, a, s', a) {
      var path :| Follow(s, root, path) == Some(a);
      var v := ReachedIsNode(s, nodes, g, 0, path);
      SelfUnfolding(s, s', nodes, g, rep, v);
    }
  }

  lemma OnlyPointersMoved(s: Store, s': Store, nodes: seq<Addr>, g: Graph, rep: seq<nat>)
    requires Redirected(s, s', nodes, g, rep)
    ensures forall a :: a in s ==> a in s' && SameButPointers(s[a], s'[a])
  {
    forall a | a in s ensures a in s' && SameButPointers(s[a], s'[a]) {
      if a in nodes {
        var v :| 0 <= v < |nodes| && nodes[v] == a;
        assert SameButPointers(s[nodes[v]], s'[nodes[v]]);
      }
    }
  }

  lemma MinimalShared(s: Store, s': Store, root: Addr)
    requires Closed(s) && Minimal(s, s', root) && forall a :: a in s ==> a in s' && SameButPointers(s[a], s'[a])
    ensures Shared(s, s', root)
  {
    hide Closed, Shared, SameButPointers, SameUnfolding, Reaches;
    SharedFrom(s, s', root);
  }

  lemma {:induction false} ReachedIsNode(s: Store, nodes: seq<Addr>, g: Graph, u: nat, path: seq<nat>) returns (v: nat)
    requires Represents(s, nodes, g) && u < |nodes| && Follow(s, nodes[u], path).Some?
    ensures v < |nodes| && Follow(s, nodes[u], path) == Some(nodes[v])
    decreases path
  {
    if path == [] {
      v := u;
    } else {
      v := ReachedIsNode(s, nodes, g, g.kids[u][path[0]], path[1..]);
    }
  }

  /** Also a node that is not a representative keeps its unfolding. */
  lemma SelfUnfolding(s: Store, s': Store, nodes: seq<Addr>, g: Graph, rep: seq<nat>, u: nat)
    requires Represents(s, nodes, g) && IsReps(g, rep) && Redirected(s, s', nodes, g, rep) && u < |nodes|
    ensures SameUnfolding(s, nodes[u], s', nodes[u])
  {
    hide Unfolding, Represents, IsReps, Redirected;
    forall path ensures Unfolding(s, nodes[u], path) == Unfolding(s', nodes[u], path) {
      SelfPath(s, s', nodes, g, rep, u, path);
    }
  }

  lemma SelfPath(s: Store, s': Store, nodes: seq<Addr>, g: Graph, rep: seq<nat>, u: nat, path: seq<nat>)
    requires Represents(s, nodes, g) && IsReps(g, rep) && Redirected(s, s', nodes, g, rep) && u < |nodes|
    ensures Unfolding(s, nodes[u], path) == Unfolding(s', nodes[u], path)
  {
    hide Observe, SameButPointers, IsReps, SameUnfolding, Bisimilar;
    RedirectedObserve(s, s', nodes, g, rep, u);
    if path != [] && path[0] in g.kids[u] {
      var k := g.kids[u][path[0]];
      RedirectedUnfolding(s, s', nodes, g, rep, k);
      SameAlong(s, nodes[k], s', nodes[rep[k]], path[1..]);
    }
  }

  lemma SameAlong(s: Store, a: Addr, s': Store, b: Addr, path: seq<nat>)
    requires SameUnfolding(s, a, s', b)
    ensures Unfolding(s, a, path) == Unfolding(s', b, path)
  {
  }

  lemma RedirectedRest(s: Store, s': Store, nodes: seq<Addr>, g: Graph, rep: seq<nat>)
    requires Redirected(s, s', nodes, g, rep) && |nodes| > 0 && AllReached(s, nodes)
    ensures s'.Keys == s.Keys
    ensures forall a :: a in s && !Reaches(s, nodes[0], a) ==> s'[a] == s[a]
  {
    forall a | a in s && !Reaches(s, nodes[0], a) ensures a !in nodes {
    }
  }

  lemma NothingToDo(s: Store, s': Store, root: Word, nodes: seq<Addr>, preds: seq<seq<Pred>>, table: map<Addr, nat>, g: Graph, rep: seq<nat>)
    requires root.Int? && LoadInv(s, root, nodes, preds, table, []) && Redirected(s, s', nodes, g, rep)
    ensures s' == s
  {
  }
}
