/** Redirecting all edges to one representative per class, and what that keeps. */
module Reduction {
  import opened Wrappers
  import opened Heap
  import opened Compare
  import opened DataGraph

  // ---------- unfoldings ----------

  /** The address reached from a along a path of field indices. */
  ghost function Follow(s: Store, a: Addr, path: seq<nat>): Option<Addr>
    decreases path
  {
    if a !in s then None
    else if path == [] then Some(a)
    else if path[0] < |s[a].Fields()| && s[a].Fields()[path[0]].Ptr? then
      Follow(s, s[a].Fields()[path[0]].a, path[1..])
    else None
  }

  /** What is seen at the end of a path: all paths together are the possibly
      infinite tree that the data at a stands for. */
  ghost function Unfolding(s: Store, a: Addr, path: seq<nat>): Option<Observation> {
    match Follow(s, a, path)
    case None => None
    case Some(b) => if b in s then Some(Observe(s, b)) else None
  }

  ghost predicate SameUnfolding(s: Store, a: Addr, s': Store, b: Addr) {
    forall path :: Unfolding(s, a, path) == Unfolding(s', b, path)
  }

  ghost predicate Reaches(s: Store, a: Addr, b: Addr) {
    exists path :: Follow(s, a, path) == Some(b)
  }

  // ---------- bisimilarity is having the same unfolding ----------

  lemma {:induction false} BisimilarUnfolding(s: Store, nodes: seq<Addr>, g: Graph, u: nat, v: nat, path: seq<nat>)
    requires Represents(s, nodes, g) && Bisimilar(g, u, v) && u < |nodes| && v < |nodes|
    ensures Unfolding(s, nodes[u], path) == Unfolding(s, nodes[v], path)
    decreases path
  {
    assert g.key[u] == g.key[v];
    RepresentsValid(s, nodes, g);
    assert g.kids[u].Keys == g.kids[v].Keys;
    if path != [] {
      var e := path[0];
      assert e in g.kids[u] <==> e in g.kids[v];
      if e in g.kids[u] {
        BisimilarChildren(g, u, v, e);
        BisimilarUnfolding(s, nodes, g, g.kids[u][e], g.kids[v][e], path[1..]);
      }
    }
  }

  ghost function SameUnfoldingPairs(s: Store, nodes: seq<Addr>): set<(nat, nat)> {
    set u: nat, v: nat | u < |nodes| && v < |nodes| && SameUnfolding(s, nodes[u], s, nodes[v]) :: (u, v)
  }

  lemma KidUnfolding(s: Store, nodes: seq<Addr>, g: Graph, u: nat, e: nat, path: seq<nat>)
    requires Represents(s, nodes, g) && u < |nodes| && e in g.kids[u]
    ensures Unfolding(s, nodes[u], [e] + path) == Unfolding(s, nodes[g.kids[u][e]], path)
  {
    assert ([e] + path)[1..] == path;
  }

  lemma SameUnfoldingKids(s: Store, nodes: seq<Addr>, g: Graph, u: nat, v: nat, e: nat)
    requires Represents(s, nodes, g) && u < |nodes| && v < |nodes| && e in g.kids[u]
    requires SameUnfolding(s, nodes[u], s, nodes[v])
    ensures g.key[u] == g.key[v] && e in g.kids[v] && SameUnfolding(s, nodes[g.kids[u][e]], s, nodes[g.kids[v][e]])
  {
    hide Observe;
    assert Unfolding(s, nodes[u], []) == Unfolding(s, nodes[v], []);
    RepresentsValid(s, nodes, g);
    assert g.kids[u].Keys == g.kids[v].Keys;
    assert e in g.kids[v];
    forall path ensures Unfolding(s, nodes[g.kids[u][e]], path) == Unfolding(s, nodes[g.kids[v][e]], path) {
      KidUnfolding(s, nodes, g, u, e, path);
      KidUnfolding(s, nodes, g, v, e, path);
      assert Unfolding(s, nodes[u], [e] + path) == Unfolding(s, nodes[v], [e] + path);
    }
  }

  /** Two nodes are bisimilar exactly when they stand for the same unfolding. */
  lemma BisimilarIffSameUnfolding(s: Store, nodes: seq<Addr>, g: Graph, u: nat, v: nat)
    requires Represents(s, nodes, g) && u < |nodes| && v < |nodes|
    ensures Bisimilar(g, u, v) <==> SameUnfolding(s, nodes[u], s, nodes[v])
  {
    hide Unfolding, IsBisimulation;
    if Bisimilar(g, u, v) {
      forall path ensures Unfolding(s, nodes[u], path) == Unfolding(s, nodes[v], path) {
        BisimilarUnfolding(s, nodes, g, u, v, path);
      }
    }
    if SameUnfolding(s, nodes[u], s, nodes[v]) {
      UnfoldingsBisimulate(s, nodes, g);
      assert (u, v) in SameUnfoldingPairs(s, nodes);
    }
  }

  /** Nodes with the same unfolding are related by a bisimulation. */
  lemma UnfoldingsBisimulate(s: Store, nodes: seq<Addr>, g: Graph)
    requires Represents(s, nodes, g)
    ensures IsBisimulation(g, SameUnfoldingPairs(s, nodes))
  {
    hide Unfolding, SameUnfolding;
    var r := SameUnfoldingPairs(s, nodes);
    forall x, y | (x, y) in r
      ensures g.key[x] == g.key[y]
      ensures forall e :: e in g.kids[x] ==> e in g.kids[y] && (g.kids[x][e], g.kids[y][e]) in r
    {
      SameKeys(s, nodes, g, x, y);
      forall e | e in g.kids[x] ensures e in g.kids[y] && (g.kids[x][e], g.kids[y][e]) in r {
        SameUnfoldingKids(s, nodes, g, x, y, e);
      }
    }
  }

  lemma SameKeys(s: Store, nodes: seq<Addr>, g: Graph, u: nat, v: nat)
    requires Represents(s, nodes, g) && u < |nodes| && v < |nodes| && SameUnfolding(s, nodes[u], s, nodes[v])
    ensures g.key[u] == g.key[v]
  {
    hide Observe;
    assert Unfolding(s, nodes[u], []) == Unfolding(s, nodes[v], []);
  }

  // ---------- the redirected store ----------

  /** rep[v] stands for the class of v, and it stands for itself. */
  ghost predicate IsReps(g: Graph, rep: seq<nat>) {
    && |rep| == |g.kids|
    && (forall v {:trigger rep[v]} :: 0 <= v < |rep| ==> rep[v] < |rep| && rep[rep[v]] == rep[v])
    && (forall u: nat, v: nat :: u < |rep| && v < |rep| ==> (rep[u] == rep[v] <==> Bisimilar(g, u, v)))
  }

  /** The same block apart from where its pointers lead. */
  ghost predicate SameButPointers(b: Block, c: Block) {
    && b.Chunk? == c.Chunk? && b.mutable == c.mutable
    && (b.Chunk? ==> c == b)
    && (b.Block? ==> c.tag == b.tag && |c.args| == |b.args| && forall e :: 0 <= e < |b.args| ==>
          (b.args[e].Int? ==> c.args[e] == b.args[e]) && (b.args[e].Ptr? ==> c.args[e].Ptr?))
  }

  /** Every edge into a node leads to its representative instead; nothing else changed. */
  ghost predicate Redirected(s: Store, s': Store, nodes: seq<Addr>, g: Graph, rep: seq<nat>) {
    && s'.Keys == s.Keys && |rep| == |nodes| == |g.kids|
    && (forall v {:trigger rep[v]} :: 0 <= v < |rep| ==> rep[v] < |rep|)
    && (forall a :: a in s && a !in nodes ==> s'[a] == s[a])
    && (forall v {:trigger nodes[v]} :: 0 <= v < |nodes| ==> nodes[v] in s && SameButPointers(s[nodes[v]], s'[nodes[v]]))
    && (forall v, e: nat :: 0 <= v < |nodes| && e in g.kids[v] ==>
          && e < |s'[nodes[v]].Fields()| && g.kids[v][e] < |rep|
          && s'[nodes[v]].Fields()[e] == Ptr(nodes[rep[g.kids[v][e]]]))
  }

  lemma RedirectedObserve(s: Store, s': Store, nodes: seq<Addr>, g: Graph, rep: seq<nat>, v: nat)
    requires Redirected(s, s', nodes, g, rep) && v < |nodes|
    ensures nodes[v] in s' && Observe(s', nodes[v]) == Observe(s, nodes[v])
    ensures |s'[nodes[v]].Fields()| == |s[nodes[v]].Fields()|
    ensures forall e :: 0 <= e < |s[nodes[v]].Fields()| ==> s[nodes[v]].Fields()[e].Ptr? == s'[nodes[v]].Fields()[e].Ptr?
  {
    var b, c := s[nodes[v]], s'[nodes[v]];
    assert SameButPointers(b, c);
    assert Shapes(c.Fields()) == Shapes(b.Fields());
  }

  /** A path leads to the representative of where it led before. */
  lemma {:induction false} FollowRedirected(s: Store, s': Store, nodes: seq<Addr>, g: Graph, rep: seq<nat>,
                                            u: nat, v: nat, path: seq<nat>)
    requires Represents(s, nodes, g) && IsReps(g, rep) && Redirected(s, s', nodes, g, rep)
    requires u < |nodes| && v == rep[u]
    ensures Follow(s, nodes[u], path).None? ==> Follow(s', nodes[v], path).None?
    ensures Follow(s, nodes[u], path).Some? ==>
              exists w :: 0 <= w < |nodes| && Follow(s, nodes[u], path) == Some(nodes[w])
                && Follow(s', nodes[v], path) == Some(nodes[rep[w]])
    decreases path
  {
    RedirectedObserve(s, s', nodes, g, rep, v);
    assert rep[v] == rep[u];
    assert Bisimilar(g, u, v);
    RepresentsValid(s, nodes, g);
    assert g.key[u] == g.key[v] && g.kids[u].Keys == g.kids[v].Keys;
    if path == [] {
      assert Follow(s, nodes[u], path) == Some(nodes[u]);
    } else {
      var e := path[0];
      assert e in g.kids[u] <==> e in g.kids[v];
      if e in g.kids[u] {
        BisimilarChildren(g, u, v, e);
        assert rep[g.kids[u][e]] == rep[g.kids[v][e]];
        FollowRedirected(s, s', nodes, g, rep, g.kids[u][e], rep[g.kids[u][e]], path[1..]);
      }
    }
  }

  /** Redirection leaves the unfolding of every node as it was, and that of its representative too. */
  lemma RedirectedUnfolding(s: Store, s': Store, nodes: seq<Addr>, g: Graph, rep: seq<nat>, u: nat)
    requires Represents(s, nodes, g) && IsReps(g, rep) && Redirected(s, s', nodes, g, rep)
    requires u < |nodes|
    ensures SameUnfolding(s, nodes[u], s', nodes[rep[u]])
  {
    forall path ensures Unfolding(s, nodes[u], path) == Unfolding(s', nodes[rep[u]], path) {
      FollowRedirected(s, s', nodes, g, rep, u, rep[u], path);
      if Follow(s, nodes[u], path).Some? {
        var w :| 0 <= w < |nodes| && Follow(s, nodes[u], path) == Some(nodes[w])
                 && Follow(s', nodes[rep[u]], path) == Some(nodes[rep[w]]);
        assert rep[rep[w]] == rep[w] && Bisimilar(g, w, rep[w]);
        RedirectedObserve(s, s', nodes, g, rep, rep[w]);
      }
    }
  }

  /** From the root exactly the representatives are reached afterwards: one node of every class. */
  lemma ReachesRepresentatives(s: Store, s': Store, nodes: seq<Addr>, g: Graph, rep: seq<nat>, b: Addr)
    requires Represents(s, nodes, g) && IsReps(g, rep) && Redirected(s, s', nodes, g, rep)
    requires |nodes| > 0 && rep[0] == 0
    requires forall v :: 0 <= v < |nodes| ==> Reaches(s, nodes[0], nodes[v])
    ensures Reaches(s', nodes[0], b) <==> exists v :: 0 <= v < |nodes| && rep[v] == v && nodes[v] == b
  {
    if Reaches(s', nodes[0], b) {
      var path :| Follow(s', nodes[0], path) == Some(b);
      FollowRedirected(s, s', nodes, g, rep, 0, 0, path);
      var w :| 0 <= w < |nodes| && Follow(s', nodes[0], path) == Some(nodes[rep[w]]);
      assert rep[rep[w]] == rep[w] && nodes[rep[w]] == b;
    }
    if v :| 0 <= v < |nodes| && rep[v] == v && nodes[v] == b {
      assert Reaches(s, nodes[0], nodes[v]);
      var path :| Follow(s, nodes[0], path) == Some(nodes[v]);
      FollowRedirected(s, s', nodes, g, rep, 0, 0, path);
      var w :| 0 <= w < |nodes| && Some(nodes[v]) == Some(nodes[w]) && Follow(s', nodes[0], path) == Some(nodes[rep[w]]);
      assert w == v;
      assert Follow(s', nodes[0], path) == Some(b);
    }
  }

  /** No two nodes reached from the root afterwards stand for the same unfolding. */
  lemma MaximalSharing(s: Store, s': Store, nodes: seq<Addr>, g: Graph, rep: seq<nat>, a: Addr, b: Addr)
    requires Represents(s, nodes, g) && IsReps(g, rep) && Redirected(s, s', nodes, g, rep)
    requires |nodes| > 0 && rep[0] == 0
    requires forall v :: 0 <= v < |nodes| ==> Reaches(s, nodes[0], nodes[v])
    requires Reaches(s', nodes[0], a) && Reaches(s', nodes[0], b) && SameUnfolding(s', a, s', b)
    ensures a == b
  {
    ReachesRepresentatives(s, s', nodes, g, rep, a);
    ReachesRepresentatives(s, s', nodes, g, rep, b);
    var u :| 0 <= u < |nodes| && rep[u] == u && nodes[u] == a;
    var v :| 0 <= v < |nodes| && rep[v] == v && nodes[v] == b;
    RedirectedUnfolding(s, s', nodes, g, rep, u);
    RedirectedUnfolding(s, s', nodes, g, rep, v);
    forall path ensures Unfolding(s, a, path) == Unfolding(s, b, path) {
      assert Unfolding(s', a, path) == Unfolding(s', b, path);
      assert Unfolding(s, a, path) == Unfolding(s', a, path);
      assert Unfolding(s, b, path) == Unfolding(s', b, path);
    }
    BisimilarIffSameUnfolding(s, nodes, g, u, v);
  }

  // ---------- redirecting, edge by edge ----------

  function ReplaceArg(b: Block, e: nat, w: Word): Block {
    if b.Block? && e < |b.args| then b.(args := b.args[e := w]) else b
  }

  ghost predicate RepsInRange(nodes: seq<Addr>, g: Graph, rep: seq<nat>) {
    && |rep| == |nodes| == |g.kids|
    && (forall v {:trigger rep[v]} :: 0 <= v < |rep| ==> rep[v] < |rep|)
    && (forall v, e :: 0 <= v < |g.kids| && e in g.kids[v] ==> g.kids[v][e] < |rep|)
  }

  /** Of the edges of node v, those in done lead to representatives and the others as in b. */
  ghost predicate NodeRedirected(b: Block, b': Block, nodes: seq<Addr>, kids: map<nat, nat>, rep: seq<nat>, done: set<Pred>, v: nat) {
    && SameButPointers(b, b')
    && forall e: nat :: e in kids ==>
          && e < |b.Fields()| && e < |b'.Fields()| && kids[e] < |rep| && rep[kids[e]] < |nodes|
          && b'.Fields()[e] == if Pred(e, v) in done then Ptr(nodes[rep[kids[e]]]) else b.Fields()[e]
  }

  ghost predicate PartlyRedirected(s: Store, s': Store, nodes: seq<Addr>, g: Graph, rep: seq<nat>, done: set<Pred>) {
    && s'.Keys == s.Keys && RepsInRange(nodes, g, rep)
    && (forall a :: a in s && a !in nodes ==> s'[a] == s[a])
    && (forall v {:trigger nodes[v]} :: 0 <= v < |nodes| ==>
          nodes[v] in s && NodeRedirected(s[nodes[v]], s'[nodes[v]], nodes, g.kids[v], rep, done, v))
  }

  lemma RedirectOther(b: Block, b': Block, nodes: seq<Addr>, kids: map<nat, nat>, rep: seq<nat>, done: set<Pred>, v: nat, x: Pred)
    requires NodeRedirected(b, b', nodes, kids, rep, done, v) && x.parent != v
    ensures NodeRedirected(b, b', nodes, kids, rep, done + {x}, v)
  {
  }

  lemma RedirectThis(b: Block, b': Block, nodes: seq<Addr>, kids: map<nat, nat>, rep: seq<nat>, done: set<Pred>, v: nat, x: Pred)
    requires NodeRedirected(b, b', nodes, kids, rep, done, v) && x.parent == v && x.edge in kids
    requires b.Fields()[x.edge].Ptr?
    ensures NodeRedirected(b, ReplaceArg(b', x.edge, Ptr(nodes[rep[kids[x.edge]]])), nodes, kids, rep, done + {x}, v)
  {
    ReplaceKeepsRest(b, b', x.edge, nodes[rep[kids[x.edge]]]);
  }

  lemma OneParent(s: Store, nodes: seq<Addr>, g: Graph, x: Pred)
    requires Represents(s, nodes, g) && x.parent < |nodes| && x.edge in g.kids[x.parent]
    ensures nodes[x.parent] in s && forall v :: 0 <= v < |nodes| && v != x.parent ==> nodes[v] != nodes[x.parent]
    ensures x.edge < |s[nodes[x.parent]].Fields()| && s[nodes[x.parent]].Fields()[x.edge].Ptr?
  {
  }

  lemma RedirectOne(s: Store, s': Store, nodes: seq<Addr>, g: Graph, rep: seq<nat>, done: set<Pred>, c: nat, x: Pred)
    requires Represents(s, nodes, g) && PartlyRedirected(s, s', nodes, g, rep, done)
    requires c < |nodes| && x.parent < |nodes| && x.edge in g.kids[x.parent] && g.kids[x.parent][x.edge] == c
    ensures nodes[x.parent] in s' &&
            var s'' := s'[nodes[x.parent] := ReplaceArg(s'[nodes[x.parent]], x.edge, Ptr(nodes[rep[c]]))];
            PartlyRedirected(s, s'', nodes, g, rep, done + {x})
  {
    hide Represents, NodeRedirected, ReplaceArg;
    OneParent(s, nodes, g, x);
    var p := nodes[x.parent];
    var s'' := s'[p := ReplaceArg(s'[p], x.edge, Ptr(nodes[rep[c]]))];
    forall v | 0 <= v < |nodes|
      ensures NodeRedirected(s[nodes[v]], s''[nodes[v]], nodes, g.kids[v], rep, done + {x}, v)
    {
      assert nodes[v] in s;
      if v == x.parent {
        RedirectThis(s[p], s'[p], nodes, g.kids[v], rep, done, v, x);
      } else {
        assert nodes[v] != p;
        RedirectOther(s[nodes[v]], s'[nodes[v]], nodes, g.kids[v], rep, done, v, x);
      }
    }
  }

  lemma ReplaceKeepsRest(b: Block, b': Block, e: nat, a: Addr)
    requires SameButPointers(b, b') && e < |b.Fields()| && b.Fields()[e].Ptr?
    ensures var c := ReplaceArg(b', e, Ptr(a));
            SameButPointers(b, c) && c.Fields() == b'.Fields()[e := Ptr(a)]
  {
  }

  /** Redirects every edge into one node to its leader. */
  method RedirectNode(ghost s: Store, s1: Store, nodes: seq<Addr>, ghost g: Graph, ghost rep: seq<nat>, ghost done: set<Pred>,
                      ghost c: nat, ps: seq<Pred>, leader: Addr) returns (s2: Store)
    requires Represents(s, nodes, g) && PartlyRedirected(s, s1, nodes, g, rep, done)
    requires c < |nodes| && leader == nodes[rep[c]]
    requires forall k :: 0 <= k < |ps| ==>
               ps[k].parent < |nodes| && ps[k].edge in g.kids[ps[k].parent] && g.kids[ps[k].parent][ps[k].edge] == c
    ensures PartlyRedirected(s, s2, nodes, g, rep, done + (set x | x in ps))
  {
    hide Represents, PartlyRedirected, ReplaceArg;
    s2 := s1;
    ghost var now := done;
    var k := |ps|;
    while k != 0
      invariant 0 <= k <= |ps|
      invariant now == done + (set x | x in ps[k..])
      invariant PartlyRedirected(s, s2, nodes, g, rep, now)
    {
      k := k - 1;
      RedirectOne(s, s2, nodes, g, rep, now, c, ps[k]);
      assert ps[k..] == [ps[k]] + ps[k + 1..];
      now := now + {ps[k]};
      var p := nodes[ps[k].parent];
      s2 := s2[p := ReplaceArg(s2[p], ps[k].edge, Ptr(leader))];
    }
    assert ps[0..] == ps;
  }

  lemma NoneRedirected(s: Store, nodes: seq<Addr>, g: Graph, rep: seq<nat>)
    requires Represents(s, nodes, g) && RepsInRange(nodes, g, rep)
    ensures PartlyRedirected(s, s, nodes, g, rep, {})
  {
  }

  /** When all edges into nodes that are not representatives are done, so are all. */
  lemma AllRedirected(s: Store, s': Store, nodes: seq<Addr>, g: Graph, rep: seq<nat>, preds: seq<seq<Pred>>, done: set<Pred>)
    requires Represents(s, nodes, g) && RepsInRange(nodes, g, rep) && PredsOK(g, preds)
    requires PartlyRedirected(s, s', nodes, g, rep, done)
    requires forall c, x :: 0 <= c < |preds| && rep[c] != c && x in preds[c] ==> x in done
    ensures Redirected(s, s', nodes, g, rep)
  {
    forall v, e: nat | 0 <= v < |nodes| && e in g.kids[v]
      ensures s'[nodes[v]].Fields()[e] == Ptr(nodes[rep[g.kids[v][e]]])
    {
      var c := g.kids[v][e];
      assert Pred(e, v) in preds[c];
      assert s[nodes[v]].Fields()[e] == Ptr(nodes[c]);
    }
  }
}
