/** The data graph under minimization, and what it means for two of its nodes
    to be the same. */
module DataGraph {
  import opened Heap
  import opened Compare

  /** Nodes are numbers. key[v] is what can be seen of v itself, kids[v] its
      outgoing edges by label. */
  datatype Graph = Graph(key: seq<Observation>, kids: seq<map<nat, nat>>)
  {
    ghost predicate Valid() {
      && |key| == |kids|
      && (forall v, e :: 0 <= v < |kids| && e in kids[v] ==> kids[v][e] < |kids|)
      && (forall u, v :: 0 <= u < |kids| && 0 <= v < |kids| && key[u] == key[v] ==> kids[u].Keys == kids[v].Keys)
    }
  }

  /** An incoming edge: its label and the node it comes from. */
  datatype Pred = Pred(edge: nat, parent: nat)

  /** preds[c] lists exactly the edges into c. */
  ghost predicate PredsOK(g: Graph, preds: seq<seq<Pred>>) {
    && |preds| == |g.kids|
    && (forall c, x :: 0 <= c < |preds| && x in preds[c] ==>
          x.parent < |g.kids| && x.edge in g.kids[x.parent] && g.kids[x.parent][x.edge] == c)
    && (forall p, e :: 0 <= p < |g.kids| && e in g.kids[p] ==>
          g.kids[p][e] < |preds| && Pred(e, p) in preds[g.kids[p][e]])
  }

  /** g is the graph of the blocks at the addresses nodes, numbered in that order. */
  ghost predicate Represents(s: Store, nodes: seq<Addr>, g: Graph) {
    && |g.key| == |g.kids| == |nodes|
    && (forall v {:trigger nodes[v]} :: 0 <= v < |nodes| ==> nodes[v] in s && g.key[v] == Observe(s, nodes[v]))
    && (forall u, v :: 0 <= u < v < |nodes| ==> nodes[u] != nodes[v])
    && (forall v, e: nat :: 0 <= v < |nodes| ==>
          (e in g.kids[v] <==> e < |s[nodes[v]].Fields()| && s[nodes[v]].Fields()[e].Ptr?))
    && (forall v, e: nat :: 0 <= v < |nodes| && e in g.kids[v] ==>
          g.kids[v][e] < |nodes| && nodes[g.kids[v][e]] == s[nodes[v]].Fields()[e].a)
  }

  lemma RepresentsValid(s: Store, nodes: seq<Addr>, g: Graph)
    requires Represents(s, nodes, g)
    ensures g.Valid()
  {
    forall u, v | 0 <= u < |nodes| && 0 <= v < |nodes| && g.key[u] == g.key[v]
      ensures g.kids[u].Keys == g.kids[v].Keys
    {
      var p, q := s[nodes[u]].Fields(), s[nodes[v]].Fields();
      assert Shapes(p) == Shapes(q);
      forall e: nat ensures e in g.kids[u] <==> e in g.kids[v] {
        assert e < |p| ==> Shapes(p)[e] == Shapes(q)[e];
      }
    }
  }

  // ---------- bisimilarity ----------

  /** Related nodes look the same and lead to related nodes along every edge. */
  ghost predicate IsBisimulation(g: Graph, r: set<(nat, nat)>) {
    forall u, v :: (u, v) in r ==>
      && u < |g.kids| && v < |g.kids| && u < |g.key| && v < |g.key|
      && g.key[u] == g.key[v]
      && forall e :: e in g.kids[u] ==> e in g.kids[v] && (g.kids[u][e], g.kids[v][e]) in r
  }

  ghost predicate Bisimilar(g: Graph, u: nat, v: nat) {
    exists r :: IsBisimulation(g, r) && (u, v) in r
  }

  lemma BisimilarChildren(g: Graph, u: nat, v: nat, e: nat)
    requires Bisimilar(g, u, v) && u < |g.kids| && e in g.kids[u]
    ensures v < |g.kids| && e in g.kids[v] && Bisimilar(g, g.kids[u][e], g.kids[v][e])
  {
    var r :| IsBisimulation(g, r) && (u, v) in r;
  }

  ghost function SameBlockPairs(blockOf: seq<int>): set<(nat, nat)> {
    set u: nat, v: nat | u < |blockOf| && v < |blockOf| && blockOf[u] == blockOf[v] :: (u, v)
  }

  /** Nodes of one block look the same and lead into the same block. */
  ghost predicate Stable(g: Graph, blockOf: seq<int>) {
    && |blockOf| == |g.kids| == |g.key|
    && (forall u, v :: 0 <= u < |blockOf| && 0 <= v < |blockOf| && blockOf[u] == blockOf[v] ==> g.key[u] == g.key[v])
    && (forall u, v, e | 0 <= u < |blockOf| && 0 <= v < |blockOf| && e in g.kids[u] && e in g.kids[v] ::
          blockOf[u] == blockOf[v] && g.kids[u][e] < |blockOf| && g.kids[v][e] < |blockOf| ==>
          blockOf[g.kids[u][e]] == blockOf[g.kids[v][e]])
  }

  /** No two bisimilar nodes are separated. */
  ghost predicate Coarse(g: Graph, blockOf: seq<int>) {
    && |blockOf| == |g.kids|
    && forall u: nat, v: nat :: u < |blockOf| && v < |blockOf| && Bisimilar(g, u, v) ==> blockOf[u] == blockOf[v]
  }

  /** A stable partition that separates no bisimilar nodes is bisimilarity. */
  lemma StableCoarseIsBisimilarity(g: Graph, blockOf: seq<int>, u: nat, v: nat)
    requires g.Valid() && Stable(g, blockOf) && Coarse(g, blockOf)
    requires u < |blockOf| && v < |blockOf|
    ensures blockOf[u] == blockOf[v] <==> Bisimilar(g, u, v)
  {
    if blockOf[u] == blockOf[v] {
      var r := SameBlockPairs(blockOf);
      assert IsBisimulation(g, r) by {
        forall x, y | (x, y) in r
          ensures forall e :: e in g.kids[x] ==> e in g.kids[y] && (g.kids[x][e], g.kids[y][e]) in r
        {
          assert g.key[x] == g.key[y];
        }
      }
      assert (u, v) in r;
    }
  }
}
