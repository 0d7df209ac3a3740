/** Router topologies: walks and hop-count distances. */
module Graphs {

  /** Each router's id with the ids of the routers it has a queue to. */
  type Graph = map<nat, set<nat>>

  predicate Wired(g: Graph) { forall u, v :: u in g && v in g[u] ==> v in g }

  predicate Edge(g: Graph, u: nat, v: nat) { u in g && v in g[u] }

  /** There is a walk of exactly k hops from u to v. */
  ghost predicate Walk(g: Graph, u: nat, v: nat, k: nat)
    decreases k
  {
    if k == 0 then u == v && u in g
    else exists w :: Walk(g, u, w, k - 1) && Edge(g, w, v)
  }

  /** d is the least number of hops from u to v. */
  ghost predicate Dist(g: Graph, u: nat, v: nat, d: int) {
    d >= 0 && Walk(g, u, v, d) && forall k: nat :: Walk(g, u, v, k) ==> d <= k
  }

  ghost predicate Reaches(g: Graph, u: nat, v: nat) { exists k: nat :: Walk(g, u, v, k) }

  ghost predicate Connected(g: Graph) {
    forall u, v {:trigger Reaches(g, u, v)} :: u in g && v in g ==> Reaches(g, u, v)
  }

  /** h is a neighbour of u from which v is one hop nearer. */
  ghost predicate OnShortestPath(g: Graph, u: nat, v: nat, h: nat) {
    Edge(g, u, h) && exists d :: Dist(g, u, v, d) && Dist(g, h, v, d - 1)
  }

  lemma {:induction false} WalkEnds(g: Graph, u: nat, v: nat, k: nat)
    requires Wired(g) && Walk(g, u, v, k)
    ensures u in g && v in g
    decreases k
  {
    if k > 0 {
      var w :| Walk(g, u, w, k - 1) && Edge(g, w, v);
      WalkEnds(g, u, w, k - 1);
    }
  }

  lemma {:induction false} WalkJoin(g: Graph, u: nat, w: nat, v: nat, j: nat, k: nat)
    requires Walk(g, u, w, j) && Walk(g, w, v, k)
    ensures Walk(g, u, v, j + k)
    decreases k
  {
    if k > 0 {
      var x :| Walk(g, w, x, k - 1) && Edge(g, x, v);
      WalkJoin(g, u, w, x, j, k - 1);
      assert Walk(g, u, x, j + k - 1);
    }
  }

  lemma EdgeWalk(g: Graph, u: nat, v: nat)
    requires Edge(g, u, v)
    ensures Walk(g, u, v, 1)
  {
    assert Walk(g, u, u, 0);
  }

  lemma DistUnique(g: Graph, u: nat, v: nat, d: int, e: int)
    requires Dist(g, u, v, d) && Dist(g, u, v, e)
    ensures d == e
  {
  }

  /** The neighbour that starts a shortest walk is on a shortest path. */
  lemma FirstHop(g: Graph, u: nat, h: nat, v: nat, d: nat)
    requires Edge(g, u, h) && Dist(g, u, v, d) && d >= 1 && Walk(g, h, v, d - 1)
    ensures OnShortestPath(g, u, v, h) && Dist(g, h, v, d - 1)
  {
    forall k: nat | Walk(g, h, v, k)
      ensures d - 1 <= k
    {
      EdgeWalk(g, u, h);
      WalkJoin(g, u, h, v, 1, k);
    }
  }
}
