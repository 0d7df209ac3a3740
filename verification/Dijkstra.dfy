/** The labels createTable of hupsim.pl computes, as values: what each phase of Dijkstra's algorithm does to
    them and why the final labels are hop-count distances. */
module Dijkstra {
  import opened Graphs

  const INFINITY := 65535

  /** A router's distance, done counter and predecessor id (-1 when undefined). */
  datatype Label = Label(dist: int, done: nat, pred: int)

  type Labels = map<nat, Label>

  function Unvisited(s: nat, l: Labels): Labels {
    map v | v in l :: Label(if v == s then 0 else INFINITY, 0, l[v].pred)
  }

  function Done(l: Labels): set<nat> { set v | v in l && l[v].done != 0 }

  /** u is a router not yet visited with the least distance among those. */
  predicate Nearest(l: Labels, u: nat) {
    u in l && l[u].done == 0 && forall w :: w in l && l[w].done == 0 ==> l[u].dist <= l[w].dist
  }

  /** The labels after following the edges from u to the routers in `targets`. */
  function Relaxed(l: Labels, u: nat, targets: set<nat>): Labels
    requires u in l
  {
    map v | v in l ::
      if v in targets && l[v].dist > l[u].dist + 1 then Label(l[u].dist + 1, l[v].done, u) else l[v]
  }

  function Visited(l: Labels, u: nat, targets: set<nat>): Labels
    requires u in l
  {
    var r := Relaxed(l, u, targets);
    r[u := r[u].(done := r[u].done + 1)]
  }

  predicate Labelled(g: Graph, s: nat, l: Labels) {
    l.Keys == g.Keys && s in l && l[s].dist == 0
    && forall v :: v in l ==> l[v].dist >= 0 && (v != s ==> l[v].dist >= 1)
  }

  /** Finite distances are small: no chain is longer than the number of visited routers. */
  predicate Bounded(l: Labels) {
    forall v :: v in l ==> l[v].dist == INFINITY || (l[v].dist <= |Done(l)| && l[v].dist < |l|)
  }

  /** Visited routers are at most as far as unvisited ones. */
  predicate Layered(l: Labels) {
    forall u, w :: u in l && w in l && l[u].done != 0 && l[w].done == 0 ==> l[u].dist <= l[w].dist
  }

  /** The edges of visited routers have been followed. */
  predicate Followed(g: Graph, l: Labels)
    requires l.Keys == g.Keys
  {
    forall u, v :: u in l && l[u].done != 0 && v in l && v in g[u] ==> l[v].dist <= l[u].dist + 1
  }

  predicate HasPred(g: Graph, l: Labels, v: nat)
    requires l.Keys == g.Keys && v in l
  {
    l[v].pred >= 0 && l[v].pred in l && v in g[l[v].pred]
    && l[l[v].pred].done != 0 && l[v].dist == l[l[v].pred].dist + 1
  }

  /** Every reached router but the source has a visited predecessor one hop nearer. */
  predicate Chained(g: Graph, s: nat, l: Labels)
    requires l.Keys == g.Keys
  {
    forall v :: v in l && v != s && l[v].dist != INFINITY ==> HasPred(g, l, v)
  }

  /** The invariant of the visiting loop; s is the source. */
  predicate Progress(g: Graph, s: nat, l: Labels) {
    Labelled(g, s, l) && Bounded(l) && Layered(l) && Followed(g, l) && Chained(g, s, l)
  }

  lemma DoneGrows(l: Labels, u: nat, targets: set<nat>)
    requires u in l && l[u].done == 0
    ensures Done(Visited(l, u, targets)) == Done(l) + {u}
    ensures |Done(Visited(l, u, targets))| == |Done(l)| + 1
  {
    assert u !in Done(l);
  }

  lemma DoneSmall(l: Labels, u: nat)
    requires u in l && l[u].done == 0
    ensures |Done(l)| < |l|
  {
    assert Done(l) < l.Keys;
    Subset(Done(l), l.Keys);
  }

  lemma {:induction false} Subset(a: set<nat>, b: set<nat>)
    requires a <= b
    ensures |a| <= |b| && (|a| == |b| ==> a == b)
    decreases a
  {
    if a != {} {
      var x :| x in a;
      Subset(a - {x}, b - {x});
      assert b == (b - {x}) + {x};
    }
  }

  lemma VisitLabelled(g: Graph, s: nat, l: Labels, u: nat)
    requires Labelled(g, s, l) && Nearest(l, u)
    ensures Labelled(g, s, Visited(l, u, g[u]))
  {
  }

  lemma VisitBounded(g: Graph, s: nat, l: Labels, u: nat)
    requires |g| < INFINITY && Labelled(g, s, l) && Bounded(l) && Layered(l) && Nearest(l, u)
    ensures Bounded(Visited(l, u, g[u]))
  {
    var r := Visited(l, u, g[u]);
    DoneGrows(l, u, g[u]);
    assert r.Keys == l.Keys;
    assert |r| == |r.Keys| == |l.Keys| == |l|;
    forall v | v in r
      ensures r[v].dist == INFINITY || (r[v].dist <= |Done(r)| && r[v].dist < |r|)
    {
      if r[v].dist != l[v].dist {
        FreshDist(g, s, l, u, v);
        DoneSmall(r, v);
      }
    }
  }

  /** Only unvisited routers are relabelled, and by one more than the visited router. */
  lemma FreshDist(g: Graph, s: nat, l: Labels, u: nat, v: nat)
    requires Labelled(g, s, l) && Layered(l) && Nearest(l, u) && v in l
    requires Visited(l, u, g[u])[v].dist != l[v].dist
    ensures v != u && l[v].done == 0 && Visited(l, u, g[u])[v] == Label(l[u].dist + 1, 0, u)
    ensures l[u].dist + 1 < l[v].dist
  {
  }

  lemma VisitLayered(g: Graph, s: nat, l: Labels, u: nat)
    requires Labelled(g, s, l) && Layered(l) && Nearest(l, u)
    ensures Layered(Visited(l, u, g[u]))
  {
  }

  lemma VisitFollowed(g: Graph, s: nat, l: Labels, u: nat)
    requires Labelled(g, s, l) && Layered(l) && Followed(g, l) && Nearest(l, u)
    ensures Visited(l, u, g[u]).Keys == g.Keys && Followed(g, Visited(l, u, g[u]))
  {
  }

  lemma KeptPred(g: Graph, s: nat, l: Labels, u: nat, v: nat)
    requires Labelled(g, s, l) && Layered(l) && Nearest(l, u) && v in l && HasPred(g, l, v)
    requires Visited(l, u, g[u])[v].dist == l[v].dist
    ensures HasPred(g, Visited(l, u, g[u]), v)
  {
    var p := l[v].pred;
    assert l[p].dist <= l[u].dist;
    assert Visited(l, u, g[u])[p].dist == l[p].dist;
  }

  lemma NewPred(g: Graph, s: nat, l: Labels, u: nat, v: nat)
    requires Labelled(g, s, l) && Nearest(l, u) && v in l
    requires Visited(l, u, g[u])[v].dist != l[v].dist
    ensures HasPred(g, Visited(l, u, g[u]), v)
  {
  }

  lemma VisitChained(g: Graph, s: nat, l: Labels, u: nat)
    requires Labelled(g, s, l) && Layered(l) && Chained(g, s, l) && Nearest(l, u)
    ensures Visited(l, u, g[u]).Keys == g.Keys && Chained(g, s, Visited(l, u, g[u]))
  {
    var r := Visited(l, u, g[u]);
    assert r.Keys == g.Keys;
    forall v | v in r && v != s && r[v].dist != INFINITY
      ensures HasPred(g, r, v)
    {
      hide Visited, HasPred, Layered, Nearest;
      if r[v].dist == l[v].dist { KeptPred(g, s, l, u, v); } else { NewPred(g, s, l, u, v); }
    }
  }

  lemma VisitKeeps(g: Graph, s: nat, l: Labels, u: nat)
    requires |g| < INFINITY && Progress(g, s, l) && Nearest(l, u)
    ensures Progress(g, s, Visited(l, u, g[u]))
  {
    hide Visited, Bounded, Layered, Nearest;
    VisitLabelled(g, s, l, u);
    VisitBounded(g, s, l, u);
    VisitLayered(g, s, l, u);
    VisitFollowed(g, s, l, u);
    VisitChained(g, s, l, u);
  }

  lemma UnvisitedProgress(g: Graph, s: nat, l: Labels)
    requires l.Keys == g.Keys && s in g
    ensures Progress(g, s, Unvisited(s, l)) && Done(Unvisited(s, l)) == {}
  {
    var r := Unvisited(s, l);
    assert r.Keys == l.Keys && Done(r) == {};
    assert |r| > 0;
  }

  // ---- when every router is visited the labels are distances ----

  lemma {:induction false} NoShorterWalk(g: Graph, s: nat, l: Labels, v: nat, k: nat)
    requires Wired(g) && |g| < INFINITY && Progress(g, s, l) && Done(l) == l.Keys && Walk(g, s, v, k)
    ensures v in l && l[v].dist != INFINITY && l[v].dist <= k
    decreases k
  {
    hide Done, Layered, Chained;
    assert |l| == |l.Keys| == |g.Keys| == |g|;
    if k > 0 {
      var w :| Walk(g, s, w, k - 1) && Edge(g, w, v);
      NoShorterWalk(g, s, l, w, k - 1);
      AllDone(l, w);
      assert l[v].dist <= l[w].dist + 1;
    }
  }

  lemma AllDone(l: Labels, v: nat)
    requires Done(l) == l.Keys && v in l
    ensures l[v].done != 0
  {
  }

  lemma LabelRange(g: Graph, s: nat, l: Labels, v: nat)
    requires |g| < INFINITY && Progress(g, s, l) && v in l && l[v].dist != INFINITY
    ensures v in g && s in g && 0 <= l[v].dist < INFINITY && (l[v].dist == 0 <==> v == s)
  {
    hide Layered, Followed, Chained;
    assert |l| == |l.Keys| == |g.Keys| == |g|;
  }

  lemma NoHops(g: Graph, s: nat)
    requires s in g
    ensures Walk(g, s, s, 0)
  {
  }

  lemma OneMoreHop(g: Graph, s: nat, p: nat, v: nat, k: nat)
    requires Walk(g, s, p, k) && Edge(g, p, v)
    ensures Walk(g, s, v, k + 1)
  {
    EdgeWalk(g, p, v);
    WalkJoin(g, s, p, v, k, 1);
  }

  lemma {:induction false} PredWalk(g: Graph, s: nat, l: Labels, v: nat, d: nat)
    requires |g| < INFINITY && Progress(g, s, l) && v in l && l[v].dist == d < INFINITY
    ensures Walk(g, s, v, d)
    decreases d
  {
    hide Progress, Walk;
    LabelRange(g, s, l, v);
    if d == 0 {
      NoHops(g, s);
    } else {
      PredOf(g, s, l, v);
      PredWalk(g, s, l, l[v].pred, d - 1);
      OneMoreHop(g, s, l[v].pred, v, d - 1);
    }
  }

  /** On a connected graph with fewer than 65535 routers the final labels are exactly the hop counts, and
      every router's predecessor is a neighbour one hop nearer to the source. */
  lemma LabelsAreDistances(g: Graph, s: nat, l: Labels, v: nat)
    requires Wired(g) && Connected(g) && |g| < INFINITY && Progress(g, s, l) && Done(l) == g.Keys && v in g
    ensures v in l && Dist(g, s, v, l[v].dist)
    ensures v != s ==>
              l[v].pred >= 0 && Edge(g, l[v].pred, v) && Dist(g, s, l[v].pred, l[v].dist - 1)
  {
    hide *;
    SameKeys(g, s, l);
    DistanceOf(g, s, l, v);
    if v != s {
      PredOf(g, s, l, v);
      DistanceOf(g, s, l, l[v].pred);
    }
  }

  lemma SameKeys(g: Graph, s: nat, l: Labels)
    requires Progress(g, s, l)
    ensures l.Keys == g.Keys
  {
  }

  lemma PredOf(g: Graph, s: nat, l: Labels, v: nat)
    requires Progress(g, s, l) && v in g && v in l && v != s && l[v].dist != INFINITY
    ensures l[v].pred >= 0 && Edge(g, l[v].pred, v) && l[v].pred in l && l[l[v].pred].dist == l[v].dist - 1
  {
    assert HasPred(g, l, v);
  }

  lemma DistanceOf(g: Graph, s: nat, l: Labels, v: nat)
    requires Wired(g) && Connected(g) && |g| < INFINITY && Progress(g, s, l) && Done(l) == l.Keys && v in g
    ensures v in l && l[v].dist != INFINITY && Dist(g, s, v, l[v].dist)
  {
    assert s in g;
    hide Progress, Done;
    assert Reaches(g, s, v);
    var k: nat :| Walk(g, s, v, k);
    NoShorterWalk(g, s, l, v, k);
    LabelRange(g, s, l, v);
    PredWalk(g, s, l, v, l[v].dist);
    forall j: nat | Walk(g, s, v, j)
      ensures l[v].dist <= j
    {
      NoShorterWalk(g, s, l, v, j);
    }
  }
}
