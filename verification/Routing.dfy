/** The routers and queues of hupsim.pl, and createTable on them. */
module Routing {
  import opened Basics
  import opened Graphs
  import opened Dijkstra

  const QUEUEMAX := 10

  /** A packet on the simulated network: where its spiffy header sends it and its length in bytes. */
  datatype Datagram = Datagram(destIP: int, destPort: int, length: nat)

  /** The value of a queue: its packets, their total length, and how many it dropped. */
  datatype Fifo = Fifo(max: nat, items: seq<Datagram>, size: int, dropped: nat)
  {
    function Enqueued(pkt: Datagram): Fifo {
      if |items| >= max then this.(dropped := dropped + 1)
      else this.(items := items + [pkt], size := size + pkt.length)
    }

    function Dequeued(): Fifo
      requires items != []
    {
      this.(items := items[1..], size := size - items[0].length)
    }

    /** The size field is the sum of the queued lengths, and the limit is respected. */
    predicate Consistent() { |items| <= max && size == TotalLength(items) }
  }

  function TotalLength(items: seq<Datagram>): int {
    if items == [] then 0 else items[0].length + TotalLength(items[1..])
  }

  lemma {:induction false} TotalLengthAppend(items: seq<Datagram>, pkt: Datagram)
    ensures TotalLength(items + [pkt]) == TotalLength(items) + pkt.length
  {
    if items == [] {
      assert TotalLength([pkt]) == pkt.length + TotalLength([pkt][1..]);
    } else {
      TotalLengthAppend(items[1..], pkt);
      assert (items + [pkt])[1..] == items[1..] + [pkt];
    }
  }

  /** Enqueueing and dequeueing keep the size field exact and the queue within its limit. */
  lemma FifoStaysConsistent(q: Fifo, pkt: Datagram)
    requires q.Consistent()
    ensures q.Enqueued(pkt).Consistent()
    ensures q.items != [] ==> q.Dequeued().Consistent()
  {
    TotalLengthAppend(q.items, pkt);
  }

  class NSQueue {
    const routeRef: NSRouter
    const max: nat
    var size: int
    var dropped: nat
    var queue: seq<Datagram>

    function View(): Fifo
      reads this
    {
      Fifo(max, queue, size, dropped)
    }

    /** A limit of 0 (or none) means the default. */
    constructor (routeRef: NSRouter, max: nat)
      ensures this.routeRef == routeRef
      ensures View() == Fifo(if max == 0 then QUEUEMAX else max, [], 0, 0)
    {
      this.routeRef := routeRef;
      this.max := if max == 0 then QUEUEMAX else max;
      size, dropped, queue := 0, 0, [];
    }

    /** enQ: drop the packet when the queue is full, else append it */
    method EnQ(pkt: Datagram)
      modifies this
      ensures View() == old(View()).Enqueued(pkt)
      ensures old(|queue|) < max ==> queue == old(queue) + [pkt] && size == old(size) + pkt.length && dropped == old(dropped)
      ensures old(|queue|) >= max ==> queue == old(queue) && size == old(size) && dropped == old(dropped) + 1
    {
      if |queue| >= max {
        dropped := dropped + 1;
      } else {
        queue := queue + [pkt];
        size := size + pkt.length;
      }
    }

    /** The part of run that takes a due packet off the head of a queue. */
    method Shift() returns (pkt: Datagram)
      requires queue != []
      modifies this`queue, this`size
      ensures pkt == old(queue)[0] && View() == old(View()).Dequeued()
    {
      pkt := queue[0];
      queue := queue[1..];
      size := size - pkt.length;
    }
  }

  const UNSPECIFIED := 0            // 0.0.0.0
  const LOOPBACK := 0x7f00_0001     // 127.0.0.1

  /** Which router a packet is for; the address 0.0.0.0 stands for 127.0.0.1. */
  function Resolve(nodes: map<(int, int), nat>, pkt: Datagram): Option<nat> {
    var ip := if pkt.destIP == UNSPECIFIED then LOOPBACK else pkt.destIP;
    if (ip, pkt.destPort) in nodes then Some(nodes[(ip, pkt.destPort)]) else None
  }

  class NSRouter {
    const id: nat
    const nodes: map<(int, int), nat>
    var bytesSent: int
    var routes: seq<NSQueue?>
    var distance: int
    var done: nat
    var predecessor: NSRouter?
    var routingTable: map<nat, NSQueue>

    constructor (id: nat, nodes: map<(int, int), nat>)
      ensures this.id == id && this.nodes == nodes && bytesSent == 0
      ensures routes == [] && predecessor == null && routingTable == map[]
    {
      this.id := id;
      this.nodes := nodes;
      routes, distance, done, predecessor, routingTable, bytesSent := [], 0, 0, null, map[], 0;
    }

    /** recv: deliver a packet for this router, queue any other on its route, ignore an unknown destination.
        The delivered packet is returned instead of written to the socket. */
    method Recv(pkt: Datagram) returns (delivered: bool)
      requires var dest := Resolve(nodes, pkt); dest.Some? && dest.value != id ==> dest.value in routingTable
      modifies this`bytesSent, routingTable.Values
      ensures var dest := Resolve(nodes, pkt);
              && (delivered <==> dest == Some(id))
              && bytesSent == old(bytesSent) + (if delivered then pkt.length - 16 else 0)
              && forall q :: q in routingTable.Values ==>
                   q.View() == if dest.Some? && !delivered && q == routingTable[dest.value]
                               then old(q.View()).Enqueued(pkt) else old(q.View())
      ensures var dest := Resolve(nodes, pkt);
              forall q :: q in routingTable.Values ==>
                q.queue == old(q.queue) + if dest.Some? && !delivered && q == routingTable[dest.value] && old(|q.queue|) < q.max
                                          then [pkt] else []
    {
      delivered := false;
      var dest := Resolve(nodes, pkt);
      if dest.None? { return; }
      if dest.value == id {
        bytesSent := bytesSent + (pkt.length - 16);
        delivered := true;
      } else {
        var queue := routingTable[dest.value];
        assert queue in routingTable.Values;
        queue.EnQ(pkt);
      }
    }

    /** The table has, for every other router, a queue of this router that starts a shortest path to it. */
    ghost predicate TableFor(g: Graph)
      reads this`routingTable, this`routes
    {
      && routingTable.Keys == g.Keys - {id}
      && AllLead(g, id, routes, routingTable)
    }
  }

  /** q is the queue, among those of router u, that starts a shortest path to v. */
  ghost predicate Leads(g: Graph, u: nat, routes: seq<NSQueue?>, v: nat, q: NSQueue) {
    q.routeRef.id < |routes| && routes[q.routeRef.id] == q && OnShortestPath(g, u, v, q.routeRef.id)
  }

  /** Every entry of a table leads to its router. */
  ghost predicate AllLead(g: Graph, u: nat, routes: seq<NSQueue?>, table: map<nat, NSQueue>) {
    forall v :: v in table ==> Leads(g, u, routes, v, table[v])
  }

  function Routers(vs: seq<NSRouter?>): set<NSRouter> { set v: NSRouter | v in vs }

  /** Routers sit at their own index and every queue leads to the router at the queue's index. */
  ghost predicate Topology(vs: seq<NSRouter?>)
    reads Routers(vs)`routes
  {
    && (forall i :: 0 <= i < |vs| && vs[i] != null ==> vs[i].id == i)
    && (forall v, j :: v in Routers(vs) && 0 <= j < |v.routes| && v.routes[j] != null ==>
          j < |vs| && vs[j] != null && v.routes[j].routeRef == vs[j])
  }

  ghost function GraphOf(vs: seq<NSRouter?>): Graph
    reads Routers(vs)`routes
  {
    map i: nat | i < |vs| && vs[i] != null :: Present(vs[i].routes, |vs[i].routes|)
  }

  ghost function LabelsOf(vs: seq<NSRouter?>): Labels
    reads Routers(vs)`distance, Routers(vs)`done, Routers(vs)`predecessor
  {
    map i: nat | i < |vs| && vs[i] != null ::
      Label(vs[i].distance, vs[i].done, if vs[i].predecessor == null then -1 else vs[i].predecessor.id)
  }

  /** Predecessors left by this or an earlier run are routers of the topology. */
  ghost predicate PredsInside(vs: seq<NSRouter?>)
    reads Routers(vs)`predecessor
  {
    forall v :: v in Routers(vs) && v.predecessor != null ==> v.predecessor in Routers(vs)
  }

  lemma AtIndex(vs: seq<NSRouter?>, v: NSRouter)
    requires Topology(vs) && v in Routers(vs)
    ensures v.id < |vs| && vs[v.id] == v
  {
    var i :| 0 <= i < |vs| && vs[i] == v;
  }

  lemma QueueTarget(vs: seq<NSRouter?>, v: NSRouter, j: int)
    requires Topology(vs) && v in Routers(vs) && 0 <= j < |v.routes| && v.routes[j] != null
    ensures j < |vs| && vs[j] != null && v.routes[j].routeRef == vs[j]
  {
  }

  /** Set up the base state of every router. */
  method Reset(vs: seq<NSRouter?>, source: nat)
    requires Topology(vs)
    modifies Routers(vs)`done, Routers(vs)`distance
    ensures LabelsOf(vs) == Unvisited(source, old(LabelsOf(vs)))
  {
    ghost var before := LabelsOf(vs);
    var i := 0;
    while i < |vs|
      invariant 0 <= i <= |vs|
      invariant forall j :: 0 <= j < i && vs[j] != null ==>
                  vs[j].done == 0 && vs[j].distance == if j == source then 0 else INFINITY
    {
      if vs[i] != null {
        vs[i].done := 0;
        vs[i].distance := if vs[i].id == source then 0 else INFINITY;
      }
      i := i + 1;
    }
  }

  /** The scan for the vertex to visit next. */
  method SelectNext(vs: seq<NSRouter?>) returns (next: NSRouter)
    requires Topology(vs)
    requires forall v :: v in Routers(vs) ==> v.distance <= INFINITY
    requires exists v :: v in Routers(vs) && v.done == 0
    ensures next in Routers(vs) && Nearest(LabelsOf(vs), next.id)
  {
    var found: NSRouter? := null;
    var min := INFINITY + 1;
    var i := 0;
    while i < |vs|
      invariant 0 <= i <= |vs|
      invariant found == null ==> min == INFINITY + 1 && forall j :: 0 <= j < i && vs[j] != null ==> vs[j].done != 0
      invariant found != null ==> found in Routers(vs) && found.done == 0 && found.distance == min
      invariant forall j :: 0 <= j < i && vs[j] != null && vs[j].done == 0 ==> min <= vs[j].distance
    {
      if vs[i] != null && vs[i].done == 0 && vs[i].distance < min {
        found := vs[i];
        min := vs[i].distance;
      }
      i := i + 1;
    }
    next := found;
  }

  /** The indices below n at which there is a queue. */
  function Present(routes: seq<NSQueue?>, n: nat): set<nat> {
    set j: nat | j < |routes| && j < n && routes[j] != null
  }

  lemma PresentNone(routes: seq<NSQueue?>)
    ensures Present(routes, 0) == {}
  {
  }

  lemma PresentNext(routes: seq<NSQueue?>, i: nat)
    requires i < |routes|
    ensures Present(routes, i + 1) == if routes[i] != null then Present(routes, i) + {i} else Present(routes, i)
  {
  }

  lemma RelaxedNone(l: Labels, u: nat)
    requires u in l
    ensures Relaxed(l, u, {}) == l
  {
  }

  lemma RelaxedMore(l: Labels, u: nat, targets: set<nat>, i: nat)
    requires u in l
    ensures Relaxed(Relaxed(l, u, targets), u, {i}) == Relaxed(l, u, targets + {i})
  {
  }

  /** Follow the edges of `next`. */
  method Relax(vs: seq<NSRouter?>, next: NSRouter)
    requires Topology(vs) && PredsInside(vs) && next in Routers(vs)
    modifies Routers(vs)`distance, Routers(vs)`predecessor
    ensures next.id in old(LabelsOf(vs))
    ensures LabelsOf(vs) == Relaxed(old(LabelsOf(vs)), next.id, Present(next.routes, |next.routes|))
    ensures PredsInside(vs)
  {
    hide *;
    ghost var before := LabelsOf(vs);
    LabelAt(vs, next);
    RelaxedNone(before, next.id);
    PresentNone(next.routes);
    var i := 0;
    while i < |next.routes|
      invariant 0 <= i <= |next.routes|
      invariant Topology(vs) && PredsInside(vs)
      invariant LabelsOf(vs) == Relaxed(before, next.id, Present(next.routes, i))
    {
      RelaxedMore(before, next.id, Present(next.routes, i), i);
      PresentNext(next.routes, i);
      if next.routes[i] != null { RelaxEdge(vs, next, i); }
      i := i + 1;
    }
  }

  method RelaxEdge(vs: seq<NSRouter?>, next: NSRouter, i: nat)
    requires Topology(vs) && PredsInside(vs) && next in Routers(vs) && i < |next.routes| && next.routes[i] != null
    modifies Routers(vs)`distance, Routers(vs)`predecessor
    ensures next.id in old(LabelsOf(vs)) && LabelsOf(vs) == Relaxed(old(LabelsOf(vs)), next.id, {i})
    ensures Topology(vs) && PredsInside(vs)
  {
    hide *;
    var edge := next.routes[i];
    EdgeEnds(vs, next, i);
    RelaxedOne(LabelsOf(vs), next.id, i);
    var weight := next.distance + 1;
    if edge.routeRef.distance > weight {
      Relabel(vs, edge.routeRef, weight, next);
    }
  }

  /** The labels at the two ends of an edge. */
  lemma EdgeEnds(vs: seq<NSRouter?>, next: NSRouter, i: nat)
    requires Topology(vs) && next in Routers(vs) && i < |next.routes| && next.routes[i] != null
    ensures var v, l := next.routes[i].routeRef, LabelsOf(vs);
            && v in Routers(vs) && v.id == i && next.id in l && i in l
            && l[next.id].dist == next.distance && l[i].dist == v.distance
  {
    QueueTarget(vs, next, i);
    LabelAt(vs, next);
    LabelAt(vs, next.routes[i].routeRef);
  }

  /** The two assignments that make a router nearer. */
  method Relabel(vs: seq<NSRouter?>, v: NSRouter, weight: int, next: NSRouter)
    requires Topology(vs) && PredsInside(vs) && v in Routers(vs) && next in Routers(vs)
    modifies v`distance, v`predecessor
    ensures Topology(vs) && PredsInside(vs)
    ensures v.id in old(LabelsOf(vs))
    ensures LabelsOf(vs) == old(LabelsOf(vs))[v.id := Label(weight, old(LabelsOf(vs))[v.id].done, next.id)]
  {
    AtIndex(vs, v);
    v.distance := weight;
    v.predecessor := next;
  }

  lemma RelaxedOne(l: Labels, u: nat, i: nat)
    requires u in l && i in l
    ensures Relaxed(l, u, {i}) == if l[i].dist > l[u].dist + 1 then l[i := Label(l[u].dist + 1, l[i].done, u)] else l
  {
  }

  function Defined(vs: seq<NSRouter?>, n: nat): set<nat> { set j: nat | j < |vs| && j < n && vs[j] != null }

  lemma EqualSets(a: set<nat>, b: set<nat>)
    requires a <= b && b <= a
    ensures |a| == |b|
  {
    assert a == b;
  }

  lemma SomeUnvisited(vs: seq<NSRouter?>)
    requires |Done(LabelsOf(vs))| < |LabelsOf(vs)|
    ensures exists v :: v in Routers(vs) && v.done == 0
  {
    var l := LabelsOf(vs);
    assert Done(l) <= l.Keys && |l.Keys| == |l|;
    assert exists u :: u in l && u !in Done(l) by {
      if forall u :: u in l ==> u in Done(l) { EqualSets(Done(l), l.Keys); }
    }
    var u :| u in l && u !in Done(l);
    assert vs[u] in Routers(vs);
  }

  lemma DistancesBounded(vs: seq<NSRouter?>, g: Graph, s: nat)
    requires |g| < INFINITY && Topology(vs) && Progress(g, s, LabelsOf(vs))
    ensures forall v :: v in Routers(vs) ==> v.distance <= INFINITY
  {
    var l := LabelsOf(vs);
    assert |l| == |l.Keys| == |g.Keys| == |g|;
    forall v | v in Routers(vs)
      ensures v.distance <= INFINITY
    {
      AtIndex(vs, v);
      assert l[v.id].dist == v.distance;
    }
  }

  lemma GraphAt(vs: seq<NSRouter?>, v: NSRouter)
    requires Topology(vs) && v in Routers(vs)
    ensures v.id in GraphOf(vs) && GraphOf(vs)[v.id] == Present(v.routes, |v.routes|)
  {
    AtIndex(vs, v);
  }

  lemma SameSize(g: Graph, s: nat, l: Labels)
    requires Progress(g, s, l)
    ensures |l| == |g|
  {
    assert |l| == |l.Keys| == |g.Keys| == |g|;
  }

  /** One iteration of the visiting loop. */
  method Visit(vs: seq<NSRouter?>, ghost g: Graph, ghost s: nat)
    requires Topology(vs) && PredsInside(vs) && GraphOf(vs) == g && |g| < INFINITY
    requires Progress(g, s, LabelsOf(vs)) && |Done(LabelsOf(vs))| < |g|
    modifies Routers(vs)`distance, Routers(vs)`predecessor, Routers(vs)`done
    ensures Topology(vs) && PredsInside(vs) && GraphOf(vs) == g
    ensures Progress(g, s, LabelsOf(vs)) && |Done(LabelsOf(vs))| == old(|Done(LabelsOf(vs))|) + 1
  {
    hide Progress, Topology, PredsInside, GraphOf, LabelsOf, Done, Relaxed, Visited;
    ghost var l := LabelsOf(vs);
    SameSize(g, s, l);
    SomeUnvisited(vs);
    DistancesBounded(vs, g, s);
    var next := SelectNext(vs);
    GraphAt(vs, next);
    VisitKeeps(g, s, l, next.id);
    DoneGrows(l, next.id, g[next.id]);
    Relax(vs, next);
    Count(vs, next, l);
  }

  /** `$next->{'done'}++` */
  method Count(vs: seq<NSRouter?>, next: NSRouter, ghost l: Labels)
    requires Topology(vs) && next in Routers(vs)
    requires next.id in l && LabelsOf(vs) == Relaxed(l, next.id, Present(next.routes, |next.routes|))
    modifies next`done
    ensures LabelsOf(vs) == Visited(l, next.id, Present(next.routes, |next.routes|))
  {
    AtIndex(vs, next);
    next.done := next.done + 1;
  }

  /** The visiting loop of createTable: one iteration per defined router. */
  method VisitAll(vs: seq<NSRouter?>, source: nat, ghost g: Graph)
    requires Topology(vs) && PredsInside(vs) && GraphOf(vs) == g && |g| < INFINITY && |g| == |Defined(vs, |vs|)|
    requires Progress(g, source, LabelsOf(vs)) && Done(LabelsOf(vs)) == {}
    modifies Routers(vs)`distance, Routers(vs)`predecessor, Routers(vs)`done
    ensures Topology(vs) && PredsInside(vs) && GraphOf(vs) == g
    ensures Progress(g, source, LabelsOf(vs)) && Done(LabelsOf(vs)) == g.Keys
  {
    hide *;
    DefinedNone(vs);
    var i := 0;
    while i < |vs|
      invariant 0 <= i <= |vs|
      invariant Topology(vs) && PredsInside(vs) && GraphOf(vs) == g
      invariant Progress(g, source, LabelsOf(vs)) && |Done(LabelsOf(vs))| == |Defined(vs, i)|
    {
      DefinedNext(vs, i);
      if vs[i] != null { Visit(vs, g, source); }
      i := i + 1;
    }
    EveryoneDone(g, source, LabelsOf(vs));
  }

  /** Distances and predecessors of every router, from the base state on. */
  method ComputeDistances(vs: seq<NSRouter?>, source: nat, ghost g: Graph)
    requires Topology(vs) && PredsInside(vs) && GraphOf(vs) == g && |g| < INFINITY && source in g
    modifies Routers(vs)`distance, Routers(vs)`predecessor, Routers(vs)`done
    ensures Topology(vs) && PredsInside(vs) && GraphOf(vs) == g
    ensures Progress(g, source, LabelsOf(vs)) && Done(LabelsOf(vs)) == g.Keys
  {
    StartsUnvisited(vs, source, g);
    hide *;
    Reset(vs, source);
    VisitAll(vs, source, g);
  }

  lemma StartsUnvisited(vs: seq<NSRouter?>, source: nat, g: Graph)
    requires GraphOf(vs) == g && source in g
    ensures g.Keys == Defined(vs, |vs|) && |g| == |Defined(vs, |vs|)|
    ensures Progress(g, source, Unvisited(source, LabelsOf(vs))) && Done(Unvisited(source, LabelsOf(vs))) == {}
  {
    hide Progress, Unvisited;
    assert LabelsOf(vs).Keys == g.Keys == Defined(vs, |vs|);
    UnvisitedProgress(g, source, LabelsOf(vs));
  }

  lemma DefinedNone(vs: seq<NSRouter?>)
    ensures Defined(vs, 0) == {}
  {
  }

  lemma DefinedNext(vs: seq<NSRouter?>, i: nat)
    requires i < |vs|
    ensures vs[i] != null ==> |Defined(vs, i + 1)| == |Defined(vs, i)| + 1 && |Defined(vs, i)| < |Defined(vs, |vs|)|
    ensures vs[i] == null ==> Defined(vs, i + 1) == Defined(vs, i)
  {
    if vs[i] != null {
      assert Defined(vs, i + 1) == Defined(vs, i) + {i};
      Subset(Defined(vs, i) + {i}, Defined(vs, |vs|));
    } else {
      assert Defined(vs, i + 1) == Defined(vs, i);
    }
  }

  lemma EveryoneDone(g: Graph, s: nat, l: Labels)
    requires Progress(g, s, l) && |Done(l)| == |g|
    ensures Done(l) == g.Keys
  {
    Subset(Done(l), g.Keys);
  }

  // ---- the next hops ----

  /** What the final labels of a run from s say about a router. */
  ghost predicate Settled(g: Graph, s: nat, vs: seq<NSRouter?>)
    reads Routers(vs)`distance, Routers(vs)`done, Routers(vs)`predecessor, Routers(vs)`routes
  {
    && Topology(vs) && PredsInside(vs) && GraphOf(vs) == g
    && Wired(g) && Connected(g) && |g| < INFINITY && s in g
    && Progress(g, s, LabelsOf(vs)) && Done(LabelsOf(vs)) == g.Keys
  }

  lemma SettledRouter(g: Graph, s: nat, vs: seq<NSRouter?>, v: NSRouter)
    requires Settled(g, s, vs) && v in Routers(vs)
    ensures v.id in g && Dist(g, s, v.id, v.distance)
    ensures v.id != s ==>
              && v.predecessor != null && v.predecessor in Routers(vs)
              && Edge(g, v.predecessor.id, v.id)
              && Dist(g, s, v.predecessor.id, v.distance - 1)
              && v.predecessor.distance == v.distance - 1
  {
    hide Progress, Topology, PredsInside, LabelsOf, GraphOf, Done, Dist, Wired, Connected;
    LabelAt(vs, v);
    LabelsAreDistances(g, s, LabelsOf(vs), v.id);
    if v.id != s {
      var p := LabelsOf(vs)[v.id].pred;
      assert v.predecessor != null;
      PredRouter(vs, v);
      LabelAt(vs, v.predecessor);
      LabelsAreDistances(g, s, LabelsOf(vs), v.predecessor.id);
      DistUnique(g, s, v.predecessor.id, v.distance - 1, v.predecessor.distance);
    }
  }

  lemma LabelAt(vs: seq<NSRouter?>, v: NSRouter)
    requires Topology(vs) && v in Routers(vs)
    ensures v.id in GraphOf(vs) && v.id in LabelsOf(vs)
    ensures LabelsOf(vs)[v.id] == Label(v.distance, v.done, if v.predecessor == null then -1 else v.predecessor.id)
  {
    AtIndex(vs, v);
  }

  lemma PredRouter(vs: seq<NSRouter?>, v: NSRouter)
    requires PredsInside(vs) && v in Routers(vs) && v.predecessor != null
    ensures v.predecessor in Routers(vs)
  {
  }

  /** Walk back along predecessors to the router right after the source. */
  method FirstRouter(ghost g: Graph, source: NSRouter, vs: seq<NSRouter?>, vertex: NSRouter) returns (startRoute: NSRouter)
    requires Settled(g, source.id, vs) && source in Routers(vs) && vertex in Routers(vs) && vertex.id != source.id
    ensures startRoute in Routers(vs) && OnShortestPath(g, source.id, vertex.id, startRoute.id)
  {
    hide Settled, Dist;
    startRoute := vertex;
    SettledRouter(g, source.id, vs, vertex);
    DistPositive(g, source.id, vertex.id, vertex.distance);
    assert Walk(g, vertex.id, vertex.id, 0);
    while startRoute.predecessor.id != source.id
      invariant startRoute in Routers(vs) && startRoute.id != source.id && startRoute.predecessor != null
      invariant 1 <= startRoute.distance <= vertex.distance
      invariant Walk(g, startRoute.id, vertex.id, vertex.distance - startRoute.distance)
      decreases startRoute.distance
    {
      SettledRouter(g, source.id, vs, startRoute);
      SettledRouter(g, source.id, vs, startRoute.predecessor);
      DistPositive(g, source.id, startRoute.predecessor.id, startRoute.predecessor.distance);
      EdgeWalk(g, startRoute.predecessor.id, startRoute.id);
      WalkJoin(g, startRoute.predecessor.id, startRoute.id, vertex.id, 1, vertex.distance - startRoute.distance);
      startRoute := startRoute.predecessor;
    }
    SettledRouter(g, source.id, vs, startRoute);
    SourceDistance(g, source.id, startRoute.distance - 1);
    FirstHop(g, source.id, startRoute.id, vertex.id, vertex.distance);
  }

  lemma DistPositive(g: Graph, u: nat, v: nat, d: int)
    requires Dist(g, u, v, d)
    ensures d >= 0 && (u != v ==> d >= 1)
  {
  }

  lemma SourceDistance(g: Graph, u: nat, d: int)
    requires Dist(g, u, u, d)
    ensures d == 0
  {
    var k: nat := d;
    if d > 0 {
      SourceInGraph(g, u, u, d);
      assert Walk(g, u, u, 0);
    }
  }

  lemma {:induction false} SourceInGraph(g: Graph, u: nat, v: nat, k: nat)
    requires Walk(g, u, v, k)
    ensures u in g
    decreases k
  {
    if k > 0 {
      var w :| Walk(g, u, w, k - 1) && Edge(g, w, v);
      SourceInGraph(g, u, w, k - 1);
    }
  }

  lemma Settles(g: Graph, s: nat, vs: seq<NSRouter?>)
    requires Topology(vs) && PredsInside(vs) && GraphOf(vs) == g && s in g && |g| < INFINITY && Connected(g)
    requires Progress(g, s, LabelsOf(vs)) && Done(LabelsOf(vs)) == g.Keys
    ensures Settled(g, s, vs)
  {
    forall u, v | u in g && v in g[u]
      ensures v in g
    {
      QueueTarget(vs, vs[u], v);
    }
  }

  /** createTable: router `self` computes its table from the whole topology. */
  method CreateTable(self: NSRouter, vs: seq<NSRouter?>, ghost g: Graph)
    requires Topology(vs) && PredsInside(vs) && GraphOf(vs) == g && self in Routers(vs)
    requires |g| < INFINITY && Connected(g)
    modifies Routers(vs)`distance, Routers(vs)`predecessor, Routers(vs)`done, self`routingTable
    ensures Settled(g, self.id, vs)
    ensures self.TableFor(g)
  {
    hide *;
    LabelAt(vs, self);
    ComputeDistances(vs, self.id, g);
    Settles(g, self.id, vs);
    var table := Table(self, vs, g);
    Install(self, vs, g, table);
  }

  method Install(self: NSRouter, vs: seq<NSRouter?>, ghost g: Graph, table: map<nat, NSQueue>)
    requires self in Routers(vs) && Settled(g, self.id, vs)
    requires table.Keys == g.Keys - {self.id} && AllLead(g, self.id, self.routes, table)
    modifies self`routingTable
    ensures Settled(g, self.id, vs) && self.TableFor(g)
  {
    hide Settled, OnShortestPath;
    self.routingTable := table;
  }

  /** The loop that records a queue for every other router. */
  method Table(self: NSRouter, vs: seq<NSRouter?>, ghost g: Graph) returns (table: map<nat, NSQueue>)
    requires Settled(g, self.id, vs) && self in Routers(vs)
    ensures Settled(g, self.id, vs)
    ensures table.Keys == g.Keys - {self.id}
    ensures AllLead(g, self.id, self.routes, table)
  {
    hide *;
    table := map[];
    var i := 0;
    GraphDomain(vs, g, self.id);
    DefinedNone(vs);
    AllLeadEmpty(g, self.id, self.routes);
    while i < |vs|
      invariant 0 <= i <= |vs|
      invariant Settled(g, self.id, vs)
      invariant table.Keys == Defined(vs, i) - {self.id}
      invariant AllLead(g, self.id, self.routes, table)
    {
      DefinedStep(vs, i);
      if vs[i] != null {
        SettledIndex(g, self.id, vs, i);
        table := Entry(self, vs, g, vs[i], table);
      }
      i := i + 1;
    }
  }

  /** The loop body: every defined router but `self` gets an entry. */
  method Entry(self: NSRouter, vs: seq<NSRouter?>, ghost g: Graph, vertex: NSRouter, before: map<nat, NSQueue>)
    returns (table: map<nat, NSQueue>)
    requires Settled(g, self.id, vs) && self in Routers(vs) && vertex in Routers(vs)
    requires AllLead(g, self.id, self.routes, before)
    ensures Settled(g, self.id, vs)
    ensures table.Keys == before.Keys + ({vertex.id} - {self.id})
    ensures AllLead(g, self.id, self.routes, table)
  {
    hide Settled, Leads;
    table := before;
    if vertex.id != self.id {
      var q := QueueTowards(self, vs, g, vertex);
      table := table[vertex.id := q];
    }
  }

  lemma AllLeadEmpty(g: Graph, u: nat, routes: seq<NSQueue?>)
    ensures AllLead(g, u, routes, map[])
  {
  }

  lemma DefinedStep(vs: seq<NSRouter?>, i: nat)
    requires i < |vs|
    ensures Defined(vs, i + 1) == if vs[i] != null then Defined(vs, i) + {i} else Defined(vs, i)
  {
  }

  lemma GraphDomain(vs: seq<NSRouter?>, g: Graph, s: nat)
    requires Settled(g, s, vs)
    ensures g.Keys == Defined(vs, |vs|)
  {
  }

  lemma SettledIndex(g: Graph, s: nat, vs: seq<NSRouter?>, i: nat)
    requires Settled(g, s, vs) && i < |vs| && vs[i] != null
    ensures vs[i].id == i && vs[i] in Routers(vs)
  {
  }

  lemma QueueTo(g: Graph, s: nat, vs: seq<NSRouter?>, self: NSRouter, h: NSRouter)
    requires Settled(g, s, vs) && self in Routers(vs) && Edge(g, self.id, h.id)
    ensures h.id < |self.routes| && self.routes[h.id] != null && self.routes[h.id].routeRef.id == h.id
  {
    GraphAt(vs, self);
    QueueTarget(vs, self, h.id);
  }

  /** The queue for `vertex`: the one to the first router on the way; it exists. */
  method QueueTowards(self: NSRouter, vs: seq<NSRouter?>, ghost g: Graph, vertex: NSRouter) returns (q: NSQueue)
    requires Settled(g, self.id, vs) && self in Routers(vs) && vertex in Routers(vs) && vertex.id != self.id
    ensures Settled(g, self.id, vs)
    ensures Leads(g, self.id, self.routes, vertex.id, q)
  {
    hide Settled, Dist;
    var startRoute := FirstRouter(g, self, vs, vertex);
    QueueTo(g, self.id, vs, self, startRoute);
    q := self.routes[startRoute.id];
  }

  /** The start-up loop of the simulator: every router builds its own table. */
  method BuildTables(vs: seq<NSRouter?>, ghost g: Graph)
    requires Topology(vs) && PredsInside(vs) && GraphOf(vs) == g && |g| < INFINITY && Connected(g)
    modifies Routers(vs)`distance, Routers(vs)`predecessor, Routers(vs)`done, Routers(vs)`routingTable
    ensures forall r :: r in Routers(vs) ==> r.TableFor(g)
  {
    hide Connected, GraphOf, Topology, PredsInside, NSRouter.TableFor, Settled;
    var i := 0;
    while i < |vs|
      invariant 0 <= i <= |vs|
      invariant Topology(vs) && PredsInside(vs) && GraphOf(vs) == g
      invariant forall j :: 0 <= j < i && vs[j] != null ==> vs[j].TableFor(g)
    {
      if vs[i] != null {
        CreateTable(vs[i], vs, g);
        SettledParts(g, vs[i].id, vs);
      }
      i := i + 1;
    }
  }

  lemma SettledParts(g: Graph, s: nat, vs: seq<NSRouter?>)
    requires Settled(g, s, vs)
    ensures Topology(vs) && PredsInside(vs) && GraphOf(vs) == g
  {
  }
}
