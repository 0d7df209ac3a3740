/** Forwarding packets hop by hop with the tables the routers built independently (recv and run of hupsim.pl). */
module Forwarding {
  import opened Basics
  import opened Graphs
  import opened Routing

  /** The simulated network: its topology, the node map, the two ends of every queue, and every router's
      table of queue numbers. */
  datatype World = World(g: Graph, nodes: map<(int, int), nat>, ends: seq<(nat, nat)>,
                         table: map<nat, map<nat, nat>>)

  /** Every router's table sends every destination down a queue of its own that starts a shortest path. */
  ghost predicate Routed(w: World) {
    && Wired(w.g)
    && (forall k :: k in w.nodes ==> w.nodes[k] in w.g)
    && (forall r, v {:trigger Entry(w, r, v)} :: r in w.g && v in w.g && r != v ==> Entry(w, r, v))
  }

  ghost predicate Entry(w: World, r: nat, v: nat) {
    && r in w.table && v in w.table[r] && w.table[r][v] < |w.ends|
    && w.ends[w.table[r][v]].0 == r && OnShortestPath(w.g, r, v, w.ends[w.table[r][v]].1)
  }

  function NextHop(w: World, r: nat, v: nat): nat {
    if r in w.table && v in w.table[r] && w.table[r][v] < |w.ends| then w.ends[w.table[r][v]].1 else r
  }

  /** One hop along the table takes a packet exactly one hop nearer. */
  lemma HopIsNearer(w: World, r: nat, v: nat, d: int)
    requires Routed(w) && r in w.g && v in w.g && r != v && Dist(w.g, r, v, d)
    ensures d >= 1 && NextHop(w, r, v) in w.g && Dist(w.g, NextHop(w, r, v), v, d - 1)
  {
    hide Dist;
    assert Entry(w, r, v);
    var h := NextHop(w, r, v);
    OnPathDist(w.g, r, v, h, d);
  }

  lemma OnPathDist(g: Graph, r: nat, v: nat, h: nat, d: int)
    requires OnShortestPath(g, r, v, h) && Dist(g, r, v, d)
    ensures d >= 1 && Dist(g, h, v, d - 1)
  {
    var e :| Dist(g, r, v, e) && Dist(g, h, v, e - 1);
    DistUnique(g, r, v, d, e);
  }

  /** The routers a packet passes on its way from r to v, hop by hop, for n hops. */
  function Path(w: World, r: nat, v: nat, n: nat): seq<nat>
    decreases n
  {
    if n == 0 then [r] else [r] + Path(w, NextHop(w, r, v), v, n - 1)
  }

  /** Forwarding reaches the destination in exactly the shortest hop count and never visits a router twice. */
  lemma {:induction false} ForwardingIsShortest(w: World, r: nat, v: nat, d: nat)
    requires Routed(w) && r in w.g && v in w.g && Dist(w.g, r, v, d)
    ensures var p := Path(w, r, v, d);
            && |p| == d + 1 && p[0] == r && p[d] == v
            && (forall i :: 0 <= i <= d ==> p[i] in w.g && Dist(w.g, p[i], v, d - i))
            && (forall i, j :: 0 <= i < j <= d ==> p[i] != p[j])
    decreases d
  {
    var p := Path(w, r, v, d);
    if d == 0 {
      assert Walk(w.g, r, v, 0);
    } else {
      DistZero(w.g, r, v, d);
      HopIsNearer(w, r, v, d);
      var h := NextHop(w, r, v);
      ForwardingIsShortest(w, h, v, d - 1);
      var q := Path(w, h, v, d - 1);
      hide Dist, Path, NextHop, Routed;
      forall i | 0 <= i <= d
        ensures p[i] in w.g && Dist(w.g, p[i], v, d - i)
      {
        if i > 0 { assert p[i] == q[i - 1]; }
      }
      forall i, j | 0 <= i < j <= d
        ensures p[i] != p[j]
      {
        Apart(w.g, p[i], p[j], v, d - i, d - j);
      }
    }
  }

  lemma Apart(g: Graph, x: nat, y: nat, v: nat, d: int, e: int)
    requires Dist(g, x, v, d) && Dist(g, y, v, e) && d != e
    ensures x != y
  {
  }

  lemma DistZero(g: Graph, r: nat, v: nat, d: nat)
    requires Dist(g, r, v, d) && d > 0 && r in g
    ensures r != v
  {
    if r == v { assert Walk(g, r, v, 0); }
  }

  // ---- runs of the simulator ----

  /** A packet with the router it entered the network at. */
  datatype Parcel = Parcel(pkt: Datagram, entry: nat)

  /** What the history remembers of a queued packet: the parcel and its hops so far. */
  datatype Stamp = Stamp(parcel: Parcel, hops: nat)

  datatype Arrival = Arrival(stamp: Stamp, at: nat)

  /** The queues, and beside them the history: one stamp per queued packet, the delivered and the dropped
      packets, and every packet that entered with a known destination. */
  datatype Sim = Sim(queues: seq<Fifo>, trails: seq<seq<Stamp>>, delivered: seq<Arrival>,
                     lost: multiset<Parcel>, entered: multiset<Parcel>, fault: bool)

  datatype Event =
    | Arrive(router: nat, pkt: Datagram)   // the main loop hands a packet to its source router
    | Hop(queue: nat)                      // the head of a queue is due and moves on

  function Start(w: World, max: seq<nat>): Sim
    requires |max| == |w.ends|
  {
    Sim(seq(|max|, i requires 0 <= i < |max| => Fifo(if max[i] == 0 then QUEUEMAX else max[i], [], 0, 0)),
        seq(|max|, i => []), [], multiset{}, multiset{}, false)
  }

  /** recv at router r. */
  function Receive(w: World, s: Sim, r: nat, st: Stamp): Sim {
    match Resolve(w.nodes, st.parcel.pkt)
    case None => s
    case Some(v) =>
      if v == r then s.(delivered := s.delivered + [Arrival(st, r)])
      else if r !in w.table || v !in w.table[r] || w.table[r][v] >= |s.queues| || |s.queues| != |s.trails|
      then s.(fault := true)
      else Push(s, w.table[r][v], st)
  }

  function Push(s: Sim, i: nat, st: Stamp): Sim
    requires i < |s.queues| == |s.trails|
  {
    var q := s.queues[i];
    if |q.items| >= q.max then
      s.(queues := s.queues[i := q.Enqueued(st.parcel.pkt)], lost := s.lost + multiset{st.parcel})
    else
      s.(queues := s.queues[i := q.Enqueued(st.parcel.pkt)], trails := s.trails[i := s.trails[i] + [st]])
  }

  function Pop(s: Sim, i: nat): Sim
    requires i < |s.queues| == |s.trails| && s.queues[i].items != [] && s.trails[i] != []
  {
    s.(queues := s.queues[i := s.queues[i].Dequeued()], trails := s.trails[i := s.trails[i][1..]])
  }

  function Step(w: World, s: Sim, e: Event): Sim {
    match e
    case Arrive(r, pkt) =>
      if r !in w.g then s
      else
        var st := Stamp(Parcel(pkt, r), 0);
        Receive(w, if Resolve(w.nodes, pkt).Some? then s.(entered := s.entered + multiset{st.parcel}) else s, r, st)
    case Hop(i) =>
      if i >= |s.queues| || i >= |w.ends| || |s.queues| != |s.trails| || s.queues[i].items == [] || s.trails[i] == [] then s
      else
        var st := s.trails[i][0];
        Receive(w, Pop(s, i), w.ends[i].1, Stamp(st.parcel, st.hops + 1))
  }

  function Run(w: World, s: Sim, es: seq<Event>): Sim {
    if es == [] then s else Step(w, Run(w, s, es[..|es| - 1]), es[|es| - 1])
  }

  // ---- conservation ----

  /** How often a parcel occurs in a trail, in all trails, among the delivered packets. */
  function InTrail(t: seq<Stamp>, p: Parcel): int {
    if t == [] then 0 else (if t[0].parcel == p then 1 else 0) + InTrail(t[1..], p)
  }

  function InTransit(trails: seq<seq<Stamp>>, p: Parcel): int {
    if trails == [] then 0 else InTrail(trails[0], p) + InTransit(trails[1..], p)
  }

  function Arrived(delivered: seq<Arrival>, p: Parcel): int {
    if delivered == [] then 0
    else Arrived(delivered[..|delivered| - 1], p) + if delivered[|delivered| - 1].stamp.parcel == p then 1 else 0
  }

  function Dropped(queues: seq<Fifo>): int {
    if queues == [] then 0 else queues[0].dropped + Dropped(queues[1..])
  }

  lemma {:induction false} InTrailAppend(t: seq<Stamp>, st: Stamp, p: Parcel)
    ensures InTrail(t + [st], p) == InTrail(t, p) + if st.parcel == p then 1 else 0
  {
    if t == [] {
      assert [st][1..] == [] && t + [st] == [st];
    } else {
      InTrailAppend(t[1..], st, p);
      assert (t + [st])[1..] == t[1..] + [st];
    }
  }

  lemma {:induction false} TransitUpdate(trails: seq<seq<Stamp>>, i: nat, t: seq<Stamp>, p: Parcel)
    requires i < |trails|
    ensures InTransit(trails[i := t], p) == InTransit(trails, p) - InTrail(trails[i], p) + InTrail(t, p)
  {
    if i > 0 {
      TransitUpdate(trails[1..], i - 1, t, p);
      assert trails[i := t][1..] == trails[1..][i - 1 := t];
    }
  }

  lemma {:induction false} DroppedUpdate(queues: seq<Fifo>, i: nat, q: Fifo)
    requires i < |queues|
    ensures Dropped(queues[i := q]) == Dropped(queues) - queues[i].dropped + q.dropped
  {
    if i > 0 {
      DroppedUpdate(queues[1..], i - 1, q);
      assert queues[i := q][1..] == queues[1..][i - 1 := q];
    }
  }

  /** Parcel p entered as often as it is delivered, dropped, queued or in a router's hands (`out`). */
  predicate Balanced(s: Sim, p: Parcel, out: Option<Parcel>) {
    s.entered[p] == Arrived(s.delivered, p) + s.lost[p] + InTransit(s.trails, p) + if out == Some(p) then 1 else 0
  }

  /** No parcel is lost or duplicated, and the drop counters add up; `out` is the parcel being handled. */
  ghost predicate Conserved(s: Sim, out: Option<Parcel>) {
    && (forall p :: Balanced(s, p, out))
    && |s.lost| == Dropped(s.queues)
  }

  predicate Shaped(w: World, s: Sim) {
    && |s.queues| == |s.trails| == |w.ends|
    && forall i :: 0 <= i < |s.queues| ==> s.queues[i].Consistent() && Mirrors(s.trails[i], s.queues[i].items)
  }

  predicate Mirrors(t: seq<Stamp>, items: seq<Datagram>) {
    |t| == |items| && forall j :: 0 <= j < |t| ==> t[j].parcel.pkt == items[j]
  }

  lemma PushShaped(w: World, s: Sim, i: nat, st: Stamp)
    requires Shaped(w, s) && i < |s.queues|
    ensures Shaped(w, Push(s, i, st))
  {
    FifoStaysConsistent(s.queues[i], st.parcel.pkt);
  }

  lemma PopShaped(w: World, s: Sim, i: nat)
    requires Shaped(w, s) && i < |s.queues| && s.queues[i].items != []
    ensures Shaped(w, Pop(s, i))
  {
    FifoStaysConsistent(s.queues[i], s.queues[i].items[0]);
  }

  lemma PushConserves(w: World, s: Sim, i: nat, st: Stamp)
    requires Shaped(w, s) && i < |s.queues| && Conserved(s, Some(st.parcel))
    ensures Conserved(Push(s, i, st), None)
  {
    var t := Push(s, i, st);
    DroppedUpdate(s.queues, i, t.queues[i]);
    forall p
      ensures Balanced(t, p, None)
    {
      assert Balanced(s, p, Some(st.parcel));
      InTrailAppend(s.trails[i], st, p);
      TransitUpdate(s.trails, i, s.trails[i] + [st], p);
    }
  }

  lemma PopConserves(w: World, s: Sim, i: nat)
    requires Shaped(w, s) && i < |s.queues| && s.queues[i].items != [] && Conserved(s, None)
    ensures Conserved(Pop(s, i), Some(s.trails[i][0].parcel))
  {
    var t := Pop(s, i);
    DroppedUpdate(s.queues, i, t.queues[i]);
    forall p
      ensures Balanced(t, p, Some(s.trails[i][0].parcel))
    {
      assert Balanced(s, p, None);
      TransitUpdate(s.trails, i, s.trails[i][1..], p);
    }
  }

  lemma DeliverConserves(s: Sim, a: Arrival)
    requires Conserved(s, Some(a.stamp.parcel))
    ensures Conserved(s.(delivered := s.delivered + [a]), None)
  {
    var t := s.(delivered := s.delivered + [a]);
    forall p
      ensures Balanced(t, p, None)
    {
      assert Balanced(s, p, Some(a.stamp.parcel));
      assert t.delivered[..|t.delivered| - 1] == s.delivered;
    }
  }

  lemma EnterConserves(s: Sim, p: Parcel)
    requires Conserved(s, None)
    ensures Conserved(s.(entered := s.entered + multiset{p}), Some(p))
  {
    var t := s.(entered := s.entered + multiset{p});
    forall q
      ensures Balanced(t, q, Some(p))
    {
      assert Balanced(s, q, None);
    }
  }

  // ---- every queued packet is on a shortest path ----

  /** A packet at router r (or waiting there) after `hops` hops has exactly the rest of a shortest route left. */
  ghost predicate OnRoute(w: World, st: Stamp, r: nat, v: nat) {
    && Resolve(w.nodes, st.parcel.pkt) == Some(v) && r in w.g && v in w.g
    && exists d :: Dist(w.g, st.parcel.entry, v, d) && Dist(w.g, r, v, d - st.hops)
  }

  /** The packet waits in the queue from r to h and will be nearer at h. */
  ghost predicate Waiting(w: World, st: Stamp, r: nat, h: nat) {
    exists v :: OnRoute(w, st, r, v) && r != v && OnShortestPath(w.g, r, v, h)
  }

  ghost predicate OnTrack(w: World, s: Sim) {
    && (forall i, j :: 0 <= i < |s.trails| && 0 <= j < |s.trails[i]| && i < |w.ends| ==>
          Waiting(w, s.trails[i][j], w.ends[i].0, w.ends[i].1))
    && (forall k :: 0 <= k < |s.delivered| ==> Home(w, s.delivered[k]))
  }

  /** A delivered packet is at its destination, after exactly as many hops as the shortest route has. */
  ghost predicate Home(w: World, a: Arrival) {
    Resolve(w.nodes, a.stamp.parcel.pkt) == Some(a.at) && Dist(w.g, a.stamp.parcel.entry, a.at, a.stamp.hops)
  }

  lemma RouteEnds(w: World, st: Stamp, v: nat)
    requires OnRoute(w, st, v, v)
    ensures Home(w, Arrival(st, v))
  {
    var d :| Dist(w.g, st.parcel.entry, v, d) && Dist(w.g, v, v, d - st.hops);
    SelfDistance(w.g, v, d - st.hops);
  }

  lemma SelfDistance(g: Graph, v: nat, d: int)
    requires v in g && Dist(g, v, v, d)
    ensures d == 0
  {
    assert Walk(g, v, v, 0);
  }

  lemma RouteAdvances(w: World, st: Stamp, r: nat, v: nat, h: nat)
    requires Wired(w.g) && OnRoute(w, st, r, v) && OnShortestPath(w.g, r, v, h)
    ensures OnRoute(w, Stamp(st.parcel, st.hops + 1), h, v)
  {
    hide Dist;
    var d :| Dist(w.g, st.parcel.entry, v, d) && Dist(w.g, r, v, d - st.hops);
    OnPathDist(w.g, r, v, h, d - st.hops);
    assert Dist(w.g, h, v, d - (st.hops + 1));
  }

  lemma RouteStarts(w: World, pkt: Datagram, r: nat, v: nat)
    requires Resolve(w.nodes, pkt) == Some(v) && r in w.g && v in w.g && Connected(w.g)
    ensures OnRoute(w, Stamp(Parcel(pkt, r), 0), r, v)
  {
    assert Reaches(w.g, r, v);
    var k: nat :| Walk(w.g, r, v, k);
    var d := LeastWalk(w.g, r, v, k);
    assert Dist(w.g, r, v, d - 0);
  }

  lemma {:induction false} LeastWalk(g: Graph, u: nat, v: nat, k: nat) returns (d: nat)
    requires Walk(g, u, v, k)
    ensures Dist(g, u, v, d)
    decreases k
  {
    if j: nat :| j < k && Walk(g, u, v, j) {
      d := LeastWalk(g, u, v, j);
    } else {
      d := k;
    }
  }

  // ---- every step keeps it all ----

  ghost predicate Inv(w: World, s: Sim, out: Option<Parcel>) {
    !s.fault && Shaped(w, s) && Conserved(s, out) && OnTrack(w, s)
  }

  lemma PushOnTrack(w: World, s: Sim, i: nat, st: Stamp)
    requires Shaped(w, s) && OnTrack(w, s) && i < |s.queues| && Waiting(w, st, w.ends[i].0, w.ends[i].1)
    ensures OnTrack(w, Push(s, i, st))
  {
    hide Waiting, Home;
  }

  lemma PopOnTrack(w: World, s: Sim, i: nat)
    requires Shaped(w, s) && OnTrack(w, s) && i < |s.queues| && s.queues[i].items != []
    ensures OnTrack(w, Pop(s, i))
  {
    hide Waiting, Home;
  }

  lemma DeliverOnTrack(w: World, s: Sim, a: Arrival)
    requires OnTrack(w, s) && Home(w, a)
    ensures OnTrack(w, s.(delivered := s.delivered + [a]))
  {
    hide Waiting, Home;
  }

  lemma ReceiveInv(w: World, s: Sim, r: nat, st: Stamp, v: nat)
    requires Routed(w) && Inv(w, s, Some(st.parcel)) && OnRoute(w, st, r, v)
    ensures Inv(w, Receive(w, s, r, st), None)
  {
    hide Conserved, OnTrack, Push, Dist;
    if r == v {
      RouteEnds(w, st, v);
      DeliverOnTrack(w, s, Arrival(st, v));
      DeliverConserves(s, Arrival(st, v));
    } else {
      assert Entry(w, r, v);
      var i := w.table[r][v];
      assert Waiting(w, st, r, w.ends[i].1);
      PushShaped(w, s, i, st);
      PushConserves(w, s, i, st);
      PushOnTrack(w, s, i, st);
      PushFault(s, i, st);
    }
  }

  lemma PushFault(s: Sim, i: nat, st: Stamp)
    requires i < |s.queues| == |s.trails|
    ensures Push(s, i, st).fault == s.fault
  {
  }

  lemma ArriveInv(w: World, s: Sim, r: nat, pkt: Datagram)
    requires Routed(w) && Connected(w.g) && Inv(w, s, None)
    ensures Inv(w, Step(w, s, Arrive(r, pkt)), None)
  {
    hide Conserved, OnTrack, Shaped, Connected, Dist;
    if r in w.g && Resolve(w.nodes, pkt).Some? {
      var v := Resolve(w.nodes, pkt).value;
      var st := Stamp(Parcel(pkt, r), 0);
      var t := s.(entered := s.entered + multiset{st.parcel});
      EnterConserves(s, st.parcel);
      EnterKeeps(w, s, st.parcel);
      RouteStarts(w, pkt, r, v);
      ReceiveInv(w, t, r, st, v);
    }
  }

  lemma EnterKeeps(w: World, s: Sim, p: Parcel)
    requires Shaped(w, s) && OnTrack(w, s)
    ensures var t := s.(entered := s.entered + multiset{p}); Shaped(w, t) && OnTrack(w, t)
  {
    hide Waiting, Home;
  }

  /** What moving the head of queue i on does. */
  lemma HopIs(w: World, s: Sim, i: nat)
    requires i < |s.queues| == |s.trails| == |w.ends| && s.queues[i].items != [] && s.trails[i] != []
    ensures Step(w, s, Hop(i))
         == Receive(w, Pop(s, i), w.ends[i].1, Stamp(s.trails[i][0].parcel, s.trails[i][0].hops + 1))
  {
    hide Receive, Pop;
  }

  lemma HeadWaits(w: World, s: Sim, i: nat)
    requires Inv(w, s, None) && i < |s.queues| && s.queues[i].items != []
    ensures |s.queues| == |s.trails| == |w.ends| && s.trails[i] != []
    ensures Waiting(w, s.trails[i][0], w.ends[i].0, w.ends[i].1)
  {
    hide Waiting, Conserved, Home;
  }

  lemma HopInv(w: World, s: Sim, i: nat)
    requires Routed(w) && Inv(w, s, None) && i < |s.queues| && s.queues[i].items != []
    ensures Inv(w, Step(w, s, Hop(i)), None)
  {
    HeadWaits(w, s, i);
    HopIs(w, s, i);
    var st := s.trails[i][0];
    var r, h := w.ends[i].0, w.ends[i].1;
    var v :| OnRoute(w, st, r, v) && r != v && OnShortestPath(w.g, r, v, h);
    RoutedWired(w);
    hide Conserved, OnTrack, Shaped, Routed, OnRoute, OnShortestPath, Pop, Receive, Step;
    PopShaped(w, s, i);
    PopConserves(w, s, i);
    PopOnTrack(w, s, i);
    PopFault(s, i);
    RouteAdvances(w, st, r, v, h);
    ReceiveInv(w, Pop(s, i), h, Stamp(st.parcel, st.hops + 1), v);
  }

  lemma RoutedWired(w: World)
    requires Routed(w)
    ensures Wired(w.g)
  {
  }

  lemma PopFault(s: Sim, i: nat)
    requires i < |s.queues| == |s.trails| && s.queues[i].items != [] && s.trails[i] != []
    ensures Pop(s, i).fault == s.fault
  {
  }

  lemma {:induction false} RunInv(w: World, s: Sim, es: seq<Event>)
    requires Routed(w) && Connected(w.g) && Inv(w, s, None)
    ensures Inv(w, Run(w, s, es), None)
  {
    hide Inv, Routed, Connected;
    if es != [] {
      RunInv(w, s, es[..|es| - 1]);
      var t := Run(w, s, es[..|es| - 1]);
      StepInv(w, t, es[|es| - 1]);
    }
  }

  lemma StepInv(w: World, s: Sim, e: Event)
    requires Routed(w) && Connected(w.g) && Inv(w, s, None)
    ensures Inv(w, Step(w, s, e), None)
  {
    match e
    case Arrive(r, pkt) => ArriveInv(w, s, r, pkt);
    case Hop(i) => if i < |s.queues| && s.queues[i].items != [] { HopInv(w, s, i); }
  }

  lemma {:induction false} NothingQueued(queues: seq<Fifo>, trails: seq<seq<Stamp>>, p: Parcel)
    requires |queues| == |trails| && forall i :: 0 <= i < |queues| ==> queues[i].dropped == 0 && trails[i] == []
    ensures InTransit(trails, p) == 0 && Dropped(queues) == 0
  {
    if queues != [] { NothingQueued(queues[1..], trails[1..], p); }
  }

  lemma StartInv(w: World, max: seq<nat>)
    requires |max| == |w.ends|
    ensures Inv(w, Start(w, max), None)
  {
    var s := Start(w, max);
    forall p
      ensures Balanced(s, p, None)
    {
      NothingQueued(s.queues, s.trails, p);
    }
    NothingQueued(s.queues, s.trails, Parcel(Datagram(0, 0, 0), 0));
  }

  /** No router failed to find a queue; every packet that entered for a known node is delivered, counted as
      dropped, or queued, exactly once; every queue's size field and limit are exact; and a delivered packet is at
      its own node after exactly the shortest number of hops. */
  ghost predicate Sound(w: World, s: Sim) {
    && !s.fault
    && (forall p :: s.entered[p] == Arrived(s.delivered, p) + s.lost[p] + InTransit(s.trails, p))
    && |s.lost| == Dropped(s.queues)
    && |s.queues| == |s.trails|
    && (forall i :: 0 <= i < |s.queues| ==> s.queues[i].Consistent() && Mirrors(s.trails[i], s.queues[i].items))
    && (forall k :: 0 <= k < |s.delivered| ==> Home(w, s.delivered[k]))
  }

  lemma InvSound(w: World, s: Sim)
    requires Inv(w, s, None)
    ensures Sound(w, s)
  {
    hide Home, Waiting;
    forall p
      ensures s.entered[p] == Arrived(s.delivered, p) + s.lost[p] + InTransit(s.trails, p)
    {
      assert Balanced(s, p, None);
    }
  }

  /** Every run of the simulator over a connected topology is sound. */
  lemma SimulationIsSound(w: World, max: seq<nat>, es: seq<Event>)
    requires Routed(w) && Connected(w.g) && |max| == |w.ends|
    ensures Sound(w, Run(w, Start(w, max), es))
  {
    hide Routed, Connected, Run, Inv, Sound;
    StartInv(w, max);
    RunInv(w, Start(w, max), es);
    InvSound(w, Run(w, Start(w, max), es));
  }

  // ---- the tables built by createTable are such tables ----

  /** The queues, numbered in some way: number i belongs to the queue between the two routers ends[i]. */
  datatype Numbering = Numbering(ends: seq<(nat, nat)>, number: map<(nat, nat), nat>)

  ghost predicate Numbers(vs: seq<NSRouter?>, n: Numbering)
    reads Routers(vs)`routes
  {
    forall r, h :: r in Routers(vs) && 0 <= h < |r.routes| && r.routes[h] != null ==> NumberOf(n, r.id, h).Some?
  }

  function NumberOf(n: Numbering, r: nat, h: nat): Option<nat> {
    if (r, h) in n.number && n.number[(r, h)] < |n.ends| && n.ends[n.number[(r, h)]] == (r, h)
    then Some(n.number[(r, h)]) else None
  }

  /** The world in which the routers forward with the tables they hold now. */
  ghost function WorldOf(vs: seq<NSRouter?>, nodes: map<(int, int), nat>, n: Numbering): World
    reads Routers(vs)`routes, Routers(vs)`routingTable
  {
    World(GraphOf(vs), nodes, n.ends, map r: nat | r < |vs| && vs[r] != null :: NumberedTable(vs[r], n))
  }

  ghost function NumberedTable(r: NSRouter, n: Numbering): map<nat, nat>
    reads r`routingTable
  {
    map v | v in r.routingTable && NumberOf(n, r.id, r.routingTable[v].routeRef.id).Some? ::
      NumberOf(n, r.id, r.routingTable[v].routeRef.id).value
  }

  /** After BuildTables the routers' own tables forward every packet along shortest paths. */
  lemma BuiltTablesRoute(vs: seq<NSRouter?>, nodes: map<(int, int), nat>, n: Numbering)
    requires Topology(vs) && Numbers(vs, n) && forall r :: r in Routers(vs) ==> r.TableFor(GraphOf(vs))
    requires forall k :: k in nodes ==> nodes[k] in GraphOf(vs)
    ensures Routed(WorldOf(vs, nodes, n))
  {
    var w := WorldOf(vs, nodes, n);
    forall u, v | u in w.g && v in w.g[u]
      ensures v in w.g
    {
      QueueTarget(vs, vs[u], v);
    }
    forall r, v | r in w.g && v in w.g && r != v
      ensures Entry(w, r, v)
    {
      BuiltEntry(vs, nodes, n, vs[r], v);
    }
  }

  lemma BuiltEntry(vs: seq<NSRouter?>, nodes: map<(int, int), nat>, n: Numbering, self: NSRouter, v: nat)
    requires Topology(vs) && Numbers(vs, n) && self in Routers(vs) && v in GraphOf(vs) && self.id != v
    requires self.TableFor(GraphOf(vs))
    ensures Entry(WorldOf(vs, nodes, n), self.id, v)
  {
    hide OnShortestPath, GraphOf;
    AtIndex(vs, self);
    assert v in self.routingTable;
    var q := self.routingTable[v];
    assert Leads(GraphOf(vs), self.id, self.routes, v, q);
    assert NumberOf(n, self.id, q.routeRef.id).Some?;
  }
}
