/** What one step of the simulator does to the queues, told by their packets; when packets are dropped, and that none is
    when there are no more packets than every queue has places. */
module Capacity {
  import opened Basics
  import opened Graphs
  import opened Routing
  import opened Forwarding
  import opened Delivery

  /** Queue i took the packet, at its end and with its stamp. */
  predicate TookIn(u: Sim, t: Sim, i: nat, st: Stamp)
    requires i < |u.queues| == |u.trails| == |t.queues| == |t.trails|
  {
    var q, q' := u.queues[i], t.queues[i];
    && q'.items == q.items + [st.parcel.pkt] && q'.size == q.size + st.parcel.pkt.length && q'.dropped == q.dropped
    && t.trails[i] == u.trails[i] + [st] && t.lost == u.lost
  }

  /** Queue i dropped the packet. */
  predicate TurnedAway(u: Sim, t: Sim, i: nat, st: Stamp)
    requires i < |u.queues| == |u.trails| == |t.queues| == |t.trails|
  {
    var q, q' := u.queues[i], t.queues[i];
    && q'.items == q.items && q'.size == q.size && q'.dropped == q.dropped + 1
    && t.trails[i] == u.trails[i] && t.lost == u.lost + multiset{st.parcel}
  }

  /** Nothing happened but at queue i, and that has the limit it had. */
  predicate OnlyAt(u: Sim, t: Sim, i: nat) {
    && |u.queues| == |u.trails| == |t.queues| == |t.trails| && i < |u.queues|
    && t == u.(queues := t.queues, trails := t.trails, lost := t.lost)
    && t.queues[i].max == u.queues[i].max
    && forall j :: 0 <= j < |u.queues| && j != i ==> t.queues[j] == u.queues[j] && t.trails[j] == u.trails[j]
  }

  /** What becomes of a packet for router v at router r: delivered there, else at the end of the one queue that r's
      table has for v, or dropped because that queue is full. */
  predicate Handed(w: World, u: Sim, t: Sim, r: nat, st: Stamp, v: nat) {
    if v == r then t == u.(delivered := u.delivered + [Arrival(st, r)])
    else
      && r in w.table && v in w.table[r]
      && var i := w.table[r][v];
         && i < |w.ends| && w.ends[i].0 == r && OnlyAt(u, t, i)
         && if |u.queues[i].items| < u.queues[i].max then TookIn(u, t, i, st) else TurnedAway(u, t, i, st)
  }

  lemma ReceiveHands(w: World, u: Sim, r: nat, st: Stamp, v: nat)
    requires Routed(w) && |u.queues| == |u.trails| == |w.ends| && r in w.g && v in w.g
    requires Resolve(w.nodes, st.parcel.pkt) == Some(v)
    ensures Handed(w, u, Receive(w, u, r, st), r, st, v)
  {
    if v != r {
      assert Forwarding.Entry(w, r, v);
    }
  }

  /** The network names node v as the packet's destination; 0.0.0.0 stands for 127.0.0.1. */
  predicate Addressed(nodes: map<(int, int), nat>, pkt: Datagram, v: nat) {
    var ip := if pkt.destIP == 0 then 0x7f00_0001 else pkt.destIP;
    (ip, pkt.destPort) in nodes && nodes[(ip, pkt.destPort)] == v
  }

  lemma AddressedIff(nodes: map<(int, int), nat>, pkt: Datagram, v: nat)
    ensures Addressed(nodes, pkt, v) <==> Resolve(nodes, pkt) == Some(v)
  {
  }

  /** A packet that arrives at a router from outside is counted as entered and handed on. */
  lemma ArrivalSteps(w: World, s: Sim, r: nat, pkt: Datagram, v: nat)
    requires Routed(w) && |s.queues| == |s.trails| == |w.ends| && r in w.g && Addressed(w.nodes, pkt, v)
    ensures var p := Parcel(pkt, r);
            Handed(w, s.(entered := s.entered + multiset{p}), Step(w, s, Arrive(r, pkt)), r, Stamp(p, 0), v)
  {
    hide Handed, Receive;
    var p := Parcel(pkt, r);
    ReceiveHands(w, s.(entered := s.entered + multiset{p}), r, Stamp(p, 0), v);
  }

  /** u is s without the packet at the head of queue i. */
  predicate Headless(s: Sim, u: Sim, i: nat) {
    && OnlyAt(s, u, i) && u.lost == s.lost && s.queues[i].items != [] && s.trails[i] != []
    && u.queues[i].items == s.queues[i].items[1..] && u.queues[i].dropped == s.queues[i].dropped
    && u.queues[i].size == s.queues[i].size - s.queues[i].items[0].length
    && u.trails[i] == s.trails[i][1..]
  }

  /** The head of a queue leaves it and is handed on at the queue's other end, one hop further. */
  lemma HopSteps(w: World, s: Sim, i: nat) returns (u: Sim, v: nat)
    requires Routed(w) && Inv(w, s, None) && i < |s.queues| && s.queues[i].items != []
    ensures Headless(s, u, i) && i < |w.ends|
    ensures var st := s.trails[i][0];
            && Addressed(w.nodes, st.parcel.pkt, v)
            && Handed(w, u, Step(w, s, Hop(i)), w.ends[i].1, Stamp(st.parcel, st.hops + 1), v)
  {
    hide *;
    HeadWaits(w, s, i);
    HopIs(w, s, i);
    v := HeadFor(w, s, i);
    u := Popped(s, i);
    var st := s.trails[i][0];
    ReceiveHands(w, u, w.ends[i].1, Stamp(st.parcel, st.hops + 1), v);
  }

  lemma Popped(s: Sim, i: nat) returns (u: Sim)
    requires i < |s.queues| == |s.trails| && s.queues[i].items != [] && s.trails[i] != []
    ensures u == Pop(s, i) && Headless(s, u, i) && |u.queues| == |u.trails| == |s.queues|
  {
    u := Pop(s, i);
  }

  /** Where the head of a queue is going. */
  lemma HeadFor(w: World, s: Sim, i: nat) returns (v: nat)
    requires Routed(w) && Inv(w, s, None) && i < |s.queues| && s.queues[i].items != []
    ensures |s.trails| == |w.ends| == |s.queues| && s.trails[i] != [] && w.ends[i].1 in w.g && v in w.g
    ensures var pkt := s.trails[i][0].parcel.pkt; Resolve(w.nodes, pkt) == Some(v) && Addressed(w.nodes, pkt, v)
  {
    HeadWaits(w, s, i);
    hide Inv, Routed, OnRoute, OnShortestPath, Resolve, Addressed;
    var st := s.trails[i][0];
    var r, h := w.ends[i].0, w.ends[i].1;
    v :| OnRoute(w, st, r, v) && r != v && OnShortestPath(w.g, r, v, h);
    HopEnd(w, st, r, v, h);
  }

  lemma HopEnd(w: World, st: Stamp, r: nat, v: nat, h: nat)
    requires Routed(w) && OnRoute(w, st, r, v) && OnShortestPath(w.g, r, v, h)
    ensures h in w.g && v in w.g && Resolve(w.nodes, st.parcel.pkt) == Some(v) && Addressed(w.nodes, st.parcel.pkt, v)
  {
    RouteAdvances(w, st, r, v, h);
  }

  // ---- when packets are dropped ----

  /** Nothing happens to a packet for an unknown node or at an unknown router. */
  lemma Ignored(w: World, s: Sim, r: nat, pkt: Datagram)
    requires r !in w.g || Resolve(w.nodes, pkt).None?
    ensures Step(w, s, Arrive(r, pkt)) == s
  {
  }

  lemma NotDue(w: World, s: Sim, i: nat)
    requires i >= |s.queues| || s.queues[i].items == []
    ensures Step(w, s, Hop(i)) == s
  {
  }

  /** The router at which an event has a packet in its hands. */
  function Place(w: World, e: Event): nat {
    match e
    case Arrive(r, pkt) => r
    case Hop(i) => if i < |w.ends| then w.ends[i].1 else 0
  }

  /** A step drops at most one packet, and only if the queue it would have to go to is full. */
  lemma LossMeansFull(w: World, s: Sim, e: Event) returns (i: nat, p: Parcel)
    requires Routed(w) && Inv(w, s, None)
    ensures var t := Step(w, s, e);
            t.lost == s.lost ||
            (&& t.lost == s.lost + multiset{p} && i < |s.queues| == |w.ends| && w.ends[i].0 == Place(w, e)
             && |s.queues[i].items| == s.queues[i].max && e != Hop(i))
  {
    i, p := 0, Parcel(Datagram(0, 0, 0), 0);
    ShapesOf(w, s);
    match e
    case Arrive(r, pkt) =>
      if r in w.g && Resolve(w.nodes, pkt).Some? {
        var v := Resolve(w.nodes, pkt).value;
        AddressedIff(w.nodes, pkt, v);
        ArrivalSteps(w, s, r, pkt, v);
        p := Parcel(pkt, r);
        i := Chosen(w, r, v);
      } else {
        Ignored(w, s, r, pkt);
      }
    case Hop(j) =>
      if j < |s.queues| && s.queues[j].items != [] {
        p := s.trails[j][0].parcel;
        i := LossAtHop(w, s, j);
      } else {
        NotDue(w, s, j);
      }
  }

  /** The queue that a router's table has for a destination. */
  function Chosen(w: World, r: nat, v: nat): nat { if r in w.table && v in w.table[r] then w.table[r][v] else 0 }

  lemma LossAtHop(w: World, s: Sim, j: nat) returns (i: nat)
    requires Routed(w) && Inv(w, s, None) && j < |s.queues| && s.queues[j].items != []
    ensures |s.queues| == |s.trails| == |w.ends| && s.trails[j] != []
    ensures var t := Step(w, s, Hop(j));
            t.lost == s.lost ||
            (&& t.lost == s.lost + multiset{s.trails[j][0].parcel} && i < |s.queues| && w.ends[i].0 == w.ends[j].1
             && |s.queues[i].items| == s.queues[i].max && j != i)
  {
    ShapesOf(w, s);
    var u, v := HopSteps(w, s, j);
    i := Chosen(w, w.ends[j].1, v);
    hide Step, Inv, Routed;
  }

  lemma ShapesOf(w: World, s: Sim)
    requires Inv(w, s, None)
    ensures |s.queues| == |s.trails| == |w.ends|
    ensures forall i :: 0 <= i < |s.queues| ==> |s.trails[i]| == |s.queues[i].items| <= s.queues[i].max
  {
    hide OnTrack, Conserved;
    assert forall i :: 0 <= i < |s.queues| ==> Mirrors(s.trails[i], s.queues[i].items);
  }

  // ---- limits ----

  /** The limits are those of the map file, with 10 for a limit of 0. */
  function Limit(max: nat): nat { if max == 0 then 10 else max }

  predicate SameLimits(s: Sim, t: Sim) {
    |t.queues| == |s.queues| && forall i :: 0 <= i < |s.queues| ==> t.queues[i].max == s.queues[i].max
  }

  lemma ReceiveLimits(w: World, s: Sim, r: nat, st: Stamp)
    ensures SameLimits(s, Receive(w, s, r, st))
  {
    hide Resolve;
  }

  lemma LimitsStay(w: World, s: Sim, e: Event)
    ensures SameLimits(s, Step(w, s, e))
  {
    hide Receive, Resolve;
    match e
    case Arrive(r, pkt) =>
      var st := Stamp(Parcel(pkt, r), 0);
      ReceiveLimits(w, s, r, st);
      ReceiveLimits(w, s.(entered := s.entered + multiset{st.parcel}), r, st);
    case Hop(i) =>
      if i < |s.queues| && i < |w.ends| && |s.queues| == |s.trails| && s.queues[i].items != [] && s.trails[i] != [] {
        ReceiveLimits(w, Pop(s, i), w.ends[i].1, Stamp(s.trails[i][0].parcel, s.trails[i][0].hops + 1));
      }
  }

  lemma {:induction false} LimitsOf(w: World, max: seq<nat>, es: seq<Event>)
    requires |max| == |w.ends|
    ensures var s := Run(w, Start(w, max), es);
            |s.queues| == |max| && forall i :: 0 <= i < |max| ==> s.queues[i].max == Limit(max[i])
  {
    hide Step;
    if es != [] {
      LimitsOf(w, max, es[..|es| - 1]);
      LimitsStay(w, Run(w, Start(w, max), es[..|es| - 1]), es[|es| - 1]);
    }
  }

  /** On every run no queue ever holds more packets than its limit. */
  lemma LimitsAreRespected(w: World, max: seq<nat>, es: seq<Event>, i: nat)
    requires Routed(w) && Connected(w.g) && |max| == |w.ends| && i < |max|
    ensures var s := Run(w, Start(w, max), es);
            |s.queues| == |max| && |s.queues[i].items| <= Limit(max[i])
  {
    hide Routed, Connected, Run, Inv;
    LimitsOf(w, max, es);
    StartInv(w, max);
    RunInv(w, Start(w, max), es);
    ShapesOf(w, Run(w, Start(w, max), es));
  }

  // ---- few packets ----

  function Total(trails: seq<seq<Stamp>>): nat {
    if trails == [] then 0 else |trails[0]| + Total(trails[1..])
  }

  lemma {:induction false} TotalUpdate(trails: seq<seq<Stamp>>, i: nat, t: seq<Stamp>)
    requires i < |trails|
    ensures Total(trails[i := t]) == Total(trails) - |trails[i]| + |t|
    ensures |trails[i]| <= Total(trails)
  {
    if i > 0 {
      TotalUpdate(trails[1..], i - 1, t);
      assert trails[i := t][1..] == trails[1..][i - 1 := t];
    }
  }

  /** Nothing was dropped, and every packet that entered is queued or delivered but for `out` that are in hand. */
  predicate AllThere(s: Sim, out: nat) {
    s.lost == multiset{} && Total(s.trails) + |s.delivered| + out == |s.entered|
  }

  /** Every queue has places for n packets. */
  predicate Places(s: Sim, n: nat) { forall i :: 0 <= i < |s.queues| ==> s.queues[i].max >= n }

  /** Every queued packet has its stamp. */
  predicate Stamped(s: Sim) {
    |s.queues| == |s.trails| && forall i :: 0 <= i < |s.queues| ==> |s.trails[i]| == |s.queues[i].items|
  }

  lemma HandedAllThere(w: World, u: Sim, t: Sim, r: nat, st: Stamp, v: nat, n: nat)
    requires Handed(w, u, t, r, st, v) && AllThere(u, 1) && Stamped(u) && Places(u, n) && |u.entered| <= n
    ensures AllThere(t, 0) && Places(t, n) && t.entered == u.entered
  {
    if v != r {
      var i := w.table[r][v];
      TotalUpdate(u.trails, i, u.trails[i] + [st]);
      assert |u.queues[i].items| < u.queues[i].max;
      assert t.trails == u.trails[i := u.trails[i] + [st]];
    }
  }

  lemma HeadlessAllThere(s: Sim, u: Sim, i: nat, n: nat)
    requires Headless(s, u, i) && AllThere(s, 0) && Stamped(s) && Places(s, n)
    ensures AllThere(u, 1) && Stamped(u) && Places(u, n) && u.entered == s.entered
  {
    TotalUpdate(s.trails, i, s.trails[i][1..]);
    assert u.trails == s.trails[i := s.trails[i][1..]];
  }

  function Arrivals(es: seq<Event>): nat {
    if es == [] then 0 else Arrivals(es[..|es| - 1]) + if es[|es| - 1].Arrive? then 1 else 0
  }

  lemma InvStamped(w: World, s: Sim)
    requires Inv(w, s, None)
    ensures Stamped(s) && |s.queues| == |w.ends|
  {
    ShapesOf(w, s);
  }

  lemma StepAllThere(w: World, s: Sim, e: Event, n: nat)
    requires Routed(w) && Inv(w, s, None) && AllThere(s, 0) && Places(s, n)
    requires |s.entered| + (if e.Arrive? then 1 else 0) <= n
    ensures var t := Step(w, s, e);
            AllThere(t, 0) && Places(t, n) && |t.entered| <= |s.entered| + if e.Arrive? then 1 else 0
  {
    hide Routed, Inv, AllThere, Places, Stamped, Handed, Headless, Step;
    InvStamped(w, s);
    match e
    case Arrive(r, pkt) =>
      if r in w.g && Resolve(w.nodes, pkt).Some? {
        var v := Resolve(w.nodes, pkt).value;
        var u := s.(entered := s.entered + multiset{Parcel(pkt, r)});
        AddressedIff(w.nodes, pkt, v);
        ArrivalSteps(w, s, r, pkt, v);
        EntersAllThere(s, u, n);
        HandedAllThere(w, u, Step(w, s, e), r, Stamp(Parcel(pkt, r), 0), v, n);
      } else {
        Ignored(w, s, r, pkt);
      }
    case Hop(j) =>
      if j < |s.queues| && s.queues[j].items != [] {
        var u, v := HopSteps(w, s, j);
        HeadlessAllThere(s, u, j, n);
        HeadWaits(w, s, j);
        var st := s.trails[j][0];
        HandedAllThere(w, u, Step(w, s, e), w.ends[j].1, Stamp(st.parcel, st.hops + 1), v, n);
      } else {
        NotDue(w, s, j);
      }
  }

  lemma EntersAllThere(s: Sim, u: Sim, n: nat)
    requires AllThere(s, 0) && Stamped(s) && Places(s, n) && u == s.(entered := u.entered) && |u.entered| == |s.entered| + 1
    ensures AllThere(u, 1) && Stamped(u) && Places(u, n)
  {
  }

  predicate Roomy(max: seq<nat>, n: nat) { forall i :: 0 <= i < |max| ==> Limit(max[i]) >= n }

  lemma {:induction false} NoneQueued(trails: seq<seq<Stamp>>)
    requires forall i :: 0 <= i < |trails| ==> trails[i] == []
    ensures Total(trails) == 0
  {
    if trails != [] { NoneQueued(trails[1..]); }
  }

  lemma StartAllThere(w: World, max: seq<nat>, n: nat)
    requires |max| == |w.ends| && Roomy(max, n)
    ensures var s := Start(w, max); AllThere(s, 0) && Places(s, n) && s.entered == multiset{}
  {
    NoneQueued(Start(w, max).trails);
  }

  lemma {:induction false} RunAllThere(w: World, max: seq<nat>, es: seq<Event>, n: nat)
    requires Routed(w) && Connected(w.g) && |max| == |w.ends| && Roomy(max, n) && Arrivals(es) <= n
    ensures var s := Run(w, Start(w, max), es);
            Inv(w, s, None) && AllThere(s, 0) && Places(s, n) && |s.entered| <= Arrivals(es)
  {
    hide Routed, Connected, Inv, AllThere, Places, Step, Start, Roomy;
    if es == [] {
      StartAllThere(w, max, n);
      StartInv(w, max);
    } else {
      var before := es[..|es| - 1];
      RunAllThere(w, max, before, n);
      var s := Run(w, Start(w, max), before);
      StepInv(w, s, es[|es| - 1]);
      StepAllThere(w, s, es[|es| - 1], n);
    }
  }

  /** How often a packet for a known node arrived from outside at a router of the network. */
  function Offered(w: World, es: seq<Event>, p: Parcel): nat {
    if es == [] then 0
    else
      Offered(w, es[..|es| - 1], p)
      + if es[|es| - 1] == Arrive(p.entry, p.pkt) && p.entry in w.g && Known(w.nodes, p.pkt) then 1 else 0
  }

  predicate Known(nodes: map<(int, int), nat>, pkt: Datagram) {
    (if pkt.destIP == 0 then 0x7f00_0001 else pkt.destIP, pkt.destPort) in nodes
  }

  lemma EnteredStep(w: World, s: Sim, e: Event, p: Parcel)
    ensures Step(w, s, e).entered[p]
         == s.entered[p] + if e == Arrive(p.entry, p.pkt) && p.entry in w.g && Known(w.nodes, p.pkt) then 1 else 0
  {
  }

  lemma {:induction false} EnteredAreOffered(w: World, max: seq<nat>, es: seq<Event>, p: Parcel)
    requires |max| == |w.ends|
    ensures Run(w, Start(w, max), es).entered[p] == Offered(w, es, p)
  {
    hide Step, Known;
    if es != [] {
      EnteredAreOffered(w, max, es[..|es| - 1], p);
      EnteredStep(w, Run(w, Start(w, max), es[..|es| - 1]), es[|es| - 1], p);
    }
  }

  /** With at most as many arrivals as every queue has places nothing is ever dropped, and once all queues are empty every
      packet for a known node was delivered there, as often as it was sent and over the shortest number of hops. */
  lemma FewPacketsAllArrive(w: World, max: seq<nat>, es: seq<Event>)
    requires Routed(w) && Connected(w.g) && |max| == |w.ends| && Roomy(max, Arrivals(es))
    ensures var s := Run(w, Start(w, max), es);
            && s.lost == multiset{}
            && (forall k :: 0 <= k < |s.delivered| ==> Home(w, s.delivered[k]))
            && (AllQueuesEmpty(s) ==> forall p :: Arrived(s.delivered, p) == Offered(w, es, p))
  {
    hide Routed, Connected, Roomy, Run, Inv, Start, Home, Offered;
    RunAllThere(w, max, es, Arrivals(es));
    var s := Run(w, Start(w, max), es);
    InvSound(w, s);
    if AllQueuesEmpty(s) {
      forall p
        ensures Arrived(s.delivered, p) == Offered(w, es, p)
      {
        SettledNow(w, s, p);
        EnteredAreOffered(w, max, es, p);
      }
    }
  }
}
