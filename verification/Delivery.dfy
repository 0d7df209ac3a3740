/** The simulator from its start-up to its last packet: the tables that the routers built carry every run, and when
    no more packets arrive every queue runs empty within a known number of hops. */
module Delivery {
  import opened Basics
  import opened Graphs
  import opened Routing
  import opened Forwarding

  // ---- from the built tables to the runs ----

  lemma {:induction false} NumberAll(pairs: set<(nat, nat)>) returns (n: Numbering)
    ensures forall p :: p in pairs ==> NumberOf(n, p.0, p.1).Some?
    decreases |pairs|
  {
    if pairs == {} {
      n := Numbering([], map[]);
    } else {
      var p :| p in pairs;
      var m := NumberAll(pairs - {p});
      n := Numbering(m.ends + [p], m.number[p := |m.ends|]);
      forall q | q in pairs
        ensures NumberOf(n, q.0, q.1).Some?
      {
        assert q == (q.0, q.1);
        assert q != p ==> NumberOf(m, q.0, q.1).Some?;
      }
    }
  }

  /** The queues of every topology can be numbered. */
  lemma NumberingExists(vs: seq<NSRouter?>) returns (n: Numbering)
    requires Topology(vs)
    ensures Numbers(vs, n)
  {
    var all := set r: nat, h: nat | r < |vs| && h < |vs| :: (r, h);
    n := NumberAll(all);
    forall r, h | r in Routers(vs) && 0 <= h < |r.routes| && r.routes[h] != null
      ensures NumberOf(n, r.id, h).Some?
    {
      AtIndex(vs, r);
      QueueTarget(vs, r, h);
      assert (r.id, h) in all;
    }
  }

  /** With the tables that every router built for itself, on any connected topology, for any numbering of the
      queues, any limits and any arrivals, the simulation is sound. */
  lemma BuiltSimulationIsSound(vs: seq<NSRouter?>, nodes: map<(int, int), nat>, n: Numbering, max: seq<nat>,
                               es: seq<Event>)
    requires Topology(vs) && Connected(GraphOf(vs)) && forall r :: r in Routers(vs) ==> r.TableFor(GraphOf(vs))
    requires forall k :: k in nodes ==> nodes[k] in GraphOf(vs)
    requires Numbers(vs, n) && |max| == |n.ends|
    ensures var w := WorldOf(vs, nodes, n); Routed(w) && Sound(w, Run(w, Start(w, max), es))
  {
    hide Routed, Connected, Sound, Run, Numbers, Topology, GraphOf, NSRouter.TableFor;
    BuiltTablesRoute(vs, nodes, n);
    SimulationIsSound(WorldOf(vs, nodes, n), max, es);
  }

  // ---- after the last arrival ----

  /** The hops a stamped packet still has to its node. */
  ghost function HopsLeft(w: World, st: Stamp): int {
    var v := Resolve(w.nodes, st.parcel.pkt);
    if v.Some? && exists d :: Dist(w.g, st.parcel.entry, v.value, d)
    then (var d :| Dist(w.g, st.parcel.entry, v.value, d); d) - st.hops
    else 0
  }

  ghost function TrailLoad(w: World, t: seq<Stamp>): int {
    if t == [] then 0 else HopsLeft(w, t[0]) + TrailLoad(w, t[1..])
  }

  /** The hops left to all queued packets together. */
  ghost function Load(w: World, trails: seq<seq<Stamp>>): int {
    if trails == [] then 0 else TrailLoad(w, trails[0]) + Load(w, trails[1..])
  }

  lemma {:induction false} TrailLoadAppend(w: World, t: seq<Stamp>, st: Stamp)
    ensures TrailLoad(w, t + [st]) == TrailLoad(w, t) + HopsLeft(w, st)
  {
    hide HopsLeft;
    if t == [] {
      assert [st][1..] == [] && t + [st] == [st];
    } else {
      TrailLoadAppend(w, t[1..], st);
      assert (t + [st])[1..] == t[1..] + [st];
    }
  }

  lemma {:induction false} LoadUpdate(w: World, trails: seq<seq<Stamp>>, i: nat, t: seq<Stamp>)
    requires i < |trails|
    ensures Load(w, trails[i := t]) == Load(w, trails) - TrailLoad(w, trails[i]) + TrailLoad(w, t)
  {
    hide TrailLoad;
    if i > 0 {
      LoadUpdate(w, trails[1..], i - 1, t);
      assert trails[i := t][1..] == trails[1..][i - 1 := t];
    }
  }

  lemma OnRouteLeft(w: World, st: Stamp, r: nat, v: nat)
    requires OnRoute(w, st, r, v)
    ensures Dist(w.g, r, v, HopsLeft(w, st))
  {
    hide Dist;
    var d :| Dist(w.g, st.parcel.entry, v, d) && Dist(w.g, r, v, d - st.hops);
    var e := HopsLeft(w, st) + st.hops;
    DistUnique(w.g, st.parcel.entry, v, d, e);
  }

  /** A waiting packet has at least one hop left. */
  lemma WaitingLeft(w: World, st: Stamp, r: nat, h: nat)
    requires Waiting(w, st, r, h)
    ensures HopsLeft(w, st) >= 1
  {
    hide HopsLeft, OnShortestPath;
    var v :| OnRoute(w, st, r, v) && r != v && OnShortestPath(w.g, r, v, h);
    OnRouteLeft(w, st, r, v);
    DistPositive(w.g, r, v, HopsLeft(w, st));
  }

  lemma {:induction false} TrailLoadBound(w: World, t: seq<Stamp>, r: nat, h: nat)
    requires forall j :: 0 <= j < |t| ==> Waiting(w, t[j], r, h)
    ensures TrailLoad(w, t) >= |t|
  {
    hide HopsLeft, Waiting;
    if t != [] {
      WaitingLeft(w, t[0], r, h);
      assert forall j :: 0 <= j < |t[1..]| ==> t[1..][j] == t[j + 1];
      TrailLoadBound(w, t[1..], r, h);
    }
  }

  /** All packets of a trail wait in its queue. */
  ghost predicate AllWait(w: World, trails: seq<seq<Stamp>>, ends: seq<(nat, nat)>) {
    |trails| == |ends| &&
    forall i, j :: 0 <= i < |trails| && 0 <= j < |trails[i]| ==> Waiting(w, trails[i][j], ends[i].0, ends[i].1)
  }

  lemma {:induction false} LoadBound(w: World, trails: seq<seq<Stamp>>, ends: seq<(nat, nat)>)
    requires AllWait(w, trails, ends)
    ensures Load(w, trails) >= 0
    ensures Load(w, trails) == 0 ==> forall i :: 0 <= i < |trails| ==> trails[i] == []
  {
    hide TrailLoad, Waiting;
    if trails != [] {
      TrailLoadBound(w, trails[0], ends[0].0, ends[0].1);
      Tails(w, trails, ends);
      LoadBound(w, trails[1..], ends[1..]);
      assert forall i :: 1 <= i < |trails| ==> trails[i] == trails[1..][i - 1];
    }
  }

  lemma Tails(w: World, trails: seq<seq<Stamp>>, ends: seq<(nat, nat)>)
    requires AllWait(w, trails, ends) && trails != []
    ensures AllWait(w, trails[1..], ends[1..])
  {
    hide Waiting;
    forall i, j | 0 <= i < |trails[1..]| && 0 <= j < |trails[1..][i]|
      ensures Waiting(w, trails[1..][i][j], ends[1..][i].0, ends[1..][i].1)
    {
      assert trails[1..][i] == trails[i + 1] && ends[1..][i] == ends[i + 1];
    }
  }

  lemma InvWait(w: World, s: Sim)
    requires Inv(w, s, None)
    ensures AllWait(w, s.trails, w.ends)
  {
    hide Waiting, Home, Conserved;
  }

  lemma PopLoad(w: World, s: Sim, i: nat)
    requires i < |s.queues| == |s.trails| && s.queues[i].items != [] && s.trails[i] != []
    ensures Load(w, Pop(s, i).trails) == Load(w, s.trails) - HopsLeft(w, s.trails[i][0])
  {
    hide HopsLeft;
    LoadUpdate(w, s.trails, i, s.trails[i][1..]);
  }

  lemma ReceiveLoad(w: World, s: Sim, r: nat, st: Stamp)
    requires HopsLeft(w, st) >= 0
    ensures Load(w, Receive(w, s, r, st).trails) <= Load(w, s.trails) + HopsLeft(w, st)
  {
    hide HopsLeft;
    var v := Resolve(w.nodes, st.parcel.pkt);
    if v.Some? && v.value != r && r in w.table && v.value in w.table[r] && w.table[r][v.value] < |s.queues| == |s.trails| {
      var i := w.table[r][v.value];
      TrailLoadAppend(w, s.trails[i], st);
      LoadUpdate(w, s.trails, i, s.trails[i] + [st]);
    }
  }

  /** A hop takes at least one off the load. */
  lemma HopUnloads(w: World, s: Sim, i: nat)
    requires Routed(w) && Inv(w, s, None) && i < |s.queues| && s.queues[i].items != []
    ensures Inv(w, Step(w, s, Hop(i)), None)
    ensures Load(w, Step(w, s, Hop(i)).trails) < Load(w, s.trails)
  {
    HopInv(w, s, i);
    InvWait(w, s);
    var st := s.trails[i][0];
    var next := Stamp(st.parcel, st.hops + 1);
    assert Waiting(w, st, w.ends[i].0, w.ends[i].1);
    NextLeft(w, st, w.ends[i].0, w.ends[i].1);
    hide Inv, Routed, Waiting, HopsLeft, Receive, Pop, Load;
    PopLoad(w, s, i);
    ReceiveLoad(w, Pop(s, i), w.ends[i].1, next);
    assert Step(w, s, Hop(i)) == Receive(w, Pop(s, i), w.ends[i].1, next) by { HopIs(w, s, i); }
  }

  lemma NextLeft(w: World, st: Stamp, r: nat, h: nat)
    requires Waiting(w, st, r, h)
    ensures HopsLeft(w, st) >= 1 && HopsLeft(w, Stamp(st.parcel, st.hops + 1)) == HopsLeft(w, st) - 1
  {
    WaitingLeft(w, st, r, h);
  }

  /** A sequence of hops each of which finds a packet in its queue. */
  predicate Enabled(w: World, s: Sim, hops: seq<nat>)
    decreases |hops|
  {
    hops == [] ||
    (hops[0] < |s.queues| && s.queues[hops[0]].items != [] && Enabled(w, Step(w, s, Hop(hops[0])), hops[1..]))
  }

  function After(w: World, s: Sim, hops: seq<nat>): Sim
    decreases |hops|
  {
    if hops == [] then s else After(w, Step(w, s, Hop(hops[0])), hops[1..])
  }

  predicate AllQueuesEmpty(s: Sim) { forall i :: 0 <= i < |s.queues| ==> s.queues[i].items == [] }

  lemma {:induction false} HopsAreBounded(w: World, s: Sim, hops: seq<nat>)
    requires Routed(w) && Inv(w, s, None) && Enabled(w, s, hops)
    ensures Inv(w, After(w, s, hops), None)
    ensures |hops| + Load(w, After(w, s, hops).trails) <= Load(w, s.trails)
    decreases |hops|
  {
    hide Inv, Routed, Load;
    if hops != [] {
      HopUnloads(w, s, hops[0]);
      HopsAreBounded(w, Step(w, s, Hop(hops[0])), hops[1..]);
    }
  }

  lemma {:induction false} NoneInTransit(trails: seq<seq<Stamp>>, p: Parcel)
    requires forall i :: 0 <= i < |trails| ==> trails[i] == []
    ensures InTransit(trails, p) == 0
  {
    if trails != [] {
      NoneInTransit(trails[1..], p);
    }
  }

  /** When no more packets arrive: whatever the order in which queue heads become due, at most Load hops are
      possible; and once no hop is possible every packet that ever entered was delivered or counted as dropped. */
  lemma EveryPacketSettles(w: World, s: Sim, hops: seq<nat>)
    requires Routed(w) && Inv(w, s, None) && Enabled(w, s, hops)
    ensures |hops| <= Load(w, s.trails)
    ensures var t := After(w, s, hops);
            && Sound(w, t)
            && (AllQueuesEmpty(t) ==> forall p :: t.entered[p] == Arrived(t.delivered, p) + t.lost[p])
  {
    hide Routed, Load, Enabled, After, Inv, Sound;
    HopsAreBounded(w, s, hops);
    var t := After(w, s, hops);
    InvWait(w, t);
    LoadBound(w, t.trails, w.ends);
    InvSound(w, t);
    if AllQueuesEmpty(t) {
      forall p
        ensures t.entered[p] == Arrived(t.delivered, p) + t.lost[p]
      {
        SettledNow(w, t, p);
      }
    }
  }

  lemma SettledNow(w: World, t: Sim, p: Parcel)
    requires Sound(w, t) && AllQueuesEmpty(t)
    ensures t.entered[p] == Arrived(t.delivered, p) + t.lost[p]
  {
    hide Home;
    assert forall i :: 0 <= i < |t.trails| ==> Mirrors(t.trails[i], t.queues[i].items);
    NoneInTransit(t.trails, p);
  }

  /** Letting any queue that is not empty move on empties them all. */
  lemma {:induction false} QueuesRunEmpty(w: World, s: Sim) returns (hops: seq<nat>)
    requires Routed(w) && Inv(w, s, None)
    ensures Enabled(w, s, hops) && AllQueuesEmpty(After(w, s, hops))
    decreases Load(w, s.trails)
  {
    hide Routed, Inv, Load, Step;
    InvWait(w, s);
    LoadBound(w, s.trails, w.ends);
    if i: nat :| i < |s.queues| && s.queues[i].items != [] {
      HopUnloads(w, s, i);
      var rest := QueuesRunEmpty(w, Step(w, s, Hop(i)));
      hops := [i] + rest;
    } else {
      hops := [];
    }
  }
}
