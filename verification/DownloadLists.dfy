/** The download side of peer.c on its linked lists; every method is proved to do to the four lists and the
    counters what the corresponding function of Downloads does to their values. */
module DownloadLists {
  import opened HashLists
  import opened Downloads
  import opened Packets

  predicate Disjoint(a: seq<Node>, b: seq<Node>) { forall n :: n in a ==> n !in b }

  predicate Within(a: seq<Node>, b: seq<Node>) { forall n :: n in a ==> n in b }

  /** No node is on two of the four lists. */
  predicate Separate(a: seq<Node>, b: seq<Node>, c: seq<Node>, d: seq<Node>) {
    Disjoint(a, b) && Disjoint(a, c) && Disjoint(a, d) && Disjoint(b, c) && Disjoint(b, d) && Disjoint(c, d)
  }

  lemma SeparateShrinks(a: seq<Node>, b: seq<Node>, c: seq<Node>, d: seq<Node>,
                        a': seq<Node>, b': seq<Node>, c': seq<Node>, d': seq<Node>)
    requires Separate(a, b, c, d) && Within(a', a) && Within(b', b) && Within(c', c) && Within(d', d)
    ensures Separate(a', b', c', d')
  {
  }

  lemma WithoutWithin(s: seq<Node>, k: nat)
    requires k < |s|
    ensures Within(Without(s, k), s)
  {
  }

  class DownloadConn {
    const need: HashList
    const tosend: HashList
    const sent: HashList
    const downloading: HashList
    var concurr: int
    var max: int
    var found: int
    var howmany: int
    ghost var finished: int

    ghost predicate Valid()
      reads need, tosend, sent, downloading, need.nodes, tosend.nodes, sent.nodes, downloading.nodes
    {
      && need != tosend && need != sent && need != downloading
      && tosend != sent && tosend != downloading && sent != downloading
      && need.Valid() && tosend.Valid() && sent.Valid() && downloading.Valid()
      && Separate(need.nodes, tosend.nodes, sent.nodes, downloading.nodes)
    }

    ghost function View(): Down
      reads this, need, tosend, sent, downloading
    {
      Down(need.Contents(), tosend.Contents(), sent.Contents(), downloading.Contents(),
           concurr, max, found, howmany, finished)
    }

    /** The download part of init_peerme. */
    constructor (max: nat)
      ensures Valid() && View() == Idle(max)
      ensures fresh(need) && fresh(tosend) && fresh(sent) && fresh(downloading)
    {
      need := new HashList();
      tosend := new HashList();
      sent := new HashList();
      downloading := new HashList();
      this.max := max;
      concurr, found, howmany, finished := 0, 0, 0, 0;
    }

    /** find_node_by_addr on the lists pick_tosend_GET started with. */
    method Busy(sentList: Node?, ghost sentNodes: seq<Node>, addr: Addr) returns (busy: bool)
      requires Chain(sentList, sentNodes) && downloading.Valid()
      ensures busy <==> BusyIn(sentNodes, addr)
    {
      var a := FindNodeByAddr(sentList, addr, sentNodes);
      var b := FindNodeByAddr(downloading.head, addr, downloading.nodes);
      busy := a != null || b != null;
    }

    /** The body of the picking branch: move the node to the sent list and stamp it. */
    method Pick(curr: Node, ghost p: nat, now: int)
      requires Valid() && p < |tosend.nodes| && tosend.nodes[p] == curr
      modifies tosend, sent, (set n | n in tosend.nodes)`next, curr`timestamp
      ensures Valid()
      ensures tosend.nodes == Without(old(tosend.nodes), p) && sent.nodes == [curr] + old(sent.nodes)
      ensures Chain(old(sent.head), old(sent.nodes)) && curr.next == old(sent.head)
      ensures curr.timestamp == now
    {
      MoveNode(sent, tosend, curr, p);
      curr.timestamp := now;
    }

    /** Where the picking loop stands. While nothing was picked it is at position i of the queue, and nothing
        before i was eligible. Once a node moved, the loop is at position i of the old sent list. */
    ghost predicate Walking(curr: Node?, i: nat, count: int, d: Down, queue: seq<Node>, sentNodes: seq<Node>)
      reads tosend, sent
    {
      d.tosend == Items(queue) && d.sent == Items(sentNodes) &&
      if count == 0 then
        && tosend.nodes == queue && sent.nodes == sentNodes
        && i <= |queue| && curr == At(queue, i) && FirstEligible(d, 0) == FirstEligible(d, i)
      else
        var p := FirstEligible(d, 0);
        && count == 1 && p < |queue|
        && tosend.nodes == Without(queue, p) && sent.nodes == [queue[p]] + sentNodes
        && i <= |sentNodes| && curr == At(sentNodes, i)
    }

    ghost predicate BusyIn(sentNodes: seq<Node>, addr: Addr)
      reads downloading
    {
      HasAddr(Items(sentNodes), addr) || HasAddr(Items(downloading.nodes), addr)
    }

    lemma WalkOn(curr: Node, sentList: Node?, i: nat, count: int, d: Down, queue: seq<Node>, sentNodes: seq<Node>)
      requires Valid() && Chain(sentList, sentNodes) && d.downloading == Items(downloading.nodes)
      requires Walking(curr, i, count, d, queue, sentNodes)
      ensures BusyIn(sentNodes, curr.item.from) ==> Walking(curr.next, i + 1, count, d, queue, sentNodes)
      ensures count != 0 ==> BusyIn(sentNodes, curr.item.from)
    {
      if count == 0 {
        assert queue[i] == curr;
        if BusyIn(sentNodes, curr.item.from) { assert !Eligible(d, i); }
      } else {
        assert sentNodes[i] == curr && Items(sentNodes)[i].from == curr.item.from;
      }
    }

    lemma WalkFound(curr: Node, i: nat, d: Down, queue: seq<Node>, sentNodes: seq<Node>)
      requires d.downloading == Items(downloading.nodes)
      requires Walking(curr, i, 0, d, queue, sentNodes) && !BusyIn(sentNodes, curr.item.from)
      ensures i < |queue| && queue[i] == curr && FirstEligible(d, 0) == i
    {
      assert Eligible(d, i);
    }

    lemma WalkEnds(curr: Node?, sentList: Node?, i: nat, n: int, get: seq<Item>, d: Down, queue: seq<Node>,
                   sentNodes: seq<Node>, limit: int)
      requires Picking(curr, sentList, i, n, get, d, queue, sentNodes)
      requires (curr == null || n >= limit) && (n == 0 || n == 1 <= limit)
      ensures View() == Picked(d, limit) && n == (if CanPick(d, limit) then 1 else 0)
      ensures get == if n == 0 then [] else [sent.Contents()[0]]
    {
      if n == 1 {
        var p := FirstEligible(d, 0);
        ItemsWithout(queue, p);
        ItemsPush(queue[p], sentNodes);
      }
    }

    /** pick_tosend_GET. After a node moved, its next pointer leads into the old sent list, so the loop goes on
        there; every node there is busy, so nothing else is picked. The picked chunk's GET is returned. */
    method PickTosendGet(limit: int, now: int) returns (count: int, asked: seq<Item>)
      requires Valid()
      modifies tosend, sent, (set n | n in tosend.nodes)`next, (set n | n in tosend.nodes)`timestamp
      ensures Valid()
      ensures View() == Picked(old(View()), limit)
      ensures count == if CanPick(old(View()), limit) then 1 else 0
      ensures asked == if count == 0 then [] else [sent.Contents()[0]]
      ensures count != 0 ==> sent.nodes[0].timestamp == now
    {
      ghost var d, queue, sentNodes := View(), tosend.nodes, sent.nodes;
      var curr, sentList := tosend.head, sent.head;
      var n, get := 0, [];
      ghost var i: nat := 0;
      assert Picking(curr, sentList, i, n, get, d, queue, sentNodes);
      hide Picking, Valid, CanPick, Picked;
      while curr != null && n < limit
        invariant Valid() && Picking(curr, sentList, i, n, get, d, queue, sentNodes)
        invariant n == 0 || n == 1 <= limit
        invariant n == 1 ==> sent.nodes != [] && sent.nodes[0].timestamp == now
        invariant Within(tosend.nodes, queue)
        decreases 1 - n, if n == 0 then |queue| - i else |sentNodes| - i
      {
        PickingMore(curr, sentList, i, n, get, d, queue, sentNodes);
        var m;
        curr, m, get := PickNext(curr, sentList, i, n, get, d, queue, sentNodes, now);
        i := if m == n then i + 1 else 0;
        n := m;
      }
      WalkEnds(curr, sentList, i, n, get, d, queue, sentNodes, limit);
      count, asked := n, get;
    }

    /** Everything the picking loop maintains. */
    ghost predicate Picking(curr: Node?, sentList: Node?, i: nat, n: int, get: seq<Item>, d: Down, queue: seq<Node>, sentNodes: seq<Node>)
      reads this, need, tosend, sent, downloading, sentNodes
    {
      && Walking(curr, i, n, d, queue, sentNodes)
      && Chain(sentList, sentNodes)
      && View().(tosend := d.tosend, sent := d.sent) == d
      && get == if n == 0 then [] else Items(sent.nodes)[..1]
    }

    lemma PickingMore(curr: Node, sentList: Node?, i: nat, n: int, get: seq<Item>, d: Down, queue: seq<Node>, sentNodes: seq<Node>)
      requires Picking(curr, sentList, i, n, get, d, queue, sentNodes)
      ensures i < if n == 0 then |queue| else |sentNodes|
    {
    }

    /** One iteration: look whether the peer is busy, pick the node if not, go to its next pointer. */
    method PickNext(curr: Node, sentList: Node?, ghost i: nat, n: int, get: seq<Item>, ghost d: Down, ghost queue: seq<Node>,
                    ghost sentNodes: seq<Node>, now: int) returns (next: Node?, m: int, asked: seq<Item>)
      requires Valid() && Picking(curr, sentList, i, n, get, d, queue, sentNodes)
      modifies tosend, sent, (set n | n in tosend.nodes)`next, (set n | n in tosend.nodes)`timestamp
      ensures Valid() && Picking(next, sentList, if m == n then i + 1 else 0, m, asked, d, queue, sentNodes)
      ensures m == n || (n == 0 && m == 1 && sent.nodes != [] && sent.nodes[0].timestamp == now)
      ensures m == n ==> sent.nodes == old(sent.nodes) && forall x :: x in sent.nodes ==> x.timestamp == old(x.timestamp)
      ensures Within(tosend.nodes, old(tosend.nodes))
    {
      hide Walking, FirstEligible, BusyIn, Items;
      var busy := Busy(sentList, sentNodes, curr.item.from);
      WalkOn(curr, sentList, i, n, d, queue, sentNodes);
      next, m, asked := curr.next, n, get;
      if !busy {
        next, asked := PickHere(curr, sentList, i, d, queue, sentNodes, now);
        m := n + 1;
      }
    }

    /** The picking branch, and the step to the next pointer of the node that moved. */
    method PickHere(curr: Node, sentList: Node?, ghost i: nat, ghost d: Down, ghost queue: seq<Node>, ghost sentNodes: seq<Node>, now: int)
      returns (next: Node?, asked: seq<Item>)
      requires Valid() && Picking(curr, sentList, i, 0, [], d, queue, sentNodes) && !BusyIn(sentNodes, curr.item.from)
      modifies tosend, sent, (set n | n in tosend.nodes)`next, (set n | n in tosend.nodes)`timestamp
      ensures Valid() && Picking(next, sentList, 0, 1, asked, d, queue, sentNodes)
      ensures sent.nodes != [] && sent.nodes[0].timestamp == now
      ensures Within(tosend.nodes, old(tosend.nodes))
    {
      WalkFound(curr, i, d, queue, sentNodes);
      WithoutWithin(tosend.nodes, i);
      hide FirstEligible, Eligible, Separate;
      Pick(curr, i, now);
      next := curr.next;
      asked := [curr.item];
    }

    /** delete_node on the sent list */
    method RemoveSent(curr: Node, ghost k: nat)
      requires Valid() && k < |sent.nodes| && sent.nodes[k] == curr
      modifies sent, (set n | n in sent.nodes)`next
      ensures Valid() && sent.nodes == Without(old(sent.nodes), k) && curr.next == old(curr.next)
    {
      ghost var before := sent.nodes;
      sent.DeleteNode(curr, k);
      WithoutWithin(before, k);
      Shrunk(need.nodes, tosend.nodes, before, downloading.nodes);
    }

    /** delete_node on the downloading list */
    method RemoveDownloading(curr: Node, ghost k: nat)
      requires Valid() && k < |downloading.nodes| && downloading.nodes[k] == curr
      modifies downloading, (set n | n in downloading.nodes)`next
      ensures Valid() && downloading.nodes == Without(old(downloading.nodes), k)
      ensures downloading.Contents() == Without(old(downloading.Contents()), k)
      ensures need.nodes == old(need.nodes) && tosend.nodes == old(tosend.nodes) && sent.nodes == old(sent.nodes)
    {
      ghost var before := downloading.nodes;
      ItemsWithout(before, k);
      downloading.DeleteNode(curr, k);
      WithoutWithin(before, k);
      Shrunk(need.nodes, tosend.nodes, sent.nodes, before);
    }

    /** delete_node_by_hash on the list of needed chunks */
    method RemoveNeed(hash: Hash)
      requires Valid() && HasHash(need.Contents(), hash)
      modifies need, (set n | n in need.nodes)`next
      ensures Valid() && need.nodes == Without(old(need.nodes), HashIndex(old(need.Contents()), hash, 0))
      ensures need.Contents() == Without(old(need.Contents()), HashIndex(old(need.Contents()), hash, 0))
      ensures tosend.nodes == old(tosend.nodes) && sent.nodes == old(sent.nodes)
      ensures downloading.nodes == old(downloading.nodes)
    {
      ghost var before := need.nodes;
      ghost var k := HashIndex(need.Contents(), hash, 0);
      ItemsWithout(before, k);
      need.DeleteNodeByHash(hash);
      WithoutWithin(before, k);
      Shrunk(before, tosend.nodes, sent.nodes, downloading.nodes);
    }

    lemma Shrunk(a: seq<Node>, b: seq<Node>, c: seq<Node>, d: seq<Node>)
      requires Separate(a, b, c, d) && Within(need.nodes, a) && Within(tosend.nodes, b)
      requires Within(sent.nodes, c) && Within(downloading.nodes, d)
      ensures Separate(need.nodes, tosend.nodes, sent.nodes, downloading.nodes)
    {
      SeparateShrinks(a, b, c, d, need.nodes, tosend.nodes, sent.nodes, downloading.nodes);
    }

    /** GET_sender */
    method GetSender(now: int) returns (count: int, asked: seq<Item>)
      requires Valid()
      modifies this`concurr, tosend, sent, (set n | n in tosend.nodes)`next, (set n | n in tosend.nodes)`timestamp
      ensures Valid() && View() == Asked(old(View()))
      ensures count == concurr - old(concurr) && asked == if count == 0 then [] else [sent.Contents()[0]]
      ensures count != 0 ==> sent.nodes[0].timestamp == now
    {
      hide Picked, CanPick;
      var maxSend := max - concurr;
      NoRoom(View());
      if maxSend == 0 { return 0, []; }
      count, asked := PickTosendGet(maxSend, now);
      concurr := concurr + count;
    }

    static lemma NoRoom(d: Down)
      ensures !CanPick(d, 0) && Picked(d, 0) == d
    {
    }

    /** init_download */
    method InitDownload(conn: Node, ghost k: nat, now: int)
      requires Valid() && k < |sent.nodes| && sent.nodes[k] == conn
      modifies sent, downloading, (set n | n in sent.nodes)`next, conn`timestamp
      ensures Valid() && View() == Begun(old(View()), k) && conn.timestamp == now
      ensures downloading.nodes == [conn] + old(downloading.nodes)
    {
      ItemsWithout(sent.nodes, k);
      ItemsPush(conn, downloading.nodes);
      MoveNode(downloading, sent, conn, k);
      conn.timestamp := now;
    }

    /** The DATA case of dealwithincomepack, as far as the lists are concerned. */
    method OnDataPacket(addr: Addr, now: int)
      requires Valid()
      modifies sent, downloading, (set n | n in sent.nodes)`next
      modifies (set n | n in sent.nodes)`timestamp, (set n | n in downloading.nodes)`timestamp
      ensures Valid() && View() == OnData(old(View()), addr)
      ensures var k := AddrIndex(downloading.Contents(), addr, 0);
              k < |downloading.nodes| ==> downloading.nodes[k].timestamp == now
    {
      var conn := FindNodeByAddr(downloading.head, addr, downloading.nodes);
      if conn != null {
        hide Valid, AddrIndex, Items;
        conn.timestamp := now;
      } else {
        conn := FindNodeByAddr(sent.head, addr, sent.nodes);
        hide Valid;
        if conn != null {
          InitDownload(conn, AddrIndex(sent.Contents(), addr, 0), now);
        }
      }
    }

    /** check_recvdata_timeout for one downloading node */
    method CheckRecvdataTimeout(curr: Node, ghost k: nat, now: int) returns (expired: bool)
      requires Valid() && k < |downloading.nodes| && downloading.nodes[k] == curr
      modifies this`found, this`concurr, downloading, (set n | n in downloading.nodes)`next
      ensures Valid() && expired == (now - curr.timestamp > 5 * TIMEOUT_SEC)
      ensures View() == if expired then DataExpired(old(View()), k) else old(View())
    {
      expired := false;
      if now - curr.timestamp > 5 * TIMEOUT_SEC {
        ItemsWithout(downloading.nodes, k);
        RemoveDownloading(curr, k);
        found := found - 1;
        concurr := concurr - 1;
        expired := true;
      }
    }

    /** finish_one_download: the chunk must be needed */
    method FinishOneDownload(todel: Node?, ghost k: nat)
      requires Valid() && (todel != null ==> k < |downloading.nodes| && downloading.nodes[k] == todel)
      requires todel != null ==> HasHash(need.Contents(), todel.item.hash)
      modifies this`concurr, this`finished, need, downloading
      modifies (set n | n in need.nodes)`next, (set n | n in downloading.nodes)`next
      ensures Valid() && View() == if todel == null then old(View()) else Finished(old(View()), k)
      ensures downloading.nodes == if todel == null then old(downloading.nodes) else Without(old(downloading.nodes), k)
    {
      if todel == null { return; }
      NeedApart();
      hide Valid, Items, HashIndex, HasHash;
      RemoveNeed(todel.item.hash);
      RemoveDownloading(todel, k);
      concurr := concurr - 1;
      finished := finished + 1;
    }

    lemma NeedApart()
      requires Valid()
      ensures need != downloading
    {
    }

    /** complete_mydownload */
    method CompleteMydownload()
      requires Valid()
      modifies this`max, tosend, sent, downloading
      modifies (set n | n in tosend.nodes)`next, (set n | n in sent.nodes)`next, (set n | n in downloading.nodes)`next
      ensures Valid() && View() == Completed(old(View()))
    {
      max := 0;
      var count := tosend.Clear();
      count := sent.Clear();
      count := downloading.Clear();
    }

    /** The requests of the sent list that have not expired at `now`. */
    static ghost function Alive(s: seq<Node>, now: int): (r: seq<bool>)
      reads s
      ensures |r| == |s|
    {
      seq(|s|, i requires 0 <= i < |s| reads s => now - s[i].timestamp <= 5 * TIMEOUT_SEC)
    }

    /** The loop of check_timeout stands before node i of the original list. */
    ghost predicate Checking(curr: Node?, i: nat, count: int, all: seq<Node>, alive: seq<bool>, d: Down)
      reads this, sent
    {
      && i <= |all| == |alive| && curr == At(all, i)
      && sent.nodes == Survivors(all, alive, i) && Within(sent.nodes, all)
      && count == |all| - |sent.nodes|
      && concurr == d.concurr - count && found == d.found - count
    }

    /** check_timeout on the sent list: one pass that deletes every expired request */
    method CheckTimeout(now: int) returns (count: nat)
      requires Valid()
      modifies this`concurr, this`found, sent, (set n | n in sent.nodes)`next
      ensures Valid()
      ensures View() == GetsExpired(old(View()), old(Alive(sent.nodes, now)))
      ensures count == |old(sent.nodes)| - |sent.nodes|
      ensures forall n :: n in old(sent.nodes) ==> (n in sent.nodes <==> now - n.timestamp <= 10)
    {
      hide *;
      ghost var all, alive, d := sent.nodes, Alive(sent.nodes, now), View();
      StartChecking(all, alive, d, now);
      var curr := sent.head;
      var n := 0;
      ghost var i: nat := 0;
      while curr != null
        invariant CheckPass(curr, i, n, all, alive, d, now) && forall x :: x in sent.nodes ==> x in all
        decreases |all| - i
      {
        curr, n := CheckNext(curr, i, n, all, alive, d, now);
        i := i + 1;
      }
      EndChecking(i, n, all, alive, d, now);
      StaysIff(all, alive, now);
      count := n;
    }

    /** Everything the loop of check_timeout maintains. */
    ghost predicate CheckPass(curr: Node?, i: nat, count: int, all: seq<Node>, alive: seq<bool>, d: Down, now: int)
      reads this, need, tosend, sent, downloading, all
      reads need.nodes, tosend.nodes, sent.nodes, downloading.nodes
    {
      && Valid() && Checking(curr, i, count, all, alive, d) && Alive(all, now) == alive
      && d.sent == Items(all) && View().(sent := d.sent, concurr := d.concurr, found := d.found) == d
    }

    lemma StartChecking(all: seq<Node>, alive: seq<bool>, d: Down, now: int)
      requires Valid() && all == sent.nodes && d == View() && alive == Alive(all, now)
      ensures CheckPass(sent.head, 0, 0, all, alive, d, now) && Distinct(all)
    {
      SurvivorsEnds(all, alive);
      hide Survivors, Alive, Items;
    }

    lemma EndChecking(i: nat, n: int, all: seq<Node>, alive: seq<bool>, d: Down, now: int)
      requires CheckPass(null, i, n, all, alive, d, now)
      ensures Valid() && View() == GetsExpired(d, alive) && n == |all| - |sent.nodes| && n >= 0
      ensures sent.nodes == Kept(all, alive) && Alive(all, now) == alive
    {
      hide Valid, Alive;
      assert i == |all|;
      SurvivorsEnds(all, alive);
      KeptItems(all, alive);
    }

    /** A request stays exactly if it has not expired. */
    lemma StaysIff(all: seq<Node>, alive: seq<bool>, now: int)
      requires Distinct(all) && |alive| == |all| && sent.nodes == Kept(all, alive) && Alive(all, now) == alive
      ensures forall n :: n in all ==> (n in sent.nodes <==> now - n.timestamp <= 10)
    {
      forall n | n in all
        ensures n in sent.nodes <==> now - n.timestamp <= 10
      {
        var i :| 0 <= i < |all| && all[i] == n;
        KeptIff(all, alive, i);
        assert alive[i] == Alive(all, now)[i];
      }
    }

    static lemma {:induction false} KeptIff(s: seq<Node>, mask: seq<bool>, i: nat)
      requires |s| == |mask| && Distinct(s) && i < |s|
      ensures s[i] in Kept(s, mask) <==> mask[i]
    {
      var n := |s| - 1;
      if i < n {
        KeptIff(s[..n], mask[..n], i);
      } else {
        KeptWithin(s[..n], mask[..n]);
      }
    }

    method CheckNext(curr: Node, ghost i: nat, n: int, ghost all: seq<Node>, ghost alive: seq<bool>, ghost d: Down, now: int)
      returns (next: Node?, n': int)
      requires CheckPass(curr, i, n, all, alive, d, now)
      modifies this`concurr, this`found, sent, (set n | n in sent.nodes)`next
      ensures CheckPass(next, i + 1, n', all, alive, d, now) && i < |all|
      ensures forall x :: x in sent.nodes ==> x in all
    {
      hide Valid, Survivors, Kept, Items;
      SentApart();
      SurvivorsNext(all, alive, i);
      SurvivorsWithin(all, alive, i + 1);
      var expired;
      next, expired := CheckOne(curr, all[i + 1..], |Kept(all[..i], alive[..i])|, now);
      n' := if expired then n + 1 else n;
    }

    lemma SentApart()
      requires Valid()
      ensures sent != need && sent != tosend && sent != downloading
    {
    }

    /** The sent list once its first i nodes have been checked. */
    static ghost function Survivors(all: seq<Node>, alive: seq<bool>, i: nat): seq<Node>
      requires i <= |all| == |alive|
    {
      Kept(all[..i], alive[..i]) + all[i..]
    }

    static lemma SurvivorsEnds(all: seq<Node>, alive: seq<bool>)
      requires |all| == |alive|
      ensures Survivors(all, alive, 0) == all && Survivors(all, alive, |all|) == Kept(all, alive)
    {
      assert all[..|all|] == all && alive[..|all|] == alive && all[|all|..] == [];
    }

    static lemma SurvivorsNext(all: seq<Node>, alive: seq<bool>, i: nat)
      requires i < |all| == |alive|
      ensures var s, k := Survivors(all, alive, i), |Kept(all[..i], alive[..i])|;
              && k < |s| && s[k] == all[i] && s[k + 1..] == all[i + 1..]
              && s[..k] + (if alive[i] then [all[i]] else []) + all[i + 1..] == Survivors(all, alive, i + 1)
              && |Survivors(all, alive, i + 1)| == |s| - if alive[i] then 0 else 1
    {
      KeptNext(all, alive, i);
      var kept := Kept(all[..i], alive[..i]);
      assert all[i..] == [all[i]] + all[i + 1..];
      assert Survivors(all, alive, i) == kept + [all[i]] + all[i + 1..];
    }

    static lemma {:induction false} KeptWithin(s: seq<Node>, mask: seq<bool>)
      requires |s| == |mask|
      ensures Within(Kept(s, mask), s)
    {
      if s != [] { KeptWithin(s[..|s| - 1], mask[..|s| - 1]); }
    }

    static lemma SurvivorsWithin(all: seq<Node>, alive: seq<bool>, i: nat)
      requires i <= |all| == |alive|
      ensures Within(Survivors(all, alive, i), all)
    {
      KeptWithin(all[..i], alive[..i]);
    }

    /** The loop body of check_timeout: read the successor, then delete the node if it expired. */
    method CheckOne(curr: Node, ghost rest: seq<Node>, ghost k: nat, now: int) returns (next: Node?, expired: bool)
      requires Valid() && k < |sent.nodes| && sent.nodes[k] == curr && sent.nodes[k + 1..] == rest
      modifies this`concurr, this`found, sent, (set n | n in sent.nodes)`next
      ensures Valid() && next == At(rest, 0)
      ensures expired == (now - curr.timestamp > 5 * TIMEOUT_SEC)
      ensures sent.nodes == old(sent.nodes[..k]) + (if expired then [] else [curr]) + rest
      ensures concurr == old(concurr) - (if expired then 1 else 0) && found == old(found) - if expired then 1 else 0
    {
      next := curr.next;
      expired := now - curr.timestamp > 5 * TIMEOUT_SEC;
      if expired {
        RemoveSent(curr, k);
        concurr := concurr - 1;
        found := found - 1;
      }
    }

    static lemma KeptNext(all: seq<Node>, alive: seq<bool>, i: nat)
      requires i < |all| == |alive|
      ensures Kept(all[..i + 1], alive[..i + 1]) == Kept(all[..i], alive[..i]) + if alive[i] then [all[i]] else []
    {
      assert all[..i + 1][..i] == all[..i] && alive[..i + 1][..i] == alive[..i];
    }

    static lemma {:induction false} KeptItems(all: seq<Node>, alive: seq<bool>)
      requires |all| == |alive|
      ensures Items(Kept(all, alive)) == Kept(Items(all), alive)
    {
      if all != [] {
        var n := |all| - 1;
        KeptItems(all[..n], alive[..n]);
        assert Items(all)[..n] == Items(all[..n]);
      }
    }

    /** append_node of a new node on the queue of chunks to ask for */
    method Queue(item: Item)
      requires Valid()
      modifies tosend
      ensures Valid() && |tosend.nodes| == old(|tosend.nodes|) + 1
      ensures fresh(tosend.nodes[0]) && tosend.nodes[1..] == old(tosend.nodes)
      ensures tosend.Contents() == [item] + old(tosend.Contents())
    {
      var node := new Node(item);
      ItemsPush(node, tosend.nodes);
      tosend.AppendNode(node);
    }

    /** delete_node on the queue of chunks to ask for */
    method Unqueue(curr: Node, ghost k: nat)
      requires Valid() && k < |tosend.nodes| && tosend.nodes[k] == curr
      modifies tosend, (set n | n in tosend.nodes)`next
      ensures Valid() && tosend.nodes == Without(old(tosend.nodes), k)
    {
      ghost var before := tosend.nodes;
      tosend.DeleteNode(curr, k);
      WithoutWithin(before, k);
      Shrunk(need.nodes, before, sent.nodes, downloading.nodes);
    }

    /** The body of fill_toget_list for one hash of an IHAVE packet. */
    method FillHash(hash: Hash, from: Addr)
      requires Valid()
      modifies this`found, tosend, (set n | n in tosend.nodes)`next
      ensures Valid() && View() == FillOne(old(View()), hash, from)
      ensures forall n :: n in tosend.nodes ==> n in old(tosend.nodes) || fresh(n)
    {
      hide Valid, HashIndex;
      var ifNeed, ifStored, active := LookUp(hash);
      if !active && ifNeed != null {
        var item := Item(from, hash, ifNeed.item.chunkid);
        if ifStored == null {
          Found(item);
        } else {
          Retarget(ifStored, HashIndex(tosend.Contents(), hash, 0), item);
        }
      }
    }

    /** The four searches fill_toget_list starts with. */
    method LookUp(hash: Hash) returns (ifNeed: Node?, ifStored: Node?, active: bool)
      requires Valid()
      ensures Valid()
      ensures ifNeed == At(need.nodes, HashIndex(need.Contents(), hash, 0))
      ensures ifStored == At(tosend.nodes, HashIndex(tosend.Contents(), hash, 0))
      ensures active <==> HasHash(downloading.Contents(), hash) || HasHash(sent.Contents(), hash)
    {
      ifNeed := FindNode(need.head, hash, need.nodes);
      ifStored := FindNode(tosend.head, hash, tosend.nodes);
      var inDown := FindNode(downloading.head, hash, downloading.nodes);
      var inSent := FindNode(sent.head, hash, sent.nodes);
      active := inDown != null || inSent != null;
    }

    method Found(item: Item)
      requires Valid()
      modifies this`found, tosend
      ensures Valid() && tosend.Contents() == [item] + old(tosend.Contents()) && found == old(found) + 1
      ensures forall n :: n in tosend.nodes ==> n in old(tosend.nodes) || fresh(n)
    {
      hide Valid;
      Enqueue(item);
      found := found + 1;
    }

    method Enqueue(item: Item)
      requires Valid()
      modifies tosend
      ensures Valid() && tosend.Contents() == [item] + old(tosend.Contents())
      ensures forall n :: n in tosend.nodes ==> n in old(tosend.nodes) || fresh(n)
    {
      ghost var rest := tosend.nodes;
      Queue(item);
      assert tosend.nodes == [tosend.nodes[0]] + rest;
    }

    /** The else branch: another peer offers a queued chunk whose own peer is busy. */
    method Retarget(stored: Node, ghost k: nat, item: Item)
      requires Valid() && k < |tosend.nodes| && tosend.nodes[k] == stored
      modifies tosend, (set n | n in tosend.nodes)`next
      ensures Valid()
      ensures tosend.Contents() ==
                (if item.from.port != stored.item.from.port && BusyIn(sent.nodes, stored.item.from)
                 then [item] + Without(old(tosend.Contents()), k) else old(tosend.Contents()))
      ensures forall n :: n in tosend.nodes ==> n in old(tosend.nodes) || fresh(n)
    {
      hide BusyIn;
      var busy := Busy(sent.head, sent.nodes, stored.item.from);
      if item.from.port != stored.item.from.port && busy {
        Requeue(stored, k, item);
      }
    }

    /** Replace a queued request by one to another peer. */
    method Requeue(stored: Node, ghost k: nat, item: Item)
      requires Valid() && k < |tosend.nodes| && tosend.nodes[k] == stored
      modifies tosend, (set n | n in tosend.nodes)`next
      ensures Valid() && tosend.Contents() == [item] + Without(old(tosend.Contents()), k)
      ensures forall n :: n in tosend.nodes ==> n in old(tosend.nodes) || fresh(n)
    {
      ItemsWithout(tosend.nodes, k);
      WithoutWithin(tosend.nodes, k);
      Unqueue(stored, k);
      ghost var rest := tosend.nodes;
      Queue(item);
      assert tosend.nodes == [tosend.nodes[0]] + rest;
    }

    /** fill_toget_list */
    method FillTogetList(hashes: seq<Hash>, from: Addr)
      requires Valid()
      modifies this`found, tosend, (set n | n in tosend.nodes)`next
      ensures Valid() && View() == Fill(old(View()), hashes, from)
    {
      ghost var d := View();
      hide FillOne, Valid, Fill;
      FillStart(d, from);
      var count := 0;
      assert hashes[..0] == [];
      while count < |hashes|
        invariant 0 <= count <= |hashes|
        invariant Valid() && View() == Fill(d, hashes[..count], from)
        invariant forall n :: n in tosend.nodes ==> n in old(tosend.nodes) || fresh(n)
      {
        FillHash(hashes[count], from);
        FillNext(d, hashes, from, count);
        count := count + 1;
      }
      assert hashes[..count] == hashes;
    }

    static lemma FillStart(d: Down, from: Addr)
      ensures Fill(d, [], from) == d
    {
    }

    static lemma FillNext(d: Down, hashes: seq<Hash>, from: Addr, i: nat)
      requires i < |hashes|
      ensures Fill(d, hashes[..i + 1], from) == FillOne(Fill(d, hashes[..i], from), hashes[i], from)
    {
      assert hashes[..i + 1][..i] == hashes[..i];
    }

    /** reset_mydownload; `lines` are the entries of the chunk file, which parse_hasneed_list pushes one by one */
    method ResetMydownload(lines: seq<Item>, maxConn: nat)
      requires Valid()
      modifies this, need, tosend, sent, downloading
      modifies (set n | n in need.nodes)`next, (set n | n in tosend.nodes)`next
      modifies (set n | n in sent.nodes)`next, (set n | n in downloading.nodes)`next
      ensures Valid() && View() == ResetTo(old(View()), need.Contents(), maxConn)
      ensures |need.Contents()| == |lines|
      ensures forall i :: 0 <= i < |lines| ==> need.Contents()[i] == lines[|lines| - 1 - i]
      ensures tosend.nodes == sent.nodes == downloading.nodes == []
      ensures concurr == found == 0 && max == maxConn && howmany == |lines|
    {
      concurr, max, found, finished := 0, maxConn, 0, 0;
      ClearAll();
      LoadNeed(lines);
      howmany := need.Length();
    }

    /** parse_hasneed_list */
    method LoadNeed(lines: seq<Item>)
      requires Valid() && need.nodes == tosend.nodes == sent.nodes == downloading.nodes == []
      modifies need
      ensures Valid() && |need.Contents()| == |lines|
      ensures forall i :: 0 <= i < |lines| ==> need.Contents()[i] == lines[|lines| - 1 - i]
      ensures tosend.nodes == sent.nodes == downloading.nodes == []
    {
      var i := 0;
      while i < |lines|
        invariant 0 <= i <= |lines| && Valid() && |need.Contents()| == i
        invariant forall j :: 0 <= j < i ==> need.Contents()[j] == lines[i - 1 - j]
        invariant tosend.nodes == sent.nodes == downloading.nodes == []
        invariant forall n :: n in need.nodes ==> fresh(n)
      {
        var node := new Node(lines[i]);
        ItemsPush(node, need.nodes);
        need.AppendNode(node);
        i := i + 1;
      }
    }

    method ClearAll()
      requires Valid()
      modifies need, tosend, sent, downloading
      modifies (set n | n in need.nodes)`next, (set n | n in tosend.nodes)`next
      modifies (set n | n in sent.nodes)`next, (set n | n in downloading.nodes)`next
      ensures Valid() && need.nodes == tosend.nodes == sent.nodes == downloading.nodes == []
    {
      var count := need.Clear();
      count := tosend.Clear();
      count := sent.Clear();
      count := downloading.Clear();
    }
  }
}
