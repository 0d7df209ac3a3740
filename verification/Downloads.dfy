/** The download bookkeeping of peer.c as a value: what each event does to the four lists and the counters,
    and what holds after any sequence of events. */
module Downloads {
  import opened HashLists

  /** Download_conn; `finished` is history: the chunks finished since the last reset. */
  datatype Down = Down(need: seq<Item>, tosend: seq<Item>, sent: seq<Item>, downloading: seq<Item>,
                       concurr: int, max: int, found: int, howmany: int, finished: int)

  function Idle(max: nat): Down { Down([], [], [], [], 0, max, 0, 0, 0) }

  // ---- IHAVE ----

  function FillOne(d: Down, hash: Hash, from: Addr): Down {
    if HasHash(d.downloading, hash) || HasHash(d.sent, hash) || !HasHash(d.need, hash) then d
    else
      var item := Item(from, hash, d.need[HashIndex(d.need, hash, 0)].chunkid);
      var j := HashIndex(d.tosend, hash, 0);
      if j == |d.tosend| then d.(tosend := [item] + d.tosend, found := d.found + 1)
      else
        var stored := d.tosend[j].from;
        if from.port != stored.port && (HasAddr(d.downloading, stored) || HasAddr(d.sent, stored))
        then d.(tosend := [item] + Without(d.tosend, j))
        else d
  }

  /** fill_toget_list: the hashes of one IHAVE packet, in order */
  function Fill(d: Down, hashes: seq<Hash>, from: Addr): Down {
    if hashes == [] then d else FillOne(Fill(d, hashes[..|hashes| - 1], from), hashes[|hashes| - 1], from)
  }

  // ---- GET ----

  predicate Eligible(d: Down, i: nat)
    requires i < |d.tosend|
  {
    !HasAddr(d.sent, d.tosend[i].from) && !HasAddr(d.downloading, d.tosend[i].from)
  }

  /** The first position at or after i of a queued chunk whose peer has no transaction yet. */
  function FirstEligible(d: Down, i: nat): (k: nat)
    requires i <= |d.tosend|
    ensures i <= k <= |d.tosend|
    ensures k < |d.tosend| ==> Eligible(d, k)
    ensures forall j :: i <= j < k ==> !Eligible(d, j)
    decreases |d.tosend| - i
  {
    if i == |d.tosend| || Eligible(d, i) then i else FirstEligible(d, i + 1)
  }

  predicate CanPick(d: Down, limit: int) { limit >= 1 && FirstEligible(d, 0) < |d.tosend| }

  /** pick_tosend_GET moves one chunk, or none. */
  function Picked(d: Down, limit: int): Down {
    if !CanPick(d, limit) then d
    else
      var i := FirstEligible(d, 0);
      d.(tosend := Without(d.tosend, i), sent := [d.tosend[i]] + d.sent)
  }

  /** GET_sender */
  function Asked(d: Down): Down {
    var limit := d.max - d.concurr;
    Picked(d, limit).(concurr := d.concurr + if CanPick(d, limit) then 1 else 0)
  }

  // ---- the other events; an index says which node the event is about ----

  /** init_download, on the first DATA packet from a peer that was asked */
  function Begun(d: Down, i: nat): Down
    requires i < |d.sent|
  {
    d.(sent := Without(d.sent, i), downloading := [d.sent[i]] + d.downloading)
  }

  /** A DATA packet from addr: nothing changes unless it answers a GET. */
  function OnData(d: Down, addr: Addr): Down {
    if HasAddr(d.downloading, addr) || !HasAddr(d.sent, addr) then d else Begun(d, AddrIndex(d.sent, addr, 0))
  }

  /** The elements of s whose mask bit is set, in order. */
  function Kept<T>(s: seq<T>, mask: seq<bool>): (r: seq<T>)
    requires |s| == |mask|
    ensures |r| <= |s|
  {
    if s == [] then []
    else Kept(s[..|s| - 1], mask[..|s| - 1]) + if mask[|s| - 1] then [s[|s| - 1]] else []
  }

  /** check_timeout: requests whose mask bit is clear have expired */
  function GetsExpired(d: Down, alive: seq<bool>): Down
    requires |alive| == |d.sent|
  {
    var kept := Kept(d.sent, alive);
    var gone := |d.sent| - |kept|;
    d.(sent := kept, concurr := d.concurr - gone, found := d.found - gone)
  }

  /** check_recvdata_timeout fired for downloading node i */
  function DataExpired(d: Down, i: nat): Down
    requires i < |d.downloading|
  {
    d.(downloading := Without(d.downloading, i), found := d.found - 1, concurr := d.concurr - 1)
  }

  /** finish_one_download for downloading node i */
  function Finished(d: Down, i: nat): Down
    requires i < |d.downloading| && HasHash(d.need, d.downloading[i].hash)
  {
    d.(need := Without(d.need, HashIndex(d.need, d.downloading[i].hash, 0)),
       downloading := Without(d.downloading, i), concurr := d.concurr - 1, finished := d.finished + 1)
  }

  /** complete_mydownload */
  function Completed(d: Down): Down { d.(max := 0, tosend := [], sent := [], downloading := []) }

  /** reset_mydownload, on a user's GET command */
  function ResetTo(d: Down, need: seq<Item>, max: nat): Down { Down(need, [], [], [], 0, max, 0, |need|, 0) }

  datatype Event =
    | IHave(hashes: seq<Hash>, from: Addr)
    | Ask
    | Data(from: Addr)
    | ExpireGets(alive: seq<bool>)
    | ExpireData(i: nat)
    | Finish(i: nat)
    | Reset(need: seq<Item>, max: nat)

  /** One event; the finish of the last needed chunk also completes the download, as in peer_run. `fault`
      tells that the code would have followed a null pointer. */
  function Step(d: Down, e: Event): (r: (Down, bool)) {
    match e
    case IHave(hashes, from) => (Fill(d, hashes, from), false)
    case Ask => (Asked(d), false)
    case Data(from) => (OnData(d, from), false)
    case ExpireGets(alive) => (if |alive| == |d.sent| then GetsExpired(d, alive) else d, false)
    case ExpireData(i) => (if i < |d.downloading| then DataExpired(d, i) else d, false)
    case Finish(i) =>
      if i >= |d.downloading| then (d, false)
      else if !HasHash(d.need, d.downloading[i].hash) then (d, true)
      else
        var f := Finished(d, i);
        (if f.need == [] then Completed(f) else f, false)
    case Reset(need, max) => (ResetTo(d, need, max), false)
  }

  function Run(d: Down, es: seq<Event>): (Down, bool) {
    if es == [] then (d, false)
    else
      var (mid, fault) := Run(d, es[..|es| - 1]);
      if fault then (mid, true) else Step(mid, es[|es| - 1])
  }

  // ---- the invariant ----

  function Active(d: Down): seq<Item> { d.tosend + d.sent + d.downloading }

  predicate UniqueHashes(s: seq<Item>) { forall i, j :: 0 <= i < j < |s| ==> s[i].hash != s[j].hash }

  predicate UniqueAddrs(s: seq<Item>) { forall i, j :: 0 <= i < j < |s| ==> !SamePeer(s[i].from, s[j].from) }

  predicate AllNeeded(d: Down) { forall i :: 0 <= i < |Active(d)| ==> HasHash(d.need, Active(d)[i].hash) }

  predicate Counts(d: Down) {
    && d.concurr == |d.sent| + |d.downloading| <= d.max
    && d.found - |d.tosend| - |d.sent| - |d.downloading| == d.howmany - |d.need| == d.finished
    && d.finished >= 0
  }

  /** No hash is active twice, no peer has two transactions, every active hash is needed, and the hand-kept
      counters are the list lengths. */
  predicate Inv(d: Down) {
    UniqueHashes(Active(d)) && UniqueAddrs(d.sent + d.downloading) && AllNeeded(d) && Counts(d)
  }

  // ---- the same by counting occurrences, which is what the proofs use ----

  function HashCount(s: seq<Item>, h: Hash): nat {
    if s == [] then 0 else HashCount(s[..|s| - 1], h) + if s[|s| - 1].hash == h then 1 else 0
  }

  function AddrCount(s: seq<Item>, a: Addr): nat {
    if s == [] then 0 else AddrCount(s[..|s| - 1], a) + if SamePeer(s[|s| - 1].from, a) then 1 else 0
  }

  lemma {:induction false} CountConcat(s: seq<Item>, t: seq<Item>, h: Hash, a: Addr)
    ensures HashCount(s + t, h) == HashCount(s, h) + HashCount(t, h)
    ensures AddrCount(s + t, a) == AddrCount(s, a) + AddrCount(t, a)
    decreases |t|
  {
    if t == [] {
      assert s + t == s;
    } else {
      CountConcat(s, t[..|t| - 1], h, a);
      assert (s + t)[..|s + t| - 1] == s + t[..|t| - 1];
    }
  }

  lemma CountOne(x: Item, h: Hash, a: Addr)
    ensures HashCount([x], h) == (if x.hash == h then 1 else 0) && AddrCount([x], a) == if SamePeer(x.from, a) then 1 else 0
  {
    assert [x][..0] == [];
  }

  lemma CountPush(x: Item, s: seq<Item>, h: Hash, a: Addr)
    ensures HashCount([x] + s, h) == HashCount(s, h) + if x.hash == h then 1 else 0
    ensures AddrCount([x] + s, a) == AddrCount(s, a) + if SamePeer(x.from, a) then 1 else 0
  {
    CountOne(x, h, a);
    CountConcat([x], s, h, a);
  }

  lemma CountWithout(s: seq<Item>, i: nat, h: Hash, a: Addr)
    requires i < |s|
    ensures HashCount(Without(s, i), h) == HashCount(s, h) - if s[i].hash == h then 1 else 0
    ensures AddrCount(Without(s, i), a) == AddrCount(s, a) - if SamePeer(s[i].from, a) then 1 else 0
  {
    assert s == s[..i] + ([s[i]] + s[i + 1..]);
    CountConcat(s[..i], [s[i]] + s[i + 1..], h, a);
    CountPush(s[i], s[i + 1..], h, a);
    CountConcat(s[..i], s[i + 1..], h, a);
  }

  lemma {:induction false} CountKept(s: seq<Item>, mask: seq<bool>, h: Hash, a: Addr)
    requires |s| == |mask|
    ensures HashCount(Kept(s, mask), h) <= HashCount(s, h)
    ensures AddrCount(Kept(s, mask), a) <= AddrCount(s, a)
  {
    if s != [] {
      var n := |s| - 1;
      CountKept(s[..n], mask[..n], h, a);
      CountOne(s[n], h, a);
      CountConcat(Kept(s[..n], mask[..n]), if mask[n] then [s[n]] else [], h, a);
    }
  }

  /** Presence and uniqueness in terms of counts. */
  lemma {:induction false} CountPositive(s: seq<Item>, i: nat)
    requires i < |s|
    ensures HashCount(s, s[i].hash) >= 1 && AddrCount(s, s[i].from) >= 1
  {
    CountWithout(s, i, s[i].hash, s[i].from);
  }

  lemma {:induction false} CountWitness(s: seq<Item>, h: Hash) returns (i: nat)
    requires HashCount(s, h) >= 1
    ensures i < |s| && s[i].hash == h
  {
    if s[|s| - 1].hash == h { i := |s| - 1; } else { i := CountWitness(s[..|s| - 1], h); }
  }

  lemma {:induction false} AddrWitness(s: seq<Item>, a: Addr) returns (i: nat)
    requires AddrCount(s, a) >= 1
    ensures i < |s| && SamePeer(s[i].from, a)
  {
    if SamePeer(s[|s| - 1].from, a) { i := |s| - 1; } else { i := AddrWitness(s[..|s| - 1], a); }
  }

  lemma HasHashCount(s: seq<Item>, h: Hash)
    ensures HasHash(s, h) <==> HashCount(s, h) >= 1
  {
    if HasHash(s, h) { CountPositive(s, HashIndex(s, h, 0)); }
    if HashCount(s, h) >= 1 { var i := CountWitness(s, h); }
  }

  lemma HasAddrCount(s: seq<Item>, a: Addr)
    ensures HasAddr(s, a) <==> AddrCount(s, a) >= 1
  {
    if HasAddr(s, a) { CountPositive(s, AddrIndex(s, a, 0)); }
    if AddrCount(s, a) >= 1 { var i := AddrWitness(s, a); }
  }

  function ActiveCount(d: Down, h: Hash): nat {
    HashCount(d.tosend, h) + HashCount(d.sent, h) + HashCount(d.downloading, h)
  }

  predicate HashOk(d: Down, h: Hash) {
    ActiveCount(d, h) <= 1 && (ActiveCount(d, h) == 1 ==> HashCount(d.need, h) >= 1)
  }

  predicate AddrOk(d: Down, a: Addr) { AddrCount(d.sent, a) + AddrCount(d.downloading, a) <= 1 }

  ghost predicate Tallied(d: Down) {
    (forall h :: HashOk(d, h)) && (forall a :: AddrOk(d, a))
  }

  lemma TwiceCounted(s: seq<Item>, i: nat, j: nat)
    requires i < j < |s|
    ensures s[i].hash == s[j].hash ==> HashCount(s, s[i].hash) >= 2
    ensures SamePeer(s[i].from, s[j].from) ==> AddrCount(s, s[i].from) >= 2
  {
    CountWithout(s, j, s[i].hash, s[i].from);
    CountPositive(Without(s, j), i);
  }

  lemma HashPair(s: seq<Item>, h: Hash) returns (i: nat, j: nat)
    requires HashCount(s, h) >= 2
    ensures i < j < |s| && s[i].hash == h == s[j].hash
  {
    var k := CountWitness(s, h);
    CountWithout(s, k, h, s[k].from);
    var m := CountWitness(Without(s, k), h);
    i, j := if m < k then m else k, if m < k then k else m + 1;
  }

  lemma AddrPair(s: seq<Item>, a: Addr) returns (i: nat, j: nat)
    requires AddrCount(s, a) >= 2
    ensures i < j < |s| && SamePeer(s[i].from, a) && SamePeer(s[j].from, a)
  {
    var k := AddrWitness(s, a);
    CountWithout(s, k, s[k].hash, a);
    var m := AddrWitness(Without(s, k), a);
    i, j := if m < k then m else k, if m < k then k else m + 1;
  }

  lemma HashTwice(s: seq<Item>, h: Hash)
    requires UniqueHashes(s)
    ensures HashCount(s, h) <= 1
  {
    if HashCount(s, h) >= 2 { var i, j := HashPair(s, h); }
  }

  lemma AddrTwice(s: seq<Item>, a: Addr)
    requires UniqueAddrs(s)
    ensures AddrCount(s, a) <= 1
  {
    if AddrCount(s, a) >= 2 { var i, j := AddrPair(s, a); }
  }

  lemma ActiveTally(d: Down, h: Hash, a: Addr)
    ensures HashCount(Active(d), h) == ActiveCount(d, h)
    ensures AddrCount(d.sent + d.downloading, a) == AddrCount(d.sent, a) + AddrCount(d.downloading, a)
  {
    CountConcat(d.tosend + d.sent, d.downloading, h, a);
    CountConcat(d.tosend, d.sent, h, a);
    CountConcat(d.sent, d.downloading, h, a);
  }

  lemma InvTallied(d: Down)
    requires Inv(d)
    ensures Tallied(d)
  {
    forall h
      ensures HashOk(d, h)
    {
      ActiveTally(d, h, Addr(0, 0));
      HashTwice(Active(d), h);
      if ActiveCount(d, h) == 1 {
        var i := CountWitness(Active(d), h);
        HasHashCount(d.need, h);
      }
    }
    forall a
      ensures AddrOk(d, a)
    {
      ActiveTally(d, [], a);
      AddrTwice(d.sent + d.downloading, a);
    }
  }

  lemma TalliedInv(d: Down)
    requires Tallied(d) && Counts(d)
    ensures Inv(d)
  {
    var s := Active(d);
    forall i, j | 0 <= i < j < |s|
      ensures s[i].hash != s[j].hash
    {
      TwiceCounted(s, i, j);
      ActiveTally(d, s[i].hash, s[i].from);
      assert HashOk(d, s[i].hash);
    }
    var t := d.sent + d.downloading;
    forall i, j | 0 <= i < j < |t|
      ensures !SamePeer(t[i].from, t[j].from)
    {
      TwiceCounted(t, i, j);
      ActiveTally(d, t[i].hash, t[i].from);
      assert AddrOk(d, t[i].from);
    }
    forall i | 0 <= i < |s|
      ensures HasHash(d.need, s[i].hash)
    {
      CountPositive(s, i);
      ActiveTally(d, s[i].hash, s[i].from);
      assert HashOk(d, s[i].hash);
      HasHashCount(d.need, s[i].hash);
    }
  }

  // ---- every event keeps the invariant ----

  lemma FillOneKeeps(d: Down, hash: Hash, from: Addr)
    requires Tallied(d) && Counts(d)
    ensures Tallied(FillOne(d, hash, from)) && Counts(FillOne(d, hash, from))
  {
    var r := FillOne(d, hash, from);
    if r != d {
      var item := Item(from, hash, d.need[HashIndex(d.need, hash, 0)].chunkid);
      var j := HashIndex(d.tosend, hash, 0);
      var rest := if j == |d.tosend| then d.tosend else Without(d.tosend, j);
      assert r.tosend == [item] + rest;
      HasHashCount(d.need, hash);
      HasHashCount(d.downloading, hash);
      HasHashCount(d.sent, hash);
      HasHashCount(d.tosend, hash);
      forall h
        ensures HashOk(r, h)
      {
        assert HashOk(d, h);
        CountPush(item, rest, h, from);
        if j < |d.tosend| { CountWithout(d.tosend, j, h, from); }
      }
      assert forall a :: AddrOk(d, a) ==> AddrOk(r, a);
    }
  }

  lemma {:induction false} FillKeeps(d: Down, hashes: seq<Hash>, from: Addr)
    requires Tallied(d) && Counts(d)
    ensures Tallied(Fill(d, hashes, from)) && Counts(Fill(d, hashes, from))
  {
    hide Tallied, Counts, FillOne;
    if hashes != [] {
      FillKeeps(d, hashes[..|hashes| - 1], from);
      FillOneKeeps(Fill(d, hashes[..|hashes| - 1], from), hashes[|hashes| - 1], from);
    }
  }

  lemma NotBusy(d: Down, i: nat, a: Addr)
    requires i < |d.tosend| && Eligible(d, i) && SamePeer(d.tosend[i].from, a)
    ensures AddrCount(d.sent, a) == AddrCount(d.downloading, a) == 0
  {
    HasAddrCount(d.sent, d.tosend[i].from);
    HasAddrCount(d.downloading, d.tosend[i].from);
    SamePeerCount(d.sent, d.tosend[i].from, a);
    SamePeerCount(d.downloading, d.tosend[i].from, a);
  }

  lemma {:induction false} SamePeerCount(s: seq<Item>, a: Addr, b: Addr)
    requires SamePeer(a, b)
    ensures AddrCount(s, a) == AddrCount(s, b)
  {
    if s != [] {
      SamePeerCount(s[..|s| - 1], a, b);
    }
  }

  lemma AskedKeeps(d: Down)
    requires Tallied(d) && Counts(d)
    ensures Tallied(Asked(d)) && Counts(Asked(d))
  {
    if CanPick(d, d.max - d.concurr) {
      var r := Asked(d);
      var i := FirstEligible(d, 0);
      var x := d.tosend[i];
      forall h
        ensures HashOk(r, h)
      {
        assert HashOk(d, h);
        CountWithout(d.tosend, i, h, x.from);
        CountPush(x, d.sent, h, x.from);
      }
      forall a
        ensures AddrOk(r, a)
      {
        assert AddrOk(d, a);
        CountPush(x, d.sent, x.hash, a);
        if SamePeer(x.from, a) {
          NotBusy(d, i, a);
        }
      }
    }
  }

  lemma BegunKeeps(d: Down, i: nat)
    requires Tallied(d) && Counts(d) && i < |d.sent|
    ensures Tallied(Begun(d, i)) && Counts(Begun(d, i))
  {
    var r := Begun(d, i);
    forall h
      ensures HashOk(r, h)
    {
      assert HashOk(d, h);
      CountWithout(d.sent, i, h, d.sent[i].from);
      CountPush(d.sent[i], d.downloading, h, d.sent[i].from);
    }
    forall a
      ensures AddrOk(r, a)
    {
      assert AddrOk(d, a);
      CountWithout(d.sent, i, d.sent[i].hash, a);
      CountPush(d.sent[i], d.downloading, d.sent[i].hash, a);
    }
  }

  lemma GetsExpiredKeeps(d: Down, alive: seq<bool>)
    requires Tallied(d) && Counts(d) && |alive| == |d.sent|
    ensures Tallied(GetsExpired(d, alive)) && Counts(GetsExpired(d, alive))
  {
    var r := GetsExpired(d, alive);
    forall h
      ensures HashOk(r, h)
    {
      assert HashOk(d, h);
      CountKept(d.sent, alive, h, Addr(0, 0));
    }
    forall a
      ensures AddrOk(r, a)
    {
      assert AddrOk(d, a);
      CountKept(d.sent, alive, [], a);
    }
  }

  lemma DataExpiredKeeps(d: Down, i: nat)
    requires Tallied(d) && Counts(d) && i < |d.downloading|
    ensures Tallied(DataExpired(d, i)) && Counts(DataExpired(d, i))
  {
    var r := DataExpired(d, i);
    forall h
      ensures HashOk(r, h)
    {
      assert HashOk(d, h);
      CountWithout(d.downloading, i, h, d.downloading[i].from);
    }
    forall a
      ensures AddrOk(r, a)
    {
      assert AddrOk(d, a);
      CountWithout(d.downloading, i, d.downloading[i].hash, a);
    }
  }

  /** The finished chunk is needed, and taking one occurrence off both lists leaves every other chunk alone. */
  lemma FinishedKeeps(d: Down, i: nat)
    requires Tallied(d) && Counts(d) && i < |d.downloading|
    ensures HasHash(d.need, d.downloading[i].hash)
    ensures Tallied(Finished(d, i)) && Counts(Finished(d, i))
  {
    var x := d.downloading[i];
    CountPositive(d.downloading, i);
    assert HashOk(d, x.hash);
    HasHashCount(d.need, x.hash);
    var r := Finished(d, i);
    forall h
      ensures HashOk(r, h)
    {
      assert HashOk(d, h);
      CountWithout(d.downloading, i, h, x.from);
      CountWithout(d.need, HashIndex(d.need, x.hash, 0), h, x.from);
    }
    forall a
      ensures AddrOk(r, a)
    {
      assert AddrOk(d, a);
      CountWithout(d.downloading, i, x.hash, a);
    }
  }

  lemma ActiveIsNeeded(d: Down, i: nat)
    requires Inv(d) && i < |Active(d)|
    ensures d.need != [] && HasHash(d.need, Active(d)[i].hash)
  {
    assert HasHash(d.need, Active(d)[i].hash);
  }

  /** When nothing is needed any more nothing is active, so completing changes no list and keeps the counters. */
  lemma CompletedKeeps(d: Down)
    requires Inv(d) && d.need == []
    ensures Active(d) == [] && Completed(d) == d.(max := 0) && Inv(Completed(d))
  {
    if Active(d) != [] { ActiveIsNeeded(d, 0); }
    assert d.tosend == [] && d.sent == [] && d.downloading == [];
  }

  lemma StepInv(d: Down, e: Event)
    requires Inv(d)
    ensures Inv(Step(d, e).0) && !Step(d, e).1
  {
    InvTallied(d);
    hide Tallied, Inv, Counts, Fill, Asked, Begun, GetsExpired, DataExpired, Finished, Completed;
    InvCounts(d);
    match e
    case IHave(hashes, from) => FillKeeps(d, hashes, from); TalliedInv(Fill(d, hashes, from));
    case Ask => AskedKeeps(d); TalliedInv(Asked(d));
    case Data(from) =>
      if !HasAddr(d.downloading, from) && HasAddr(d.sent, from) {
        BegunKeeps(d, AddrIndex(d.sent, from, 0));
        TalliedInv(Begun(d, AddrIndex(d.sent, from, 0)));
      }
    case ExpireGets(alive) =>
      if |alive| == |d.sent| {
        GetsExpiredKeeps(d, alive);
        TalliedInv(GetsExpired(d, alive));
      }
    case ExpireData(i) => if i < |d.downloading| { DataExpiredKeeps(d, i); TalliedInv(DataExpired(d, i)); }
    case Finish(i) =>
      if i < |d.downloading| {
        FinishedKeeps(d, i);
        TalliedInv(Finished(d, i));
        if Finished(d, i).need == [] { CompletedKeeps(Finished(d, i)); }
      }
    case Reset(need, max) => ResetInv(d, need, max);
  }

  lemma InvCounts(d: Down)
    requires Inv(d)
    ensures Counts(d)
  {
  }

  lemma ResetInv(d: Down, need: seq<Item>, max: nat)
    ensures Inv(ResetTo(d, need, max))
  {
  }

  lemma {:induction false} RunInv(d: Down, es: seq<Event>)
    requires Inv(d)
    ensures Inv(Run(d, es).0) && !Run(d, es).1
  {
    hide Inv, Step;
    if es != [] {
      RunInv(d, es[..|es| - 1]);
      StepInv(Run(d, es[..|es| - 1]).0, es[|es| - 1]);
    }
  }

  /** A list without repeated hashes, all of which occur in another list, is no longer than that list. */
  lemma {:induction false} Pigeonhole(a: seq<Item>, b: seq<Item>)
    requires forall h :: HashCount(a, h) <= HashCount(b, h)
    ensures |a| <= |b|
    decreases |a|
  {
    if a != [] {
      var x := a[|a| - 1];
      assert HashCount(a, x.hash) >= 1;
      var k := CountWitness(b, x.hash);
      forall h
        ensures HashCount(a[..|a| - 1], h) <= HashCount(Without(b, k), h)
      {
        CountWithout(b, k, h, x.from);
        assert HashCount(a, h) <= HashCount(b, h);
      }
      Pigeonhole(a[..|a| - 1], Without(b, k));
    }
  }

  lemma FoundAtMostNeeded(d: Down)
    requires Inv(d)
    ensures |Active(d)| <= |d.need| && d.found <= d.howmany
  {
    InvTallied(d);
    forall h
      ensures HashCount(Active(d), h) <= HashCount(d.need, h)
    {
      ActiveTally(d, h, Addr(0, 0));
      assert HashOk(d, h);
    }
    Pigeonhole(Active(d), d.need);
  }

  /** Every run of the peer's download side, from any connection limit: no null pointer is followed; no hash
      is active twice and every active hash is needed; no peer has two transactions; the transaction counter
      is exact and within the limit; and the found counter accounts for every chunk, finished or active. */
  lemma DownloadsAreConserved(max: nat, es: seq<Event>)
    ensures var (d, fault) := Run(Idle(max), es);
            && !fault
            && UniqueHashes(d.tosend + d.sent + d.downloading)
            && UniqueAddrs(d.sent + d.downloading)
            && (forall i :: 0 <= i < |Active(d)| ==> HasHash(d.need, Active(d)[i].hash))
            && d.concurr == |d.sent| + |d.downloading| <= d.max
            && d.found - |Active(d)| == d.howmany - |d.need| == d.finished
            && d.found <= d.howmany
  {
    hide Run, Step;
    RunInv(Idle(max), es);
    FoundAtMostNeeded(Run(Idle(max), es).0);
  }
}
