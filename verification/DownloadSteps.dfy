/** What each event does to the four download lists, told by their items, and where the items of a run come from. */
module DownloadSteps {
  import opened Basics
  import opened HashLists
  import opened Downloads

  /** The list without its item i. */
  predicate Removed(before: seq<Item>, after: seq<Item>, i: nat) {
    && i < |before| == |after| + 1
    && forall j :: 0 <= j < |after| ==> after[j] == before[if j < i then j else j + 1]
  }

  lemma WithoutRemoves(s: seq<Item>, i: nat)
    requires i < |s|
    ensures Removed(s, Without(s, i), i)
  {
  }

  /** i is the first position of an item with that hash, or the length when there is none. */
  predicate FirstHash(s: seq<Item>, hash: Hash, i: nat) {
    i <= |s| && (i < |s| ==> s[i].hash == hash) && forall j :: 0 <= j < i ==> s[j].hash != hash
  }

  /** No item is from a peer with that port. */
  predicate NoneAt(s: seq<Item>, port: int) { forall j :: 0 <= j < |s| ==> s[j].from.port != port }

  /** No transaction with that port is under way. */
  predicate Free(d: Down, port: int) { NoneAt(d.sent, port) && NoneAt(d.downloading, port) }

  predicate NoHash(s: seq<Item>, hash: Hash) { forall j :: 0 <= j < |s| ==> s[j].hash != hash }

  lemma HasHashIff(s: seq<Item>, hash: Hash)
    ensures FirstHash(s, hash, HashIndex(s, hash, 0))
    ensures HasHash(s, hash) <==> !NoHash(s, hash)
  {
  }

  lemma HasAddrIff(s: seq<Item>, addr: Addr)
    ensures HasAddr(s, addr) <==> !NoneAt(s, addr.port)
  {
  }

  // ---- IHAVE ----

  /** One offered hash: nothing if the chunk is under way already or not needed; otherwise a new chunk is queued for the
      offering peer under the number it has among the needs, and a queued one is re-queued for that peer if its own
      peer is another one and busy. */
  lemma OfferQueues(d: Down, hash: Hash, from: Addr) returns (k: nat, j: nat)
    ensures FirstHash(d.need, hash, k) && FirstHash(d.tosend, hash, j)
    ensures var t := Step(d, IHave([hash], from)).0;
            if k == |d.need| || !NoHash(d.sent, hash) || !NoHash(d.downloading, hash) then t == d
            else
              var item := Item(from, hash, d.need[k].chunkid);
              if j == |d.tosend| then t == d.(tosend := [item] + d.tosend, found := d.found + 1)
              else if from.port != d.tosend[j].from.port && !Free(d, d.tosend[j].from.port) then
                && t == d.(tosend := t.tosend) && t.tosend != [] && t.tosend[0] == item
                && Removed(d.tosend, t.tosend[1..], j)
              else t == d
  {
    k, j := HashIndex(d.need, hash, 0), HashIndex(d.tosend, hash, 0);
    HasHashIff(d.need, hash);
    HasHashIff(d.tosend, hash);
    HasHashIff(d.sent, hash);
    HasHashIff(d.downloading, hash);
    OneOffer(d, hash, from);
    hide Fill, HashIndex, AddrIndex;
    if j < |d.tosend| {
      HasAddrIff(d.sent, d.tosend[j].from);
      HasAddrIff(d.downloading, d.tosend[j].from);
      WithoutRemoves(d.tosend, j);
      hide Removed, Without, HasAddr, HasHash, NoneAt, NoHash;
      assert ([Item(from, hash, 0)] + Without(d.tosend, j))[1..] == Without(d.tosend, j);
    }
  }

  lemma OneOffer(d: Down, hash: Hash, from: Addr)
    ensures Step(d, IHave([hash], from)).0 == FillOne(d, hash, from)
  {
    assert [hash][..0] == [];
    assert Fill(d, [], from) == d;
  }

  /** Several hashes in one packet are offers one after another. */
  lemma {:induction false} OffersInTurn(d: Down, a: seq<Hash>, b: seq<Hash>, from: Addr)
    ensures Step(d, IHave(a + b, from)).0 == Step(Step(d, IHave(a, from)).0, IHave(b, from)).0
    decreases |b|
  {
    hide FillOne;
    if b == [] {
      assert a + b == a;
    } else {
      var n := |b| - 1;
      OffersInTurn(d, a, b[..n], from);
      assert (a + b)[..|a + b| - 1] == a + b[..n];
    }
  }

  // ---- the other events ----

  /** GET goes to the first queued chunk whose peer is free, if a transaction more is allowed. */
  lemma AskSends(d: Down) returns (i: nat)
    ensures i <= |d.tosend| && (i < |d.tosend| ==> Free(d, d.tosend[i].from.port))
    ensures forall j :: 0 <= j < i ==> !Free(d, d.tosend[j].from.port)
    ensures var t := Step(d, Ask).0;
            if i < |d.tosend| && d.concurr < d.max then
              && Removed(d.tosend, t.tosend, i)
              && t == d.(tosend := t.tosend, sent := [d.tosend[i]] + d.sent, concurr := d.concurr + 1)
            else t == d
  {
    i := FirstEligible(d, 0);
    forall j | 0 <= j < |d.tosend|
      ensures Eligible(d, j) <==> Free(d, d.tosend[j].from.port)
    {
      HasAddrIff(d.sent, d.tosend[j].from);
      HasAddrIff(d.downloading, d.tosend[j].from);
    }
    hide Eligible, Free, Removed, Without;
    if i < |d.tosend| { WithoutRemoves(d.tosend, i); }
  }

  /** Data from a peer starts the chunk it was asked for, unless something is being downloaded from it. */
  lemma DataStarts(d: Down, from: Addr) returns (i: nat)
    ensures i <= |d.sent| && (i < |d.sent| ==> d.sent[i].from.port == from.port)
    ensures forall j :: 0 <= j < i ==> d.sent[j].from.port != from.port
    ensures var t := Step(d, Data(from)).0;
            if i < |d.sent| && NoneAt(d.downloading, from.port) then
              && Removed(d.sent, t.sent, i)
              && t == d.(sent := t.sent, downloading := [d.sent[i]] + d.downloading)
            else t == d
  {
    i := AddrIndex(d.sent, from, 0);
    HasAddrIff(d.downloading, from);
    HasAddrIff(d.sent, from);
    if i < |d.sent| { WithoutRemoves(d.sent, i); }
    hide Without, Removed;
  }

  lemma {:induction false} KeptSieves(s: seq<Item>, mask: seq<bool>) returns (pos: seq<nat>)
    requires |s| == |mask|
    ensures Sieved(s, mask, Kept(s, mask), pos)
  {
    if s == [] {
      pos := [];
    } else {
      var n := |s| - 1;
      var before := KeptSieves(s[..n], mask[..n]);
      pos := before + if mask[n] then [n] else [];
      SieveNext(s, mask, Kept(s[..n], mask[..n]), before);
    }
  }

  /** Requests that expired are dropped, the others stay in order, and each dropped one frees its place. */
  lemma GetsExpire(d: Down, alive: seq<bool>) returns (pos: seq<nat>)
    requires |alive| == |d.sent|
    ensures var t := Step(d, ExpireGets(alive)).0;
            var gone := |d.sent| - |t.sent|;
            && Sieved(d.sent, alive, t.sent, pos)
            && t == d.(sent := t.sent, concurr := d.concurr - gone, found := d.found - gone)
  {
    pos := KeptSieves(d.sent, alive);
  }

  /** A silent download is dropped; its chunk can be found and asked for again. */
  lemma DataExpires(d: Down, i: nat)
    requires i < |d.downloading|
    ensures var t := Step(d, ExpireData(i)).0;
            && Removed(d.downloading, t.downloading, i)
            && t == d.(downloading := t.downloading, concurr := d.concurr - 1, found := d.found - 1)
  {
    WithoutRemoves(d.downloading, i);
  }

  /** A finished chunk leaves the downloads, and the needs lose the first entry with its hash; with the last one the
      download is complete and asks for nothing more. */
  lemma ChunkFinishes(d: Down, i: nat) returns (k: nat)
    requires Inv(d) && i < |d.downloading|
    ensures k < |d.need| && FirstHash(d.need, d.downloading[i].hash, k)
    ensures var t := Step(d, Finish(i)).0;
            && Removed(d.need, t.need, k) && Removed(d.downloading, t.downloading, i)
            && t == d.(need := t.need, downloading := t.downloading, concurr := d.concurr - 1,
                       finished := d.finished + 1, max := if |d.need| == 1 then 0 else d.max)
  {
    var hash := d.downloading[i].hash;
    k := HashIndex(d.need, hash, 0);
    HasHashIff(d.need, hash);
    InvTallied(d);
    FinishedKeeps(d, i);
    TalliedInv(Finished(d, i));
    hide Inv, Tallied;
    WithoutRemoves(d.need, k);
    WithoutRemoves(d.downloading, i);
    if Finished(d, i).need == [] { CompletedKeeps(Finished(d, i)); }
  }

  // ---- where the items come from ----

  /** The item carries the number of the first needed entry with its hash. */
  ghost predicate NeededAs(need: seq<Item>, x: Item) {
    exists k: nat :: k < |need| && FirstHash(need, x.hash, k) && need[k].chunkid == x.chunkid
  }

  predicate Offers(e: Event, x: Item) { e.IHave? && e.from == x.from && x.hash in e.hashes }

  /** Since the last reset of the run, x's peer offered x's hash. */
  predicate OfferedIn(es: seq<Event>, x: Item) {
    exists j :: 0 <= j < |es| && Offers(es[j], x) && forall i :: j < i < |es| ==> !es[i].Reset?
  }

  ghost predicate AllTraced(d: Down) { forall x :: x in Active(d) ==> NeededAs(d.need, x) }

  lemma OfferTraced(d: Down, hash: Hash, from: Addr)
    ensures var t := FillOne(d, hash, from);
            && t.need == d.need
            && forall x :: x in Active(t) ==> x in Active(d) || (x.from == from && x.hash == hash && NeededAs(d.need, x))
  {
    var k, j := OfferQueues(d, hash, from);
    OneOffer(d, hash, from);
    hide FillOne, Step, NoHash, Free;
    var t := FillOne(d, hash, from);
    if t != d {
      assert t.sent == d.sent && t.downloading == d.downloading;
      Pushed(d.tosend, t.tosend, j);
      assert FirstHash(d.need, hash, k);
    }
  }

  lemma Pushed(before: seq<Item>, after: seq<Item>, j: nat)
    requires after != [] && (after[1..] == before || Removed(before, after[1..], j))
    ensures forall x :: x in after ==> x == after[0] || x in before
  {
    forall x | x in after
      ensures x == after[0] || x in before
    {
      var i :| 0 <= i < |after| && after[i] == x;
      if i > 0 { assert after[1..][i - 1] == x; }
    }
  }

  lemma {:induction false} OffersTraced(d: Down, hashes: seq<Hash>, from: Addr)
    ensures var t := Fill(d, hashes, from);
            && t.need == d.need
            && forall x :: x in Active(t) ==> x in Active(d) || (x.from == from && x.hash in hashes && NeededAs(d.need, x))
  {
    hide FillOne, Active, NeededAs;
    if hashes != [] {
      var n := |hashes| - 1;
      OffersTraced(d, hashes[..n], from);
      OfferTraced(Fill(d, hashes[..n], from), hashes[n], from);
      assert forall h :: h in hashes[..n] ==> h in hashes;
    }
  }

  lemma Fewer(before: seq<Item>, after: seq<Item>, i: nat)
    requires Removed(before, after, i)
    ensures before[i] in before && forall x :: x in after ==> x in before
  {
  }

  lemma ActiveIs(d: Down)
    ensures forall x :: x in Active(d) <==> x in d.tosend || x in d.sent || x in d.downloading
  {
  }

  /** Every event but a reset leaves only chunks that were active before or that it offers. */
  lemma ActiveSources(d: Down, e: Event)
    requires Inv(d) && !e.IHave? && !e.Reset?
    ensures forall x :: x in Active(Step(d, e).0) ==> x in Active(d)
  {
    ActiveIs(d);
    ActiveIs(Step(d, e).0);
    hide Active, Inv, Free, NoneAt, Removed, Step;
    match e
    case Ask => AskFewer(d);
    case Data(from) => DataFewer(d, from);
    case ExpireGets(alive) => ExpireFewer(d, alive);
    case ExpireData(i) => DataExpireFewer(d, i);
    case Finish(i) => FinishFewer(d, i);
  }

  lemma AskFewer(d: Down)
    ensures var t := Step(d, Ask).0;
            t.downloading == d.downloading && (forall x :: x in t.tosend ==> x in d.tosend)
            && forall x :: x in t.sent ==> x in d.sent || x in d.tosend
  {
    hide Step, Free;
    var i := AskSends(d);
    if i < |d.tosend| && d.concurr < d.max { Fewer(d.tosend, Step(d, Ask).0.tosend, i); }
  }

  lemma DataFewer(d: Down, from: Addr)
    ensures var t := Step(d, Data(from)).0;
            t.tosend == d.tosend && (forall x :: x in t.sent ==> x in d.sent)
            && forall x :: x in t.downloading ==> x in d.sent || x in d.downloading
  {
    hide Step;
    var i := DataStarts(d, from);
    if i < |d.sent| && NoneAt(d.downloading, from.port) { Fewer(d.sent, Step(d, Data(from)).0.sent, i); }
  }

  lemma ExpireFewer(d: Down, alive: seq<bool>)
    ensures var t := Step(d, ExpireGets(alive)).0;
            t.tosend == d.tosend && t.downloading == d.downloading && forall x :: x in t.sent ==> x in d.sent
  {
    if |alive| == |d.sent| {
      var pos := GetsExpire(d, alive);
    }
  }

  lemma DataExpireFewer(d: Down, i: nat)
    ensures var t := Step(d, ExpireData(i)).0;
            t.tosend == d.tosend && t.sent == d.sent && forall x :: x in t.downloading ==> x in d.downloading
  {
    if i < |d.downloading| {
      DataExpires(d, i);
      hide Step;
      Fewer(d.downloading, Step(d, ExpireData(i)).0.downloading, i);
    }
  }

  lemma FinishFewer(d: Down, i: nat)
    requires Inv(d)
    ensures var t := Step(d, Finish(i)).0;
            t.tosend == d.tosend && t.sent == d.sent && forall x :: x in t.downloading ==> x in d.downloading
  {
    if i < |d.downloading| {
      var k := ChunkFinishes(d, i);
      hide Step, Inv;
      Fewer(d.downloading, Step(d, Finish(i)).0.downloading, i);
    }
  }

  /** Taking another hash's first entry off the needs leaves a chunk's number alone. */
  lemma StillNeeded(before: seq<Item>, after: seq<Item>, i: nat, x: Item)
    requires Removed(before, after, i) && NeededAs(before, x) && before[i].hash != x.hash
    ensures NeededAs(after, x)
  {
    var k: nat :| k < |before| && FirstHash(before, x.hash, k) && before[k].chunkid == x.chunkid;
    var n: nat := if k < i then k else k - 1;
    assert after[n] == before[k];
    assert FirstHash(after, x.hash, n);
  }

  /** No other active chunk has the hash of the one that finishes. */
  lemma OthersDiffer(d: Down, i: nat, x: Item)
    requires Inv(d) && i < |d.downloading|
    requires x in d.tosend || x in d.sent || x in Step(d, Finish(i)).0.downloading
    ensures x.hash != d.downloading[i].hash
  {
    var s, m := Active(d), |d.tosend| + |d.sent|;
    var k := ChunkFinishes(d, i);
    var after := Step(d, Finish(i)).0.downloading;
    hide Step, Counts, AllNeeded, UniqueAddrs;
    assert s[m + i] == d.downloading[i];
    if x in d.tosend {
      var j :| 0 <= j < |d.tosend| && d.tosend[j] == x;
      assert s[j] == x;
    } else if x in d.sent {
      var j :| 0 <= j < |d.sent| && d.sent[j] == x;
      assert s[|d.tosend| + j] == x;
    } else {
      var j :| 0 <= j < |after| && after[j] == x;
      assert s[m + if j < i then j else j + 1] == x;
    }
  }

  lemma FinishTraced(d: Down, i: nat)
    requires Inv(d) && AllTraced(d) && i < |d.downloading|
    ensures AllTraced(Step(d, Finish(i)).0)
  {
    var t := Step(d, Finish(i)).0;
    var k := ChunkFinishes(d, i);
    FinishFewer(d, i);
    hide Step, Inv, NeededAs;
    forall x | x in Active(t)
      ensures NeededAs(t.need, x)
    {
      OthersDiffer(d, i, x);
      assert x in Active(d);
      StillNeeded(d.need, t.need, k, x);
    }
  }

  lemma NeedsStay(d: Down, e: Event)
    requires !e.Finish? && !e.Reset?
    ensures Step(d, e).0.need == d.need
  {
    match e
    case IHave(hashes, from) => OffersTraced(d, hashes, from);
    case _ =>
  }

  lemma StepTraced(d: Down, e: Event)
    requires Inv(d) && AllTraced(d)
    ensures AllTraced(Step(d, e).0)
    ensures forall x :: x in Active(Step(d, e).0) ==> (x in Active(d) && !e.Reset?) || Offers(e, x)
  {
    hide Inv, NeededAs, Active, Step;
    match e
    case IHave(hashes, from) =>
      OffersTraced(d, hashes, from);
      assert Step(d, e).0 == Fill(d, hashes, from) by { OffersAre(d, hashes, from); }
    case Reset(need, max) => NothingActive(d, need, max);
    case Finish(i) =>
      ActiveSources(d, e);
      if i < |d.downloading| { FinishTraced(d, i); } else { NoFinish(d, i); }
    case _ =>
      ActiveSources(d, e);
      NeedsStay(d, e);
  }

  lemma OffersAre(d: Down, hashes: seq<Hash>, from: Addr)
    ensures Step(d, IHave(hashes, from)).0 == Fill(d, hashes, from)
  {
  }

  lemma NoFinish(d: Down, i: nat)
    requires i >= |d.downloading|
    ensures Step(d, Finish(i)).0 == d
  {
  }

  lemma NothingActive(d: Down, need: seq<Item>, max: nat)
    ensures Active(Step(d, Reset(need, max)).0) == []
  {
  }

  /** Every run of the download side: each chunk that is queued, requested or downloading carries the number under which
      its hash stands among the needs, and since the last reset its peer offered it. */
  lemma {:induction false} ItemsAreTraced(max: nat, es: seq<Event>)
    ensures var d := Run(Idle(max), es).0;
            forall x :: x in Active(d) ==> NeededAs(d.need, x) && OfferedIn(es, x)
  {
    hide Inv, NeededAs, Active, Step, OfferedIn;
    if es == [] {
      IdleActive(max);
    } else {
      var n := |es| - 1;
      var mid := Run(Idle(max), es[..n]);
      IdleInv(max);
      RunInv(Idle(max), es[..n]);
      ItemsAreTraced(max, es[..n]);
      StepTraced(mid.0, es[n]);
      var d := Run(Idle(max), es).0;
      forall x | x in Active(d)
        ensures OfferedIn(es, x)
      {
        OfferedOn(es, x);
      }
    }
  }

  lemma OfferedOn(es: seq<Event>, x: Item)
    requires es != []
    requires Offers(es[|es| - 1], x) || (OfferedIn(es[..|es| - 1], x) && !es[|es| - 1].Reset?)
    ensures OfferedIn(es, x)
  {
    if !Offers(es[|es| - 1], x) {
      var before := es[..|es| - 1];
      var j :| 0 <= j < |before| && Offers(before[j], x) && forall i :: j < i < |before| ==> !before[i].Reset?;
      assert Offers(es[j], x);
      forall i | j < i < |es|
        ensures !es[i].Reset?
      {
        if i < |before| { assert es[i] == before[i]; }
      }
    }
  }

  lemma IdleInv(max: nat)
    ensures Inv(Idle(max))
  {
  }

  lemma IdleActive(max: nat)
    ensures Active(Idle(max)) == []
  {
  }
}
