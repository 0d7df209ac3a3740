/** The WHOHAS / IHAVE exchange (form_WhoHas, form_IHav of hashlist.c; WhoHas_sender, fill_toget_list of peer.c). */
module Discovery {
  import opened Basics
  import opened Packets
  import opened HashLists
  import opened Downloads
  import opened DownloadLists
  import S = DownloadSteps

  const BATCH := MAX_HASHNUM_PER_PACK

  // ---- hashes in a payload ----

  function Pack(hashes: seq<Hash>): seq<byte> {
    if hashes == [] then [] else Pack(hashes[..|hashes| - 1]) + hashes[|hashes| - 1]
  }

  predicate Whole(hashes: seq<Hash>) { forall i :: 0 <= i < |hashes| ==> |hashes[i]| == HASH_SIZE }

  /** Hash number k of a payload. */
  function HashAt(payload: seq<byte>, k: nat): Hash
    requires (k + 1) * HASH_SIZE <= |payload|
  {
    payload[k * HASH_SIZE .. (k + 1) * HASH_SIZE]
  }

  lemma {:induction false} PackedHash(hashes: seq<Hash>, k: nat)
    requires Whole(hashes) && k < |hashes|
    ensures |Pack(hashes)| == |hashes| * HASH_SIZE
    ensures HashAt(Pack(hashes), k) == hashes[k]
    decreases |hashes|
  {
    var n := |hashes| - 1;
    if n == 0 {
      assert Pack(hashes[..0]) == [];
    } else {
      PackedHash(hashes[..n], if k < n then k else 0);
    }
    if k < n {
      assert HashAt(Pack(hashes), k) == HashAt(Pack(hashes[..n]), k);
    }
  }

  /** A WHOHAS (type 0) or IHAVE (type 1) packet carrying the given hashes. */
  function FormHashes(ptype: int, hashes: seq<Hash>): Packet {
    Packet(MAGIC, 1, ptype, HEADER_LEN, HEADER_LEN + |hashes| * HASH_SIZE + 4, 0, 0, |hashes|, Pack(hashes))
  }

  /** The hashes of a packet, as fill_toget_list and form_IHav read them. */
  function HashesOf(p: Packet): (r: seq<Hash>)
    requires 0 <= p.hashNum && p.hashNum * HASH_SIZE <= |p.payload|
    ensures |r| == p.hashNum
  {
    seq(p.hashNum, k requires 0 <= k < p.hashNum => HashAt(p.payload, k))
  }

  lemma HashesOfFormed(ptype: int, hashes: seq<Hash>)
    requires Whole(hashes)
    ensures |hashes| * HASH_SIZE <= |FormHashes(ptype, hashes).payload|
    ensures HashesOf(FormHashes(ptype, hashes)) == hashes
  {
    if hashes != [] {
      PackedHash(hashes, 0);
      forall k | 0 <= k < |hashes|
        ensures HashAt(Pack(hashes), k) == hashes[k]
      {
        PackedHash(hashes, k);
      }
    }
  }

  // ---- WHOHAS ----

  predicate Sought(d: Down, hash: Hash) {
    !HasHash(d.tosend, hash) && !HasHash(d.sent, hash) && !HasHash(d.downloading, hash)
  }

  /** The needed hashes from position i on that are in none of the three lists, in order. */
  function Unfound(d: Down, i: nat): seq<Hash>
    requires i <= |d.need|
    decreases |d.need| - i
  {
    if i == |d.need| then []
    else (if Sought(d, d.need[i].hash) then [d.need[i].hash] else []) + Unfound(d, i + 1)
  }

  /** A hash that is queued, requested or downloading nowhere. */
  predicate Untracked(d: Down, hash: Hash) {
    S.NoHash(d.tosend, hash) && S.NoHash(d.sent, hash) && S.NoHash(d.downloading, hash)
  }

  lemma SoughtIff(d: Down, hash: Hash)
    ensures Sought(d, hash) <==> Untracked(d, hash)
  {
    S.HasHashIff(d.tosend, hash);
    S.HasHashIff(d.sent, hash);
    S.HasHashIff(d.downloading, hash);
  }

  /** They are the hashes at certain positions of the needs, in order: those of the untracked ones, all of them. */
  lemma {:induction false} UnfoundAre(d: Down, i: nat) returns (pos: seq<nat>)
    requires i <= |d.need|
    ensures |pos| == |Unfound(d, i)|
    ensures forall k :: 0 <= k < |pos| ==>
              i <= pos[k] < |d.need| && Untracked(d, d.need[pos[k]].hash) && Unfound(d, i)[k] == d.need[pos[k]].hash
    ensures forall k, l :: 0 <= k < l < |pos| ==> pos[k] < pos[l]
    ensures forall j :: i <= j < |d.need| && Untracked(d, d.need[j].hash) ==> j in pos
    decreases |d.need| - i
  {
    hide Sought, Untracked;
    if i == |d.need| {
      pos := [];
    } else {
      SoughtIff(d, d.need[i].hash);
      var rest := UnfoundAre(d, i + 1);
      pos := (if Sought(d, d.need[i].hash) then [i] else []) + rest;
      forall j | i <= j < |d.need| && Untracked(d, d.need[j].hash)
        ensures j in pos
      {
        if j == i { assert pos[0] == i; }
      }
    }
  }

  /** Where form_WhoHas stops that starts at i with `count` hashes already in the packet. */
  function BatchEnd(d: Down, i: nat, count: nat): (j: nat)
    requires i <= |d.need| && count <= BATCH
    ensures i <= j <= |d.need|
    ensures count < BATCH && i < |d.need| ==> i < j
    decreases |d.need| - i
  {
    if i == |d.need| || count == BATCH then i
    else BatchEnd(d, i + 1, if Sought(d, d.need[i].hash) then count + 1 else count)
  }

  function Batch(d: Down, i: nat, count: nat): (r: seq<Hash>)
    requires i <= |d.need| && count <= BATCH
    ensures |r| <= BATCH - count
    decreases |d.need| - i
  {
    if i == |d.need| || count == BATCH then []
    else if Sought(d, d.need[i].hash) then [d.need[i].hash] + Batch(d, i + 1, count + 1)
    else Batch(d, i + 1, count)
  }

  /** A batch and what follows it make up all unfound hashes; a batch that is not full exhausts the list. */
  lemma {:induction false} BatchSplits(d: Down, i: nat, count: nat)
    requires i <= |d.need| && count <= BATCH
    ensures Unfound(d, i) == Batch(d, i, count) + Unfound(d, BatchEnd(d, i, count))
    ensures count + |Batch(d, i, count)| < BATCH ==> BatchEnd(d, i, count) == |d.need|
    decreases |d.need| - i
  {
    if i < |d.need| && count < BATCH {
      hide Sought, Batch, BatchEnd;
      BatchStep(d, i, count);
      BatchSplits(d, i + 1, if Sought(d, d.need[i].hash) then count + 1 else count);
    } else {
      BatchStop(d, i, count);
    }
  }

  function Flatten(batches: seq<seq<Hash>>): seq<Hash> {
    if batches == [] then [] else Flatten(batches[..|batches| - 1]) + batches[|batches| - 1]
  }

  /** The batches WhoHas_sender broadcasts: no empty one, none but the last short. */
  predicate WellBatched(batches: seq<seq<Hash>>) {
    && (forall i :: 0 <= i < |batches| ==> 0 < |batches[i]| <= 50)
    && (forall i :: 0 <= i < |batches| - 1 ==> |batches[i]| == 50)
  }

  lemma BatchStep(d: Down, i: nat, count: nat)
    requires i < |d.need| && count < BATCH
    ensures var n := if Sought(d, d.need[i].hash) then count + 1 else count;
            && Batch(d, i, count) == (if Sought(d, d.need[i].hash) then [d.need[i].hash] else []) + Batch(d, i + 1, n)
            && BatchEnd(d, i, count) == BatchEnd(d, i + 1, n)
  {
  }

  lemma BatchStop(d: Down, i: nat, count: nat)
    requires i <= |d.need| && count <= BATCH && (i == |d.need| || count == BATCH)
    ensures Batch(d, i, count) == [] && BatchEnd(d, i, count) == i
  {
  }

  /** The three searches of form_WhoHas. */
  method IsSought(down: DownloadConn, hash: Hash) returns (sought: bool)
    requires down.Valid()
    ensures down.Valid() && sought == Sought(down.View(), hash)
  {
    var a := FindNode(down.tosend.head, hash, down.tosend.nodes);
    var b := FindNode(down.sent.head, hash, down.sent.nodes);
    var c := FindNode(down.downloading.head, hash, down.downloading.nodes);
    sought := a == null && b == null && c == null;
  }

  lemma NeedChain(down: DownloadConn, i: nat)
    requires down.Valid()
    ensures Chain(down.need.head, down.need.nodes) && |down.View().need| == |down.need.nodes|
    ensures down.need.head == At(down.need.nodes, 0)
    ensures i < |down.need.nodes| ==>
              down.need.nodes[i].next == At(down.need.nodes, i + 1) && down.View().need[i] == down.need.nodes[i].item
  {
  }

  /** What form_WhoHas has collected when it stands at needed node j. */
  predicate Collecting(d: Down, i: nat, hs: seq<Hash>, j: nat, count: int) {
    && i <= j <= |d.need| && 0 <= count == |hs| <= BATCH
    && Batch(d, i, 0) == hs + Batch(d, j, count)
    && BatchEnd(d, i, 0) == BatchEnd(d, j, count)
  }

  lemma CollectMore(d: Down, i: nat, hs: seq<Hash>, j: nat, count: int)
    requires Collecting(d, i, hs, j, count) && j < |d.need| && count < BATCH
    ensures var h := d.need[j].hash;
            if Sought(d, h) then Collecting(d, i, hs + [h], j + 1, count + 1) else Collecting(d, i, hs, j + 1, count)
  {
    hide Batch, BatchEnd, Sought;
    BatchStep(d, j, count);
  }

  lemma CollectEnd(d: Down, i: nat, hs: seq<Hash>, j: nat, count: int)
    requires Collecting(d, i, hs, j, count) && (j == |d.need| || count == BATCH)
    ensures i <= |d.need| && hs == Batch(d, i, 0) && j == BatchEnd(d, i, 0)
  {
    hide Batch, BatchEnd;
    BatchStop(d, j, count);
  }

  /** form_WhoHas, from any node of the needlist: the packet and the node to go on from */
  method FormWhoHas(curr: Node?, ghost i: nat, down: DownloadConn) returns (pack: Packet, rest: Node?, hashes: seq<Hash>)
    requires down.Valid() && i <= |down.View().need| && curr == At(down.need.nodes, i)
    ensures hashes == Batch(down.View(), i, 0) && pack == FormHashes(0, hashes)
    ensures rest == At(down.need.nodes, BatchEnd(down.View(), i, 0))
  {
    ghost var d, need := down.View(), down.need.nodes;
    NeedChain(down, i);
    hide *;
    var hs: seq<Hash> := [];
    var node, count := curr, 0;
    ghost var j := i;
    CollectStart(d, i);
    while node != null && count < BATCH
      invariant down.Valid() && down.View() == d && down.need.nodes == need
      invariant Collecting(d, i, hs, j, count) && j <= |need| == |d.need| && node == At(need, j)
      decreases |need| - j
    {
      AtNode(need, j);
      NeedChain(down, j);
      CollectMore(d, i, hs, j, count);
      var sought := IsSought(down, node.item.hash);
      if sought {
        hs := hs + [node.item.hash];
        count := count + 1;
      }
      node := node.next;
      j := j + 1;
    }
    AtEnd(need, j);
    CollectRange(d, i, hs, j, count);
    CollectEnd(d, i, hs, j, count);
    rest, hashes := node, hs;
    pack := FormHashes(0, hashes);
  }

  lemma CollectStart(d: Down, i: nat)
    requires i <= |d.need|
    ensures Collecting(d, i, [], i, 0)
  {
  }

  lemma CollectRange(d: Down, i: nat, hs: seq<Hash>, j: nat, count: int)
    requires Collecting(d, i, hs, j, count)
    ensures count <= BATCH
  {
  }

  lemma AtNode(s: seq<Node>, j: nat)
    requires At(s, j) != null
    ensures j < |s| && At(s, j) == s[j]
  {
  }

  lemma AtEnd(s: seq<Node>, j: nat)
    requires j <= |s|
    ensures At(s, j) == null ==> j == |s|
  {
  }

  predicate Carry(packs: seq<Packet>, batches: seq<seq<Hash>>) {
    |packs| == |batches| && forall k :: 0 <= k < |packs| ==> packs[k] == FormHashes(0, batches[k])
  }

  /** What WhoHas_sender has done when it stands at needed node i. */
  predicate Asking(d: Down, i: nat, packs: seq<Packet>, batches: seq<seq<Hash>>) {
    && i <= |d.need|
    && Flatten(batches) + Unfound(d, i) == Unfound(d, 0)
    && WellBatched(batches) && (batches != [] && |batches[|batches| - 1]| < BATCH ==> i == |d.need|)
    && Carry(packs, batches)
  }

  lemma AskingMore(d: Down, i: nat, packs: seq<Packet>, batches: seq<seq<Hash>>, hashes: seq<Hash>, j: nat)
    requires Asking(d, i, packs, batches) && i < |d.need| && j <= |d.need|
    requires Unfound(d, i) == hashes + Unfound(d, j) && (|hashes| < BATCH ==> j == |d.need|) && 0 < |hashes| <= BATCH
    ensures Asking(d, j, packs + [FormHashes(0, hashes)], batches + [hashes])
  {
    hide Unfound, FormHashes;
    assert (batches + [hashes])[..|batches|] == batches;
  }

  lemma AskingNext(d: Down, i: nat, packs: seq<Packet>, batches: seq<seq<Hash>>)
    requires Asking(d, i, packs, batches) && i < |d.need|
    ensures var hashes := Batch(d, i, 0);
            Asking(d, BatchEnd(d, i, 0), if hashes == [] then packs else packs + [FormHashes(0, hashes)],
                   if hashes == [] then batches else batches + [hashes])
    ensures BatchEnd(d, i, 0) > i
  {
    hide Unfound, Flatten, WellBatched, Carry, FormHashes;
    BatchSplits(d, i, 0);
    var hashes := Batch(d, i, 0);
    if hashes != [] { AskingMore(d, i, packs, batches, hashes, BatchEnd(d, i, 0)); }
  }

  lemma AskingStarts(d: Down)
    ensures Asking(d, 0, [], [])
  {
  }

  lemma AskingEnds(d: Down, i: nat, packs: seq<Packet>, batches: seq<seq<Hash>>)
    requires Asking(d, i, packs, batches) && i >= |d.need|
    ensures Flatten(batches) == Unfound(d, 0) && WellBatched(batches) && Carry(packs, batches)
  {
    assert Unfound(d, |d.need|) == [];
  }

  /** WhoHas_sender; the broadcast packets are returned, with the hashes they carry */
  method WhoHasSender(down: DownloadConn) returns (packs: seq<Packet>, batches: seq<seq<Hash>>)
    requires down.Valid()
    ensures Flatten(batches) == Unfound(down.View(), 0)
    ensures WellBatched(batches)
    ensures Carry(packs, batches)
  {
    hide *;
    ghost var d := down.View();
    packs, batches := [], [];
    var curr := down.need.head;
    ghost var i: nat := 0;
    NeedChain(down, 0);
    AskingStarts(d);
    while curr != null
      invariant down.Valid() && down.View() == d
      invariant curr == At(down.need.nodes, i) && Asking(d, i, packs, batches)
      decreases |d.need| - i
    {
      NeedPosition(down, curr, i);
      AskingNext(d, i, packs, batches);
      var pack, rest, hashes := FormWhoHas(curr, i, down);
      i := BatchEnd(d, i, 0);
      curr := rest;
      if pack.hashNum != 0 {
        packs := packs + [pack];
        batches := batches + [hashes];
      }
    }
    NoPosition(down, i);
    AskingEnds(d, i, packs, batches);
  }

  lemma NeedPosition(down: DownloadConn, curr: Node, i: nat)
    requires down.Valid() && curr == At(down.need.nodes, i)
    ensures i < |down.View().need|
    ensures forall hashes :: FormHashes(0, hashes).hashNum == |hashes|
  {
  }

  lemma NoPosition(down: DownloadConn, i: nat)
    requires At(down.need.nodes, i) == null
    ensures i >= |down.View().need|
  {
  }

  // ---- IHAVE ----

  /** The asked hashes that the list holds, in order. */
  function Held(asked: seq<Hash>, has: seq<Item>): (r: seq<Hash>) {
    if asked == [] then []
    else Held(asked[..|asked| - 1], has)
         + if HasHash(has, asked[|asked| - 1]) then [asked[|asked| - 1]] else []
  }

  /** One bit per asked hash: whether the list has an item with it. */
  function HeldMask(asked: seq<Hash>, has: seq<Item>): seq<bool> {
    seq(|asked|, i requires 0 <= i < |asked| => !S.NoHash(has, asked[i]))
  }

  lemma {:induction false} HeldAre(asked: seq<Hash>, has: seq<Item>) returns (pos: seq<nat>)
    ensures Sieved(asked, HeldMask(asked, has), Held(asked, has), pos)
  {
    if asked == [] {
      pos := [];
    } else {
      var n := |asked| - 1;
      var before := HeldAre(asked[..n], has);
      S.HasHashIff(has, asked[n]);
      assert HeldMask(asked, has)[..n] == HeldMask(asked[..n], has);
      hide Sieved, S.NoHash, HasHash;
      SieveNext(asked, HeldMask(asked, has), Held(asked[..n], has), before);
      pos := before + if HeldMask(asked, has)[n] then [n] else [];
    }
  }

  lemma HeldNone(asked: seq<Hash>, has: seq<Item>)
    ensures Held(asked[..0], has) == []
  {
  }

  lemma HeldNext(asked: seq<Hash>, has: seq<Item>, k: nat)
    requires k < |asked|
    ensures Held(asked[..k + 1], has) == Held(asked[..k], has) + if HasHash(has, asked[k]) then [asked[k]] else []
  {
    hide HasHash;
    assert asked[..k + 1][..k] == asked[..k];
  }

  /** form_IHav */
  method FormIHav(whohas: Packet, haslist: HashList) returns (pack: Packet)
    requires haslist.Valid() && 0 <= whohas.hashNum && whohas.hashNum * HASH_SIZE <= |whohas.payload|
    requires |Held(HashesOf(whohas), haslist.Contents())| <= MAX_HASHNUM_PER_PACK
    ensures pack == FormHashes(1, Held(HashesOf(whohas), haslist.Contents()))
  {
    hide Held, HashAt, FormHashes;
    ghost var asked, has := HashesOf(whohas), haslist.Contents();
    var found: seq<Hash> := [];
    var count := 0;
    HeldNone(asked, has);
    while count < whohas.hashNum
      invariant 0 <= count <= whohas.hashNum
      invariant found == Held(asked[..count], has)
    {
      var hash := HashAt(whohas.payload, count);
      HeldNext(asked, has, count);
      var node := FindNode(haslist.head, hash, haslist.nodes);
      if node != null { found := found + [hash]; }
      count := count + 1;
    }
    assert asked[..count] == asked;
    pack := FormHashes(1, found);
  }

  lemma {:induction false} HeldMember(asked: seq<Hash>, has: seq<Item>, h: Hash)
    ensures h in Held(asked, has) <==> h in asked && HasHash(has, h)
  {
    if asked != [] {
      var n := |asked| - 1;
      HeldMember(asked[..n], has, h);
      assert asked == asked[..n] + [asked[n]];
    }
  }

  // ---- the whole exchange with one peer ----

  /** The peer answers every batch with an IHAVE and all answers are processed. */
  function Replies(d: Down, batches: seq<seq<Hash>>, has: seq<Item>, from: Addr): Down {
    if batches == [] then d
    else Fill(Replies(d, batches[..|batches| - 1], has, from), Held(batches[|batches| - 1], has), from)
  }

  /** A chunk is queued, requested or downloading. */
  predicate Tracked(d: Down, g: Hash) { HasHash(d.tosend, g) || HasHash(d.sent, g) || HasHash(d.downloading, g) }

  lemma TrackedCount(d: Down, g: Hash)
    ensures Tracked(d, g) <==> ActiveCount(d, g) >= 1
  {
    HasHashCount(d.tosend, g);
    HasHashCount(d.sent, g);
    HasHashCount(d.downloading, g);
  }

  lemma FillOneTracks(d: Down, hash: Hash, from: Addr, g: Hash)
    ensures FillOne(d, hash, from).need == d.need
    ensures Tracked(FillOne(d, hash, from), g) <==> Tracked(d, g) || (g == hash && HasHash(d.need, g))
  {
    var r := FillOne(d, hash, from);
    TrackedCount(d, g);
    TrackedCount(r, g);
    if r != d {
      var item := Item(from, hash, d.need[HashIndex(d.need, hash, 0)].chunkid);
      var j := HashIndex(d.tosend, hash, 0);
      var rest := if j == |d.tosend| then d.tosend else Without(d.tosend, j);
      assert r.tosend == [item] + rest;
      CountPush(item, rest, g, from);
      if j < |d.tosend| { CountWithout(d.tosend, j, g, from); }
    }
  }

  lemma {:induction false} FillTracks(d: Down, hashes: seq<Hash>, from: Addr, g: Hash)
    ensures Fill(d, hashes, from).need == d.need
    ensures Tracked(Fill(d, hashes, from), g) <==> Tracked(d, g) || (g in hashes && HasHash(d.need, g))
  {
    hide FillOne, Tracked;
    if hashes != [] {
      var n := |hashes| - 1;
      FillTracks(d, hashes[..n], from, g);
      FillOneTracks(Fill(d, hashes[..n], from), hashes[n], from, g);
      assert hashes == hashes[..n] + [hashes[n]];
    }
  }

  lemma {:induction false} RepliesTrack(d: Down, batches: seq<seq<Hash>>, has: seq<Item>, from: Addr, g: Hash)
    ensures Replies(d, batches, has, from).need == d.need
    ensures Tracked(Replies(d, batches, has, from), g)
            <==> Tracked(d, g) || (g in Flatten(batches) && HasHash(has, g) && HasHash(d.need, g))
  {
    hide Fill, Tracked;
    if batches != [] {
      var n := |batches| - 1;
      RepliesTrack(d, batches[..n], has, from, g);
      FillTracks(Replies(d, batches[..n], has, from), Held(batches[n], has), from, g);
      HeldMember(batches[n], has, g);
    }
  }

  lemma {:induction false} UnfoundMember(d: Down, i: nat, g: Hash)
    requires i <= |d.need|
    ensures g in Unfound(d, i) <==> Sought(d, g) && exists k :: i <= k < |d.need| && d.need[k].hash == g
    decreases |d.need| - i
  {
    hide Sought;
    if i < |d.need| { UnfoundMember(d, i + 1, g); }
  }

  lemma NeedMember(d: Down, g: Hash)
    ensures HasHash(d.need, g) <==> exists k :: 0 <= k < |d.need| && d.need[k].hash == g
  {
  }

  /** After a peer answered every batch of a WHOHAS round, exactly these chunks are queued, requested or
      downloading: the ones that were, and every needed chunk the peer holds. */
  lemma DiscoveryIsExact(d: Down, batches: seq<seq<Hash>>, has: seq<Item>, from: Addr, g: Hash)
    requires Flatten(batches) == Unfound(d, 0)
    ensures Tracked(Replies(d, batches, has, from), g)
            <==> Tracked(d, g) || (HasHash(d.need, g) && HasHash(has, g))
  {
    RepliesTrack(d, batches, has, from, g);
    UnfoundMember(d, 0, g);
    NeedMember(d, g);
    hide Replies, Unfound, HasHash, Flatten;
  }
}
