/** The upload bookkeeping of peer.c: slots, the two upload lists, and what becomes of them over any run. */
module Uploads {
  import opened HashLists
  import Downloads

  /** Upload_conn; `leaked` is history: accepted GETs that named a chunk this peer does not hold. */
  datatype Up = Up(uploading: seq<Item>, uploaded: seq<Item>, concurr: int, max: int, leaked: int)

  function Idle(max: nat): Up { Up([], [], 0, max, 0) }

  /** A GET is accepted when a slot is free, nothing is being sent to the peer, and the chunk is not the last
      one that was sent to it. */
  predicate Accepts(u: Up, addr: Addr, hash: Hash) {
    && u.concurr < u.max && !HasAddr(u.uploading, addr)
    && (HasAddr(u.uploaded, addr) ==> u.uploaded[AddrIndex(u.uploaded, addr, 0)].hash != hash)
  }

  /** init_upload takes a slot first and only then looks whether the chunk is held. */
  function Admitted(u: Up, has: seq<Item>, addr: Addr, hash: Hash): Up {
    if HasHash(has, hash) then
      u.(concurr := u.concurr + 1,
         uploading := [Item(addr, hash, has[HashIndex(has, hash, 0)].chunkid)] + u.uploading)
    else u.(concurr := u.concurr + 1, leaked := u.leaked + 1)
  }

  function OnGet(u: Up, has: seq<Item>, addr: Addr, hash: Hash): Up {
    if Accepts(u, addr, hash) then Admitted(u, has, addr, hash) else u
  }

  /** The sender saw every acknowledgement. */
  function Sent(u: Up, i: nat): Up
    requires i < |u.uploading|
  {
    u.(uploading := Without(u.uploading, i), uploaded := [u.uploading[i]] + u.uploaded, concurr := u.concurr - 1)
  }

  /** abort_upload after no acknowledgement came for long */
  function Aborted(u: Up, i: nat): Up
    requires i < |u.uploading|
  {
    u.(uploading := Without(u.uploading, i), concurr := u.concurr - 1)
  }

  datatype Event = Get(addr: Addr, hash: Hash) | Done(i: nat) | Abort(i: nat)

  function Step(u: Up, has: seq<Item>, e: Event): Up {
    match e
    case Get(addr, hash) => OnGet(u, has, addr, hash)
    case Done(i) => if i < |u.uploading| then Sent(u, i) else u
    case Abort(i) => if i < |u.uploading| then Aborted(u, i) else u
  }

  function Run(u: Up, has: seq<Item>, es: seq<Event>): Up {
    if es == [] then u else Step(Run(u, has, es[..|es| - 1]), has, es[|es| - 1])
  }

  /** Some event of the run was an accepted GET for a chunk that is not held. */
  predicate NamedUnheld(u: Up, has: seq<Item>, es: seq<Event>) {
    es != [] &&
    (NamedUnheld(u, has, es[..|es| - 1])
     || (var e := es[|es| - 1];
         e.Get? && Accepts(Run(u, has, es[..|es| - 1]), e.addr, e.hash) && !HasHash(has, e.hash)))
  }

  predicate Inv(u: Up) {
    && Downloads.UniqueAddrs(u.uploading)
    && u.concurr == |u.uploading| + u.leaked <= u.max
    && u.leaked >= 0
  }

  lemma StepInv(u: Up, has: seq<Item>, e: Event)
    requires Inv(u)
    ensures Inv(Step(u, has, e)) && Step(u, has, e).leaked >= u.leaked && Step(u, has, e).max == u.max
  {
    match e
    case Get(addr, hash) =>
      if Accepts(u, addr, hash) {
        forall j | 0 <= j < |u.uploading|
          ensures !SamePeer(u.uploading[j].from, addr)
        {
        }
      }
    case _ =>
  }

  /** Every run: at most one upload per peer; the slot counter never exceeds the limit and never undercounts;
      and it equals the number of uploads exactly as long as every accepted GET named a held chunk. */
  lemma {:induction false} UploadSlots(max: nat, has: seq<Item>, es: seq<Event>)
    ensures var u := Run(Idle(max), has, es);
            && Inv(u) && u.max == max
            && |u.uploading| <= u.concurr <= max
            && (u.concurr == |u.uploading| <==> !NamedUnheld(Idle(max), has, es))
  {
    if es != [] {
      UploadSlots(max, has, es[..|es| - 1]);
      var u := Run(Idle(max), has, es[..|es| - 1]);
      StepInv(u, has, es[|es| - 1]);
    }
  }

  /** As many GETs for a chunk that is not held as there are slots lose all slots. */
  lemma {:induction false} SlotsLeak(max: nat, has: seq<Item>, addr: Addr, hash: Hash, n: nat)
    requires !HasHash(has, hash) && n <= max
    ensures Run(Idle(max), has, seq(n, i => Get(addr, hash))) == Up([], [], n, max, n)
  {
    var es := seq(n, i => Get(addr, hash));
    if n > 0 {
      SlotsLeak(max, has, addr, hash, n - 1);
      assert es[..n - 1] == seq(n - 1, i => Get(addr, hash));
    }
  }

  /** Such a run ends all uploading: nothing is being sent, and whatever happens next no GET is accepted. */
  lemma AllSlotsLost(max: nat, has: seq<Item>, addr: Addr, hash: Hash, more: seq<Event>, from: Addr, wanted: Hash)
    requires !HasHash(has, hash)
    ensures var u := Run(Idle(max), has, seq(max, i => Get(addr, hash)));
            var t := Run(u, has, more);
            t.uploading == [] && t.concurr == max && !Accepts(t, from, wanted)
  {
    hide Run, Accepts;
    SlotsLeak(max, has, addr, hash, max);
    var u := Up([], [], max, max, max);
    LeakedOut(u, has, more, from, wanted);
    var t := LeakedRun(u, has, more);
  }

  /** When the leaked slots reach the limit no GET is ever accepted again. */
  lemma {:induction false} LeakedOut(u: Up, has: seq<Item>, es: seq<Event>, addr: Addr, hash: Hash)
    requires Inv(u) && u.leaked == u.max
    ensures var t := Run(u, has, es); t.uploading == [] && !Accepts(t, addr, hash)
  {
    var t := LeakedRun(u, has, es);
  }

  lemma {:induction false} LeakedRun(u: Up, has: seq<Item>, es: seq<Event>) returns (t: Up)
    requires Inv(u) && u.leaked == u.max
    ensures t == Run(u, has, es) && Inv(t) && t.leaked == t.max == u.max
  {
    if es == [] {
      t := u;
    } else {
      var s := LeakedRun(u, has, es[..|es| - 1]);
      StepInv(s, has, es[|es| - 1]);
      t := Step(s, has, es[|es| - 1]);
    }
  }

  // ---- what was sent to whom over a run ----

  /** The hashes of the uploads to addr that were completed on the run, in order of completion. */
  function CompletedTo(max: nat, has: seq<Item>, es: seq<Event>, addr: Addr): seq<Hash> {
    if es == [] then []
    else
      var u := Run(Idle(max), has, es[..|es| - 1]);
      CompletedTo(max, has, es[..|es| - 1], addr) + CompletedBy(u, es[|es| - 1], addr)
  }

  function CompletedBy(u: Up, e: Event, addr: Addr): seq<Hash> {
    if e.Done? && e.i < |u.uploading| && SamePeer(u.uploading[e.i].from, addr) then [u.uploading[e.i].hash] else []
  }

  lemma IndexAfterPush(x: Item, s: seq<Item>, addr: Addr)
    ensures AddrIndex([x] + s, addr, 0) == if SamePeer(x.from, addr) then 0 else AddrIndex(s, addr, 0) + 1
  {
    var t := [x] + s;
    var i, k := AddrIndex(t, addr, 0), AddrIndex(s, addr, 0);
    assert k < |s| ==> t[k + 1] == s[k];
    assert i < |t| && i > 0 ==> s[i - 1] == t[i];
    assert forall j :: 0 <= j < k ==> t[j + 1] == s[j];
  }

  /** The first entry for a peer in the list of sent chunks is the upload to it that was completed last. */
  lemma {:induction false} NewestEntry(max: nat, has: seq<Item>, es: seq<Event>, addr: Addr)
    ensures var u, done := Run(Idle(max), has, es), CompletedTo(max, has, es, addr);
            && (HasAddr(u.uploaded, addr) <==> done != [])
            && (done != [] ==> u.uploaded[AddrIndex(u.uploaded, addr, 0)].hash == done[|done| - 1])
  {
    hide AddrIndex, SamePeer, Accepts, Admitted;
    if es != [] {
      var e := es[|es| - 1];
      NewestEntry(max, has, es[..|es| - 1], addr);
      var u := Run(Idle(max), has, es[..|es| - 1]);
      hide Run, CompletedTo;
      if e.Done? && e.i < |u.uploading| {
        IndexAfterPush(u.uploading[e.i], u.uploaded, addr);
      }
      UploadedAfter(u, has, e);
      RunLast(max, has, es);
      CompletedLast(max, has, es, addr);
    }
  }

  lemma UploadedAfter(u: Up, has: seq<Item>, e: Event)
    ensures Step(u, has, e).uploaded == if e.Done? && e.i < |u.uploading| then [u.uploading[e.i]] + u.uploaded else u.uploaded
  {
  }

  lemma RunLast(max: nat, has: seq<Item>, es: seq<Event>)
    requires es != []
    ensures Run(Idle(max), has, es) == Step(Run(Idle(max), has, es[..|es| - 1]), has, es[|es| - 1])
  {
    hide Step;
  }

  lemma CompletedLast(max: nat, has: seq<Item>, es: seq<Event>, addr: Addr)
    requires es != []
    ensures CompletedTo(max, has, es, addr)
         == CompletedTo(max, has, es[..|es| - 1], addr)
            + CompletedBy(Run(Idle(max), has, es[..|es| - 1]), es[|es| - 1], addr)
  {
    hide CompletedBy, Run;
  }

  /** The list of sent chunks is meant to keep a chunk from being sent to the same peer twice. On every run, with a
      free slot and no upload to the peer in progress, a GET is refused exactly when it names the chunk whose
      upload to that peer was completed last. */
  lemma RefusedIffLastSent(max: nat, has: seq<Item>, es: seq<Event>, addr: Addr, hash: Hash)
    ensures var u, done := Run(Idle(max), has, es), CompletedTo(max, has, es, addr);
            u.concurr < u.max && !HasAddr(u.uploading, addr) ==>
              (!Accepts(u, addr, hash) <==> done != [] && done[|done| - 1] == hash)
  {
    NewestEntry(max, has, es, addr);
  }

  predicate AllHeld(s: seq<Item>, has: seq<Item>) { forall i :: 0 <= i < |s| ==> HasHash(has, s[i].hash) }

  lemma {:induction false} UploadsAreHeld(max: nat, has: seq<Item>, es: seq<Event>)
    ensures AllHeld(Run(Idle(max), has, es).uploading, has)
  {
    if es != [] {
      UploadsAreHeld(max, has, es[..|es| - 1]);
    }
  }

  lemma {:induction false} CompletedAreHeld(max: nat, has: seq<Item>, es: seq<Event>, addr: Addr, hash: Hash)
    requires hash in CompletedTo(max, has, es, addr)
    ensures HasHash(has, hash)
  {
    if es != [] {
      UploadsAreHeld(max, has, es[..|es| - 1]);
      if hash in CompletedTo(max, has, es[..|es| - 1], addr) {
        CompletedAreHeld(max, has, es[..|es| - 1], addr, hash);
      }
    }
  }

  /** Event k is a GET for a chunk that the peer already received completely, and it starts an upload. */
  predicate SendsAgain(max: nat, has: seq<Item>, es: seq<Event>, k: nat)
    requires k < |es|
  {
    && es[k].Get? && es[k].hash in CompletedTo(max, has, es[..k], es[k].addr)
    && |Run(Idle(max), has, es[..k + 1]).uploading| > |Run(Idle(max), has, es[..k]).uploading|
  }

  /** Event k is a GET for a chunk that the peer already received completely, but not last, while a slot is free and
      nothing is being sent to the peer. */
  predicate AsksForEarlier(max: nat, has: seq<Item>, es: seq<Event>, k: nat)
    requires k < |es|
  {
    es[k].Get? &&
    var u, done := Run(Idle(max), has, es[..k]), CompletedTo(max, has, es[..k], es[k].addr);
    && u.concurr < u.max && !HasAddr(u.uploading, es[k].addr)
    && es[k].hash in done && done[|done| - 1] != es[k].hash
  }

  lemma SendsAgainStep(max: nat, has: seq<Item>, es: seq<Event>, k: nat)
    requires k < |es|
    ensures SendsAgain(max, has, es, k) <==> AsksForEarlier(max, has, es, k)
  {
    assert es[..k + 1][..k] == es[..k];
    if es[k].Get? && es[k].hash in CompletedTo(max, has, es[..k], es[k].addr) {
      CompletedAreHeld(max, has, es[..k], es[k].addr, es[k].hash);
      RefusedIffLastSent(max, has, es[..k], es[k].addr, es[k].hash);
    }
  }

  /** On a run some chunk is sent again to a peer that already has it exactly when some GET asks, with a slot free
      and nothing being sent to the peer, for a chunk the peer received before the last one. */
  lemma SentAgainIff(max: nat, has: seq<Item>, es: seq<Event>)
    ensures (exists k :: 0 <= k < |es| && SendsAgain(max, has, es, k))
            <==> (exists k :: 0 <= k < |es| && AsksForEarlier(max, has, es, k))
  {
    hide SendsAgain, AsksForEarlier;
    forall k | 0 <= k < |es|
      ensures SendsAgain(max, has, es, k) <==> AsksForEarlier(max, has, es, k)
    {
      SendsAgainStep(max, has, es, k);
    }
  }

  /** A peer that gets chunk a, then chunk b, is sent chunk a a second time. */
  lemma SameChunkTwice(addr: Addr, a: Hash, b: Hash, has: seq<Item>)
    requires a != b && HasHash(has, a) && HasHash(has, b)
    ensures var u := Run(Idle(1), has, [Get(addr, a), Done(0), Get(addr, b), Done(0)]);
            && |u.uploaded| == 2 && u.uploaded[1].hash == a && u.uploaded[1].from == addr
            && Accepts(u, addr, a)
  {
    var es := [Get(addr, a), Done(0), Get(addr, b), Done(0)];
    assert es[..3] == [Get(addr, a), Done(0), Get(addr, b)];
    assert es[..3][..2] == [Get(addr, a), Done(0)];
    assert es[..3][..2][..1] == [Get(addr, a)];
    assert [Get(addr, a)][..0] == [];
    assert Run(Idle(1), has, []) == Idle(1);
    var u1 := Run(Idle(1), has, [Get(addr, a)]);
    assert u1 == Admitted(Idle(1), has, addr, a);
    var u2 := Run(Idle(1), has, [Get(addr, a), Done(0)]);
    assert u2 == Sent(u1, 0);
    assert u2.uploading == [] && u2.concurr == 0;
    var u3 := Run(Idle(1), has, es[..3]);
    assert u3 == Admitted(u2, has, addr, b);
    assert Run(Idle(1), has, es) == Sent(u3, 0);
  }
}
