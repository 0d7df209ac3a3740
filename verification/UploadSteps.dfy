/** What each event does to the two upload lists, told by their items, and where the items of a run come from. */
module UploadSteps {
  import opened HashLists
  import opened Uploads
  import S = DownloadSteps

  /** i is the first position of an item from a peer with that port, or the length when there is none. */
  predicate FirstPort(s: seq<Item>, port: int, i: nat) {
    i <= |s| && (i < |s| ==> s[i].from.port == port) && forall j :: 0 <= j < i ==> s[j].from.port != port
  }

  /** A GET is ignored when all slots are taken, something is being sent to the peer, or the newest chunk sent to it is the
      one it wants. Otherwise it takes a slot, and if the chunk is held its upload starts under the number it has
      among the held chunks. */
  lemma GetStarts(u: Up, has: seq<Item>, addr: Addr, hash: Hash) returns (k: nat, m: nat)
    ensures S.FirstHash(has, hash, k) && FirstPort(u.uploaded, addr.port, m)
    ensures var t := Step(u, has, Get(addr, hash));
            if u.concurr >= u.max || !S.NoneAt(u.uploading, addr.port) || (m < |u.uploaded| && u.uploaded[m].hash == hash)
            then t == u
            else if k < |has|
            then t == u.(uploading := [Item(addr, hash, has[k].chunkid)] + u.uploading, concurr := u.concurr + 1)
            else t == u.(concurr := u.concurr + 1, leaked := u.leaked + 1)
  {
    k, m := HashIndex(has, hash, 0), AddrIndex(u.uploaded, addr, 0);
    S.HasHashIff(has, hash);
    S.HasAddrIff(u.uploading, addr);
  }

  /** A finished upload becomes the newest entry of the chunks sent and frees its slot. */
  lemma DoneMoves(u: Up, has: seq<Item>, i: nat)
    requires i < |u.uploading|
    ensures var t := Step(u, has, Done(i));
            && S.Removed(u.uploading, t.uploading, i)
            && t == u.(uploading := t.uploading, uploaded := [u.uploading[i]] + u.uploaded, concurr := u.concurr - 1)
  {
    S.WithoutRemoves(u.uploading, i);
  }

  /** An aborted one only frees its slot. */
  lemma AbortDrops(u: Up, has: seq<Item>, i: nat)
    requires i < |u.uploading|
    ensures var t := Step(u, has, Abort(i));
            S.Removed(u.uploading, t.uploading, i) && t == u.(uploading := t.uploading, concurr := u.concurr - 1)
  {
    S.WithoutRemoves(u.uploading, i);
  }

  predicate Listed(u: Up, x: Item) { x in u.uploading || x in u.uploaded }

  lemma StepSources(u: Up, has: seq<Item>, e: Event, x: Item)
    requires Listed(Step(u, has, e), x)
    ensures Listed(u, x) || (e == Get(x.from, x.hash) && S.NeededAs(has, x))
  {
    match e
    case Get(addr, hash) =>
      var k, m := GetStarts(u, has, addr, hash);
      hide Step;
      if k < |has| { assert S.FirstHash(has, hash, k) && Item(addr, hash, has[k].chunkid).hash == hash; }
    case Done(i) =>
      if i < |u.uploading| {
        DoneMoves(u, has, i);
        S.Fewer(u.uploading, Step(u, has, e).uploading, i);
      }
    case Abort(i) =>
      if i < |u.uploading| {
        AbortDrops(u, has, i);
        S.Fewer(u.uploading, Step(u, has, e).uploading, i);
      }
  }

  /** Every run of the upload side: each chunk that is being sent or was sent carries the number it has among the held
      chunks, and its peer asked for it. */
  lemma {:induction false} UploadsAreTraced(max: nat, has: seq<Item>, es: seq<Event>, x: Item)
    requires Listed(Run(Idle(max), has, es), x)
    ensures S.NeededAs(has, x) && Get(x.from, x.hash) in es
  {
    hide Step, S.NeededAs;
    if es != [] {
      var n := |es| - 1;
      var u := Run(Idle(max), has, es[..n]);
      StepSources(u, has, es[n], x);
      if Listed(u, x) { UploadsAreTraced(max, has, es[..n], x); }
    }
  }
}
