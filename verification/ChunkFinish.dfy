/** What peer_run does with a download whose bytes are all there: reap and finish_one_download, as one step on the
    receiver and the download lists. */
module ChunkFinish {
  import opened Basics
  import opened HashLists
  import opened Receiver
  import opened Reaping
  import opened DownloadLists
  import D = Downloads
  import S = DownloadSteps
  import T = Transfer
  import P = TransferProgress
  import Sha1Spec

  /** The loop body for downloading node i with receiver r: reap's result is not looked at. */
  function FinishStep(d: D.Down, i: nat, r: Recv): (D.Down, ReapResult)
    requires i < |d.downloading| && HasHash(d.need, d.downloading[i].hash) && Reapable(r)
  {
    if r.bytes != CHUNK_SIZE then (d, Incomplete)
    else
      var f := D.Finished(d, i);
      (if f.need == [] then D.Completed(f) else f, ReapOutcome(r, d.downloading[i].hash, d.downloading[i].chunkid))
  }

  /** The same on the lists and the receive buffer. */
  method FinishChunk(down: DownloadConn, curr: Node, ghost k: nat, recv: RecvState) returns (result: ReapResult)
    requires down.Valid() && k < |down.downloading.nodes| && down.downloading.nodes[k] == curr
    requires HasHash(down.need.Contents(), curr.item.hash)
    requires recv.Valid() && recv.hash == curr.item.hash
    requires Reapable(recv.View()) && |Assembled(recv.buf[..], recv.npe)| <= CHUNK_SIZE
    modifies down`concurr, down`finished, down`max, down.need, down.tosend, down.sent, down.downloading
    modifies (set n | n in down.need.nodes)`next, (set n | n in down.tosend.nodes)`next
    modifies (set n | n in down.sent.nodes)`next, (set n | n in down.downloading.nodes)`next
    ensures down.Valid()
    ensures (down.View(), result) == FinishStep(old(down.View()), k, old(recv.View()))
  {
    hide ReapOutcome, Reapable, D.Finished, D.Completed, Assembled;
    if recv.bytes != CHUNK_SIZE { return Incomplete; }
    result := Reap(recv, curr.item.chunkid);
    WithoutWithin(down.downloading.nodes, k);
    down.FinishOneDownload(curr, k);
    if down.need.head == null {
      down.CompleteMydownload();
    }
  }

  /** Without all bytes nothing happens; with all bytes the chunk leaves the needs and the downloads whatever its
      hash, no other chunk's needs change, and it was written if and only if it has the hash that was asked for. */
  lemma FinishDropsTheChunk(chunk: seq<byte>, s: T.Sys, d: D.Down, i: nat)
    requires T.Reachable(chunk, s) && D.Inv(d) && i < |d.downloading|
    ensures HasHash(d.need, d.downloading[i].hash) && Reapable(s.recv)
    ensures var (t, result) := FinishStep(d, i, s.recv);
            var h := d.downloading[i].hash;
            if s.recv.bytes != CHUNK_SIZE then t == d && result == Incomplete
            else
              && |t.need| == |d.need| - 1
              && (forall g :: D.HashCount(t.need, g) == D.HashCount(d.need, g) - if g == h then 1 else 0)
              && !HasHash(t.downloading, h)
              && D.Inv(t)
              && (result == Written(d.downloading[i].chunkid * CHUNK_SIZE, chunk) <==> Sha1Spec.Sha1(chunk) == h)
              && (result == HashMismatch <==> Sha1Spec.Sha1(chunk) != h)
  {
    assert |chunk| == CHUNK_SIZE;
    hide Sha1Spec.Sha1, ReapOutcome, Reapable, T.Reachable, D.Inv;
    DownloadWritesTheChunk(chunk, s, d.downloading[i].hash, d.downloading[i].chunkid);
    NeededWhile(d, i);
    Dropped(d, i);
  }

  lemma NeededWhile(d: D.Down, i: nat)
    requires D.Inv(d) && i < |d.downloading|
    ensures HasHash(d.need, d.downloading[i].hash)
  {
    assert D.Active(d)[|d.tosend| + |d.sent| + i] == d.downloading[i];
    D.ActiveIsNeeded(d, |d.tosend| + |d.sent| + i);
  }

  lemma Dropped(d: D.Down, i: nat)
    requires D.Inv(d) && i < |d.downloading| && HasHash(d.need, d.downloading[i].hash)
    ensures var f := D.Finished(d, i);
            var t := if f.need == [] then D.Completed(f) else f;
            var h := d.downloading[i].hash;
            && |t.need| == |d.need| - 1
            && (forall g :: D.HashCount(t.need, g) == D.HashCount(d.need, g) - if g == h then 1 else 0)
            && !HasHash(t.downloading, h)
            && D.Inv(t)
  {
    hide D.Inv;
    var h, f := d.downloading[i].hash, D.Finished(d, i);
    var k := HashIndex(d.need, h, 0);
    D.StepInv(d, D.Finish(i));
    forall g
      ensures D.HashCount(f.need, g) == D.HashCount(d.need, g) - if g == h then 1 else 0
    {
      D.CountWithout(d.need, k, g, d.downloading[i].from);
    }
    OnlyOnce(d, i);
  }

  /** The finished chunk is not being downloaded a second time. */
  lemma OnlyOnce(d: D.Down, i: nat)
    requires D.Inv(d) && i < |d.downloading|
    ensures !HasHash(Without(d.downloading, i), d.downloading[i].hash)
  {
    var h := d.downloading[i].hash;
    D.InvTallied(d);
    assert D.HashOk(d, h);
    hide D.Inv, D.Tallied, D.HashCount, HasHash;
    D.CountWithout(d.downloading, i, h, d.downloading[i].from);
    D.HasHashCount(Without(d.downloading, i), h);
  }

  /** On every run of the download side, with any reachable transfer behind the download that finishes: what arrived is
      written exactly if it has the hash of the needed entry, and then in the place of that entry. */
  lemma WrittenInItsPlace(chunk: seq<byte>, s: T.Sys, max: nat, es: seq<D.Event>, i: nat) returns (k: nat)
    requires T.Reachable(chunk, s) && s.recv.bytes == CHUNK_SIZE
    requires i < |D.Run(D.Idle(max), es).0.downloading|
    ensures var d := D.Run(D.Idle(max), es).0;
            && HasHash(d.need, d.downloading[i].hash) && Reapable(s.recv)
            && k < |d.need| && S.FirstHash(d.need, d.downloading[i].hash, k)
            && FinishStep(d, i, s.recv).1 == if Sha1Spec.Sha1(chunk) == d.need[k].hash
                                             then Written(d.need[k].chunkid * CHUNK_SIZE, chunk) else HashMismatch
  {
    assert |chunk| == CHUNK_SIZE;
    hide Sha1Spec.Sha1, T.Reachable, D.Run, D.Inv, Reapable, ReapOutcome;
    var d := D.Run(D.Idle(max), es).0;
    var x := d.downloading[i];
    S.IdleInv(max);
    D.RunInv(D.Idle(max), es);
    NeededWhile(d, i);
    S.ItemsAreTraced(max, es);
    assert x in D.Active(d);
    k :| k < |d.need| && S.FirstHash(d.need, x.hash, k) && d.need[k].chunkid == x.chunkid;
    DownloadWritesTheChunk(chunk, s, x.hash, x.chunkid);
  }

  // ---- a chunk that is dropped and never written ----

  /** The user wants one chunk; a peer offers it, is asked for it and sends data. */
  function OneDownload(me: Addr, from: Addr, hash: Hash, id: int): seq<D.Event> {
    [D.Reset([Item(me, hash, id)], 1), D.IHave([hash], from), D.Ask, D.Data(from)]
  }

  lemma RunFour(d: D.Down, a: D.Event, b: D.Event, c: D.Event, e: D.Event)
    requires !D.Step(d, a).1
    requires var d1 := D.Step(d, a).0; !D.Step(d1, b).1
    requires var d2 := D.Step(D.Step(d, a).0, b).0; !D.Step(d2, c).1
    ensures D.Run(d, [a, b, c, e]) == D.Step(D.Step(D.Step(D.Step(d, a).0, b).0, c).0, e)
  {
    hide D.Step;
    assert [a, b, c, e][..3] == [a, b, c] && [a, b, c][..2] == [a, b] && [a, b][..1] == [a] && [a][..0] == [];
    assert D.Run(d, []) == (d, false);
    assert D.Run(d, [a]) == D.Step(d, a);
    assert D.Run(d, [a, b]) == D.Step(D.Step(d, a).0, b);
    assert D.Run(d, [a, b, c]) == D.Step(D.Step(D.Step(d, a).0, b).0, c);
  }

  lemma OneDownloadRuns(me: Addr, from: Addr, hash: Hash, id: int)
    ensures var (d, fault) := D.Run(D.Idle(1), OneDownload(me, from, hash, id));
            !fault && d.need == [Item(me, hash, id)] && d.downloading == [Item(from, hash, id)] && d.finished == 0
  {
    var d0, item := D.ResetTo(D.Idle(1), [Item(me, hash, id)], 1), Item(from, hash, id);
    assert [hash][..0] == [];
    assert D.Fill(d0, [], from) == d0;
    var d1 := D.FillOne(d0, hash, from);
    assert d1 == d0.(tosend := [item], found := 1);
    assert D.Fill(d0, [hash], from) == d1;
    assert D.FirstEligible(d1, 0) == 0;
    var d2 := D.Asked(d1);
    assert d2 == d1.(tosend := [], sent := [item], concurr := 1);
    assert D.OnData(d2, from).downloading == [item];
    RunFour(D.Idle(1), D.Reset([Item(me, hash, id)], 1), D.IHave([hash], from), D.Ask, D.Data(from));
  }

  lemma CompleteState(chunk: seq<byte>) returns (s: T.Sys)
    requires |chunk| == CHUNK_SIZE
    ensures T.Reachable(chunk, s) && s.recv.bytes == CHUNK_SIZE
  {
    hide T.Inv, T.Run, T.Init, T.Reachable;
    T.InitInv(chunk);
    Startable(chunk);
    P.RecoverableFinishes(chunk, T.Init(chunk));
    var es :| T.Run(T.Init(chunk), es).win.lpa == T.N && T.Run(T.Init(chunk), es).recv.npe == T.N + 1;
    s := T.Run(T.Init(chunk), es);
    assert T.Run(T.Init(chunk), es) == s;
    T.ReachableIffRun(chunk, s);
    DownloadWritesTheChunk(chunk, s, [], 0);
  }

  lemma Startable(chunk: seq<byte>)
    requires |chunk| == CHUNK_SIZE
    ensures P.Recoverable(T.Init(chunk).win) && !T.Init(chunk).closed
  {
  }

  /** Whenever a peer serves a chunk that does not have the hash it was asked for, this happens: the download
      finishes, the only needed chunk leaves the list, the download counts as complete, and nothing was written. */
  lemma MismatchDropsTheChunk(chunk: seq<byte>, me: Addr, from: Addr, hash: Hash, id: int) returns (s: T.Sys)
    requires |chunk| == CHUNK_SIZE && Sha1Spec.Sha1(chunk) != hash
    ensures T.Reachable(chunk, s) && Reapable(s.recv)
    ensures var d := D.Run(D.Idle(1), OneDownload(me, from, hash, id)).0;
            && |d.need| == |d.downloading| == 1 && HasHash(d.need, d.downloading[0].hash)
            && var (t, result) := FinishStep(d, 0, s.recv);
               t.need == [] && t.downloading == [] && t.max == 0 && t.finished == 1 && result == HashMismatch
  {
    hide Sha1Spec.Sha1, T.Reachable, D.Run, D.Inv;
    OneDownloadRuns(me, from, hash, id);
    s := CompleteState(chunk);
    S.IdleInv(1);
    D.RunInv(D.Idle(1), OneDownload(me, from, hash, id));
    var d := D.Run(D.Idle(1), OneDownload(me, from, hash, id)).0;
    FinishDropsTheChunk(chunk, s, d, 0);
  }
}
