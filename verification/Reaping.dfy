/** Finishing a download (reap and check_onechunk_hash of sock_io.c) and the end-to-end result of a transfer. */
module Reaping {
  import opened Basics
  import opened Packets
  import opened SlidingWindow
  import opened Receiver
  import opened Transfer
  import opened TransferSafety
  import Sha1Spec
  import Sha1

  /** Nothing written, hash check failed, or `chunk` written into the output file from byte `at` on. */
  datatype ReapResult = Incomplete | HashMismatch | Written(at: int, chunk: seq<byte>)

  predicate Reapable(r: Recv) {
    && r.Shaped()
    && forall i :: 1 <= i < r.npe ==>
         r.buf[i].Some? && |r.buf[i].value.payload| == r.buf[i].value.packLen - r.buf[i].value.hdLen
  }

  function ReapOutcome(r: Recv, hash: seq<byte>, offset: int): ReapResult
    requires Reapable(r)
  {
    var data := Assembled(r.buf, r.npe);
    if |data| != CHUNK_SIZE then Incomplete
    else if Sha1Spec.Sha1(data) == hash then Written(offset * CHUNK_SIZE, data)
    else HashMismatch
  }

  lemma {:induction false} AssembledGrows(buf: seq<Option<Packet>>, i: int, n: int)
    requires 1 <= i <= n <= |buf| && forall k :: 1 <= k < n ==> buf[k].Some?
    ensures |Assembled(buf, i)| <= |Assembled(buf, n)|
    decreases n
  {
    if i < n { AssembledGrows(buf, i, n - 1); }
  }

  /** reap: copy the payloads into one buffer, check the hash of a full chunk and write it at the chunk's place. */
  method Reap(recv: RecvState?, offset: int) returns (result: ReapResult)
    requires recv != null ==> recv.Valid() && Reapable(recv.View())
    requires recv != null ==> |Assembled(recv.buf[..], recv.npe)| <= CHUNK_SIZE
    ensures result == if recv == null then Incomplete else ReapOutcome(recv.View(), recv.hash, offset)
  {
    hide Sha1Spec.Sha1;
    var reapBuf := new byte[CHUNK_SIZE + 1];
    var buflen := 0;
    if recv == null { return Incomplete; }
    ghost var slots := recv.buf[..];
    var i := 1;
    while i < recv.npe
      invariant 1 <= i <= recv.npe
      invariant slots == recv.buf[..]
      invariant buflen == |Assembled(slots, i)| <= CHUNK_SIZE
      invariant reapBuf[..buflen] == Assembled(slots, i)
    {
      AssembledGrows(slots, i + 1, recv.npe);
      Append(reapBuf, buflen, recv.buf[i].value.payload);
      buflen := buflen + (recv.buf[i].value.packLen - recv.buf[i].value.hdLen);
      i := i + 1;
    }
    if buflen != CHUNK_SIZE { return Incomplete; }
    var digest := Sha1.ShaHash(reapBuf[..CHUNK_SIZE]);
    return if digest == recv.hash then Written(offset * CHUNK_SIZE, reapBuf[..CHUNK_SIZE]) else HashMismatch;
  }

  method Append(a: array<byte>, at: nat, data: seq<byte>)
    requires at + |data| <= a.Length
    modifies a
    ensures a[..at + |data|] == old(a[..at]) + data
  {
    forall j | 0 <= j < |data| { a[at + j] := data[j]; }
  }

  // ---- end to end ----

  /** In every reachable state, whatever hash the downloader expects: it has not finished, or it finished because
      every packet was accepted, and then it writes exactly the uploaded chunk, as chunk number `offset` of the
      file, if and only if the chunk has that hash. A mismatch writes nothing, although the peer drops the chunk from its needs all the same. */
  lemma DownloadWritesTheChunk(chunk: seq<byte>, s: Sys, hash: seq<byte>, offset: int)
    requires Reachable(chunk, s)
    ensures Reapable(s.recv) && |Assembled(s.recv.buf, s.recv.npe)| <= CHUNK_SIZE
    ensures s.recv.bytes == CHUNK_SIZE <==> s.recv.npe == N + 1
    ensures ReapOutcome(s.recv, hash, offset)
         == if s.recv.bytes != CHUNK_SIZE then Incomplete
            else if Sha1Spec.Sha1(chunk) == hash then Written(offset * CHUNK_SIZE, chunk) else HashMismatch
  {
    assert |chunk| == CHUNK_SIZE;
    hide Sha1Spec.Sha1, Reachable;
    ReceiverHoldsTheChunk(chunk, s);
    ChunkArrives(chunk, s);
    OriginalsAreWhole(chunk, s.recv);
  }

  lemma OriginalsAreWhole(chunk: seq<byte>, r: Recv)
    requires |chunk| == CHUNK_SIZE && r.Shaped() && (forall k :: 1 <= k < r.npe ==> r.buf[k].Some?)
    requires forall i :: 0 <= i < SLOTS && r.buf[i].Some? ==> 1 <= i <= N && r.buf[i].value == Original(chunk, i)
    ensures Reapable(r)
  {
  }

  /** A sender that saw every acknowledgement knows that the downloader can write the chunk. */
  lemma FinishedSenderMeansDelivered(chunk: seq<byte>, s: Sys, offset: int)
    requires Reachable(chunk, s)
    ensures Reapable(s.recv)
    ensures s.win.lpa == s.win.lpr - 1 ==> ReapOutcome(s.recv, Sha1Spec.Sha1(chunk), offset) == Written(offset * CHUNK_SIZE, chunk)
  {
    assert |chunk| == CHUNK_SIZE;
    hide Sha1Spec.Sha1, ReapOutcome, Reachable;
    WindowBounds(chunk, s);
    AcknowledgementsAreSound(chunk, s);
    DownloadWritesTheChunk(chunk, s, Sha1Spec.Sha1(chunk), offset);
  }

  /** The upload side of a connection: create_SW followed by p2p_sender on a whole chunk. */
  method StartUpload(chunk: seq<byte>) returns (w: Window)
    requires |chunk| == CHUNK_SIZE
    ensures fresh(w) && fresh(w.buf) && w.Valid()
    ensures w.View() == Init(chunk).win
  {
    w := new Window();
    var taken := w.Fill(chunk);
    assert chunk[..taken] == chunk;
    assert w.buf[..] == LoadedWin(chunk).buf;
  }
}
