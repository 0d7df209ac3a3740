/** What holds on every run of a transfer, whatever the network loses, duplicates or reorders. */
module TransferSafety {
  import opened Basics
  import opened Packets
  import opened SlidingWindow
  import opened Receiver
  import opened Transfer

  // ---- the receiver's data ----

  lemma {:induction false} AssembledPrefix(chunk: seq<byte>, r: Recv, hi: int, n: int)
    requires |chunk| == CHUNK_SIZE && Received(chunk, r, hi) && 1 <= n <= r.npe
    ensures Assembled(r.buf, n) == chunk[..(n - 1) * PAYLOAD_LEN]
    ensures PayloadBytes(r.buf, 1, n) == (n - 1) * PAYLOAD_LEN
  {
    SlotsBelow(chunk, r, hi);
    if n > 1 {
      OriginalPayload(chunk, n - 1);
      AssembledPrefix(chunk, r, hi, n - 1);
      SliceJoin(chunk, (n - 2) * PAYLOAD_LEN, (n - 1) * PAYLOAD_LEN);
      hide Received, Original;
      OneMore(r.buf, n);
    } else {
      NoneYet(r.buf);
      assert chunk[..0] == [];
    }
  }

  lemma SliceJoin(s: seq<byte>, i: int, j: int)
    requires 0 <= i <= j <= |s|
    ensures s[..i] + s[i..j] == s[..j]
  {
  }

  lemma NoneYet(buf: seq<Option<Packet>>)
    requires |buf| >= 1
    ensures Assembled(buf, 1) == [] && PayloadBytes(buf, 1, 1) == 0
  {
  }

  lemma OneMore(buf: seq<Option<Packet>>, n: int)
    requires 1 < n <= |buf| && forall k :: 1 <= k < n ==> buf[k].Some?
    ensures Assembled(buf, n) == Assembled(buf, n - 1) + buf[n - 1].value.payload
    ensures PayloadBytes(buf, 1, n) == PayloadBytes(buf, 1, n - 1) + buf[n - 1].value.packLen - buf[n - 1].value.hdLen
  {
  }

  /** The slots below the gap hold their packets. */
  lemma SlotsBelow(chunk: seq<byte>, r: Recv, hi: int)
    requires |chunk| == CHUNK_SIZE && Received(chunk, r, hi)
    ensures r.Shaped() && r.npe <= N + 1
    ensures forall i :: 1 <= i < r.npe ==> r.buf[i] == Some(Original(chunk, i))
  {
    hide Original;
  }

  lemma OriginalPayload(chunk: seq<byte>, i: int)
    requires |chunk| == CHUNK_SIZE && 1 <= i <= N
    ensures var p := Original(chunk, i);
            p.payload == chunk[(i - 1) * PAYLOAD_LEN .. i * PAYLOAD_LEN] && p.packLen - p.hdLen == PAYLOAD_LEN
  {
  }

  /** Every reachable state: what sits in slot i is packet i, the next expected slot is the first empty one, nothing lies
      beyond the receive window, and the byte count is the payload of the accepted packets. */
  lemma ReceiverHoldsTheChunk(chunk: seq<byte>, s: Sys)
    requires Reachable(chunk, s)
    ensures var r := s.recv;
            && !s.fault
            && r.Shaped()
            && (forall i :: 0 <= i < SLOTS && r.buf[i].Some? ==> 1 <= i <= N && r.buf[i].value == Original(chunk, i))
            && r.npe == Gap(r.buf, 1)
            && (forall i :: r.npe + WINDOW < i < SLOTS ==> r.buf[i].None?)
            && r.bytes == (r.npe - 1) * PAYLOAD_LEN
            && Assembled(r.buf, r.npe) == chunk[..r.bytes]
  {
    ReachableInv(chunk, s);
    AssembledPrefix(chunk, s.recv, s.past.hi, s.recv.npe);
    GapIsFirst(s.recv.buf, 1, s.recv.npe);
  }

  lemma {:induction false} GapIsFirst(buf: seq<Option<Packet>>, i: int, g: int)
    requires |buf| == SLOTS && 0 <= i <= g < SLOTS
    requires (forall j :: i <= j < g ==> buf[j].Some?) && buf[g].None?
    ensures Gap(buf, i) == g
    decreases g - i
  {
    if i < g { GapIsFirst(buf, i + 1, g); }
  }

  /** When the byte count reaches the chunk size the assembled buffer is the uploaded chunk. */
  lemma ChunkArrives(chunk: seq<byte>, s: Sys)
    requires Reachable(chunk, s)
    ensures var r := s.recv;
            && r.Shaped() && (forall k :: 1 <= k < r.npe ==> r.buf[k].Some?)
            && (r.bytes == CHUNK_SIZE <==> r.npe == N + 1)
            && (r.bytes == CHUNK_SIZE <==> Assembled(r.buf, r.npe) == chunk)
  {
    ReceiverHoldsTheChunk(chunk, s);
    ReachableInv(chunk, s);
    var r := s.recv;
    assert chunk[..CHUNK_SIZE] == chunk;
  }

  // ---- acknowledgements ----

  /** Every reachable state: an acknowledgement in transit names a packet below the next expected one, so the sender's
      position is always behind the receiver's and the receiver's behind what was ever sent. */
  lemma AcknowledgementsAreSound(chunk: seq<byte>, s: Sys)
    requires Reachable(chunk, s)
    ensures s.win.lpa < s.recv.npe <= s.past.hi + 1 <= N + 1
    ensures forall p :: p in s.net && p.ptype == 4 ==> 0 <= p.ackNum < s.recv.npe
    ensures forall p :: p in s.net && p.ptype == 3 ==> 1 <= p.seqNum <= s.past.hi && p == Original(chunk, p.seqNum)
    ensures s.win.lpa == N ==> s.recv.bytes == CHUNK_SIZE
  {
    ReachableInv(chunk, s);
    forall p | p in s.net
      ensures p.ptype == 4 ==> 0 <= p.ackNum < s.recv.npe
      ensures p.ptype == 3 ==> 1 <= p.seqNum <= s.past.hi && p == Original(chunk, p.seqNum)
    {
      assert Genuine(chunk, p, s.past.hi, s.recv.npe);
    }
    AssembledPrefix(chunk, s.recv, s.past.hi, s.recv.npe);
  }

  lemma {:induction false} RunConcat(s: Sys, a: seq<Event>, b: seq<Event>)
    ensures Run(s, a + b) == Run(Run(s, a), b)
  {
    hide Step;
    if b == [] {
      assert a + b == a;
    } else {
      RunConcat(s, a, b[..|b| - 1]);
      assert (a + b)[..|a + b| - 1] == a + b[..|b| - 1];
    }
  }

  lemma RunReachable(chunk: seq<byte>, s: Sys, es: seq<Event>)
    requires Reachable(chunk, s)
    ensures Reachable(chunk, Run(s, es))
  {
    assert |chunk| == CHUNK_SIZE;
    hide Reachable, Run, Init;
    ReachableIffRun(chunk, s);
    var first :| Run(Init(chunk), first) == s;
    RunConcat(Init(chunk), first, es);
    assert Run(Init(chunk), first + es) == Run(s, es);
    ReachableIffRun(chunk, Run(s, es));
  }

  lemma StepReachable(chunk: seq<byte>, s: Sys, e: Event)
    requires Reachable(chunk, s)
    ensures Reachable(chunk, Step(s, e))
  {
    hide Reachable, Step;
    RunReachable(chunk, s, [e]);
    assert Run(s, [e][..0]) == s;
  }

  lemma SenderForward(s: Sys, e: Event)
    requires s.win.lpa <= s.win.lps
    ensures Step(s, e).win.lpa >= s.win.lpa
  {
    hide OnAck, OnTimer, OnSend, OnData, AckNames, CanSend, Transmitted, Answers;
    match e
    case Send(now) => if CanSend(s.win) { PositionsKept(s.win, now); }
    case Timer(now) => PositionsKept(s.win, now);
    case Deliver(p) => AckForward(s.win, p.ackNum);
    case _ =>
  }

  lemma PositionsKept(w: Win, now: int)
    ensures CanSend(w) ==> OnSend(w, now).lpa == w.lpa
    ensures w.Filled(w.lpa + 1) && (w.lpa != 0 ==> w.Filled(w.lpa)) ==> OnTimer(w, now).lpa == w.lpa
  {
    hide Stamped, Trunc;
  }

  lemma AckForward(w: Win, c: int)
    requires w.lpa <= w.lps
    ensures AckNames(w, c) && w.cwnd != 0.0 ==> OnAck(w, c).lpa >= w.lpa
  {
    hide Trunc, Win.Grown;
  }

  lemma ReceiverForward(s: Sys, e: Event)
    ensures Step(s, e).recv.npe >= s.recv.npe
    ensures s.closed ==> Step(s, e).closed
  {
  }

  lemma SentForward(s: Sys, e: Event)
    ensures Step(s, e).past.hi >= s.past.hi
  {
  }

  /** Neither side ever moves back: the acknowledged position, the expected position and the sent range grow. */
  lemma {:induction false} NeverBackwards(chunk: seq<byte>, s: Sys, es: seq<Event>)
    requires |chunk| == CHUNK_SIZE && Inv(chunk, s)
    ensures var t := Run(s, es);
            t.win.lpa >= s.win.lpa && t.recv.npe >= s.recv.npe && t.past.hi >= s.past.hi && (s.closed ==> t.closed)
  {
    if es != [] {
      NeverBackwards(chunk, s, es[..|es| - 1]);
      RunInv(chunk, s, es[..|es| - 1]);
      var mid := Run(s, es[..|es| - 1]);
      SenderForward(mid, es[|es| - 1]);
      ReceiverForward(mid, es[|es| - 1]);
      SentForward(mid, es[|es| - 1]);
    }
  }

  // ---- congestion window and duplicate acknowledgements ----

  lemma BoundsOf(w: Win, h: History)
    requires Ordered(w, h.hi) && w.lpr == N + 1 && Congested(w) && Unblocked(w) && Calm(w, h.jumps)
    ensures InBounds(w, h)
  {
  }

  predicate InBounds(w: Win, h: History) {
    && 0 <= w.lpa <= w.lps <= w.lpr - 1 == N
    && 1.0 <= w.cwnd <= (w.lpa + 1) as real && w.ssthresh >= 2
    && (w.count == 0 || w.count == Trunc(w.cwnd - (w.lps - w.lpa) as real))
    && (w.lps == w.lpa < w.lpr - 1 ==> w.count >= 1)
    && (h.jumps == 0 ==> w.cwnd <= TCP_MAXWIN && w.ssthresh <= 64 && (w.lps - w.lpa) as real <= w.cwnd)
  }

  /** Every reachable state: order of the window positions, bounds of the congestion window, what the send quota is, and
      that a window with nothing in flight is allowed to send. */
  lemma WindowBounds(chunk: seq<byte>, s: Sys)
    requires Reachable(chunk, s)
    ensures InBounds(s.win, s.past)
  {
    ReachableInv(chunk, s);
    BoundsOf(s.win, s.past);
  }

  /** In every reachable state window_sender transmits only what the congestion window admits. */
  lemma SendsWithinTheWindow(chunk: seq<byte>, s: Sys, now: int)
    requires Reachable(chunk, s)
    ensures var w := s.win;
            CanSend(w) || w.lps == w.lpr - 1
    ensures var w := s.win;
            CanSend(w) && Transmitted(w) != [] ==>
              var w' := OnSend(w, now);
              w'.lps == w.lps + |Transmitted(w)| && w'.lps - w'.lpa <= w'.cwnd.Floor
  {
    ReachableInv(chunk, s);
  }

  /** In every reachable state a duplicate acknowledgement collapses the window exactly when it is the third since the
      last advance, timeout or collapse; the first two change nothing but the counter and the quota. */
  lemma ThirdDuplicateCollapses(chunk: seq<byte>, s: Sys, c: int)
    requires Reachable(chunk, s)
    ensures var w := s.win;
            && 0 <= s.past.dups <= 2
            && |w.buf| == SENDER_BUF_SIZE
            && (forall i :: w.lpa < i <= N ==> w.Filled(i) && w.buf[i].value.acked == 0)
            && (w.lpa >= 1 ==> w.Filled(w.lpa) && w.buf[w.lpa].value.acked == 1 + s.past.dups)
            && (Duplicates(w, c) ==>
                  && AckNames(w, c) && w.cwnd != 0.0
                  && OnAck(w, c) == if s.past.dups == 2 then w.Collapse() else w.WithAcked(c, 2 + s.past.dups).Recount())
  {
    ReachableInv(chunk, s);
    if Duplicates(s.win, c) {
      assert s.win.WithAcked(c, s.past.dups + 2).Collapse() == s.win.Collapse();
    }
  }
}
