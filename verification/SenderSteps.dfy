/** What each event does to the sender's window in every reachable state, told by positions, the congestion window,
    the threshold and the packets put in transit. */
module SenderSteps {
  import opened Basics
  import opened Packets
  import opened SlidingWindow
  import opened Receiver
  import opened Congestion
  import opened Transfer
  import opened TransferSafety

  /** The same packets in the buffer, sent at the same times. */
  predicate SameBuffer(w: Win, w': Win) {
    && |w'.buf| == |w.buf| && w'.lpr == w.lpr
    && forall i :: 0 <= i < |w.buf| && w.buf[i].Some? ==>
         && w'.buf[i].Some? && w'.buf[i].value.pack == w.buf[i].value.pack
         && w'.buf[i].value.timestamp == w.buf[i].value.timestamp
  }

  /** Back to one packet with half the old window as the threshold, rounded down but at least 2. */
  predicate Halved(w: Win, w': Win) {
    && w'.lpa == w.lpa && w'.lps == w.lpa && w'.cwnd == 1.0 && w'.count == 1
    && if w.cwnd < 4.0 then w'.ssthresh == 2
       else (2 * w'.ssthresh) as real <= w.cwnd < (2 * w'.ssthresh + 2) as real
  }

  lemma Halves(w: Win)
    requires w.Filled(w.lpa) && w.cwnd >= 1.0
    ensures Halved(w, w.Collapse()) && SameBuffer(w, w.Collapse())
  {
  }

  // ---- the timer ----

  /** The oldest packet in flight was sent more than two seconds ago, and it is not packet 1. */
  predicate Overdue(w: Win, now: int)
    requires w.Filled(w.lpa + 1)
  {
    1 <= w.lpa < w.lps && now - w.buf[w.lpa + 1].value.timestamp > 2
  }

  /** What the steps below need to know of the window. */
  predicate Working(w: Win, hi: int) {
    && |w.buf| == SENDER_BUF_SIZE && w.lpr == N + 1
    && 0 <= w.lpa <= w.lps <= hi <= N && w.cwnd >= 1.0
    && forall i :: 1 <= i <= N ==> w.buf[i].Some? && (w.buf[i].value.timestamp > 0 <==> i <= hi)
  }

  lemma ReachableWorks(chunk: seq<byte>, s: Sys)
    requires Reachable(chunk, s)
    ensures |chunk| == CHUNK_SIZE && Working(s.win, s.past.hi) && Buffered(chunk, s.win, s.past.hi)
    ensures Counted(s.win, s.past.dups)
  {
    ReachableInv(chunk, s);
    hide Original;
  }

  lemma TimerFires(chunk: seq<byte>, s: Sys, now: int)
    requires Reachable(chunk, s) && s.win.lpa < N
    ensures s.win.Filled(s.win.lpa + 1)
    ensures var t := Step(s, Timer(now));
            && t == s.(win := t.win, past := t.past)
            && if Overdue(s.win, now) then Halved(s.win, t.win) && SameBuffer(s.win, t.win) else t == s
  {
    hide Reachable, Buffered, Counted, Halved, SameBuffer, Win.Collapse;
    ReachableWorks(chunk, s);
    if Overdue(s.win, now) { Halves(s.win); }
  }

  // ---- acknowledgements ----

  /** The quota is what the congestion window leaves beside the packets in flight. */
  predicate Recounted(w: Win) { w.count == Trunc(w.cwnd - (w.lps - w.lpa) as real) }

  /** n newly acknowledged packets: in slow start each adds one packet; above the threshold the product of the old window
      and what is added is n, unless that would exceed 128. */
  predicate GrownBy(w: Win, w': Win, n: int) {
    if w.cwnd <= w.ssthresh as real then w'.cwnd == w.cwnd + n as real
    else if (128.0 - w.cwnd) * w.cwnd < n as real then w'.cwnd == 128.0
    else (w'.cwnd - w.cwnd) * w.cwnd == n as real
  }

  /** What an acknowledgement of packet c makes of a window that has counted `dups` duplicates of its last one. */
  predicate Acked(w: Win, w': Win, c: int, dups: int) {
    if c < 1 then w' == w
    else
      && SameBuffer(w, w')
      && if c > w.lps then
           w'.lpa == w'.lps == c && w'.cwnd == w.cwnd + 1.0 && w'.ssthresh == w.ssthresh && Recounted(w')
         else if c > w.lpa then
           w'.lpa == c && w'.lps == w.lps && w'.ssthresh == w.ssthresh && GrownBy(w, w', c - w.lpa) && Recounted(w')
         else if c == w.lpa && dups == 2 then Halved(w, w')
         else
           && w'.lpa == w.lpa && w'.lps == w.lps && w'.cwnd == w.cwnd && w'.ssthresh == w.ssthresh
           && if c == w.lpa then Recounted(w') else w'.count == w.count
  }

  lemma Times(q: real, c: real, n: real)
    requires c >= 1.0 && q == 1.0 / c
    ensures (q * n) * c == n
  {
    assert q * c == 1.0;
    Rearranged(q, n, c);
  }

  lemma Grows(w: Win, w': Win, n: int)
    requires w.cwnd >= 1.0 && n >= 1 && w'.cwnd == w.Grown(n)
    ensures GrownBy(w, w', n)
  {
    var c := w.cwnd;
    if c > w.ssthresh as real {
      var extra := (1.0 / c) * n as real;
      Times(1.0 / c, c, n as real);
      Compare(128.0 - c, extra, c);
    }
  }

  lemma Compare(x: real, y: real, c: real)
    requires c >= 1.0
    ensures x * c < y * c <==> x < y
  {
  }

  /** The window with one acknowledgement of packet c more counted. */
  function Seen(w: Win, c: int): Win
    requires w.Filled(c)
  {
    w.WithAcked(c, w.buf[c].value.acked + 1)
  }

  lemma SeenSame(w: Win, c: int)
    requires w.Filled(c)
    ensures SameBuffer(w, Seen(w, c)) && Seen(w, c).(buf := w.buf) == w && Seen(w, c).Filled(c)
  {
  }

  lemma AdvanceAcked(w: Win, c: int, dups: int)
    requires w.Filled(c) && w.cwnd >= 1.0 && c >= 1 && w.lpa < c <= w.lps
    ensures Acked(w, Seen(w, c).AdvanceTo(c), c, dups)
  {
    SeenSame(w, c);
    hide Win.Grown, Trunc, Seen, GrownBy;
    Grows(Seen(w, c), Seen(w, c).AdvanceTo(c), c - w.lpa);
    GrownSame(w, Seen(w, c), Seen(w, c).AdvanceTo(c), c - w.lpa);
  }

  lemma GrownSame(w: Win, seen: Win, t: Win, n: int)
    requires seen.(buf := w.buf) == w && GrownBy(seen, t, n)
    ensures GrownBy(w, t, n)
  {
  }

  lemma JumpAcked(w: Win, c: int, dups: int)
    requires w.Filled(c) && c >= 1 && c > w.lps
    ensures Acked(w, Seen(w, c).JumpTo(c), c, dups)
  {
    SeenSame(w, c);
    hide Trunc, Seen;
  }

  lemma DuplicateAcked(w: Win, c: int, dups: int)
    requires w.Filled(c) && w.cwnd >= 1.0 && c >= 1 && c == w.lpa <= w.lps
    ensures Acked(w, if dups == 2 then Seen(w, c).Collapse() else Seen(w, c).Recount(), c, dups)
  {
    SeenSame(w, c);
    hide Trunc, Seen, Win.Collapse, Halved;
    Halves(Seen(w, c));
    if dups == 2 { HalvedSame(w, Seen(w, c), Seen(w, c).Collapse()); }
  }

  lemma HalvedSame(w: Win, seen: Win, t: Win)
    requires seen.(buf := w.buf) == w && Halved(seen, t)
    ensures Halved(w, t)
  {
  }

  lemma StaleAcked(w: Win, c: int, dups: int)
    requires w.Filled(c) && 1 <= c < w.lpa <= w.lps
    ensures Acked(w, Seen(w, c), c, dups)
  {
    SeenSame(w, c);
    hide Seen;
  }

  lemma AckedWindow(w: Win, hi: int, dups: int, c: int)
    requires Working(w, hi) && Counted(w, dups) && c <= hi
    ensures AckNames(w, c) && Acked(w, OnAck(w, c), c, dups)
  {
    if c >= 1 {
      AckedSlot(w, hi, dups, c);
      hide *;
      OnAckCases(w, c, dups);
      if c > w.lps { JumpAcked(w, c, dups); }
      else if c > w.lpa { AdvanceAcked(w, c, dups); }
      else if c == w.lpa { DuplicateAcked(w, c, dups); }
      else { StaleAcked(w, c, dups); }
    }
  }

  lemma OnAckCases(w: Win, c: int, dups: int)
    requires w.Filled(c) && c >= 1 && w.cwnd >= 1.0 && w.lpa <= w.lps
    requires c == w.lpa ==> 0 <= dups <= 2 && w.buf[c].value.acked == dups + 1
    ensures AckNames(w, c)
    ensures OnAck(w, c) == if c > w.lps then Seen(w, c).JumpTo(c)
                           else if c > w.lpa then Seen(w, c).AdvanceTo(c)
                           else if c < w.lpa then Seen(w, c)
                           else if dups == 2 then Seen(w, c).Collapse() else Seen(w, c).Recount()
  {
    hide Win.Collapse, Win.JumpTo, Win.AdvanceTo, Win.Recount, Win.WithAcked;
  }

  lemma AckedSlot(w: Win, hi: int, dups: int, c: int)
    requires Working(w, hi) && Counted(w, dups) && 1 <= c <= hi
    ensures w.Filled(c) && w.cwnd >= 1.0 && w.lpa <= w.lps && (c == w.lpa ==> w.buf[c].value.acked == dups + 1) && 0 <= dups <= 2
  {
  }

  lemma AckArrives(chunk: seq<byte>, s: Sys, c: int)
    requires Reachable(chunk, s) && FormAck(c) in s.net
    ensures var t := Step(s, Deliver(FormAck(c)));
            && t == s.(net := s.net - multiset{FormAck(c)}, win := t.win, past := t.past)
            && Acked(s.win, t.win, c, s.past.dups)
            && t.past.dups == if c < 1 || c < s.win.lpa then s.past.dups
                              else if c > s.win.lpa || s.past.dups == 2 then 0 else s.past.dups + 1
  {
    ReachableWorks(chunk, s);
    AcknowledgementsAreSound(chunk, s);
    hide Reachable, Counted, Acked, OnAck, AckNames;
    AckedWindow(s.win, s.past.hi, s.past.dups, c);
  }

  // ---- sending ----

  /** Packets i..j-1 of the chunk. */
  function Originals(chunk: seq<byte>, i: int, j: int): seq<Packet>
    requires |chunk| == CHUNK_SIZE && 1 <= i <= j <= N + 1
  {
    seq(j - i, k requires 0 <= k < j - i => Original(chunk, i + k))
  }

  /** The send times after packets lo+1..hi were sent at `now`. */
  predicate StampedAt(w: Win, w': Win, now: int, lo: int, hi: int) {
    && |w'.buf| == |w.buf|
    && forall i :: 0 <= i < |w.buf| ==>
         w'.buf[i] == if lo < i <= hi && w.buf[i].Some? then Some(w.buf[i].value.(timestamp := now)) else w.buf[i]
  }

  /** t is s after the next packets were sent, as many as the quota and the buffer have: the quota is used up and
      exactly what was sent is stamped and in transit. */
  predicate Sent(chunk: seq<byte>, s: Sys, t: Sys, now: int)
    requires |chunk| == CHUNK_SIZE
  {
    var w, w' := s.win, t.win;
    && 0 <= w.lps <= w'.lps <= N
    && w'.lps == Max(w.lps, Min(w.lps + w.count, N))
    && w' == w.(lps := w'.lps, count := if w.lps < N then 0 else w.count, buf := w'.buf)
    && StampedAt(w, w', now, w.lps, w'.lps)
    && t == s.(win := w', net := t.net, past := t.past)
    && t.net == s.net + multiset(Originals(chunk, w.lps + 1, w'.lps + 1))
  }

  lemma SendTransmits(chunk: seq<byte>, s: Sys, now: int)
    requires Reachable(chunk, s) && now > 0
    ensures |chunk| == CHUNK_SIZE && Sent(chunk, s, Step(s, Send(now)), now)
  {
    hide *;
    ReachableWorks(chunk, s);
    Positions(s.win, s.past.hi);
    if s.win.lps < N {
      SendsOriginals(chunk, s.win, s.past.hi);
      SendsMore(chunk, s, now);
    } else {
      SendsNothing(chunk, s, now);
    }
  }

  lemma SendsMore(chunk: seq<byte>, s: Sys, now: int)
    requires |chunk| == CHUNK_SIZE && now > 0 && s.win.lpr == N + 1 && 0 <= s.win.lps < N
    requires CanSend(s.win) && s.win.lps + Burst(s.win) <= N
    requires Transmitted(s.win) == Originals(chunk, s.win.lps + 1, s.win.lps + Burst(s.win) + 1)
    ensures Sent(chunk, s, Step(s, Send(now)), now)
  {
    StampsSent(s.win, now);
    hide Originals, Transmitted, Stamped, StampedAt, CanSend;
  }

  lemma SendsNothing(chunk: seq<byte>, s: Sys, now: int)
    requires |chunk| == CHUNK_SIZE && s.win.lpr == N + 1 && s.win.lps == N
    ensures Sent(chunk, s, Step(s, Send(now)), now)
  {
    assert Originals(chunk, s.win.lps + 1, s.win.lps + 1) == [];
    assert s.net + multiset([]) == s.net;
  }

  lemma Positions(w: Win, hi: int)
    requires Working(w, hi)
    ensures 0 <= w.lpa <= w.lps <= N && w.lpr == N + 1 && w.cwnd >= 1.0
  {
  }

  lemma SendsOriginals(chunk: seq<byte>, w: Win, hi: int)
    requires |chunk| == CHUNK_SIZE && Working(w, hi) && Buffered(chunk, w, hi) && w.lps < N
    ensures CanSend(w) && w.lps + Burst(w) <= N
    ensures Transmitted(w) == Originals(chunk, w.lps + 1, w.lps + Burst(w) + 1)
  {
    hide Original;
  }

  lemma StampsSent(w: Win, now: int)
    requires CanSend(w)
    ensures StampedAt(w, OnSend(w, now), now, w.lps, OnSend(w, now).lps)
  {
  }

  /** A call that has any quota left fills the congestion window, unless the chunk ends before. */
  lemma SendFillsTheWindow(chunk: seq<byte>, s: Sys, now: int)
    requires Reachable(chunk, s) && now > 0 && s.win.count >= 1 && s.win.lps < N
    ensures var w := Step(s, Send(now)).win;
            w.count == 0 && (w.lps == N || w.lps - w.lpa == s.win.cwnd.Floor)
  {
    hide Reachable, Step;
    SendTransmits(chunk, s, now);
    WindowBounds(chunk, s);
  }

  // ---- the threshold ----

  /** The two events that mean that the network is congested. */
  predicate Congests(s: Sys, e: Event) {
    || (e.Timer? && s.win.lpa < N && s.win.Filled(s.win.lpa + 1) && Overdue(s.win, e.now))
    || (e.Deliver? && e.p in s.net && e.p.ptype == 4 && e.p.ackNum == s.win.lpa >= 1 && s.past.dups == 2)
  }

  /** On a timeout of the oldest packet or a third duplicate the threshold becomes half the window and the window one
      packet; no other event changes the threshold. */
  lemma ThresholdHalves(chunk: seq<byte>, s: Sys, e: Event)
    requires Reachable(chunk, s)
    ensures var w := Step(s, e).win;
            if Congests(s, e) then Halved(s.win, w) else w.ssthresh == s.win.ssthresh
  {
    hide Reachable, Halved, Overdue;
    match e
    case Send(now) => if now > 0 { Unchanged(chunk, s, now); }
    case Timer(now) => if s.win.lpa < N { TimerFires(chunk, s, now); } else { Ended(chunk, s, now); }
    case Deliver(p) =>
      if p in s.net && p.ptype == 4 {
        IsAck(chunk, s, p);
        AckArrives(chunk, s, p.ackNum);
      } else {
        NotAck(s, p);
      }
    case _ =>
  }

  lemma Unchanged(chunk: seq<byte>, s: Sys, now: int)
    requires Reachable(chunk, s) && now > 0
    ensures Step(s, Send(now)).win.ssthresh == s.win.ssthresh
  {
    hide Reachable, Step;
    SendTransmits(chunk, s, now);
  }

  lemma Ended(chunk: seq<byte>, s: Sys, now: int)
    requires Reachable(chunk, s) && s.win.lpa >= N
    ensures Step(s, Timer(now)) == s
  {
    ReachableWorks(chunk, s);
  }

  lemma IsAck(chunk: seq<byte>, s: Sys, p: Packet)
    requires Reachable(chunk, s) && p in s.net && p.ptype == 4
    ensures p == FormAck(p.ackNum) && 0 <= s.win.lpa <= s.win.lps
  {
    ReachableInv(chunk, s);
    assert Genuine(chunk, p, s.past.hi, s.recv.npe);
  }

  lemma NotAck(s: Sys, p: Packet)
    requires p !in s.net || p.ptype != 4
    ensures Step(s, Deliver(p)).win == s.win
  {
  }
}
