/** One chunk transfer: a sender window, a receiver and a network that loses, duplicates and reorders. */
module Transfer {
  import opened Basics
  import opened Packets
  import opened SlidingWindow
  import opened Receiver
  import opened Congestion

  const N := 512   // packets in a chunk

  /** What happened so far, kept beside the state and never read by it: the highest packet ever sent, the
      number of window jumps, and the duplicate acknowledgements since the last advance, timeout or third
      duplicate. */
  datatype History = History(hi: int, jumps: int, dups: int)

  datatype Sys = Sys(win: Win, recv: Recv, closed: bool, net: multiset<Packet>, fault: bool, past: History)

  datatype Event =
    | Send(now: int)
    | Timer(now: int)
    | Deliver(p: Packet)
    | Lose(p: Packet)
    | Duplicate(p: Packet)
    | Close

  /** The window after send_onechunk loaded a whole chunk into it. */
  function LoadedWin(chunk: seq<byte>): Win
    requires |chunk| == CHUNK_SIZE
  {
    EmptyWin().(lpr := N + 1,
                buf := seq(SENDER_BUF_SIZE, i requires 0 <= i < SENDER_BUF_SIZE =>
                         if 1 <= i <= N then Some(Slot(Fragment(chunk, 1, i), 0, 0)) else None))
  }

  function Init(chunk: seq<byte>): Sys
    requires |chunk| == CHUNK_SIZE
  {
    Sys(LoadedWin(chunk), EmptyRecv(), false, multiset{}, false, History(0, 0, 0))
  }

  // ---- steps; an event that is not enabled changes nothing ----

  function SendStep(s: Sys, now: int): Sys {
    if !CanSend(s.win) then s.(fault := true)
    else
      var w := OnSend(s.win, now);
      s.(win := w, net := s.net + multiset(Transmitted(s.win)), past := s.past.(hi := Max(s.past.hi, w.lps)))
  }

  predicate Expired(w: Win, now: int)
    requires w.Filled(w.lpa + 1)
  {
    var stamp := w.buf[w.lpa + 1].value.timestamp;
    stamp > 0 && w.lpa + 1 <= w.lps && w.lpa != 0 && now - stamp > TIMEOUT_SEC
  }

  function TimerStep(s: Sys, now: int): Sys {
    if !s.win.Filled(s.win.lpa + 1) || (s.win.lpa != 0 && !s.win.Filled(s.win.lpa)) then s.(fault := true)
    else s.(win := OnTimer(s.win, now), past := if Expired(s.win, now) then s.past.(dups := 0) else s.past)
  }

  function Noted(h: History, w: Win, c: int): History {
    if Jumps(w, c) then h.(jumps := h.jumps + 1, dups := 0)
    else if Advances(w, c) then h.(dups := 0)
    else if Duplicates(w, c) then h.(dups := if h.dups == 2 then 0 else h.dups + 1)
    else h
  }

  function AckStep(s: Sys, c: int): Sys {
    if !AckNames(s.win, c) || s.win.cwnd == 0.0 then s.(fault := true)
    else s.(win := OnAck(s.win, c), past := Noted(s.past, s.win, c))
  }

  function DataStep(s: Sys, p: Packet): Sys {
    if s.closed then s
    else if !s.recv.Shaped() then s.(fault := true)
    else s.(recv := OnData(s.recv, p), net := s.net + multiset(Answers(s.recv, p)))
  }

  function Step(s: Sys, e: Event): Sys {
    match e
    case Send(now) => if now > 0 && s.win.lps < s.win.lpr - 1 then SendStep(s, now) else s
    case Timer(now) => if s.win.lpa < s.win.lpr - 1 then TimerStep(s, now) else s
    case Deliver(p) =>
      if p !in s.net then s
      else
        var taken := s.(net := s.net - multiset{p});
        if p.ptype == 3 then DataStep(taken, p) else if p.ptype == 4 then AckStep(taken, p.ackNum) else taken
    case Lose(p) => s.(net := s.net - multiset{p})
    case Duplicate(p) => if p in s.net then s.(net := s.net + multiset{p}) else s
    case Close => if s.recv.bytes == CHUNK_SIZE then s.(closed := true) else s
  }

  function Run(s: Sys, es: seq<Event>): Sys {
    if es == [] then s else Step(Run(s, es[..|es| - 1]), es[|es| - 1])
  }

  // ---- the inductive invariant, part by part ----

  function Original(chunk: seq<byte>, i: int): Packet
    requires |chunk| == CHUNK_SIZE && 1 <= i <= N
  {
    Fragment(chunk, 1, i)
  }

  predicate Buffered(chunk: seq<byte>, w: Win, hi: int)
    requires |chunk| == CHUNK_SIZE
  {
    && |w.buf| == SENDER_BUF_SIZE && w.lpr == N + 1
    && forall i :: 1 <= i <= N ==>
         w.buf[i].Some? && w.buf[i].value.pack == Original(chunk, i) && (w.buf[i].value.timestamp > 0 <==> i <= hi)
  }

  predicate Ordered(w: Win, hi: int) { 0 <= w.lpa <= w.lps <= hi <= N }

  /** The window is at least one packet and, jumps included, at most one packet per acknowledged packet and one. */
  predicate Congested(w: Win) {
    && 1.0 <= w.cwnd <= (w.lpa + 1) as real
    && w.ssthresh >= 2 && (w.count == 0 || w.count == w.Room())
  }

  /** A window with nothing in flight may always send. */
  predicate Unblocked(w: Win) { w.lps == w.lpa < N ==> w.count >= 1 }

  /** Before the first acknowledgement at most packet 1 was ever sent. */
  predicate Opening(w: Win, hi: int) {
    w.lpa == 0 ==> w.lps == hi && ((hi == 0 && w.count == 1) || (hi == 1 && w.count == 0))
  }

  /** Acknowledgement counters: untouched above LPA; at LPA one plus the duplicates counted. */
  predicate Counted(w: Win, dups: int) {
    && |w.buf| == SENDER_BUF_SIZE
    && 0 <= dups <= 2
    && (forall i :: w.lpa < i <= N && 1 <= i ==> w.buf[i].Some? && w.buf[i].value.acked == 0)
    && (1 <= w.lpa <= N ==> w.buf[w.lpa].Some? && w.buf[w.lpa].value.acked == 1 + dups)
  }

  /** The cap: the window, the threshold and the packets in flight. */
  predicate Capped(w: Win) { w.cwnd <= TCP_MAXWIN && w.ssthresh <= 64 && w.Flight() as real <= w.cwnd }

  /** The cap holds as long as the window never jumped. */
  predicate Calm(w: Win, jumps: int) { jumps >= 0 && (jumps == 0 ==> Capped(w)) }

  predicate SenderInv(chunk: seq<byte>, w: Win, h: History)
    requires |chunk| == CHUNK_SIZE
  {
    && Buffered(chunk, w, h.hi) && Ordered(w, h.hi) && Congested(w) && Unblocked(w)
    && Opening(w, h.hi) && Counted(w, h.dups) && Calm(w, h.jumps)
  }

  predicate Received(chunk: seq<byte>, r: Recv, hi: int)
    requires |chunk| == CHUNK_SIZE
  {
    && r.Shaped() && r.npe <= hi + 1
    && (forall i :: 1 <= i < r.npe ==> r.buf[i].Some?)
    && r.buf[r.npe].None?
    && (forall i :: 0 <= i < SLOTS && r.buf[i].Some? ==>
          1 <= i <= Min(hi, Min(r.npe + WINDOW, N)) && r.buf[i].value == Original(chunk, i))
    && r.bytes == PayloadBytes(r.buf, 1, r.npe)
  }

  /** No forged packet: DATA of this chunk that was sent, and acknowledgements of accepted packets. */
  predicate Genuine(chunk: seq<byte>, p: Packet, hi: int, npe: int)
    requires |chunk| == CHUNK_SIZE
  {
    || (1 <= p.seqNum <= hi && p.seqNum <= N && p == Original(chunk, p.seqNum))
    || (0 <= p.ackNum < npe && p == FormAck(p.ackNum))
  }

  predicate AllGenuine(chunk: seq<byte>, net: multiset<Packet>, hi: int, npe: int)
    requires |chunk| == CHUNK_SIZE
  {
    forall p :: p in net ==> Genuine(chunk, p, hi, npe)
  }

  predicate Inv(chunk: seq<byte>, s: Sys)
    requires |chunk| == CHUNK_SIZE
  {
    && !s.fault
    && SenderInv(chunk, s.win, s.past)
    && Received(chunk, s.recv, s.past.hi)
    && s.win.lpa < s.recv.npe
    && (s.closed ==> s.recv.bytes == CHUNK_SIZE)
    && AllGenuine(chunk, s.net, s.past.hi, s.recv.npe)
  }

  lemma InitInv(chunk: seq<byte>)
    requires |chunk| == CHUNK_SIZE
    ensures Inv(chunk, Init(chunk))
  {
  }

  // ---- the sender's three steps keep its invariant ----

  lemma CollapseKeeps(chunk: seq<byte>, w: Win, h: History)
    requires |chunk| == CHUNK_SIZE && SenderInv(chunk, w, h) && 1 <= w.lpa
    ensures SenderInv(chunk, w.Collapse(), h.(dups := 0))
  {
  }

  lemma TimerKeeps(chunk: seq<byte>, w: Win, h: History, now: int)
    requires |chunk| == CHUNK_SIZE && SenderInv(chunk, w, h) && w.lpa < N
    ensures w.Filled(w.lpa + 1) && (w.lpa != 0 ==> w.Filled(w.lpa))
    ensures SenderInv(chunk, OnTimer(w, now), if Expired(w, now) then h.(dups := 0) else h)
  {
    if Expired(w, now) { CollapseKeeps(chunk, w, h); }
  }

  lemma SendKeeps(chunk: seq<byte>, w: Win, h: History, now: int)
    requires |chunk| == CHUNK_SIZE && SenderInv(chunk, w, h) && now > 0 && w.lps < N
    ensures CanSend(w)
    ensures SenderInv(chunk, OnSend(w, now), h.(hi := Max(h.hi, OnSend(w, now).lps)))
  {
  }

  lemma SendGenuine(chunk: seq<byte>, w: Win, h: History, npe: int)
    requires |chunk| == CHUNK_SIZE && SenderInv(chunk, w, h) && w.lps < N
    ensures CanSend(w) && AllGenuine(chunk, multiset(Transmitted(w)), w.lps + Burst(w), npe)
  {
    hide Congested, Unblocked, Opening, Counted, Calm, Fragment;
    forall p | p in multiset(Transmitted(w))
      ensures Genuine(chunk, p, w.lps + Burst(w), npe)
    {
      assert p in Transmitted(w);
      var i :| 0 <= i < Burst(w) && Transmitted(w)[i] == p;
      assert p == Original(chunk, w.lps + 1 + i);
      OriginalNumber(chunk, w.lps + 1 + i);
    }
  }

  lemma OriginalNumber(chunk: seq<byte>, i: int)
    requires |chunk| == CHUNK_SIZE && 1 <= i <= N
    ensures Original(chunk, i).seqNum == i
  {
  }

  lemma JumpKeeps(chunk: seq<byte>, w: Win, h: History, c: int)
    requires |chunk| == CHUNK_SIZE && SenderInv(chunk, w, h) && c <= h.hi && Jumps(w, c)
    ensures SenderInv(chunk, w.WithAcked(c, 1).JumpTo(c), h.(jumps := h.jumps + 1, dups := 0))
  {
  }

  lemma AdvanceKeeps(chunk: seq<byte>, w: Win, h: History, c: int)
    requires |chunk| == CHUNK_SIZE && SenderInv(chunk, w, h) && Advances(w, c)
    ensures SenderInv(chunk, w.WithAcked(c, 1).AdvanceTo(c), h.(dups := 0))
  {
    hide Win.Grown;
    GrownBounds(w.WithAcked(c, 1), c - w.lpa);
  }

  lemma DuplicateKeeps(chunk: seq<byte>, w: Win, h: History, c: int)
    requires |chunk| == CHUNK_SIZE && SenderInv(chunk, w, h) && Duplicates(w, c)
    ensures SenderInv(chunk, OnAck(w, c), Noted(h, w, c))
  {
    var seen := w.WithAcked(c, h.dups + 2);
    if h.dups == 2 {
      assert seen.Collapse() == w.Collapse();
      CollapseKeeps(chunk, w, h);
    }
  }

  lemma StaleKeeps(chunk: seq<byte>, w: Win, h: History, c: int, n: int)
    requires |chunk| == CHUNK_SIZE && SenderInv(chunk, w, h) && 1 <= c < w.lpa
    ensures SenderInv(chunk, w.WithAcked(c, n), h)
  {
  }

  lemma AckKeeps(chunk: seq<byte>, w: Win, h: History, c: int)
    requires |chunk| == CHUNK_SIZE && SenderInv(chunk, w, h) && c <= h.hi
    ensures AckNames(w, c)
    ensures SenderInv(chunk, OnAck(w, c), Noted(h, w, c))
  {
    if c < 1 {
    } else if Jumps(w, c) {
      JumpKeeps(chunk, w, h, c);
    } else if Advances(w, c) {
      AdvanceKeeps(chunk, w, h, c);
    } else if Duplicates(w, c) {
      DuplicateKeeps(chunk, w, h, c);
    } else {
      StaleKeeps(chunk, w, h, c, w.buf[c].value.acked + 1);
    }
  }

  // ---- the receiver's step ----

  lemma {:induction false} PayloadBytesSplit(buf: seq<Option<Packet>>, i: int, j: int, k: int)
    requires 0 <= i <= j <= k <= |buf| && forall n :: i <= n < k ==> buf[n].Some?
    ensures PayloadBytes(buf, i, k) == PayloadBytes(buf, i, j) + PayloadBytes(buf, j, k)
    decreases k
  {
    if j < k { PayloadBytesSplit(buf, i, j, k - 1); }
  }

  lemma {:induction false} PayloadBytesLocal(a: seq<Option<Packet>>, b: seq<Option<Packet>>, i: int, j: int)
    requires 0 <= i <= j <= |a| && j <= |b| && a[i..j] == b[i..j] && forall n :: i <= n < j ==> a[n].Some?
    ensures forall n :: i <= n < j ==> b[n].Some?
    ensures PayloadBytes(a, i, j) == PayloadBytes(b, i, j)
    decreases j
  {
    forall n | i <= n < j ensures b[n] == a[n] { assert b[n] == b[i..j][n - i] == a[i..j][n - i]; }
    if i < j {
      assert a[i..j - 1] == a[i..j][..j - 1 - i] == b[i..j - 1];
      PayloadBytesLocal(a, b, i, j - 1);
    }
  }

  /** The slots after storing packet p: only its own slot may be new. */
  lemma StoredSlots(chunk: seq<byte>, r: Recv, p: Packet, hi: int)
    requires |chunk| == CHUNK_SIZE && Received(chunk, r, hi) && Acceptable(r, p)
    requires 1 <= p.seqNum <= hi <= N && p == Original(chunk, p.seqNum)
    ensures Stored(r, p)[p.seqNum] == Some(p)
    ensures forall i :: 0 <= i < SLOTS && i != p.seqNum ==> Stored(r, p)[i] == r.buf[i]
    ensures PayloadBytes(Stored(r, p), 1, r.npe) == r.bytes
  {
    OriginalNumber(chunk, p.seqNum);
    LastSlotEmpty(chunk, r, hi);
    hide Original;
    var buf := Stored(r, p);
    assert buf[p.seqNum] == Some(p);
    BelowUnchanged(chunk, r, p, hi);
    PayloadBytesLocal(r.buf, buf, 1, r.npe);
  }

  lemma LastSlotEmpty(chunk: seq<byte>, r: Recv, hi: int)
    requires |chunk| == CHUNK_SIZE && Received(chunk, r, hi)
    ensures r.Shaped() && r.buf[SLOTS - 1].None? && r.npe <= SLOTS - 1
  {
    hide Original;
  }

  /** A packet stored below the gap replaces the same packet. */
  lemma BelowUnchanged(chunk: seq<byte>, r: Recv, p: Packet, hi: int)
    requires |chunk| == CHUNK_SIZE && Received(chunk, r, hi) && Acceptable(r, p)
    requires 1 <= p.seqNum <= hi <= N && p == Original(chunk, p.seqNum)
    ensures Stored(r, p)[1..r.npe] == r.buf[1..r.npe]
  {
    hide Original;
    assert p.seqNum < r.npe ==> r.buf[p.seqNum] == Some(p);
  }

  lemma DataKeeps(chunk: seq<byte>, r: Recv, p: Packet, hi: int)
    requires |chunk| == CHUNK_SIZE && Received(chunk, r, hi)
    requires 1 <= p.seqNum <= hi <= N && p == Original(chunk, p.seqNum)
    ensures Received(chunk, OnData(r, p), hi)
    ensures OnData(r, p).npe >= r.npe
  {
    hide Fragment;
    if Acceptable(r, p) {
      StoredSlots(chunk, r, p, hi);
      if p.seqNum == r.npe { PayloadBytesSplit(Stored(r, p), 1, r.npe, Gap(Stored(r, p), r.npe)); }
    }
  }

  lemma BurstGenuine(chunk: seq<byte>, i: int, j: int, hi: int)
    requires |chunk| == CHUNK_SIZE && 0 <= i <= j
    ensures AllGenuine(chunk, multiset(AckBurst(i, j)), hi, j)
  {
    forall a | a in multiset(AckBurst(i, j))
      ensures Genuine(chunk, a, hi, j)
    {
      assert a in AckBurst(i, j);
      var k :| 0 <= k < j - i && AckBurst(i, j)[k] == a;
      assert a == FormAck(i + k);
    }
  }

  lemma AnswersGenuine(chunk: seq<byte>, r: Recv, p: Packet, hi: int)
    requires |chunk| == CHUNK_SIZE && Received(chunk, r, hi)
    requires 1 <= p.seqNum <= hi <= N
    ensures AllGenuine(chunk, multiset(Answers(r, p)), hi, OnData(r, p).npe)
  {
    LastSlotEmpty(chunk, r, hi);
    AnswerCases(r, p);
    hide *;
    if !Acceptable(r, p) {
      NoneGenuine(chunk, hi, r.npe);
    } else if p.seqNum == r.npe {
      BurstGenuine(chunk, r.npe, OnData(r, p).npe, hi);
    } else if p.seqNum > r.npe {
      OneGenuine(chunk, r.npe - 1, hi, r.npe);
    } else {
      OneGenuine(chunk, p.seqNum, hi, r.npe);
    }
  }

  /** What the receiver answers, case by case. */
  lemma AnswerCases(r: Recv, p: Packet)
    requires r.Shaped() && 1 <= p.seqNum <= N
    ensures r.npe >= 1 && OnData(r, p).npe >= r.npe
    ensures !Acceptable(r, p) ==> Answers(r, p) == [] && OnData(r, p).npe == r.npe
    ensures Acceptable(r, p) && p.seqNum == r.npe ==> Answers(r, p) == AckBurst(r.npe, OnData(r, p).npe)
    ensures Acceptable(r, p) && p.seqNum > r.npe ==> Answers(r, p) == [FormAck(r.npe - 1)] && OnData(r, p).npe == r.npe
    ensures Acceptable(r, p) && p.seqNum < r.npe ==> Answers(r, p) == [FormAck(p.seqNum)] && OnData(r, p).npe == r.npe
  {
    hide Stored, Gap, FormAck;
  }

  lemma NoneGenuine(chunk: seq<byte>, hi: int, npe: int)
    requires |chunk| == CHUNK_SIZE
    ensures AllGenuine(chunk, multiset([]), hi, npe)
  {
  }

  lemma OneGenuine(chunk: seq<byte>, c: int, hi: int, npe: int)
    requires |chunk| == CHUNK_SIZE && 0 <= c < npe
    ensures AllGenuine(chunk, multiset([FormAck(c)]), hi, npe)
  {
    hide Original;
  }

  // ---- every step keeps the invariant ----

  lemma GenuineJoin(chunk: seq<byte>, net: multiset<Packet>, more: multiset<Packet>, hi: int, npe: int, hi': int, npe': int)
    requires |chunk| == CHUNK_SIZE && hi <= hi' && npe <= npe'
    requires AllGenuine(chunk, net, hi, npe) && AllGenuine(chunk, more, hi', npe')
    ensures AllGenuine(chunk, net + more, hi', npe')
  {
  }

  lemma SendStepInv(chunk: seq<byte>, s: Sys, now: int)
    requires |chunk| == CHUNK_SIZE && Inv(chunk, s) && now > 0 && s.win.lps < N
    ensures Inv(chunk, SendStep(s, now))
  {
    hide Congested, Unblocked, Opening, Counted, Calm, Fragment, Stamped;
    var w := s.win;
    var hi := Max(s.past.hi, OnSend(w, now).lps);
    assert SenderInv(chunk, OnSend(w, now), s.past.(hi := hi)) by { SendKeeps(chunk, w, s.past, now); }
    assert AllGenuine(chunk, SendStep(s, now).net, hi, s.recv.npe) by {
      SendGenuine(chunk, w, s.past, s.recv.npe);
      GenuineJoin(chunk, multiset{}, multiset(Transmitted(w)), w.lps + Burst(w), s.recv.npe, hi, s.recv.npe);
      GenuineJoin(chunk, s.net, multiset(Transmitted(w)), s.past.hi, s.recv.npe, hi, s.recv.npe);
    }
    assert Received(chunk, s.recv, hi);
  }

  lemma DataStepInv(chunk: seq<byte>, s: Sys, p: Packet)
    requires |chunk| == CHUNK_SIZE && Inv(chunk, s)
    requires 1 <= p.seqNum <= s.past.hi && p == Original(chunk, p.seqNum)
    ensures Inv(chunk, DataStep(s, p))
  {
    var npe := OnData(s.recv, p).npe;
    assert Received(chunk, OnData(s.recv, p), s.past.hi) && npe >= s.recv.npe by {
      DataKeeps(chunk, s.recv, p, s.past.hi);
    }
    AnswersGenuine(chunk, s.recv, p, s.past.hi);
    GenuineJoin(chunk, s.net, multiset(Answers(s.recv, p)), s.past.hi, s.recv.npe, s.past.hi, npe);
  }

  lemma AckStepInv(chunk: seq<byte>, s: Sys, c: int)
    requires |chunk| == CHUNK_SIZE && Inv(chunk, s) && c < s.recv.npe
    ensures Inv(chunk, AckStep(s, c))
  {
    AckKeeps(chunk, s.win, s.past, c);
    assert Noted(s.past, s.win, c).hi == s.past.hi;
    assert OnAck(s.win, c).lpa < s.recv.npe;
  }

  lemma DeliverInv(chunk: seq<byte>, s: Sys, p: Packet)
    requires |chunk| == CHUNK_SIZE && Inv(chunk, s) && p in s.net
    ensures Inv(chunk, Step(s, Deliver(p)))
  {
    var taken := s.(net := s.net - multiset{p});
    NetworkStepInv(chunk, s, p);
    GenuineKind(chunk, s, p);
    DeliverIs(s, p);
    hide *;
    if p.ptype == 3 { DataStepInv(chunk, taken, p); }
    else if p.ptype == 4 { AckStepInv(chunk, taken, p.ackNum); }
  }

  lemma DeliverIs(s: Sys, p: Packet)
    requires p in s.net
    ensures var taken := s.(net := s.net - multiset{p});
            Step(s, Deliver(p)) == if p.ptype == 3 then DataStep(taken, p)
                                   else if p.ptype == 4 then AckStep(taken, p.ackNum) else taken
  {
    hide DataStep, AckStep;
  }

  /** What a packet in transit is, by its type. */
  lemma GenuineKind(chunk: seq<byte>, s: Sys, p: Packet)
    requires |chunk| == CHUNK_SIZE && Inv(chunk, s) && p in s.net
    ensures p.ptype == 3 ==> 1 <= p.seqNum <= s.past.hi && p.seqNum <= N && p == Original(chunk, p.seqNum)
    ensures p.ptype == 4 ==> 0 <= p.ackNum < s.recv.npe
  {
    assert Genuine(chunk, p, s.past.hi, s.recv.npe);
  }

  lemma TimerStepInv(chunk: seq<byte>, s: Sys, now: int)
    requires |chunk| == CHUNK_SIZE && Inv(chunk, s) && s.win.lpa < N
    ensures Inv(chunk, TimerStep(s, now))
  {
    TimerKeeps(chunk, s.win, s.past, now);
    assert OnTimer(s.win, now).lpa == s.win.lpa;
  }

  lemma NetworkStepInv(chunk: seq<byte>, s: Sys, p: Packet)
    requires |chunk| == CHUNK_SIZE && Inv(chunk, s)
    ensures Inv(chunk, s.(net := s.net - multiset{p}))
    ensures p in s.net ==> Inv(chunk, s.(net := s.net + multiset{p}))
  {
  }

  lemma StepInv(chunk: seq<byte>, s: Sys, e: Event)
    requires |chunk| == CHUNK_SIZE && Inv(chunk, s)
    ensures Inv(chunk, Step(s, e))
  {
    match e
    case Send(now) => if now > 0 && s.win.lps < N { SendStepInv(chunk, s, now); }
    case Timer(now) => if s.win.lpa < N { TimerStepInv(chunk, s, now); }
    case Deliver(p) => if p in s.net { DeliverInv(chunk, s, p); }
    case Lose(p) => NetworkStepInv(chunk, s, p);
    case Duplicate(p) => NetworkStepInv(chunk, s, p);
    case Close =>
  }

  lemma {:induction false} RunInv(chunk: seq<byte>, s: Sys, es: seq<Event>)
    requires |chunk| == CHUNK_SIZE && Inv(chunk, s)
    ensures Inv(chunk, Run(s, es))
  {
    if es != [] {
      RunInv(chunk, s, es[..|es| - 1]);
      StepInv(chunk, Run(s, es[..|es| - 1]), es[|es| - 1]);
    }
  }

  // ---- reachable states ----

  ghost predicate Next(s: Sys, t: Sys) { exists e :: t == Step(s, e) }

  /** A sequence of states, each one step from the one before, starting with a loaded window. */
  ghost predicate Behaviour(chunk: seq<byte>, ss: seq<Sys>)
    requires |chunk| == CHUNK_SIZE
  {
    && ss != [] && ss[0] == Init(chunk)
    && forall i, j {:trigger Next(ss[i], ss[j])} :: 0 <= i && i + 1 == j < |ss| ==> Next(ss[i], ss[j])
  }

  /** s occurs on some run of a transfer of the chunk. */
  ghost predicate Reachable(chunk: seq<byte>, s: Sys) {
    |chunk| == CHUNK_SIZE && exists ss :: Behaviour(chunk, ss) && ss[|ss| - 1] == s
  }

  lemma {:induction false} BehaviourInv(chunk: seq<byte>, ss: seq<Sys>)
    requires |chunk| == CHUNK_SIZE && Behaviour(chunk, ss)
    ensures Inv(chunk, ss[|ss| - 1])
    decreases |ss|
  {
    hide Inv, Step, Init;
    var n := |ss| - 1;
    if n == 0 {
      InitInv(chunk);
    } else {
      BehaviourInv(chunk, ss[..n]);
      assert Next(ss[n - 1], ss[n]);
      var e :| ss[n] == Step(ss[n - 1], e);
      StepInv(chunk, ss[n - 1], e);
    }
  }

  lemma ReachableInv(chunk: seq<byte>, s: Sys)
    requires Reachable(chunk, s)
    ensures |chunk| == CHUNK_SIZE && Inv(chunk, s)
  {
    hide Inv, Step, Init;
    var ss :| Behaviour(chunk, ss) && ss[|ss| - 1] == s;
    BehaviourInv(chunk, ss);
  }

  /** Reachable states are exactly the results of runs. */
  lemma ReachableIffRun(chunk: seq<byte>, s: Sys)
    requires |chunk| == CHUNK_SIZE
    ensures Reachable(chunk, s) <==> exists es :: Run(Init(chunk), es) == s
  {
    hide Init, Run, Step;
    if Reachable(chunk, s) {
      var ss :| Behaviour(chunk, ss) && ss[|ss| - 1] == s;
      var es := RunOf(chunk, ss);
    }
    if es :| Run(Init(chunk), es) == s {
      var ss := BehaviourOf(chunk, es);
    }
  }

  lemma {:induction false} RunOf(chunk: seq<byte>, ss: seq<Sys>) returns (es: seq<Event>)
    requires |chunk| == CHUNK_SIZE && Behaviour(chunk, ss)
    ensures Run(Init(chunk), es) == ss[|ss| - 1]
    decreases |ss|
  {
    hide Step, Init;
    var n := |ss| - 1;
    if n == 0 {
      es := [];
    } else {
      var before := RunOf(chunk, ss[..n]);
      assert Next(ss[n - 1], ss[n]);
      var e :| ss[n] == Step(ss[n - 1], e);
      es := before + [e];
      assert es[..|es| - 1] == before;
    }
  }

  lemma {:induction false} BehaviourOf(chunk: seq<byte>, es: seq<Event>) returns (ss: seq<Sys>)
    requires |chunk| == CHUNK_SIZE
    ensures Behaviour(chunk, ss) && ss[|ss| - 1] == Run(Init(chunk), es)
  {
    hide Step, Init;
    if es == [] {
      ss := [Init(chunk)];
    } else {
      var before := BehaviourOf(chunk, es[..|es| - 1]);
      ss := before + [Run(Init(chunk), es)];
      Extended(chunk, before, es[|es| - 1]);
    }
  }

  lemma Extended(chunk: seq<byte>, ss: seq<Sys>, e: Event)
    requires |chunk| == CHUNK_SIZE && Behaviour(chunk, ss)
    ensures Behaviour(chunk, ss + [Step(ss[|ss| - 1], e)])
  {
    hide Step, Init;
    var last := Step(ss[|ss| - 1], e);
    var tt := ss + [last];
    forall i, j | 0 <= i && i + 1 == j < |tt|
      ensures Next(tt[i], tt[j])
    {
      if j < |ss| {
        assert Next(ss[i], ss[j]);
      }
    }
  }
}
