/** The cap of 128 packets on the congestion window: the jump of upon_receive_ACK does not apply it. On which runs the
    cap holds; why it holds when the sender sends after every acknowledgement, as the program's loop does for
    acknowledgements that arrive in datagrams of their own; and a run on which it does not. */
module CongestionCap {
  import opened Basics
  import opened Packets
  import opened SlidingWindow
  import opened Receiver
  import opened Transfer
  import opened TransferSafety
  import opened TransferProgress
  import opened TransferCompletion
  import opened Congestion

  // ---- exactly which runs respect the cap ----

  /** The event delivers an acknowledgement beyond everything sent since the last collapse while the window is
      within one packet of the cap. */
  predicate Overflows(s: Sys, e: Event) {
    e.Deliver? && e.p in s.net && e.p.ptype == 4 && Jumps(s.win, e.p.ackNum) && s.win.cwnd > TCP_MAXWIN - 1.0
  }

  lemma AckCap(chunk: seq<byte>, w: Win, h: History, c: int)
    requires |chunk| == CHUNK_SIZE && SenderInv(chunk, w, h) && Capped(w) && c <= h.hi
    ensures AckNames(w, c) && w.cwnd != 0.0
    ensures if Jumps(w, c) && w.cwnd > TCP_MAXWIN - 1.0 then OnAck(w, c).cwnd > TCP_MAXWIN else Capped(OnAck(w, c))
  {
    hide Win.Grown;
    if Advances(w, c) {
      GrownBounds(w.WithAcked(c, 1), c - w.lpa);
      assert w.buf[c].value.acked == 0;
    }
  }

  lemma SendCap(w: Win, now: int)
    requires CanSend(w) && Capped(w) && w.lpa <= w.lps && w.cwnd >= 1.0 && (w.count == 0 || w.count == w.Room())
    ensures Capped(OnSend(w, now))
  {
  }

  lemma TimerCap(w: Win, now: int)
    requires w.Filled(w.lpa + 1) && (w.lpa != 0 ==> w.Filled(w.lpa)) && Capped(w) && w.cwnd >= 1.0
    ensures Capped(OnTimer(w, now))
  {
  }

  lemma TimerIs(s: Sys, now: int)
    requires s.win.lpr == N + 1
    requires s.win.lpa < N ==> s.win.Filled(s.win.lpa + 1) && (s.win.lpa != 0 ==> s.win.Filled(s.win.lpa))
    ensures var t := Step(s, Timer(now));
            t.win == (if s.win.lpa < N then OnTimer(s.win, now) else s.win) && t.past.hi == s.past.hi
  {
    hide OnTimer;
  }

  lemma SendIs(s: Sys, now: int)
    requires s.win.lpr == N + 1 && (s.win.lps < N ==> CanSend(s.win))
    ensures var t := Step(s, Send(now));
            if now > 0 && s.win.lps < N
            then t.win == OnSend(s.win, now) && t.past.hi == Max(s.past.hi, OnSend(s.win, now).lps)
            else t == s
  {
    hide OnSend, CanSend, Transmitted;
  }

  lemma SendCapStep(chunk: seq<byte>, s: Sys, now: int)
    requires |chunk| == CHUNK_SIZE && Inv(chunk, s) && Capped(s.win)
    ensures Capped(Step(s, Send(now)).win)
  {
    SenderParts(chunk, s);
    hide Step, OnSend, CanSend, Capped, Inv, SenderInv;
    if s.win.lps < N {
      SendKeeps(chunk, s.win, s.past, 1);
      SendCap(s.win, now);
    }
    SendIs(s, now);
  }

  lemma TimerCapStep(chunk: seq<byte>, s: Sys, now: int)
    requires |chunk| == CHUNK_SIZE && Inv(chunk, s) && Capped(s.win)
    ensures Capped(Step(s, Timer(now)).win)
  {
    SenderParts(chunk, s);
    hide Step, OnTimer, Capped, Inv, SenderInv;
    if s.win.lpa < N {
      TimerKeeps(chunk, s.win, s.past, now);
      TimerCap(s.win, now);
    }
    TimerIs(s, now);
  }

  lemma SenderParts(chunk: seq<byte>, s: Sys)
    requires |chunk| == CHUNK_SIZE && Inv(chunk, s)
    ensures SenderInv(chunk, s.win, s.past) && s.win.lpr == N + 1 && 0 <= s.win.lpa <= s.win.lps <= N
    ensures s.win.cwnd >= 1.0 && (s.win.count == 0 || s.win.count == s.win.Room())
  {
  }

  lemma DeliverCap(chunk: seq<byte>, s: Sys, p: Packet)
    requires |chunk| == CHUNK_SIZE && Inv(chunk, s) && Capped(s.win) && p in s.net && p.ptype == 4
    ensures if Overflows(s, Deliver(p)) then Step(s, Deliver(p)).win.cwnd > TCP_MAXWIN
            else Capped(Step(s, Deliver(p)).win)
  {
    hide OnAck, Capped;
    assert Genuine(chunk, p, s.past.hi, s.recv.npe);
    AckCap(chunk, s.win, s.past, p.ackNum);
  }

  /** One step from a capped state leaves the cap exactly when the event overflows. */
  lemma CapStepIff(chunk: seq<byte>, s: Sys, e: Event)
    requires |chunk| == CHUNK_SIZE && Inv(chunk, s) && Capped(s.win)
    ensures if Overflows(s, e) then Step(s, e).win.cwnd > TCP_MAXWIN else Capped(Step(s, e).win)
  {
    hide Inv;
    match e
    case Send(now) => SendCapStep(chunk, s, now);
    case Timer(now) => TimerCapStep(chunk, s, now);
    case Deliver(p) => if p in s.net && p.ptype == 4 { DeliverCap(chunk, s, p); }
    case _ =>
  }

  function Prefix(chunk: seq<byte>, es: seq<Event>, k: nat): Sys
    requires |chunk| == CHUNK_SIZE && k <= |es|
  {
    Run(Init(chunk), es[..k])
  }

  lemma PrefixStep(chunk: seq<byte>, es: seq<Event>, k: nat)
    requires |chunk| == CHUNK_SIZE && k < |es|
    ensures Prefix(chunk, es, k + 1) == Step(Prefix(chunk, es, k), es[k])
  {
    hide Step, Init;
    assert es[..k + 1][..k] == es[..k];
  }

  /** The window is at most 128 packets at every moment of the run. */
  predicate CapHolds(chunk: seq<byte>, es: seq<Event>)
    requires |chunk| == CHUNK_SIZE
  {
    forall k :: 0 <= k <= |es| ==> Prefix(chunk, es, k).win.cwnd <= TCP_MAXWIN
  }

  predicate NeverOverflows(chunk: seq<byte>, es: seq<Event>)
    requires |chunk| == CHUNK_SIZE
  {
    forall k :: 0 <= k < |es| ==> !Overflows(Prefix(chunk, es, k), es[k])
  }

  lemma InitCapped(chunk: seq<byte>)
    requires |chunk| == CHUNK_SIZE
    ensures Capped(Init(chunk).win)
  {
  }

  lemma {:induction false} CapSoFar(chunk: seq<byte>, es: seq<Event>, k: nat)
    requires |chunk| == CHUNK_SIZE && k <= |es| && (CapHolds(chunk, es) || NeverOverflows(chunk, es))
    ensures Capped(Prefix(chunk, es, k).win)
    ensures k < |es| ==> !Overflows(Prefix(chunk, es, k), es[k])
  {
    hide Inv, Step, Run, Init, Capped, Overflows;
    if k == 0 {
      InitCapped(chunk);
      assert Run(Init(chunk), es[..0]) == Init(chunk) by { EmptyRun(Init(chunk), es[..0]); }
    } else {
      CapSoFar(chunk, es, k - 1);
      PrefixInv(chunk, es, k - 1);
      PrefixStep(chunk, es, k - 1);
      CapStepIff(chunk, Prefix(chunk, es, k - 1), es[k - 1]);
    }
    if k < |es| {
      PrefixInv(chunk, es, k);
      PrefixStep(chunk, es, k);
      CapStepIff(chunk, Prefix(chunk, es, k), es[k]);
      assert CapHolds(chunk, es) ==> Prefix(chunk, es, k + 1).win.cwnd <= TCP_MAXWIN;
    }
  }

  lemma EmptyRun(s: Sys, es: seq<Event>)
    requires es == []
    ensures Run(s, es) == s
  {
  }

  lemma PrefixInv(chunk: seq<byte>, es: seq<Event>, k: nat)
    requires |chunk| == CHUNK_SIZE && k <= |es|
    ensures Inv(chunk, Prefix(chunk, es, k))
  {
    hide Inv, Run, Init;
    InitInv(chunk);
    RunInv(chunk, Init(chunk), es[..k]);
  }

  lemma CappedWindow(w: Win)
    requires Capped(w)
    ensures w.cwnd <= TCP_MAXWIN
  {
  }

  /** The window stays within 128 packets all through a run exactly when no acknowledgement makes it jump while it
      is above 127. */
  lemma CapHoldsIff(chunk: seq<byte>, es: seq<Event>)
    requires |chunk| == CHUNK_SIZE
    ensures CapHolds(chunk, es) <==> NeverOverflows(chunk, es)
  {
    hide Capped, Overflows, Prefix;
    if CapHolds(chunk, es) || NeverOverflows(chunk, es) {
      forall k | 0 <= k <= |es|
        ensures Prefix(chunk, es, k).win.cwnd <= TCP_MAXWIN
        ensures k < |es| ==> !Overflows(Prefix(chunk, es, k), es[k])
      {
        CapSoFar(chunk, es, k);
        CappedWindow(Prefix(chunk, es, k).win);
      }
    }
  }

  // ---- runs that send after every acknowledgement ----

  predicate AckEvent(e: Event) { e.Deliver? && e.p.ptype == 4 }

  predicate SendEvent(e: Event) { e.Send? && e.now > 0 }

  predicate SentBetween(es: seq<Event>, i: int, j: int) {
    exists k :: i < k < j && 0 <= k < |es| && SendEvent(es[k])
  }

  /** Between any two delivered acknowledgements the sender's send call runs. */
  predicate Served(es: seq<Event>) {
    forall i, j :: 0 <= i < j < |es| && AckEvent(es[i]) && AckEvent(es[j]) ==> SentBetween(es, i, j)
  }

  /** The send call ran after the last delivered acknowledgement. */
  predicate Quiet(es: seq<Event>) {
    forall i :: 0 <= i < |es| && AckEvent(es[i]) ==> SentBetween(es, i, |es|)
  }

  /** As many packets in flight as the window admits, or a window of one packet. */
  predicate Full(w: Win) { w.lps == N || w.Flight() >= Trunc(w.cwnd) || w.cwnd == 1.0 }

  /** What such runs keep: nothing beyond LPA + 128 was ever sent; and a window above 127 has already passed a packet
      of those, or has sent again all that was ever sent. */
  predicate Steady(w: Win, hi: int) {
    && Capped(w) && hi <= w.lpa + 128
    && (w.cwnd > TCP_MAXWIN - 1.0 ==> hi <= w.lpa + 127 || w.lps == hi)
    && (w.count == 0 ==> w.lps == N || w.Flight() >= Trunc(w.cwnd))
  }

  /** A sender that has sent all it may is never made to jump by a window above 127. */
  lemma NoOverflow(w: Win, hi: int, c: int)
    requires Steady(w, hi) && Full(w) && c <= hi <= N
    ensures !(Jumps(w, c) && w.cwnd > TCP_MAXWIN - 1.0)
  {
  }

  lemma SteadyAck(chunk: seq<byte>, w: Win, h: History, c: int)
    requires |chunk| == CHUNK_SIZE && SenderInv(chunk, w, h) && c <= h.hi && Steady(w, h.hi) && Full(w)
    ensures AckNames(w, c) && w.cwnd != 0.0 && Steady(OnAck(w, c), h.hi)
  {
    AckCap(chunk, w, h, c);
    NoOverflow(w, h.hi, c);
    hide OnAck, SenderInv, Capped;
    AckShape(w, c, h.hi);
  }

  /** After an acknowledgement the quota is what the window leaves free, unless nothing changed or it collapsed. */
  lemma AckCount(w: Win, c: int)
    requires AckNames(w, c) && w.cwnd >= 1.0 && w.lpa <= w.lps
    ensures var t := OnAck(w, c);
            || t.count == Trunc(t.cwnd - t.Flight() as real)
            || (t.count == w.count && t.lps == w.lps && t.lpa == w.lpa && t.cwnd == w.cwnd)
    ensures var t := OnAck(w, c);
            && w.lpa <= t.lpa <= t.lps
            && (t.lpa == w.lpa ==> t.cwnd == 1.0 || (t.cwnd == w.cwnd && t.lps == w.lps))
  {
    hide Win.Grown;
  }

  lemma AckShape(w: Win, c: int, hi: int)
    requires AckNames(w, c) && w.cwnd >= 1.0 && w.lpa <= w.lps && Steady(w, hi) && Capped(OnAck(w, c))
    ensures Steady(OnAck(w, c), hi)
  {
    AckCount(w, c);
    hide OnAck, AckNames;
    var t := OnAck(w, c);
    RoomLeft(t.cwnd, t.Flight());
  }

  lemma RoomLeft(cwnd: real, flight: int)
    requires flight as real <= cwnd && cwnd >= 0.0
    ensures Trunc(cwnd - flight as real) == Trunc(cwnd) - flight
  {
  }

  lemma SteadySend(chunk: seq<byte>, w: Win, h: History, now: int)
    requires |chunk| == CHUNK_SIZE && SenderInv(chunk, w, h) && Steady(w, h.hi) && CanSend(w)
    ensures Steady(OnSend(w, now), Max(h.hi, OnSend(w, now).lps)) && Full(OnSend(w, now))
  {
    RoomLeft(w.cwnd, w.Flight());
    SendShape(w, now);
    hide OnSend, CanSend;
    assert w.lpr == N + 1;
  }

  lemma SendShape(w: Win, now: int)
    requires CanSend(w)
    ensures var t := OnSend(w, now);
            && t.lpa == w.lpa && t.cwnd == w.cwnd && t.ssthresh == w.ssthresh && t.count == 0
            && t.lps == w.lps + Max(0, Min(w.count, w.lpr - 1 - w.lps))
  {
  }

  lemma SteadyTimer(w: Win, hi: int, now: int)
    requires w.Filled(w.lpa + 1) && (w.lpa != 0 ==> w.Filled(w.lpa)) && Steady(w, hi) && w.cwnd >= 1.0
    ensures Steady(OnTimer(w, now), hi)
    ensures Full(w) ==> Full(OnTimer(w, now))
  {
    TimerCap(w, now);
  }

  /** Every step keeps it, an acknowledgement if the sender had sent all it may before. */
  lemma SteadyStep(chunk: seq<byte>, s: Sys, e: Event)
    requires |chunk| == CHUNK_SIZE && Inv(chunk, s) && Steady(s.win, s.past.hi)
    requires AckEvent(e) ==> Full(s.win)
    ensures Steady(Step(s, e).win, Step(s, e).past.hi)
    ensures SendEvent(e) || (Full(s.win) && !AckEvent(e)) ==> Full(Step(s, e).win)
  {
    hide Inv, Steady, Full;
    match e
    case Send(now) => SteadySendStep(chunk, s, now);
    case Timer(now) => SteadyTimerStep(chunk, s, now);
    case Deliver(p) => if p in s.net && p.ptype == 4 { SteadyAckStep(chunk, s, p); }
    case _ =>
  }

  lemma SteadySendStep(chunk: seq<byte>, s: Sys, now: int)
    requires |chunk| == CHUNK_SIZE && Inv(chunk, s) && Steady(s.win, s.past.hi)
    ensures var t := Step(s, Send(now));
            && Steady(t.win, t.past.hi)
            && (now > 0 || Full(s.win) ==> Full(t.win))
  {
    SenderParts(chunk, s);
    hide Steady, OnSend, Transmitted, CanSend, Inv, SenderInv, Step;
    if s.win.lps < N {
      SendKeeps(chunk, s.win, s.past, 1);
      SteadySend(chunk, s.win, s.past, now);
    }
    SendIs(s, now);
  }

  lemma SteadyTimerStep(chunk: seq<byte>, s: Sys, now: int)
    requires |chunk| == CHUNK_SIZE && Inv(chunk, s) && Steady(s.win, s.past.hi)
    ensures var t := Step(s, Timer(now));
            && Steady(t.win, t.past.hi) && (Full(s.win) ==> Full(t.win))
  {
    SenderParts(chunk, s);
    hide Steady, Full, OnTimer, Inv, SenderInv, Step;
    if s.win.lpa < N {
      TimerKeeps(chunk, s.win, s.past, now);
      SteadyTimer(s.win, s.past.hi, now);
    }
    TimerIs(s, now);
  }

  lemma SteadyAckStep(chunk: seq<byte>, s: Sys, p: Packet)
    requires |chunk| == CHUNK_SIZE && Inv(chunk, s) && Steady(s.win, s.past.hi) && Full(s.win)
    requires p in s.net && p.ptype == 4
    ensures var t := Step(s, Deliver(p)); Steady(t.win, t.past.hi)
  {
    hide Steady, Full, OnAck;
    assert Genuine(chunk, p, s.past.hi, s.recv.npe);
    SteadyAck(chunk, s.win, s.past, p.ackNum);
    assert Noted(s.past, s.win, p.ackNum).hi == s.past.hi;
  }

  lemma InitSteady(chunk: seq<byte>)
    requires |chunk| == CHUNK_SIZE
    ensures Steady(Init(chunk).win, Init(chunk).past.hi)
  {
  }

  lemma ServedPrefix(es: seq<Event>, n: nat)
    requires Served(es) && n <= |es|
    ensures Served(es[..n])
  {
    forall i, j | 0 <= i < j < n && AckEvent(es[..n][i]) && AckEvent(es[..n][j])
      ensures SentBetween(es[..n], i, j)
    {
      assert AckEvent(es[i]) && AckEvent(es[j]);
      var k :| i < k < j && 0 <= k < |es| && SendEvent(es[k]);
      assert es[..n][k] == es[k];
    }
  }

  /** Before a further acknowledgement of a served run the send call ran. */
  lemma QuietBefore(es: seq<Event>)
    requires es != [] && Served(es)
    ensures AckEvent(es[|es| - 1]) ==> Quiet(es[..|es| - 1])
    ensures Quiet(es) && !SendEvent(es[|es| - 1]) ==> Quiet(es[..|es| - 1])
  {
    var n := |es| - 1;
    var pre := es[..n];
    if AckEvent(es[n]) || (Quiet(es) && !SendEvent(es[n])) {
      assert !SendEvent(es[n]);
      forall i | 0 <= i < n && AckEvent(pre[i])
        ensures SentBetween(pre, i, n)
      {
        assert AckEvent(es[i]);
        assert SentBetween(es, i, n) || SentBetween(es, i, n + 1);
        var k :| i < k < n + 1 && 0 <= k < |es| && SendEvent(es[k]);
        assert k != n;
        assert pre[k] == es[k];
      }
    }
  }

  lemma {:induction false} ServedSteady(chunk: seq<byte>, es: seq<Event>)
    requires |chunk| == CHUNK_SIZE && Served(es)
    ensures var s := Run(Init(chunk), es);
            Steady(s.win, s.past.hi) && (Quiet(es) ==> Full(s.win))
  {
    hide Inv, Step, Init, Steady, Full, Served, Quiet;
    if es == [] {
      InitSteady(chunk);
      InitFull(chunk);
    } else {
      var n := |es| - 1;
      ServedPrefix(es, n);
      ServedSteady(chunk, es[..n]);
      QuietBefore(es);
      NotQuiet(es);
      InitInv(chunk);
      RunInv(chunk, Init(chunk), es[..n]);
      SteadyStep(chunk, Run(Init(chunk), es[..n]), es[n]);
    }
  }

  lemma InitFull(chunk: seq<byte>)
    requires |chunk| == CHUNK_SIZE
    ensures Full(Init(chunk).win)
  {
  }

  lemma NotQuiet(es: seq<Event>)
    requires es != []
    ensures AckEvent(es[|es| - 1]) ==> !Quiet(es)
  {
    assert !SentBetween(es, |es| - 1, |es|);
  }

  /** On every run that sends after every acknowledgement, jumps included, the window stays within 128 packets, the
      threshold within 64 and the packets in flight within the window, at every moment. */
  lemma ServedRunsAreCapped(chunk: seq<byte>, es: seq<Event>, k: nat)
    requires |chunk| == CHUNK_SIZE && Served(es) && k <= |es|
    ensures var w := Run(Init(chunk), es[..k]).win;
            w.cwnd <= TCP_MAXWIN && w.ssthresh <= 64 && w.Flight() as real <= w.cwnd
  {
    hide Run, Init;
    ServedPrefix(es, k);
    ServedSteady(chunk, es[..k]);
  }

  // ---- a run that exceeds it ----

  /** Two runs after each other, the second of which starts by sending. */
  lemma ServedConcat(a: seq<Event>, b: seq<Event>)
    requires Served(a) && Served(b) && b != [] && SendEvent(b[0])
    ensures Served(a + b)
  {
    var es, n := a + b, |a|;
    forall i, j | 0 <= i < j < |es| && AckEvent(es[i]) && AckEvent(es[j])
      ensures SentBetween(es, i, j)
    {
      if j < n {
        assert AckEvent(a[i]) && AckEvent(a[j]);
        var k :| i < k < j && 0 <= k < |a| && SendEvent(a[k]);
        assert es[k] == a[k];
      } else if i < n {
        assert es[n] == b[0];
      } else {
        assert AckEvent(b[i - n]) && AckEvent(b[j - n]);
        var k :| i - n < k < j - n && 0 <= k < |b| && SendEvent(b[k]);
        assert es[n + k] == b[k];
      }
    }
  }

  predicate NoAcks(es: seq<Event>) { forall i :: 0 <= i < |es| ==> !AckEvent(es[i]) }

  /** At most one acknowledgement, at the end. */
  lemma OneAckServed(es: seq<Event>, e: Event)
    requires NoAcks(es)
    ensures Served(es + [e])
  {
  }

  /** Every packet up to a is sent and acknowledged, nothing is in flight, slow start has reached a + 1 packets, and
      nothing was sent after time 1. */
  predicate Doubled(chunk: seq<byte>, s: Sys, a: int)
    requires |chunk| == CHUNK_SIZE
  {
    && Inv(chunk, s) && !s.closed && StampedBy(s.win, 1)
    && s.win.lpa == s.win.lps == a && s.win.ssthresh == 64
    && s.win.cwnd == (a + 1) as real && s.win.count == a + 1 && s.past.jumps == 0
  }

  /** Packets i..j are in transit. */
  predicate DataOut(chunk: seq<byte>, net: multiset<Packet>, i: int, j: int)
    requires |chunk| == CHUNK_SIZE && 1 <= i && j <= N
  {
    forall k :: i <= k <= j ==> Original(chunk, k) in net
  }

  predicate AcksOut(net: multiset<Packet>, i: int, j: int) { forall k :: i <= k <= j ==> FormAck(k) in net }

  lemma SendWindow(chunk: seq<byte>, s: Sys, n: nat, now: int)
    requires |chunk| == CHUNK_SIZE && Inv(chunk, s) && s.win.count == n && 0 <= s.win.lps && s.win.lps + n < N && now > 0
    ensures var t := Step(s, Send(now));
            && Inv(chunk, t) && t.closed == s.closed && t.past.jumps == s.past.jumps
            && t.win.lpa == s.win.lpa && t.win.lps == s.win.lps + n
            && t.win.cwnd == s.win.cwnd && t.win.ssthresh == s.win.ssthresh
            && DataOut(chunk, t.net, s.win.lps + 1, s.win.lps + n)
            && forall p :: p in s.net ==> p in t.net
  {
    StepInv(chunk, s, Send(now));
    WholeWindow(chunk, s.win, s.past, n, now);
    hide Inv, Transmitted, OnSend, CanSend, SenderInv;
    assert s.win.lpr == N + 1;
  }

  lemma WholeWindow(chunk: seq<byte>, w: Win, h: History, n: nat, now: int)
    requires |chunk| == CHUNK_SIZE && SenderInv(chunk, w, h) && w.count == n && 0 <= w.lps && w.lps + n < N
    ensures CanSend(w) && w.lpr == N + 1 && Control(OnSend(w, now)) == Control(w).(lps := w.lps + n, count := 0)
    ensures DataOut(chunk, multiset(Transmitted(w)), w.lps + 1, w.lps + n)
  {
    hide Congested, Unblocked, Opening, Counted, Calm, Fragment;
    forall k | w.lps + 1 <= k <= w.lps + n
      ensures Original(chunk, k) in multiset(Transmitted(w))
    {
      assert Transmitted(w)[k - w.lps - 1] == Original(chunk, k);
    }
  }

  lemma OthersStay(s: Sys, p: Packet, q: Packet)
    requires q in s.net && q != p
    ensures q in Step(s, Deliver(p)).net
  {
  }

  lemma Distinct(chunk: seq<byte>, i: int, j: int)
    requires |chunk| == CHUNK_SIZE && 1 <= i < j <= N
    ensures Original(chunk, i) != Original(chunk, j)
  {
    OriginalNumber(chunk, i);
    OriginalNumber(chunk, j);
  }

  lemma DataIsNoAck(chunk: seq<byte>, i: int, c: int)
    requires |chunk| == CHUNK_SIZE && 1 <= i <= N
    ensures Original(chunk, i) != FormAck(c)
  {
  }

  /** Delivering packets i..j in order puts all their acknowledgements in transit. */
  lemma {:induction false} DeliverRange(chunk: seq<byte>, s: Sys, i: int, j: int) returns (es: seq<Event>)
    requires |chunk| == CHUNK_SIZE && Inv(chunk, s) && !s.closed
    requires 1 <= i <= s.recv.npe && i <= j + 1 <= N + 1 && DataOut(chunk, s.net, i, j)
    ensures var t := Run(s, es);
            && Inv(chunk, t) && !t.closed && t.win == s.win && t.past == s.past
            && AcksOut(t.net, i, j)
            && forall c :: FormAck(c) in s.net ==> FormAck(c) in t.net
    ensures NoAcks(es)
    decreases j - i + 1
  {
    hide Inv, Step;
    if i > j {
      es := [];
    } else {
      var p := Original(chunk, i);
      var s1 := Step(s, Deliver(p));
      DeliverFirst(chunk, s, i, j);
      var rest := DeliverRange(chunk, s1, i + 1, j);
      es := [Deliver(p)] + rest;
      RunOne(s, Deliver(p));
      RunConcat(s, [Deliver(p)], rest);
    }
  }

  lemma DeliverFirst(chunk: seq<byte>, s: Sys, i: int, j: int)
    requires |chunk| == CHUNK_SIZE && Inv(chunk, s) && !s.closed
    requires 1 <= i <= s.recv.npe && i <= j <= N && DataOut(chunk, s.net, i, j)
    ensures var t := Step(s, Deliver(Original(chunk, i)));
            && Inv(chunk, t) && !t.closed && t.win == s.win && t.past == s.past && t.recv.npe >= i + 1
            && FormAck(i) in t.net && DataOut(chunk, t.net, i + 1, j)
            && forall c :: FormAck(c) in s.net ==> FormAck(c) in t.net
  {
    hide Inv, Step;
    var p := Original(chunk, i);
    Acknowledged(chunk, s, i);
    AcceptsDelivered(chunk, s, i);
    DataKeepsPast(chunk, s, i);
    forall k | i + 1 <= k <= j
      ensures Original(chunk, k) in Step(s, Deliver(p)).net
    {
      Distinct(chunk, i, k);
      OthersStay(s, p, Original(chunk, k));
    }
    forall c | FormAck(c) in s.net
      ensures FormAck(c) in Step(s, Deliver(p)).net
    {
      DataIsNoAck(chunk, i, c);
      OthersStay(s, p, FormAck(c));
    }
  }

  lemma DataKeepsPast(chunk: seq<byte>, s: Sys, i: int)
    requires |chunk| == CHUNK_SIZE && 1 <= i <= N
    ensures Step(s, Deliver(Original(chunk, i))).past == s.past
  {
  }

  lemma AckDelivered(s: Sys, c: int)
    requires FormAck(c) in s.net && AckNames(s.win, c) && s.win.cwnd != 0.0
    ensures Step(s, Deliver(FormAck(c)))
         == s.(net := s.net - multiset{FormAck(c)}, win := OnAck(s.win, c), past := Noted(s.past, s.win, c))
  {
    hide OnAck, AckNames, Noted;
  }

  /** In slow start one acknowledgement of everything in flight doubles the window. */
  lemma AckWindow(chunk: seq<byte>, s: Sys, a: int)
    requires |chunk| == CHUNK_SIZE && Inv(chunk, s) && !s.closed && 0 <= a <= 63
    requires s.win.lpa == a && s.win.lps == 2 * a + 1 && s.win.ssthresh == 64 && s.win.cwnd == (a + 1) as real
    requires s.past.jumps == 0 && FormAck(2 * a + 1) in s.net
    ensures var t := Step(s, Deliver(FormAck(2 * a + 1)));
            && Inv(chunk, t) && !t.closed && t.past.jumps == 0
            && t.win.lpa == t.win.lps == 2 * a + 1 && t.win.ssthresh == 64
            && t.win.cwnd == (2 * a + 2) as real && t.win.count == 2 * a + 2
  {
    hide Inv, Step, OnAck, AckNames;
    var c := 2 * a + 1;
    StepInv(chunk, s, Deliver(FormAck(c)));
    AckUsable(chunk, s, c);
    AckDelivered(s, c);
    DoubledWindow(s.win, a);
  }

  lemma DoubledWindow(w: Win, a: int)
    requires 0 <= a <= 63 && w.lpa == a && w.lps == 2 * a + 1 && w.ssthresh == 64 && w.cwnd == (a + 1) as real
    requires AckNames(w, 2 * a + 1)
    ensures var t := OnAck(w, 2 * a + 1);
            && t.lpa == t.lps == 2 * a + 1 && t.ssthresh == 64
            && t.cwnd == (2 * a + 2) as real && t.count == 2 * a + 2
  {
    var c := 2 * a + 1;
    Unbuffered(w, c);
    GrowsByAcks(Control(w), a + 1);
    hide Win.Grown, OnAck, AckNames;
    var t := OnAck(w, c);
    assert Control(t) == Control(w).AdvanceTo(c);
    assert t.lpa == Control(t).lpa && t.lps == Control(t).lps && t.cwnd == Control(t).cwnd;
    assert t.count == Control(t).count && t.ssthresh == Control(t).ssthresh;
  }

  /** Send the whole window and deliver it; all acknowledgements are in transit. */
  lemma SentAndDelivered(chunk: seq<byte>, s: Sys, a: int, n: nat) returns (es: seq<Event>)
    requires |chunk| == CHUNK_SIZE && Inv(chunk, s) && !s.closed && StampedBy(s.win, 1)
    requires s.win.lpa == s.win.lps == a && s.win.count == n && a >= 0 && a + n < N
    ensures var t := Run(s, es);
            && Inv(chunk, t) && !t.closed && StampedBy(t.win, 1) && t.past.jumps == s.past.jumps
            && t.win.lpa == a && t.win.lps == a + n
            && t.win.cwnd == s.win.cwnd && t.win.ssthresh == s.win.ssthresh
            && AcksOut(t.net, a + 1, a + n)
    ensures es != [] && SendEvent(es[0]) && NoAcks(es)
  {
    hide Inv, Step, StampedBy;
    var s1 := Step(s, Send(1));
    SendWindow(chunk, s, n, 1);
    StampStep(s, Send(1), 1);
    NextIsExpected(chunk, s1);
    var rest := DeliverRange(chunk, s1, a + 1, a + n);
    es := [Send(1)] + rest;
    RunOne(s, Send(1));
    RunConcat(s, [Send(1)], rest);
  }

  lemma Doubling(chunk: seq<byte>, s: Sys, a: int) returns (es: seq<Event>)
    requires |chunk| == CHUNK_SIZE && Doubled(chunk, s, a) && 0 <= a <= 63
    ensures Doubled(chunk, Run(s, es), 2 * a + 1)
    ensures es != [] && SendEvent(es[0]) && Served(es)
  {
    hide Inv, Step, StampedBy, Served;
    var b := SentAndDelivered(chunk, s, a, a + 1);
    var t := Run(s, b);
    var ack := Deliver(FormAck(2 * a + 1));
    assert FormAck(2 * a + 1) in t.net;
    AckWindow(chunk, t, a);
    StampStep(t, ack, 1);
    es := b + [ack];
    OneAckServed(b, ack);
    RunOne(t, ack);
    RunConcat(s, b, [ack]);
  }

  lemma StartDoubled(chunk: seq<byte>)
    requires |chunk| == CHUNK_SIZE
    ensures Doubled(chunk, Init(chunk), 0)
  {
    hide Inv;
    InitInv(chunk);
  }

  function Pow2(n: nat): int { if n == 0 then 1 else 2 * Pow2(n - 1) }

  lemma {:induction false} SlowStartTo(chunk: seq<byte>, n: nat) returns (es: seq<Event>)
    requires |chunk| == CHUNK_SIZE && n <= 7
    ensures 1 <= Pow2(n) <= 128 && (n <= 6 ==> Pow2(n) <= 64)
    ensures Doubled(chunk, Run(Init(chunk), es), Pow2(n) - 1) && Served(es)
    decreases n
  {
    hide Doubled, Init, Step;
    assert Pow2(6) == 64 && Pow2(5) == 32 && Pow2(4) == 16 && Pow2(3) == 8 && Pow2(2) == 4;
    if n == 0 {
      StartDoubled(chunk);
      es := [];
    } else {
      var a := SlowStartTo(chunk, n - 1);
      hide Served;
      var s := Run(Init(chunk), a);
      var b := Doubling(chunk, s, Pow2(n - 1) - 1);
      RunConcat(Init(chunk), a, b);
      ServedConcat(a, b);
      es := a + b;
    }
  }

  /** The oldest packet in flight expires: one packet of window, nothing in flight, the network as it was. */
  lemma Expire(chunk: seq<byte>, s: Sys)
    requires |chunk| == CHUNK_SIZE && Inv(chunk, s) && StampedBy(s.win, 1) && 1 <= s.win.lpa < s.win.lps
    requires s.win.cwnd == 128.0
    ensures var t := Step(s, Timer(4));
            && Inv(chunk, t) && t.net == s.net && t.past.jumps == s.past.jumps
            && t.win.lpa == t.win.lps == s.win.lpa && t.win.cwnd == 1.0 && t.win.ssthresh == 64
  {
    StepInv(chunk, s, Timer(4));
    ExpiredWindow(chunk, s.win, s.past);
    hide Inv, SenderInv, OnTimer, StampedBy;
    assert s.win.lpr == N + 1;
  }

  lemma ExpiredWindow(chunk: seq<byte>, w: Win, h: History)
    requires |chunk| == CHUNK_SIZE && SenderInv(chunk, w, h) && StampedBy(w, 1) && 1 <= w.lpa < w.lps && w.cwnd == 128.0
    ensures w.lpa < N && w.lpr == N + 1 && w.Filled(w.lpa + 1) && w.Filled(w.lpa)
    ensures var t := OnTimer(w, 4); t.lpa == t.lps == w.lpa && t.cwnd == 1.0 && t.ssthresh == 64
  {
    hide Congested, Unblocked, Opening, Calm, Fragment;
    assert w.buf[w.lpa + 1].value.timestamp > 0;
    assert Trunc(128.0 / 2.0) == 64;
  }

  /** Delivering an acknowledgement in transit: the window moves to it, the others stay in transit. */
  lemma AckTurn(chunk: seq<byte>, s: Sys, c: int, last: int)
    requires |chunk| == CHUNK_SIZE && Inv(chunk, s) && 0 <= s.win.lpa < c <= last && AcksOut(s.net, c, last)
    ensures var t := Step(s, Deliver(FormAck(c)));
            && AckNames(s.win, c) && s.win.cwnd != 0.0
            && Inv(chunk, t) && t.win == OnAck(s.win, c) && AcksOut(t.net, c + 1, last)
            && t.past.jumps == s.past.jumps + if Jumps(s.win, c) then 1 else 0
  {
    hide Inv, OnAck, AckNames, Step;
    StepInv(chunk, s, Deliver(FormAck(c)));
    AckUsable(chunk, s, c);
    AckDelivered(s, c);
    forall k | c + 1 <= k <= last
      ensures FormAck(k) in Step(s, Deliver(FormAck(c))).net
    {
      OthersStay(s, FormAck(c), FormAck(k));
    }
  }

  lemma JumpWindow(w: Win, c: int)
    requires AckNames(w, c) && w.cwnd != 0.0 && w.lps == c - 1 && c >= 1
    ensures var t := OnAck(w, c);
            && t.lpa == t.lps == c && t.cwnd == w.cwnd + 1.0 && t.ssthresh == w.ssthresh
            && t.count == Trunc(w.cwnd + 1.0)
  {
  }

  /** After the timeout, slow start with a send call after every acknowledgement: packets up to a are acknowledged,
      the window is a - 126 packets, two of which are free, and the acknowledgements up to 255 are in transit. */
  predicate Climbing(chunk: seq<byte>, s: Sys, a: int)
    requires |chunk| == CHUNK_SIZE
  {
    && Inv(chunk, s) && s.win.lpa == a && s.win.lps == 2 * a - 128 && s.win.ssthresh == 64
    && s.win.cwnd == (a - 126) as real && s.win.count == 2 && s.past.jumps == 1 && AcksOut(s.net, a + 1, 255)
  }

  lemma ClimbWindow(w: Win, a: int)
    requires 128 <= a <= 190 && AckNames(w, a + 1) && w.Filled(a + 1)
    requires w.lpa == a && w.lps == 2 * a - 126 && w.ssthresh == 64 && w.cwnd == (a - 126) as real
    ensures var t := OnAck(w, a + 1);
            && t.lpa == a + 1 && t.lps == 2 * a - 126 && t.ssthresh == 64
            && t.cwnd == (a - 125) as real && t.count == 2
  {
    Unbuffered(w, a + 1);
    GrowsByAcks(Control(w), 1);
    hide Win.Grown, OnAck, AckNames;
    var t := OnAck(w, a + 1);
    assert t.lpa == Control(t).lpa && t.lps == Control(t).lps && t.cwnd == Control(t).cwnd;
    assert t.count == Control(t).count && t.ssthresh == Control(t).ssthresh;
  }

  lemma Filled(w: Win, c: int)
    requires AckNames(w, c) && c >= 1
    ensures w.Filled(c)
  {
  }

  lemma ClimbOnce(chunk: seq<byte>, s: Sys, a: int)
    requires |chunk| == CHUNK_SIZE && Climbing(chunk, s, a) && 128 <= a <= 189
    ensures Climbing(chunk, Run(s, [Send(4), Deliver(FormAck(a + 1))]), a + 1)
  {
    hide Inv, Step, OnAck, AckNames;
    var s1 := Step(s, Send(4));
    SendWindow(chunk, s, 2, 4);
    AckTurn(chunk, s1, a + 1, 255);
    Filled(s1.win, a + 1);
    ClimbWindow(s1.win, a);
    RunTwo(s, Send(4), Deliver(FormAck(a + 1)));
  }

  lemma ClimbServed(a: int)
    ensures Served([Send(4), Deliver(FormAck(a))]) && SendEvent([Send(4), Deliver(FormAck(a))][0])
  {
  }

  lemma {:induction false} ClimbTo(chunk: seq<byte>, s: Sys, a: int) returns (es: seq<Event>)
    requires |chunk| == CHUNK_SIZE && Climbing(chunk, s, 128) && 128 <= a <= 190
    ensures Climbing(chunk, Run(s, es), a) && Served(es) && (es == [] || SendEvent(es[0]))
    decreases a
  {
    if a == 128 {
      es := [];
    } else {
      hide Climbing, Served, Run, Step;
      var b := ClimbTo(chunk, s, a - 1);
      var c := [Send(4), Deliver(FormAck(a))];
      ClimbOnce(chunk, Run(s, b), a - 1);
      ClimbServed(a);
      ServedConcat(b, c);
      RunConcat(s, b, c);
      es := b + c;
    }
  }

  /** The timeout and the first jump: the acknowledgement of packet 128 arrives when only up to 127 is sent again. */
  lemma StartClimbing(chunk: seq<byte>, s: Sys)
    requires |chunk| == CHUNK_SIZE && Inv(chunk, s) && StampedBy(s.win, 1) && s.past.jumps == 0
    requires s.win.lpa == 127 && s.win.lps == 255 && s.win.cwnd == 128.0 && AcksOut(s.net, 128, 255)
    ensures Climbing(chunk, Run(s, [Timer(4), Deliver(FormAck(128))]), 128)
  {
    hide Inv, Step, OnAck, AckNames, StampedBy;
    Expire(chunk, s);
    var s1 := Step(s, Timer(4));
    AckTurn(chunk, s1, 128, 255);
    JumpWindow(s1.win, 128);
    RunTwo(s, Timer(4), Deliver(FormAck(128)));
  }

  lemma LastAdvance(w: Win)
    requires AckNames(w, 254) && w.Filled(254)
    requires w.lpa == 190 && w.lps == 254 && w.ssthresh == 64 && w.cwnd == 64.0
    ensures OnAck(w, 254).lpa == OnAck(w, 254).lps == 254 && OnAck(w, 254).cwnd == 128.0
  {
    Unbuffered(w, 254);
    GrowsByAcks(Control(w), 64);
    hide Win.Grown, OnAck, AckNames;
    var t := OnAck(w, 254);
    assert t.lpa == Control(t).lpa && t.lps == Control(t).lps && t.cwnd == Control(t).cwnd;
  }

  /** The end: a send call, then acknowledgement 254, of everything in flight, and 255 right after it. */
  lemma LastTwo(chunk: seq<byte>, s: Sys)
    requires |chunk| == CHUNK_SIZE && Climbing(chunk, s, 190)
    ensures var t := Run(s, [Send(4), Deliver(FormAck(254))]);
            && t.win.cwnd == 128.0 && Step(t, Deliver(FormAck(255))).win.cwnd == 129.0
            && Step(t, Deliver(FormAck(255))).past.jumps == 2
  {
    hide Inv, Step, OnAck, AckNames;
    var s1 := Step(s, Send(4));
    SendWindow(chunk, s, 2, 4);
    assert AcksOut(s1.net, 254, 255);
    AckTurn(chunk, s1, 254, 255);
    Filled(s1.win, 254);
    LastAdvance(s1.win);
    var s2 := Step(s1, Deliver(FormAck(254)));
    AckTurn(chunk, s2, 255, 255);
    JumpWindow(s2.win, 255);
    RunTwo(s, Send(4), Deliver(FormAck(254)));
  }

  /** The cap fails as soon as two acknowledgements arrive with no send call between them. On this run the sender
      sends after every acknowledgement but the last but one: slow start to 128 packets, all of them delivered, a
      timeout, slow start again while the old acknowledgements arrive one by one up to 190, then 254 and 255
      together. */
  lemma CapExceeded(chunk: seq<byte>) returns (es: seq<Event>)
    requires |chunk| == CHUNK_SIZE
    ensures Served(es) && es != [] && es[|es| - 1] == Deliver(FormAck(254))
    ensures Run(Init(chunk), es).win.cwnd == 128.0
    ensures var s := Run(Init(chunk), es + [Deliver(FormAck(255))]); s.win.cwnd == 129.0 && s.past.jumps == 2
  {
    hide Inv, Step, Init, StampedBy, Climbing, Served;
    var a := SlowStartTo(chunk, 7);
    assert Pow2(7) == 2 * Pow2(6) == 4 * Pow2(5) == 8 * Pow2(4) == 16 * Pow2(3) == 32 * Pow2(2) == 64 * Pow2(1) == 128;
    var s := Run(Init(chunk), a);
    var b := SentAndDelivered(chunk, s, 127, 128);
    var t := Run(s, b);
    StartClimbing(chunk, t);
    var b2 := [Timer(4), Deliver(FormAck(128))];
    var u := Run(t, b2);
    var c := ClimbTo(chunk, u, 190);
    var v := Run(u, c);
    LastTwo(chunk, v);
    var d := [Send(4), Deliver(FormAck(254))];
    Chain(Init(chunk), a, b, b2, c, d);
    ChainServed(a, b, c);
    es := a + b + b2 + c + d;
    RunOne(Run(Init(chunk), es), Deliver(FormAck(255)));
    RunConcat(Init(chunk), es, [Deliver(FormAck(255))]);
  }

  lemma Chain(s: Sys, a: seq<Event>, b: seq<Event>, c: seq<Event>, d: seq<Event>, e: seq<Event>)
    ensures Run(s, a + b + c + d + e) == Run(Run(Run(Run(Run(s, a), b), c), d), e)
  {
    hide Run;
    RunConcat(s, a, b);
    RunConcat(s, a + b, c);
    RunConcat(s, a + b + c, d);
    RunConcat(s, a + b + c + d, e);
  }

  lemma ChainServed(a: seq<Event>, b: seq<Event>, c: seq<Event>)
    requires Served(a) && b != [] && SendEvent(b[0]) && NoAcks(b) && Served(c) && (c == [] || SendEvent(c[0]))
    ensures Served(a + b + [Timer(4), Deliver(FormAck(128))] + c + [Send(4), Deliver(FormAck(254))])
  {
    hide Served;
    var b2, d := b + [Timer(4), Deliver(FormAck(128))], [Send(4), Deliver(FormAck(254))];
    assert b2 == b + [Timer(4)] + [Deliver(FormAck(128))];
    OneAckServed(b + [Timer(4)], Deliver(FormAck(128)));
    ServedConcat(a, b2);
    assert a + b + [Timer(4), Deliver(FormAck(128))] == a + b2;
    if c != [] {
      ServedConcat(a + b2, c);
    }
    assert c == [] ==> a + b2 + c == a + b2;
    ClimbServed(254);
    ServedConcat(a + b2 + c, d);
  }
}
