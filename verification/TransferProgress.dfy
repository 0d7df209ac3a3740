/** When a transfer can still complete: recovery by timeouts, the 512-round bound, and the one state that is lost. */
module TransferProgress {
  import opened Basics
  import opened Packets
  import opened SlidingWindow
  import opened Receiver
  import opened Transfer
  import opened TransferSafety

  /** Every send time lies at or before t. */
  predicate StampedBy(w: Win, t: int) {
    forall i :: 0 <= i < |w.buf| && w.buf[i].Some? ==> w.buf[i].value.timestamp <= t
  }

  /** One round of the two peers without loss: the sender's timer and send calls at time `now`, then delivery
      of the oldest unacknowledged packet and of its acknowledgement. */
  function Round(chunk: seq<byte>, s: Sys, now: int): seq<Event>
    requires |chunk| == CHUNK_SIZE && 0 <= s.win.lpa < N
  {
    [Timer(now), Send(now), Deliver(Original(chunk, s.win.lpa + 1)), Deliver(FormAck(s.win.lpa + 1))]
  }

  function RoundResult(chunk: seq<byte>, s: Sys, now: int): Sys
    requires |chunk| == CHUNK_SIZE && 0 <= s.win.lpa < N
  {
    var i := s.win.lpa + 1;
    Step(Step(Step(Step(s, Timer(now)), Send(now)), Deliver(Original(chunk, i))), Deliver(FormAck(i)))
  }

  lemma RoundRuns(chunk: seq<byte>, s: Sys, now: int)
    requires |chunk| == CHUNK_SIZE && 0 <= s.win.lpa < N
    ensures Run(s, Round(chunk, s, now)) == RoundResult(chunk, s, now)
  {
    var r := Round(chunk, s, now);
    assert r[..3] == [r[0], r[1], r[2]] && r[..3][..2] == [r[0], r[1]] && r[..3][..2][..1] == [r[0]];
    assert Run(s, []) == s && Run(s, [r[0]]) == Step(s, r[0]);
    assert Run(s, [r[0], r[1]]) == Step(Run(s, [r[0]]), r[1]);
    assert Run(s, r[..3]) == Step(Run(s, [r[0], r[1]]), r[2]);
  }

  /** The timer gets the window out of every state but one: packet 1 in flight and never acknowledged. */
  predicate Recoverable(w: Win) { w.lpa >= 1 || w.lps == 0 }

  lemma TimerDrains(chunk: seq<byte>, w: Win, h: History, now: int)
    requires |chunk| == CHUNK_SIZE && SenderInv(chunk, w, h) && w.lpa < N
    requires StampedBy(w, now - TIMEOUT_SEC - 1) && Recoverable(w)
    ensures w.Filled(w.lpa + 1) && (w.lpa != 0 ==> w.Filled(w.lpa))
    ensures OnTimer(w, now).lps == OnTimer(w, now).lpa == w.lpa
  {
    if w.lpa < w.lps { assert w.buf[w.lpa + 1].value.timestamp > 0; }
  }

  lemma SendsNext(chunk: seq<byte>, w: Win, h: History)
    requires |chunk| == CHUNK_SIZE && SenderInv(chunk, w, h) && w.lps == w.lpa < N
    ensures CanSend(w) && Original(chunk, w.lpa + 1) in multiset(Transmitted(w))
  {
    assert Transmitted(w)[0] == Original(chunk, w.lpa + 1);
  }

  lemma TimerStage(chunk: seq<byte>, s: Sys, now: int)
    requires |chunk| == CHUNK_SIZE && Inv(chunk, s) && s.win.lpa < N
    requires StampedBy(s.win, now - TIMEOUT_SEC - 1) && Recoverable(s.win)
    ensures var t := Step(s, Timer(now));
            && Inv(chunk, t) && t.win.lps == t.win.lpa == s.win.lpa
            && t.recv == s.recv && t.closed == s.closed
  {
    hide Inv, SenderInv, OnTimer, StampedBy, Recoverable;
    StepInv(chunk, s, Timer(now));
    SenderPart(chunk, s);
    TimerDrains(chunk, s.win, s.past, now);
    BufferSize(chunk, s);
  }

  lemma BufferSize(chunk: seq<byte>, s: Sys)
    requires |chunk| == CHUNK_SIZE && Inv(chunk, s)
    ensures s.win.lpr == N + 1
  {
  }

  lemma SendStage(chunk: seq<byte>, s: Sys, now: int)
    requires |chunk| == CHUNK_SIZE && SenderInv(chunk, s.win, s.past) && s.win.lps == s.win.lpa < N && now > 0
    ensures var t := Step(s, Send(now));
            && t.win.lpa == s.win.lpa && t.recv == s.recv && t.closed == s.closed
            && Original(chunk, s.win.lpa + 1) in t.net
  {
    SendsNext(chunk, s.win, s.past);
    assert Step(s, Send(now)) == SendStep(s, now);
  }

  /** After the timer and the send call the oldest unacknowledged packet is (again) in transit. */
  lemma Retransmitted(chunk: seq<byte>, s: Sys, now: int)
    requires |chunk| == CHUNK_SIZE && Inv(chunk, s) && s.win.lpa < N
    requires StampedBy(s.win, now - TIMEOUT_SEC - 1) && now > 0
    requires Recoverable(s.win)
    ensures var t := Step(Step(s, Timer(now)), Send(now));
            && Inv(chunk, t)
            && t.win.lpa == s.win.lpa < t.recv.npe && t.closed == s.closed
            && Original(chunk, s.win.lpa + 1) in t.net
  {
    hide Inv, Step, StampedBy, Recoverable, SenderInv;
    var s1 := Step(s, Timer(now));
    TimerStage(chunk, s, now);
    SenderPart(chunk, s1);
    SendStage(chunk, s1, now);
    StepInv(chunk, s1, Send(now));
    SenderPart(chunk, Step(s1, Send(now)));
  }

  lemma SenderPart(chunk: seq<byte>, s: Sys)
    requires |chunk| == CHUNK_SIZE && Inv(chunk, s)
    ensures SenderInv(chunk, s.win, s.past) && s.win.lpa < s.recv.npe && 0 <= s.win.lpa
  {
  }

  lemma AnswersItself(chunk: seq<byte>, r: Recv, i: int, hi: int)
    requires |chunk| == CHUNK_SIZE && Received(chunk, r, hi) && 1 <= i <= r.npe && i <= N
    ensures FormAck(i) in multiset(Answers(r, Original(chunk, i)))
  {
    OriginalNumber(chunk, i);
    hide Original, Received;
    assert Acceptable(r, Original(chunk, i));
    OwnAnswer(r, Original(chunk, i));
  }

  lemma OwnAnswer(r: Recv, p: Packet)
    requires r.Shaped() && Acceptable(r, p) && 1 <= p.seqNum <= N && p.seqNum <= r.npe
    ensures FormAck(p.seqNum) in multiset(Answers(r, p))
  {
    if p.seqNum == r.npe {
      assert Stored(r, p)[p.seqNum].Some?;
    }
    hide Gap, Stored;
    assert Answers(r, p)[0] == FormAck(p.seqNum);
  }

  /** Delivering a packet the receiver is ready for puts its acknowledgement in transit. */
  lemma Acknowledged(chunk: seq<byte>, s: Sys, i: int)
    requires |chunk| == CHUNK_SIZE && Inv(chunk, s) && !s.closed
    requires 1 <= i <= s.recv.npe && i <= N && Original(chunk, i) in s.net
    ensures var t := Step(s, Deliver(Original(chunk, i)));
            Inv(chunk, t) && t.win == s.win && !t.closed && FormAck(i) in t.net
  {
    var p := Original(chunk, i);
    StepInv(chunk, s, Deliver(p));
    AnswersItself(chunk, s.recv, i, s.past.hi);
    assert Step(s, Deliver(p)) == DataStep(s.(net := s.net - multiset{p}), p);
  }

  lemma AckAdvances(w: Win, c: int)
    requires w.Filled(c) && w.cwnd != 0.0 && 0 <= w.lpa < c
    ensures OnAck(w, c).lpa == c
  {
  }

  lemma AckUsable(chunk: seq<byte>, s: Sys, c: int)
    requires |chunk| == CHUNK_SIZE && Inv(chunk, s) && FormAck(c) in s.net
    ensures 0 <= s.win.lpa && c <= N && AckNames(s.win, c) && s.win.cwnd != 0.0
  {
    assert Genuine(chunk, FormAck(c), s.past.hi, s.recv.npe);
  }

  lemma AckArrives(chunk: seq<byte>, s: Sys, c: int)
    requires |chunk| == CHUNK_SIZE && Inv(chunk, s)
    requires s.win.lpa < c && FormAck(c) in s.net
    ensures var t := Step(s, Deliver(FormAck(c)));
            Inv(chunk, t) && t.win.lpa == c && t.closed == s.closed
  {
    hide Inv;
    StepInv(chunk, s, Deliver(FormAck(c)));
    AckUsable(chunk, s, c);
    AckAdvances(s.win, c);
  }

  lemma Exchanged(chunk: seq<byte>, s: Sys, i: int)
    requires |chunk| == CHUNK_SIZE && Inv(chunk, s) && !s.closed
    requires s.win.lpa < i <= s.recv.npe && 1 <= i <= N && Original(chunk, i) in s.net
    ensures var t := Step(Step(s, Deliver(Original(chunk, i))), Deliver(FormAck(i)));
            Inv(chunk, t) && t.win.lpa == i && !t.closed
  {
    hide Step, Inv;
    Acknowledged(chunk, s, i);
    AckArrives(chunk, Step(s, Deliver(Original(chunk, i))), i);
  }

  lemma InvLimits(chunk: seq<byte>, s: Sys)
    requires |chunk| == CHUNK_SIZE && Inv(chunk, s)
    ensures 0 <= s.win.lpa <= N && (s.win.lpa == N ==> s.recv.npe == N + 1)
  {
  }

  /** A round helps when the next acknowledgement is already in transit, or when the downloader still listens and
      the next packet is in transit or will be sent again. */
  predicate RoundHelps(chunk: seq<byte>, s: Sys)
    requires |chunk| == CHUNK_SIZE && 0 <= s.win.lpa < N
  {
    var i := s.win.lpa + 1;
    FormAck(i) in s.net || (!s.closed && (Recoverable(s.win) || Original(chunk, i) in s.net))
  }

  /** The sender's two calls neither acknowledge anything nor take an acknowledgement out of the network. */
  lemma SenderCalls(chunk: seq<byte>, s: Sys, now: int)
    requires |chunk| == CHUNK_SIZE && Inv(chunk, s) && s.win.lpa < N && now > 0
    ensures var t := Step(Step(s, Timer(now)), Send(now));
            && Inv(chunk, t) && t.win.lpa == s.win.lpa && t.closed == s.closed
            && forall j :: FormAck(j) in t.net <==> FormAck(j) in s.net
  {
    hide Inv, OnTimer, OnSend, CanSend, Transmitted;
    var s1 := Step(s, Timer(now));
    StepInv(chunk, s, Timer(now));
    StepInv(chunk, s1, Send(now));
    TimerKeepsPosition(s.win, now);
    SendKeepsPosition(s1.win, now);
    NoAckSent(chunk, s1);
  }

  lemma TimerKeepsPosition(w: Win, now: int)
    ensures w.Filled(w.lpa + 1) && (w.lpa != 0 ==> w.Filled(w.lpa)) ==> OnTimer(w, now).lpa == w.lpa
  {
  }

  lemma SendKeepsPosition(w: Win, now: int)
    ensures CanSend(w) ==> OnSend(w, now).lpa == w.lpa
  {
  }

  lemma NoAckSent(chunk: seq<byte>, s: Sys)
    requires |chunk| == CHUNK_SIZE && Inv(chunk, s)
    ensures CanSend(s.win) ==> forall j :: FormAck(j) !in multiset(Transmitted(s.win))
  {
    if CanSend(s.win) {
      OnlyData(chunk, s.win, s.past.hi);
      hide *;
      forall j
        ensures FormAck(j) !in multiset(Transmitted(s.win))
      {
        assert FormAck(j).ptype == 4 by { AckType(j); }
      }
    }
  }

  lemma AckType(j: int)
    ensures FormAck(j).ptype == 4
  {
  }

  lemma OnlyData(chunk: seq<byte>, w: Win, hi: int)
    requires |chunk| == CHUNK_SIZE && Buffered(chunk, w, hi) && Ordered(w, hi) && CanSend(w)
    ensures forall p :: p in Transmitted(w) ==> p.ptype == 3
  {
    hide Fragment;
    forall p | p in Transmitted(w)
      ensures p.ptype == 3
    {
      var i :| 0 <= i < Burst(w) && Transmitted(w)[i] == p;
      OriginalType(chunk, w.lps + 1 + i);
    }
  }

  lemma OriginalType(chunk: seq<byte>, i: int)
    requires |chunk| == CHUNK_SIZE && 1 <= i <= N
    ensures Original(chunk, i).ptype == 3
  {
  }

  /** The next packet is in transit after the sender's calls exactly when it was before or is sent again. */
  lemma SentAgainIff(chunk: seq<byte>, s: Sys, now: int)
    requires |chunk| == CHUNK_SIZE && Inv(chunk, s) && s.win.lpa < N && now > 0
    requires StampedBy(s.win, now - TIMEOUT_SEC - 1)
    ensures 0 <= s.win.lpa
    ensures var p := Original(chunk, s.win.lpa + 1);
            p in Step(Step(s, Timer(now)), Send(now)).net <==> p in s.net || Recoverable(s.win)
  {
    hide Inv, Step;
    InvLimits(chunk, s);
    if Recoverable(s.win) {
      Retransmitted(chunk, s, now);
    } else {
      NothingMoves(chunk, s, now);
    }
  }

  /** With packet 1 in flight and not acknowledged the sender's calls change nothing. */
  lemma NothingMoves(chunk: seq<byte>, s: Sys, now: int)
    requires |chunk| == CHUNK_SIZE && Inv(chunk, s) && !Recoverable(s.win)
    ensures Step(s, Timer(now)) == s && Step(s, Send(now)) == s
  {
    IdleWindow(chunk, s.win, s.past, now);
    assert s.net + multiset{} == s.net;
  }

  /** Delivering the next packet puts its acknowledgement in transit exactly when the downloader listens. */
  lemma DataDelivered(chunk: seq<byte>, s: Sys, i: int)
    requires |chunk| == CHUNK_SIZE && Inv(chunk, s) && 1 <= i <= N && i == s.win.lpa + 1
    ensures var t := Step(s, Deliver(Original(chunk, i)));
            && Inv(chunk, t) && t.win == s.win && t.closed == s.closed
            && (FormAck(i) in t.net <==> FormAck(i) in s.net || (!s.closed && Original(chunk, i) in s.net))
            && (s.closed ==> forall j :: FormAck(j) in t.net <==> FormAck(j) in s.net)
  {
    hide Inv;
    var p := Original(chunk, i);
    StepInv(chunk, s, Deliver(p));
    if !s.closed && p in s.net {
      NextIsExpected(chunk, s);
      Acknowledged(chunk, s, i);
    }
  }

  lemma NextIsExpected(chunk: seq<byte>, s: Sys)
    requires |chunk| == CHUNK_SIZE && Inv(chunk, s)
    ensures s.win.lpa + 1 <= s.recv.npe
  {
  }

  /** One round from any state: the sender advances by one packet if the round helps, else not at all. */
  lemma RoundAdvances(chunk: seq<byte>, s: Sys, now: int)
    requires |chunk| == CHUNK_SIZE && Inv(chunk, s) && s.win.lpa < N
    requires StampedBy(s.win, now - TIMEOUT_SEC - 1) && now > 0
    ensures 0 <= s.win.lpa
    ensures var t := Run(s, Round(chunk, s, now));
            && Inv(chunk, t) && t.closed == s.closed
            && t.win.lpa == s.win.lpa + (if RoundHelps(chunk, s) then 1 else 0)
            && (s.closed ==> forall j :: j != s.win.lpa + 1 ==> (FormAck(j) in t.net <==> FormAck(j) in s.net))
  {
    hide Step, Inv, Recoverable;
    InvLimits(chunk, s);
    var i := s.win.lpa + 1;
    var s2 := Step(Step(s, Timer(now)), Send(now));
    SenderCalls(chunk, s, now);
    SentAgainIff(chunk, s, now);
    var s3 := Step(s2, Deliver(Original(chunk, i)));
    DataDelivered(chunk, s2, i);
    RoundRuns(chunk, s, now);
    if FormAck(i) in s3.net {
      AckArrives(chunk, s3, i);
      AckTaken(s3, FormAck(i));
    } else {
      NotThere(s3, FormAck(i));
    }
  }

  lemma AckTaken(s: Sys, p: Packet)
    requires p in s.net && p.ptype == 4
    ensures Step(s, Deliver(p)).net == s.net - multiset{p}
  {
  }

  lemma NotThere(s: Sys, p: Packet)
    requires p !in s.net
    ensures Step(s, Deliver(p)) == s
  {
  }

  // ---- repeated rounds ----

  function Rounds(chunk: seq<byte>, s: Sys, k: nat, now: int): Sys
    requires |chunk| == CHUNK_SIZE
    decreases k
  {
    if k == 0 || !(0 <= s.win.lpa < N) then s
    else Rounds(chunk, Run(s, Round(chunk, s, now)), k - 1, now + TIMEOUT_SEC + 1)
  }

  lemma StampStep(s: Sys, e: Event, t: int)
    requires StampedBy(s.win, t) && (e.Send? ==> e.now <= t)
    ensures StampedBy(Step(s, e).win, t)
  {
    match e
    case Deliver(p) => if AckNames(s.win, p.ackNum) && s.win.cwnd != 0.0 { StampAck(s.win, p.ackNum, t); }
    case _ =>
  }

  lemma StampAck(w: Win, c: int, t: int)
    requires StampedBy(w, t) && AckNames(w, c) && w.cwnd != 0.0
    ensures StampedBy(OnAck(w, c), t)
  {
  }

  lemma {:induction false} StampRun(s: Sys, es: seq<Event>, t: int)
    requires StampedBy(s.win, t) && forall e :: e in es && e.Send? ==> e.now <= t
    ensures StampedBy(Run(s, es).win, t)
  {
    if es != [] {
      StampRun(s, es[..|es| - 1], t);
      StampStep(Run(s, es[..|es| - 1]), es[|es| - 1], t);
    }
  }

  lemma RoundStamps(chunk: seq<byte>, s: Sys, now: int)
    requires |chunk| == CHUNK_SIZE && 0 <= s.win.lpa < N && StampedBy(s.win, now - TIMEOUT_SEC - 1)
    ensures StampedBy(Run(s, Round(chunk, s, now)).win, now)
  {
    hide Run;
    StampRun(s, Round(chunk, s, now), now);
  }

  /** How many of the next k acknowledgements are in transit without a gap. */
  function AckRun(net: multiset<Packet>, lpa: int, k: nat): nat
    decreases k
  {
    if k == 0 || lpa >= N || FormAck(lpa + 1) !in net then 0 else 1 + AckRun(net, lpa + 1, k - 1)
  }

  lemma {:induction false} AckRunSame(net: multiset<Packet>, net': multiset<Packet>, lpa: int, k: nat)
    requires forall j :: j > lpa ==> (FormAck(j) in net <==> FormAck(j) in net')
    ensures AckRun(net, lpa, k) == AckRun(net', lpa, k)
    decreases k
  {
    if k > 0 && lpa < N && FormAck(lpa + 1) in net {
      AckRunSame(net, net', lpa + 1, k - 1);
    }
  }

  /** How far k rounds take the sender: as far as acknowledgements are in transit when the downloader has closed,
      else one packet a round if the first round helps and nowhere if it does not. */
  function Gain(chunk: seq<byte>, s: Sys, k: nat): int
    requires |chunk| == CHUNK_SIZE && 0 <= s.win.lpa <= N
  {
    if s.closed then AckRun(s.net, s.win.lpa, k)
    else if s.win.lpa < N && RoundHelps(chunk, s) then Min(N - s.win.lpa, k)
    else 0
  }

  lemma GainStep(chunk: seq<byte>, s: Sys, k: nat, now: int)
    requires |chunk| == CHUNK_SIZE && Inv(chunk, s) && s.win.lpa < N && k > 0
    requires StampedBy(s.win, now - TIMEOUT_SEC - 1) && now > 0
    ensures 0 <= s.win.lpa
    ensures var t := Run(s, Round(chunk, s, now));
            && 0 <= t.win.lpa <= N
            && t.win.lpa + Gain(chunk, t, k - 1) == s.win.lpa + Gain(chunk, s, k)
  {
    hide Inv, Run, Round, Step;
    RoundAdvances(chunk, s, now);
    var t := Run(s, Round(chunk, s, now));
    if s.closed {
      if FormAck(s.win.lpa + 1) in s.net {
        AckRunSame(t.net, s.net, s.win.lpa + 1, k - 1);
      } else {
        StillMissing(chunk, s, now);
      }
    } else if !RoundHelps(chunk, s) {
      NoRound(chunk, s, now);
    }
  }

  lemma StillMissing(chunk: seq<byte>, s: Sys, now: int)
    requires |chunk| == CHUNK_SIZE && Inv(chunk, s) && s.win.lpa < N && s.closed && now > 0
    requires FormAck(s.win.lpa + 1) !in s.net
    ensures 0 <= s.win.lpa
    ensures FormAck(s.win.lpa + 1) !in Run(s, Round(chunk, s, now)).net
  {
    hide Inv, Step;
    InvLimits(chunk, s);
    var i := s.win.lpa + 1;
    SenderCalls(chunk, s, now);
    var s2 := Step(Step(s, Timer(now)), Send(now));
    DataDelivered(chunk, s2, i);
    NotThere(Step(s2, Deliver(Original(chunk, i))), FormAck(i));
    RoundRuns(chunk, s, now);
  }

  lemma NoRound(chunk: seq<byte>, s: Sys, now: int)
    requires |chunk| == CHUNK_SIZE && Inv(chunk, s) && s.win.lpa < N && !s.closed
    requires 0 <= s.win.lpa && !RoundHelps(chunk, s)
    ensures Run(s, Round(chunk, s, now)) == s
  {
    hide Inv, Step;
    var i := s.win.lpa + 1;
    NothingMoves(chunk, s, now);
    NotThere(s, Original(chunk, i));
    NotThere(s, FormAck(i));
    RoundRuns(chunk, s, now);
  }

  /** k loss-free rounds from any state move the sender forward by exactly Gain; so from a recoverable state whose
      downloader listens at most 512 of them complete the chunk. */
  lemma {:induction false} RoundsComplete(chunk: seq<byte>, s: Sys, k: nat, now: int)
    requires |chunk| == CHUNK_SIZE && Inv(chunk, s)
    requires StampedBy(s.win, now - TIMEOUT_SEC - 1) && now > 0
    ensures 0 <= s.win.lpa <= N
    ensures var t := Rounds(chunk, s, k, now);
            && Inv(chunk, t) && t.closed == s.closed
            && t.win.lpa == s.win.lpa + Gain(chunk, s, k)
            && (t.win.lpa == N ==> t.recv.npe == N + 1)
    ensures exists es :: Run(s, es) == Rounds(chunk, s, k, now)
    ensures StampedBy(Rounds(chunk, s, k, now).win, now - TIMEOUT_SEC - 1 + (TIMEOUT_SEC + 1) * k)
    decreases k
  {
    hide Inv, StampedBy, Recoverable, Step, Round, RoundHelps;
    InvLimits(chunk, s);
    if k == 0 || s.win.lpa == N {
      assert Run(s, []) == s;
      StampsAge(s.win, now - TIMEOUT_SEC - 1, now - TIMEOUT_SEC - 1 + (TIMEOUT_SEC + 1) * k);
      NoGain(chunk, s, k);
    } else {
      var r := Round(chunk, s, now);
      RoundAdvances(chunk, s, now);
      GainStep(chunk, s, k, now);
      RoundStamps(chunk, s, now);
      hide Gain;
      RoundsComplete(chunk, Run(s, r), k - 1, now + TIMEOUT_SEC + 1);
      var es :| Run(Run(s, r), es) == Rounds(chunk, Run(s, r), k - 1, now + TIMEOUT_SEC + 1);
      RunConcat(s, r, es);
      assert Run(s, r + es) == Rounds(chunk, s, k, now);
    }
  }

  lemma NoGain(chunk: seq<byte>, s: Sys, k: nat)
    requires |chunk| == CHUNK_SIZE && 0 <= s.win.lpa <= N && (k == 0 || s.win.lpa == N)
    ensures Gain(chunk, s, k) == 0
  {
  }

  lemma StampsAge(w: Win, t: int, u: int)
    requires StampedBy(w, t) && t <= u
    ensures StampedBy(w, u)
  {
  }

  lemma {:induction false} LatestStamp(buf: seq<Option<Slot>>) returns (t: int)
    ensures forall i :: 0 <= i < |buf| && buf[i].Some? ==> buf[i].value.timestamp <= t
  {
    t := 0;
    for j := 0 to |buf|
      invariant forall i :: 0 <= i < j && buf[i].Some? ==> buf[i].value.timestamp <= t
    {
      if buf[j].Some? { t := Max(t, buf[j].value.timestamp); }
    }
  }

  // ---- the lost state ----

  /** Nothing in transit can wake the peers up. */
  predicate NothingUseful(chunk: seq<byte>, net: multiset<Packet>)
    requires |chunk| == CHUNK_SIZE
  {
    Original(chunk, 1) !in net && forall p :: p in net && p.ptype == 4 ==> p.ackNum < 1
  }

  /** Packet 1 was sent, it or its acknowledgement was lost, and its timer never fires. */
  predicate Dead(chunk: seq<byte>, s: Sys)
    requires |chunk| == CHUNK_SIZE
  {
    !Recoverable(s.win) && s.recv.npe <= N && NothingUseful(chunk, s.net)
  }

  lemma IdleWindow(chunk: seq<byte>, w: Win, h: History, now: int)
    requires |chunk| == CHUNK_SIZE && SenderInv(chunk, w, h) && !Recoverable(w)
    ensures w.lpa == 0 && w.lps == h.hi == 1 && w.Filled(w.lpa + 1) && OnTimer(w, now) == w && !Expired(w, now)
    ensures CanSend(w) && OnSend(w, now) == w && Transmitted(w) == []
  {
    assert OnSend(w, now).buf == w.buf;
  }

  lemma OnlyAckZero(chunk: seq<byte>, s: Sys, p: Packet)
    requires |chunk| == CHUNK_SIZE && Inv(chunk, s) && Dead(chunk, s) && p in s.net
    ensures p == FormAck(0)
  {
    assert Genuine(chunk, p, s.past.hi, s.recv.npe);
    IdleWindow(chunk, s.win, s.past, 0);
  }

  lemma DeadDeliver(chunk: seq<byte>, s: Sys, p: Packet)
    requires |chunk| == CHUNK_SIZE && Inv(chunk, s) && Dead(chunk, s) && p in s.net
    ensures Dead(chunk, Step(s, Deliver(p)))
  {
    hide Inv;
    OnlyAckZero(chunk, s, p);
  }

  lemma DeadStep(chunk: seq<byte>, s: Sys, e: Event)
    requires |chunk| == CHUNK_SIZE && Inv(chunk, s) && Dead(chunk, s)
    ensures Dead(chunk, Step(s, e))
  {
    hide Inv, Dead;
    match e
    case Send(now) => DeadCalls(chunk, s, now);
    case Timer(now) => DeadCalls(chunk, s, now);
    case Deliver(p) =>
      if p in s.net { DeadDeliver(chunk, s, p); }
    case Lose(p) => DeadNetwork(chunk, s, p);
    case Duplicate(p) => DeadNetwork(chunk, s, p);
    case Close => DeadClose(chunk, s);
  }

  lemma DeadCalls(chunk: seq<byte>, s: Sys, now: int)
    requires |chunk| == CHUNK_SIZE && Inv(chunk, s) && Dead(chunk, s)
    ensures Step(s, Timer(now)) == s && Step(s, Send(now)) == s
  {
    hide Inv, Step;
    NothingMoves(chunk, s, now);
  }

  lemma DeadNetwork(chunk: seq<byte>, s: Sys, p: Packet)
    requires |chunk| == CHUNK_SIZE && Dead(chunk, s)
    ensures Dead(chunk, s.(net := s.net - multiset{p}))
    ensures p in s.net ==> Dead(chunk, s.(net := s.net + multiset{p}))
  {
    hide Original, Recoverable;
  }

  lemma DeadClose(chunk: seq<byte>, s: Sys)
    requires |chunk| == CHUNK_SIZE && Dead(chunk, s)
    ensures Dead(chunk, s.(closed := true))
  {
  }

  lemma {:induction false} DeadForever(chunk: seq<byte>, s: Sys, es: seq<Event>)
    requires |chunk| == CHUNK_SIZE && Inv(chunk, s) && Dead(chunk, s)
    ensures Dead(chunk, Run(s, es))
  {
    if es != [] {
      DeadForever(chunk, s, es[..|es| - 1]);
      RunInv(chunk, s, es[..|es| - 1]);
      DeadStep(chunk, Run(s, es[..|es| - 1]), es[|es| - 1]);
    }
  }

  // ---- exactly which states can still complete ----

  lemma DeadFacts(chunk: seq<byte>, s: Sys)
    requires |chunk| == CHUNK_SIZE && Inv(chunk, s) && !Recoverable(s.win)
    ensures s.win.lpa == 0 && s.recv.npe <= N && !s.closed
  {
    AssembledPrefix(chunk, s.recv, s.past.hi, s.recv.npe);
  }

  lemma ClosedComplete(chunk: seq<byte>, s: Sys)
    requires |chunk| == CHUNK_SIZE && Inv(chunk, s) && s.closed
    ensures s.recv.npe == N + 1
  {
    AssembledPrefix(chunk, s.recv, s.past.hi, s.recv.npe);
  }

  /** With every earlier packet lost, a loss-free round makes progress exactly when the downloader still listens
      and the window is recoverable: some packet was acknowledged, or none is in flight. */
  lemma RoundAdvancesIff(chunk: seq<byte>, s: Sys, now: int)
    requires |chunk| == CHUNK_SIZE && Inv(chunk, s) && s.win.lpa < N && s.net == multiset{}
    requires StampedBy(s.win, now - TIMEOUT_SEC - 1) && now > 0
    ensures s.win.lpa >= 0
    ensures Run(s, Round(chunk, s, now)).win.lpa > s.win.lpa <==> Recoverable(s.win) && !s.closed
  {
    hide Inv, Run, Round;
    RoundAdvances(chunk, s, now);
  }

  /** A recoverable sender whose downloader listens can still see every acknowledgement. */
  lemma RecoverableFinishes(chunk: seq<byte>, s: Sys)
    requires |chunk| == CHUNK_SIZE && Inv(chunk, s) && Recoverable(s.win) && !s.closed
    ensures exists es :: Run(s, es).win.lpa == N && Run(s, es).recv.npe == N + 1
  {
    hide Inv, Recoverable, StampedBy, Run;
    InvLimits(chunk, s);
    var t := StampLimit(s.win);
    RoundsComplete(chunk, s, N, t + TIMEOUT_SEC + 1);
  }

  lemma StampLimit(w: Win) returns (t: int)
    ensures t >= 0 && StampedBy(w, t)
  {
    var u := LatestStamp(w.buf);
    t := Max(0, u);
  }

  lemma RecoverableCompletes(chunk: seq<byte>, s: Sys)
    requires |chunk| == CHUNK_SIZE && Inv(chunk, s) && Recoverable(s.win)
    ensures exists es :: Run(s, es).recv.npe == N + 1
  {
    hide Inv, Recoverable;
    InvLimits(chunk, s);
    if s.closed {
      ClosedComplete(chunk, s);
      assert Run(s, []) == s;
    } else {
      RecoverableFinishes(chunk, s);
    }
  }

  lemma ContinueFrom(chunk: seq<byte>, s: Sys, first: seq<Event>)
    requires |chunk| == CHUNK_SIZE && Inv(chunk, Run(s, first)) && Recoverable(Run(s, first).win)
    ensures exists es :: Run(s, es).recv.npe == N + 1
  {
    hide Inv, Recoverable, Step;
    var t := Run(s, first);
    RecoverableCompletes(chunk, t);
    var es :| Run(t, es).recv.npe == N + 1;
    RunConcat(s, first, es);
    assert Run(s, first + es) == Run(t, es);
  }

  lemma UsefulCompletes(chunk: seq<byte>, s: Sys)
    requires |chunk| == CHUNK_SIZE && Inv(chunk, s) && !Recoverable(s.win) && !NothingUseful(chunk, s.net)
    ensures exists es :: Run(s, es).recv.npe == N + 1
  {
    hide Inv, Step, Run;
    DeadFacts(chunk, s);
    if Original(chunk, 1) in s.net {
      NpePositive(chunk, s);
      Exchanged(chunk, s, 1);
      RunTwo(s, Deliver(Original(chunk, 1)), Deliver(FormAck(1)));
      ContinueFrom(chunk, s, [Deliver(Original(chunk, 1)), Deliver(FormAck(1))]);
    } else {
      var p :| p in s.net && p.ptype == 4 && p.ackNum >= 1;
      AckForm(chunk, s, p);
      AckArrives(chunk, s, p.ackNum);
      RunOne(s, Deliver(p));
      ContinueFrom(chunk, s, [Deliver(p)]);
    }
  }

  lemma NpePositive(chunk: seq<byte>, s: Sys)
    requires |chunk| == CHUNK_SIZE && Inv(chunk, s)
    ensures s.recv.npe >= 1
  {
  }

  lemma AckForm(chunk: seq<byte>, s: Sys, p: Packet)
    requires |chunk| == CHUNK_SIZE && Inv(chunk, s) && p in s.net && p.ptype == 4
    ensures p == FormAck(p.ackNum)
  {
    assert Genuine(chunk, p, s.past.hi, s.recv.npe);
  }

  lemma RunOne(s: Sys, e: Event)
    ensures Run(s, [e]) == Step(s, e)
  {
    hide Step;
    assert Run(s, [e][..0]) == s;
  }

  lemma RunTwo(s: Sys, e: Event, f: Event)
    ensures Run(s, [e, f]) == Step(Step(s, e), f)
  {
    hide Step;
    assert [e, f][..1] == [e];
    RunOne(s, e);
  }

  /** A state of any run can still lead to the complete chunk exactly when it is complete, the window is
      recoverable, or the network still carries packet 1 or an acknowledgement of it. */
  lemma CanCompleteIff(chunk: seq<byte>, s: Sys)
    requires |chunk| == CHUNK_SIZE && Inv(chunk, s)
    ensures (exists es :: Run(s, es).recv.npe == N + 1)
            <==> s.recv.npe == N + 1 || Recoverable(s.win) || !NothingUseful(chunk, s.net)
  {
    hide Inv, Step;
    if s.recv.npe == N + 1 {
      assert Run(s, []) == s;
    } else if Recoverable(s.win) {
      RecoverableCompletes(chunk, s);
    } else if !NothingUseful(chunk, s.net) {
      UsefulCompletes(chunk, s);
    } else {
      DeadFacts(chunk, s);
      forall es
        ensures Run(s, es).recv.npe <= N
      {
        DeadForever(chunk, s, es);
      }
    }
  }

  lemma FirstSend(chunk: seq<byte>, now: int)
    requires |chunk| == CHUNK_SIZE && now > 0
    ensures var t := Step(Init(chunk), Send(now));
            t.win.lpa == 0 && t.win.lps == 1 && t.recv.npe == 1 && t.net == multiset{Original(chunk, 1)}
  {
    assert Burst(LoadedWin(chunk)) == 1;
    assert CanSend(LoadedWin(chunk)) && Transmitted(LoadedWin(chunk)) == [Original(chunk, 1)];
  }

  /** The dead state is real: sending once and losing the only packet leads there. */
  lemma FirstPacketLost(chunk: seq<byte>, now: int)
    requires |chunk| == CHUNK_SIZE && now > 0
    ensures var s := Run(Init(chunk), [Send(now), Lose(Original(chunk, 1))]);
            Inv(chunk, s) && Dead(chunk, s) && s.net == multiset{}
  {
    hide Inv, Init, Run;
    InitInv(chunk);
    RunInv(chunk, Init(chunk), [Send(now), Lose(Original(chunk, 1))]);
    RunTwo(Init(chunk), Send(now), Lose(Original(chunk, 1)));
    FirstSend(chunk, now);
  }
}
