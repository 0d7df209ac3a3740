/** When the sender can still finish: the downloader that has its chunk stops listening (finish_one_download), and
    from then on nothing replaces a lost acknowledgement. */
module TransferCompletion {
  import opened Basics
  import opened Packets
  import opened SlidingWindow
  import opened Receiver
  import opened Transfer
  import opened TransferSafety
  import opened TransferProgress

  /** The downloader has closed and no acknowledgement of the last packet is left. */
  predicate Abandoned(s: Sys) { s.closed && s.win.lpa < N && FormAck(N) !in s.net }

  lemma AckBelowLast(chunk: seq<byte>, s: Sys, p: Packet)
    requires |chunk| == CHUNK_SIZE && Inv(chunk, s) && p in s.net && p.ptype == 4 && FormAck(N) !in s.net
    ensures p.ackNum < N && AckNames(s.win, p.ackNum) && s.win.cwnd != 0.0
  {
    AckForm(chunk, s, p);
    assert Genuine(chunk, p, s.past.hi, s.recv.npe);
  }

  lemma AckPosition(w: Win, c: int)
    requires AckNames(w, c) && w.cwnd != 0.0
    ensures OnAck(w, c).lpa == w.lpa || OnAck(w, c).lpa == c
  {
  }

  lemma AbandonedDeliver(chunk: seq<byte>, s: Sys, p: Packet)
    requires |chunk| == CHUNK_SIZE && Inv(chunk, s) && Abandoned(s) && p in s.net
    ensures Abandoned(Step(s, Deliver(p)))
  {
    hide Inv, OnAck, AckNames;
    if p.ptype == 4 {
      AckBelowLast(chunk, s, p);
      AckPosition(s.win, p.ackNum);
    }
  }

  lemma AbandonedCalls(chunk: seq<byte>, s: Sys, now: int)
    requires |chunk| == CHUNK_SIZE && Inv(chunk, s) && Abandoned(s)
    ensures Abandoned(Step(s, Timer(now))) && Abandoned(Step(s, Send(now)))
  {
    hide Inv, OnTimer, OnSend, CanSend, Transmitted;
    TimerKeepsPosition(s.win, now);
    SendKeepsPosition(s.win, now);
    NoAckSent(chunk, s);
  }

  lemma AbandonedStep(chunk: seq<byte>, s: Sys, e: Event)
    requires |chunk| == CHUNK_SIZE && Inv(chunk, s) && Abandoned(s)
    ensures Abandoned(Step(s, e))
  {
    hide Inv;
    match e
    case Send(now) => AbandonedCalls(chunk, s, now);
    case Timer(now) => AbandonedCalls(chunk, s, now);
    case Deliver(p) => if p in s.net { AbandonedDeliver(chunk, s, p); }
    case _ =>
  }

  /** Nothing that can happen later brings the sender to its last packet. */
  lemma {:induction false} AbandonedForever(chunk: seq<byte>, s: Sys, es: seq<Event>)
    requires |chunk| == CHUNK_SIZE && Inv(chunk, s) && Abandoned(s)
    ensures Abandoned(Run(s, es))
  {
    hide Inv, Step, Abandoned;
    if es != [] {
      AbandonedForever(chunk, s, es[..|es| - 1]);
      RunInv(chunk, s, es[..|es| - 1]);
      AbandonedStep(chunk, Run(s, es[..|es| - 1]), es[|es| - 1]);
    }
  }

  lemma FinishFrom(chunk: seq<byte>, s: Sys, first: seq<Event>)
    requires |chunk| == CHUNK_SIZE
    requires var t := Run(s, first); Inv(chunk, t) && Recoverable(t.win) && !t.closed
    ensures exists es :: Run(s, es).win.lpa == N
  {
    hide Inv, Recoverable, Step, Run;
    var t := Run(s, first);
    RecoverableFinishes(chunk, t);
    var es :| Run(t, es).win.lpa == N && Run(t, es).recv.npe == N + 1;
    RunConcat(s, first, es);
    assert Run(s, first + es) == Run(t, es);
  }

  /** An acknowledgement in transit above the sender's position, or packet 1, gets it going again. */
  lemma UsefulFinishes(chunk: seq<byte>, s: Sys)
    requires |chunk| == CHUNK_SIZE && Inv(chunk, s) && !s.closed && !Recoverable(s.win) && !NothingUseful(chunk, s.net)
    ensures exists es :: Run(s, es).win.lpa == N
  {
    hide Inv, Step, Run;
    DeadFacts(chunk, s);
    if Original(chunk, 1) in s.net {
      NpePositive(chunk, s);
      Exchanged(chunk, s, 1);
      RunTwo(s, Deliver(Original(chunk, 1)), Deliver(FormAck(1)));
      FinishFrom(chunk, s, [Deliver(Original(chunk, 1)), Deliver(FormAck(1))]);
    } else {
      var p :| p in s.net && p.ptype == 4 && p.ackNum >= 1;
      AckForm(chunk, s, p);
      AckArrives(chunk, s, p.ackNum);
      RunOne(s, Deliver(p));
      FinishFrom(chunk, s, [Deliver(p)]);
    }
  }

  lemma LastAckFinishes(chunk: seq<byte>, s: Sys)
    requires |chunk| == CHUNK_SIZE && Inv(chunk, s) && s.win.lpa < N && FormAck(N) in s.net
    ensures exists es :: Run(s, es).win.lpa == N
  {
    hide Inv, Step, Run;
    AckArrives(chunk, s, N);
    RunOne(s, Deliver(FormAck(N)));
    assert Run(s, [Deliver(FormAck(N))]).win.lpa == N;
  }

  lemma DeadCannotFinish(chunk: seq<byte>, s: Sys, es: seq<Event>)
    requires |chunk| == CHUNK_SIZE && Inv(chunk, s) && !Recoverable(s.win) && NothingUseful(chunk, s.net)
    ensures Run(s, es).win.lpa < N
  {
    hide Inv, Step, Run, NothingUseful;
    DeadFacts(chunk, s);
    DeadForever(chunk, s, es);
  }

  /** The sender can still see the acknowledgement of its last packet exactly when it has it, when it is in
      transit, or when the downloader listens and the window is recoverable or packet 1 or an acknowledgement of a
      packet is in transit. */
  lemma CanFinishIff(chunk: seq<byte>, s: Sys)
    requires |chunk| == CHUNK_SIZE && Inv(chunk, s)
    ensures (exists es :: Run(s, es).win.lpa == N)
            <==> s.win.lpa == N || FormAck(N) in s.net
                 || (!s.closed && (Recoverable(s.win) || !NothingUseful(chunk, s.net)))
  {
    hide Inv, Step, NothingUseful, Recoverable;
    InvLimits(chunk, s);
    if s.win.lpa == N {
      assert Run(s, []) == s;
    } else if FormAck(N) in s.net {
      LastAckFinishes(chunk, s);
    } else if s.closed {
      forall es
        ensures Run(s, es).win.lpa < N
      {
        AbandonedForever(chunk, s, es);
      }
    } else if Recoverable(s.win) {
      RecoverableFinishes(chunk, s);
    } else if !NothingUseful(chunk, s.net) {
      UsefulFinishes(chunk, s);
    } else {
      forall es
        ensures Run(s, es).win.lpa < N
      {
        DeadCannotFinish(chunk, s, es);
      }
    }
  }

  // ---- a run that ends that way ----

  /** The network loses every copy of p. */
  function LoseAll(s: Sys, p: Packet): seq<Event> { seq(s.net[p], i => Lose(p)) }

  lemma {:induction false} Losing(s: Sys, p: Packet, n: nat)
    requires n <= s.net[p]
    ensures Run(s, seq(n, i => Lose(p))) == s.(net := s.net[p := s.net[p] - n])
  {
    hide Step;
    var es := seq(n, i => Lose(p));
    if n == 0 {
      assert s.net[p := s.net[p]] == s.net;
    } else {
      Losing(s, p, n - 1);
      assert es[..n - 1] == seq(n - 1, i => Lose(p));
      LoseOne(s, p, n);
    }
  }

  lemma LoseOne(s: Sys, p: Packet, n: nat)
    requires 1 <= n <= s.net[p]
    ensures Step(s.(net := s.net[p := s.net[p] - (n - 1)]), Lose(p)) == s.(net := s.net[p := s.net[p] - n])
  {
    assert s.net[p := s.net[p] - (n - 1)] - multiset{p} == s.net[p := s.net[p] - n];
  }

  /** Once packet i was delivered to a listening downloader that waited for it, the downloader waits for a later one. */
  lemma AcceptsDelivered(chunk: seq<byte>, s: Sys, i: int)
    requires |chunk| == CHUNK_SIZE && Inv(chunk, s) && !s.closed
    requires 1 <= i <= s.recv.npe && i <= N && Original(chunk, i) in s.net
    ensures Step(s, Deliver(Original(chunk, i))).recv.npe > i
  {
    var p := Original(chunk, i);
    assert Step(s, Deliver(p)).recv == OnData(s.recv, p);
    PassesPacket(chunk, s.recv, i, s.past.hi);
  }

  lemma PassesPacket(chunk: seq<byte>, r: Recv, i: int, hi: int)
    requires |chunk| == CHUNK_SIZE && Received(chunk, r, hi) && 1 <= i <= r.npe && i <= N
    ensures OnData(r, Original(chunk, i)).npe > i
  {
    OriginalNumber(chunk, i);
    hide Original, Received;
    assert Acceptable(r, Original(chunk, i));
    PassesOwn(r, Original(chunk, i));
  }

  lemma PassesOwn(r: Recv, p: Packet)
    requires r.Shaped() && Acceptable(r, p) && 1 <= p.seqNum <= N && p.seqNum <= r.npe
    ensures OnData(r, p).npe > p.seqNum
  {
    if p.seqNum == r.npe {
      assert Stored(r, p)[p.seqNum].Some?;
    }
    hide Stored;
  }

  lemma FreshStamps(chunk: seq<byte>)
    requires |chunk| == CHUNK_SIZE
    ensures StampedBy(Init(chunk).win, 0)
    ensures Init(chunk).win.lpa == 0 && Init(chunk).win.lps == 0 && !Init(chunk).closed
  {
  }

  /** 511 loss-free rounds: everything but the last packet is acknowledged. */
  lemma AllButLast(chunk: seq<byte>) returns (es: seq<Event>, now: int)
    requires |chunk| == CHUNK_SIZE
    ensures var s := Run(Init(chunk), es);
            now > 0 && Inv(chunk, s) && !s.closed && s.win.lpa == N - 1 && StampedBy(s.win, now - TIMEOUT_SEC - 1)
  {
    hide Inv, StampedBy, Run, Init, RoundHelps;
    FreshStamps(chunk);
    InitInv(chunk);
    FirstRoundHelps(chunk);
    var s := Init(chunk);
    RoundsComplete(chunk, s, N - 1, TIMEOUT_SEC + 1);
    es :| Run(s, es) == Rounds(chunk, s, N - 1, TIMEOUT_SEC + 1);
    now := (TIMEOUT_SEC + 1) * N;
  }

  lemma FirstRoundHelps(chunk: seq<byte>)
    requires |chunk| == CHUNK_SIZE && 0 <= Init(chunk).win.lpa < N
    ensures RoundHelps(chunk, Init(chunk))
  {
    FreshStamps(chunk);
  }

  lemma CloseStep(s: Sys)
    requires s.recv.bytes == CHUNK_SIZE
    ensures Step(s, Close) == s.(closed := true)
  {
  }

  lemma Whole(chunk: seq<byte>, s: Sys)
    requires |chunk| == CHUNK_SIZE && Inv(chunk, s) && s.recv.npe > N
    ensures s.recv.bytes == CHUNK_SIZE
  {
    AssembledPrefix(chunk, s.recv, s.past.hi, s.recv.npe);
  }

  /** The last packet arrives, so the chunk is complete; its acknowledgement does not; the downloader closes. */
  lemma LastExchange(chunk: seq<byte>, s: Sys, now: int) returns (es: seq<Event>)
    requires |chunk| == CHUNK_SIZE && Inv(chunk, s) && !s.closed && s.win.lpa == N - 1
    requires now > 0 && StampedBy(s.win, now - TIMEOUT_SEC - 1)
    ensures var t := Run(s, es);
            Inv(chunk, t) && t.win.lpa == N - 1 && t.recv.npe == N + 1 && Abandoned(t)
  {
    hide Inv, StampedBy, Step, Run;
    NowRecoverable(s.win);
    Retransmitted(chunk, s, now);
    var s2 := Step(Step(s, Timer(now)), Send(now));
    RunTwo(s, Timer(now), Send(now));
    Acknowledged(chunk, s2, N);
    AcceptsDelivered(chunk, s2, N);
    var s3 := Step(s2, Deliver(Original(chunk, N)));
    RunOne(s2, Deliver(Original(chunk, N)));
    RunConcat(s, [Timer(now), Send(now)], [Deliver(Original(chunk, N))]);
    var a := [Timer(now), Send(now)] + [Deliver(Original(chunk, N))];
    AckLost(chunk, s, a, s3);
    es := a + LoseAll(s3, FormAck(N)) + [Close];
  }

  lemma NowRecoverable(w: Win)
    requires w.lpa == N - 1
    ensures Recoverable(w)
  {
  }

  lemma AckLost(chunk: seq<byte>, s: Sys, a: seq<Event>, s3: Sys)
    requires |chunk| == CHUNK_SIZE && Run(s, a) == s3 && Inv(chunk, s3) && s3.win.lpa == N - 1 && s3.recv.npe > N
    ensures var t := Run(s, a + LoseAll(s3, FormAck(N)) + [Close]);
            Inv(chunk, t) && t.win.lpa == N - 1 && t.recv.npe == N + 1 && Abandoned(t)
  {
    hide Inv, Step, Run;
    var p, b := FormAck(N), LoseAll(s3, FormAck(N));
    var s4 := Run(s3, b);
    Losing(s3, p, s3.net[p]);
    RunInv(chunk, s3, b);
    RunConcat(s, a, b);
    Whole(chunk, s4);
    CloseStep(s4);
    StepInv(chunk, s4, Close);
    RunOne(s4, Close);
    RunConcat(s, a + b, [Close]);
    NpeLimit(chunk, s4);
  }

  lemma NpeLimit(chunk: seq<byte>, s: Sys)
    requires |chunk| == CHUNK_SIZE && Inv(chunk, s)
    ensures s.recv.npe <= N + 1
  {
  }

  /** Losing the last acknowledgement is final: on this run the downloader has the whole chunk and closes, and
      whatever happens next the sender never learns it. */
  lemma LastAckLost(chunk: seq<byte>) returns (es: seq<Event>)
    requires |chunk| == CHUNK_SIZE
    ensures var s := Run(Init(chunk), es);
            && s.win.lpa == N - 1 && s.recv.npe == N + 1 && s.closed
            && forall more :: Run(s, more).win.lpa < N
  {
    hide Inv, Step, Run, Init, StampedBy;
    var a, now := AllButLast(chunk);
    var s := Run(Init(chunk), a);
    var b := LastExchange(chunk, s, now);
    RunConcat(Init(chunk), a, b);
    es := a + b;
    var t := Run(Init(chunk), es);
    forall more
      ensures Run(t, more).win.lpa < N
    {
      AbandonedForever(chunk, t, more);
    }
  }
}
