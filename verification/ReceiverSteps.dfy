/** What a data packet does to a transfer in every reachable state, told by slots and packets in transit, and what
    packets that arrive out of order do. */
module ReceiverSteps {
  import opened Basics
  import opened Packets
  import opened Receiver
  import opened Transfer
  import opened TransferSafety

  lemma BytesCounted(chunk: seq<byte>, s: Sys)
    requires Reachable(chunk, s)
    ensures s.recv.bytes == (s.recv.npe - 1) * PAYLOAD_LEN
  {
    hide Reachable;
    ReceiverHoldsTheChunk(chunk, s);
  }

  // ---- data packets ----

  /** The highest packet number the receiver takes. */
  function Reach(r: Recv): int { Min(r.npe + 30, 512) }

  /** The only difference between the two buffers is that slot i holds packet p. */
  predicate OnlySlot(before: seq<Option<Packet>>, after: seq<Option<Packet>>, i: int, p: Packet) {
    && |after| == |before| == SLOTS && 0 <= i < SLOTS && after[i] == Some(p)
    && forall j :: 0 <= j < SLOTS && j != i ==> after[j] == before[j]
  }

  /** n is the first number above i that was missing. */
  predicate FirstMissing(buf: seq<Option<Packet>>, i: int, n: int) {
    && |buf| == SLOTS && 0 <= i < n <= SLOTS - 1
    && (forall j :: i < j < n ==> buf[j].Some?) && (n < SLOTS - 1 ==> buf[n].None?)
  }

  /** The acknowledgements of packets i..j-1. */
  function Acks(i: int, j: int): multiset<Packet>
    requires i <= j
  {
    multiset(seq(j - i, k => FormAck(i + k)))
  }

  /** What became of a receiver r that was handed packet i. */
  predicate Took(r: Recv, after: Recv, i: int, p: Packet) {
    && OnlySlot(r.buf, after.buf, i, p)
    && (i != r.npe ==> after.npe == r.npe)
    && (i == r.npe ==> FirstMissing(r.buf, i, after.npe))
  }

  /** What a receiver r answers that then expects packet n. */
  function Replies(r: Recv, i: int, n: int): multiset<Packet>
    requires i == r.npe ==> i <= n
  {
    if i == r.npe then Acks(i, n) else multiset{FormAck(if i > r.npe then r.npe - 1 else i)}
  }

  lemma TakesPacket(chunk: seq<byte>, r: Recv, i: int, hi: int)
    requires |chunk| == CHUNK_SIZE && Received(chunk, r, hi) && 1 <= i <= hi <= N
    ensures var p := Original(chunk, i);
            var after := OnData(r, p);
            if i > Reach(r) then after == r && Answers(r, p) == []
            else Took(r, after, i, p) && multiset(Answers(r, p)) == Replies(r, i, after.npe)
  {
    var p := Original(chunk, i);
    OriginalNumber(chunk, i);
    LastSlotEmpty(chunk, r, hi);
    DataCases(r, p);
    if i <= Reach(r) {
      StoredSlots(chunk, r, p, hi);
      hide *;
      SlotChanged(r.buf, Stored(r, p), i, p);
      if i == r.npe { GapMissing(r.buf, Stored(r, p), i); }
      TookWhole(r, OnData(r, p), i, p);
      AnswersWhole(r, p, i);
    }
  }

  /** What the receiver becomes, case by case. */
  lemma DataCases(r: Recv, p: Packet)
    requires r.Shaped() && 1 <= p.seqNum <= N && r.npe < SLOTS
    ensures Acceptable(r, p) <==> p.seqNum <= Reach(r)
    ensures !Acceptable(r, p) ==> OnData(r, p) == r && Answers(r, p) == []
    ensures Acceptable(r, p) ==> OnData(r, p).buf == Stored(r, p)
    ensures Acceptable(r, p) ==> OnData(r, p).npe == if p.seqNum == r.npe then Gap(Stored(r, p), r.npe) else r.npe
  {
    hide Stored, Gap, AckBurst, PayloadBytes;
  }

  lemma TookWhole(r: Recv, after: Recv, i: int, p: Packet)
    requires OnlySlot(r.buf, after.buf, i, p)
    requires if i == r.npe then FirstMissing(r.buf, i, after.npe) else after.npe == r.npe
    ensures Took(r, after, i, p)
  {
  }

  lemma AnswersWhole(r: Recv, p: Packet, i: int)
    requires r.Shaped() && 1 <= i <= N && p.seqNum == i && i <= Reach(r)
    ensures i == r.npe ==> i <= OnData(r, p).npe
    ensures multiset(Answers(r, p)) == Replies(r, i, OnData(r, p).npe)
  {
    AnswerCases(r, p);
    hide OnData, Answers, FormAck;
  }

  lemma SlotChanged(before: seq<Option<Packet>>, after: seq<Option<Packet>>, i: int, p: Packet)
    requires |before| == |after| == SLOTS && 0 <= i < SLOTS && after[i] == Some(p)
    requires forall j :: 0 <= j < SLOTS && j != i ==> after[j] == before[j]
    ensures OnlySlot(before, after, i, p)
  {
  }

  lemma GapMissing(before: seq<Option<Packet>>, after: seq<Option<Packet>>, i: int)
    requires |before| == |after| == SLOTS && 0 <= i < SLOTS - 1 && after[i].Some?
    requires forall j :: 0 <= j < SLOTS && j != i ==> after[j] == before[j]
    ensures FirstMissing(before, i, Gap(after, i))
  {
  }

  lemma DataArrives(chunk: seq<byte>, s: Sys, i: int)
    requires Reachable(chunk, s) && 1 <= i <= N && Original(chunk, i) in s.net
    ensures var p := Original(chunk, i);
            var t := Step(s, Deliver(p));
            && t.win == s.win && t.closed == s.closed
            && if s.closed || i > Reach(s.recv) then t.recv == s.recv && t.net == s.net - multiset{p}
               else
                 && Took(s.recv, t.recv, i, p)
                 && t.recv.bytes == (t.recv.npe - 1) * PAYLOAD_LEN
                 && t.net == s.net - multiset{p} + Replies(s.recv, i, t.recv.npe)
  {
    hide Original, Took, Replies, OnData, Answers;
    var p := Original(chunk, i);
    var taken := s.(net := s.net - multiset{p});
    OriginalInTransit(chunk, s, i);
    DeliverIs(s, p);
    if !s.closed {
      TakesPacket(chunk, s.recv, i, s.past.hi);
      StepReachable(chunk, s, Deliver(p));
      BytesCounted(chunk, Step(s, Deliver(p)));
    }
  }

  lemma OriginalInTransit(chunk: seq<byte>, s: Sys, i: int)
    requires Reachable(chunk, s) && 1 <= i <= N && Original(chunk, i) in s.net
    ensures Original(chunk, i).ptype == 3 && i <= s.past.hi <= N && Received(chunk, s.recv, s.past.hi)
  {
    ReachableInv(chunk, s);
    GenuineKind(chunk, s, Original(chunk, i));
  }

  // ---- packets in any order ----

  predicate Numbers(order: seq<int>) { forall k :: 0 <= k < |order| ==> 1 <= order[k] <= N }

  /** The packets with these numbers are in transit and ahead of the one the receiver waits for. */
  predicate Ahead(chunk: seq<byte>, s: Sys, order: seq<int>)
    requires |chunk| == CHUNK_SIZE
  {
    Numbers(order) &&
    forall k :: 0 <= k < |order| ==> s.recv.npe < order[k] <= Reach(s.recv) && Original(chunk, order[k]) in s.net
  }

  function Deliveries(chunk: seq<byte>, order: seq<int>): seq<Event>
    requires |chunk| == CHUNK_SIZE && Numbers(order)
  {
    seq(|order|, k requires 0 <= k < |order| => Deliver(Original(chunk, order[k])))
  }

  /** After early packets were delivered to s: they are kept, and the others in transit are still there. */
  predicate Kept(chunk: seq<byte>, s: Sys, u: Sys, order: seq<int>)
    requires |chunk| == CHUNK_SIZE
  {
    && !u.closed && u.recv.npe == s.recv.npe && |u.recv.buf| == SLOTS
    && (forall i :: i in order ==> 1 <= i <= N && u.recv.buf[i] == Some(Original(chunk, i)))
    && (forall i :: 1 <= i <= N && i !in order && Original(chunk, i) in s.net ==> Original(chunk, i) in u.net)
  }

  lemma {:induction false} EarlyKept(chunk: seq<byte>, s: Sys, order: seq<int>)
    requires Reachable(chunk, s) && !s.closed && Ahead(chunk, s, order)
    ensures Kept(chunk, s, Run(s, Deliveries(chunk, order)), order)
    decreases |order|
  {
    assert |chunk| == CHUNK_SIZE;
    hide *;
    if order == [] {
      NoneKept(chunk, s, order);
    } else {
      var n := |order| - 1;
      var before := order[..n];
      LastAhead(chunk, s, order);
      EarlyKept(chunk, s, before);
      var u := Run(s, Deliveries(chunk, before));
      RunReachable(chunk, s, Deliveries(chunk, before));
      OneMoreKept(chunk, s, u, before, order[n]);
      assert order == before + [order[n]];
    }
  }

  lemma NoneKept(chunk: seq<byte>, s: Sys, order: seq<int>)
    requires Reachable(chunk, s) && !s.closed && Ahead(chunk, s, order) && order == []
    ensures Kept(chunk, s, Run(s, Deliveries(chunk, order)), order)
  {
    hide Original, Reachable, Step;
    ReceiverHoldsTheChunk(chunk, s);
  }

  lemma LastAhead(chunk: seq<byte>, s: Sys, order: seq<int>)
    requires |chunk| == CHUNK_SIZE && Ahead(chunk, s, order) && order != []
    ensures var n := |order| - 1;
            && Numbers(order) && Ahead(chunk, s, order[..n]) && Numbers(order[..n])
            && 1 <= order[n] <= N && s.recv.npe < order[n] <= Reach(s.recv) && Original(chunk, order[n]) in s.net
            && Run(s, Deliveries(chunk, order))
               == Step(Run(s, Deliveries(chunk, order[..n])), Deliver(Original(chunk, order[n])))
  {
    hide Original, Step;
    var n, es := |order| - 1, Deliveries(chunk, order);
    assert es[..n] == Deliveries(chunk, order[..n]);
  }

  lemma OneMoreKept(chunk: seq<byte>, s: Sys, u: Sys, order: seq<int>, i: int)
    requires Reachable(chunk, u) && Kept(chunk, s, u, order)
    requires s.recv.npe < i <= Reach(s.recv) && 1 <= i <= N && Original(chunk, i) in s.net
    ensures Kept(chunk, s, Step(u, Deliver(Original(chunk, i))), order + [i])
  {
    hide Original, Step;
    var p := Original(chunk, i);
    if p in u.net {
      DataArrives(chunk, u, i);
      hide Reachable;
      forall j | 1 <= j <= N && j != i
        ensures Original(chunk, j) != p
      {
        OriginalNumber(chunk, i);
        OriginalNumber(chunk, j);
      }
    } else {
      Undelivered(u, p);
    }
  }

  lemma Undelivered(s: Sys, p: Packet)
    requires p !in s.net
    ensures Step(s, Deliver(p)) == s
  {
  }

  /** Packets that overtake the one the receiver waits for are not lost: deliver any of them in any order and then
      that one, and the receiver is behind all of them up to the first that was missing, with every
      acknowledgement up to there in transit. */
  lemma OvertakersAreKept(chunk: seq<byte>, s: Sys, order: seq<int>, k: nat)
    requires Reachable(chunk, s) && !s.closed && Ahead(chunk, s, order)
    requires s.recv.npe + k <= N && 1 <= s.recv.npe && Original(chunk, s.recv.npe) in s.net
    requires forall i :: s.recv.npe < i <= s.recv.npe + k ==> i in order
    ensures var t := Run(s, Deliveries(chunk, order) + [Deliver(Original(chunk, s.recv.npe))]);
            && t.recv.npe >= s.recv.npe + k + 1
            && forall j :: s.recv.npe <= j <= s.recv.npe + k ==> FormAck(j) in t.net
  {
    assert |chunk| == CHUNK_SIZE;
    hide Original, Reachable, Step, Took;
    var i, es := s.recv.npe, Deliveries(chunk, order);
    EarlyKept(chunk, s, order);
    RunReachable(chunk, s, es);
    var u := Run(s, es);
    assert (es + [Deliver(Original(chunk, i))])[..|es|] == es;
    DataArrives(chunk, u, i);
    var t := Step(u, Deliver(Original(chunk, i)));
    forall j | i < j <= i + k
      ensures u.recv.buf[j].Some?
    {
    }
    MovesPast(u.recv, t.recv, i, k, Original(chunk, i));
    InAcks(i, t.recv.npe);
  }

  lemma MovesPast(r: Recv, after: Recv, i: int, k: nat, p: Packet)
    requires Took(r, after, i, p) && i == r.npe && i + k < SLOTS - 1
    requires forall j :: i < j <= i + k ==> r.buf[j].Some?
    ensures after.npe >= i + k + 1
  {
  }

  lemma InAcks(i: int, n: int)
    requires i <= n
    ensures forall j :: i <= j < n ==> FormAck(j) in Acks(i, n)
  {
    var acks := seq(n - i, k => FormAck(i + k));
    forall j | i <= j < n
      ensures FormAck(j) in Acks(i, n)
    {
      assert acks[j - i] == FormAck(j);
    }
  }
}
