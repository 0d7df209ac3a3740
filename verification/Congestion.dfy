/** How acknowledgements grow the congestion window. */
module Congestion {
  import opened SlidingWindow

  /** The next n packets are in flight and the buffer holds them. */
  predicate Awaiting(w: Win, n: int) {
    && 0 <= w.lpa && w.lpa + n <= w.lps && w.cwnd >= 1.0
    && forall i :: w.lpa < i <= w.lpa + n ==> w.Filled(i)
  }

  /** Positions and congestion state after an acknowledgement that advances the window: the buffer left out. */
  function Control(w: Win): Win { w.(buf := []) }

  lemma Unbuffered(w: Win, c: int)
    requires w.Filled(c) && w.cwnd != 0.0 && Advances(w, c)
    ensures Control(OnAck(w, c)) == Control(w).AdvanceTo(c)
    ensures |OnAck(w, c).buf| == |w.buf| && forall i :: 0 <= i < |w.buf| && w.buf[i].Some? ==> OnAck(w, c).buf[i].Some?
  {
    var seen := w.WithAcked(c, w.buf[c].value.acked + 1);
    assert Control(seen) == Control(w);
    assert Control(seen.AdvanceTo(c)) == Control(seen).AdvanceTo(c);
  }

  lemma GrowsByAcks(w: Win, n: int)
    requires w.cwnd >= 1.0 && n >= 1
    ensures w.Grown(n) >= 1.0
    ensures w.cwnd <= w.ssthresh as real ==> w.Grown(n) == w.cwnd + n as real
  {
    NonNegative(1.0 / w.cwnd, n as real);
  }

  lemma NonNegative(x: real, y: real)
    requires x >= 0.0 && y >= 0.0
    ensures x * y >= 0.0
  {
  }

  lemma EachKeeps(w: Win, n: int)
    requires Awaiting(w, n) && n >= 1
    ensures Advances(w, w.lpa + 1) && AckNames(w, w.lpa + 1) && Awaiting(OnAck(w, w.lpa + 1), n - 1)
    ensures Control(OnAck(w, w.lpa + 1)) == Control(w).AdvanceTo(w.lpa + 1)
  {
    hide Win.Grown;
    assert w.Filled(w.lpa + 1);
    Unbuffered(w, w.lpa + 1);
    GrowsByAcks(Control(w), 1);
    hide OnAck;
    var t := OnAck(w, w.lpa + 1);
    assert t.lpa == Control(t).lpa == w.lpa + 1 && t.lps == Control(t).lps == w.lps;
    assert t.cwnd == Control(t).cwnd == Control(w).Grown(1);
    forall i | w.lpa + 1 < i <= w.lpa + n
      ensures t.Filled(i)
    {
      assert w.Filled(i) && t.buf[i].Some?;
    }
  }

  /** The acknowledgements of the next n packets, one after another. */
  function AckEach(w: Win, n: nat): Win
    requires Awaiting(w, n)
    decreases n
  {
    if n == 0 then w
    else
      EachKeeps(w, n);
      AckEach(OnAck(w, w.lpa + 1), n - 1)
  }

  /** Slow start: n acknowledgements in a row grow the window by exactly n packets, and one acknowledgement of
      the last of the n packets has the same effect. */
  lemma {:induction false} SlowStart(w: Win, n: nat)
    requires Awaiting(w, n) && n >= 1 && w.cwnd + (n - 1) as real <= w.ssthresh as real
    ensures Control(AckEach(w, n)) == Control(w).(lpa := w.lpa + n, cwnd := w.cwnd + n as real).Recount()
    ensures AckNames(w, w.lpa + n) && Control(OnAck(w, w.lpa + n)) == Control(AckEach(w, n))
    decreases n
  {
    hide OnAck, Win.Grown, AckNames;
    EachByEach(w, n);
    assert w.Filled(w.lpa + n);
    NamesFilled(w, w.lpa + n);
    Unbuffered(w, w.lpa + n);
    GrowsByAcks(Control(w), n);
  }

  lemma NamesFilled(w: Win, c: int)
    requires w.Filled(c)
    ensures AckNames(w, c)
  {
  }

  lemma {:induction false} EachByEach(w: Win, n: nat)
    requires Awaiting(w, n) && n >= 1 && w.cwnd + (n - 1) as real <= w.ssthresh as real
    ensures Control(AckEach(w, n)) == Control(w).(lpa := w.lpa + n, cwnd := w.cwnd + n as real).Recount()
    decreases n
  {
    hide OnAck, Win.Grown, Awaiting;
    EachKeeps(w, n);
    InSlowStart(w, n);
    var next := OnAck(w, w.lpa + 1);
    assert Control(next).cwnd == next.cwnd && Control(next).lpa == next.lpa && Control(next).ssthresh == next.ssthresh;
    if n > 1 {
      EachByEach(next, n - 1);
    }
  }

  lemma InSlowStart(w: Win, n: nat)
    requires Awaiting(w, n) && n >= 1 && w.cwnd + (n - 1) as real <= w.ssthresh as real
    ensures w.cwnd != 0.0
    ensures Control(w).AdvanceTo(w.lpa + 1) == Control(w).(lpa := w.lpa + 1, cwnd := w.cwnd + 1.0).Recount()
  {
    GrowsByAcks(Control(w), 1);
  }

  lemma Share(c: real, n: real)
    requires 1.0 <= n <= c
    ensures 0.0 <= (1.0 / c) * n <= 1.0
    ensures ((1.0 / c) * n) * c == n
  {
    var q := 1.0 / c;
    assert q * c == 1.0;
    Monotone(q, n, c);
    Rearranged(q, n, c);
  }

  lemma Monotone(q: real, x: real, y: real)
    requires q >= 0.0 && 0.0 <= x <= y
    ensures 0.0 <= q * x <= q * y
  {
  }

  lemma Rearranged(q: real, n: real, c: real)
    ensures (q * n) * c == (q * c) * n
  {
  }

  lemma ShareAtMost(c: real, n: real)
    requires c >= 1.0 && n >= 0.0
    ensures 0.0 <= (1.0 / c) * n <= n
  {
    var q := 1.0 / c;
    assert q * c == 1.0 && 0.0 <= q <= 1.0;
    Monotone(n, q, 1.0);
  }

  /** A growing window gains at most a packet per acknowledged packet, and stays below the cap if the packets that
      were in flight fitted into it. */
  lemma GrownBounds(w: Win, n: int)
    requires w.cwnd >= 1.0 && 1 <= n
    ensures 1.0 <= w.Grown(n) <= w.cwnd + n as real
    ensures w.cwnd <= TCP_MAXWIN && w.ssthresh <= 64 && n as real <= w.cwnd ==> w.cwnd <= w.Grown(n) <= TCP_MAXWIN
  {
    ShareAtMost(w.cwnd, n as real);
    var extra := (1.0 / w.cwnd) * n as real;
    assert 0.0 <= extra <= n as real;
    assert w.cwnd > w.ssthresh as real ==>
        w.Grown(n) == if w.cwnd + extra > TCP_MAXWIN then TCP_MAXWIN else w.cwnd + extra;
    assert w.cwnd <= w.ssthresh as real ==> w.Grown(n) == w.cwnd + n as real;
    hide Win.Grown;
  }

  /** Congestion avoidance: acknowledging up to a whole window at once adds at most one packet, in proportion to
      the share of the window that was acknowledged, and ends at or below the cap. */
  lemma Avoidance(w: Win, n: int)
    requires w.cwnd > w.ssthresh as real && w.cwnd >= 1.0 && 1 <= n && n as real <= w.cwnd
    ensures w.Grown(n) <= w.cwnd + 1.0 && w.Grown(n) <= TCP_MAXWIN
    ensures w.cwnd <= TCP_MAXWIN ==> w.Grown(n) >= w.cwnd
    ensures w.Grown(n) < TCP_MAXWIN ==> (w.Grown(n) - w.cwnd) * w.cwnd == n as real
  {
    Share(w.cwnd, n as real);
    var extra := (1.0 / w.cwnd) * n as real;
    assert w.Grown(n) == if w.cwnd + extra > TCP_MAXWIN then TCP_MAXWIN else w.cwnd + extra;
    hide Win.Grown;
    if w.Grown(n) < TCP_MAXWIN {
      assert w.Grown(n) - w.cwnd == extra;
    }
  }
}
