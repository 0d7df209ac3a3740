/** The sender half of the sliding window (sock_io.c): state, steps and the class that performs them. */
module SlidingWindow {
  import opened Basics
  import opened Packets

  const SENDER_BUF_SIZE := 514
  const TCP_MAXWIN := 128.0
  const INITIAL_CONGESTION_THRESHOLD := 64

  /** A filled buffer slot: the packet with its send time and the number of times it was acknowledged. */
  datatype Slot = Slot(pack: Packet, timestamp: int, acked: int)

  datatype Win = Win(lpa: int, lps: int, lpr: int, count: int, cwnd: real, ssthresh: int,
                     buf: seq<Option<Slot>>)
  {
    function Flight(): int { lps - lpa }

    predicate Filled(i: int) { 0 <= i < |buf| && buf[i].Some? }

    /** How many more packets the congestion window admits. */
    function Room(): int { Trunc(cwnd - Flight() as real) }

    function Recount(): Win { this.(count := Room()) }

    function WithAcked(i: int, n: int): Win
      requires Filled(i)
    {
      this.(buf := buf[i := Some(buf[i].value.(acked := n))])
    }

    /** Back to slow start: everything in flight is forgotten. */
    function Collapse(): Win
      requires Filled(lpa)
    {
      WithAcked(lpa, 1).(ssthresh := Max(2, Trunc(cwnd / 2.0)), cwnd := 1.0, lps := lpa).Recount()
    }

    /** Everything up to c is acknowledged although it was not sent since the last collapse. */
    function JumpTo(c: int): Win { this.(lpa := c, lps := c, cwnd := cwnd + 1.0).Recount() }

    /** The window after n packets were newly acknowledged. */
    function Grown(n: int): real
      requires cwnd != 0.0
    {
      if cwnd > ssthresh as real then
        var grown := cwnd + (1.0 / cwnd) * n as real;
        if grown > TCP_MAXWIN then TCP_MAXWIN else grown
      else
        cwnd + n as real
    }

    function AdvanceTo(c: int): Win
      requires cwnd != 0.0
    {
      this.(lpa := c, cwnd := Grown(c - lpa)).Recount()
    }
  }

  function EmptyWin(): Win {
    Win(0, 0, 1, 1, 1.0, INITIAL_CONGESTION_THRESHOLD, seq(SENDER_BUF_SIZE, i => None))
  }

  // ---- acknowledgements ----

  /** What an acknowledgement must name: no packet, or one that was put in the buffer. */
  predicate AckNames(w: Win, c: int) {
    c < 1 || w.Filled(c)
  }

  predicate Jumps(w: Win, c: int) { c >= 1 && c > w.lps }

  predicate Advances(w: Win, c: int) { c >= 1 && c <= w.lps && c > w.lpa }

  predicate Duplicates(w: Win, c: int) { c >= 1 && c <= w.lps && c == w.lpa }

  function OnAck(w: Win, c: int): Win
    requires AckNames(w, c) && w.cwnd != 0.0
  {
    if c < 1 then w
    else
      var n := w.buf[c].value.acked + 1;
      var seen := w.WithAcked(c, n);
      if Jumps(w, c) then seen.JumpTo(c)
      else if Advances(w, c) then seen.AdvanceTo(c)
      else if Duplicates(w, c) then (if n > 3 then seen.Collapse() else seen.Recount())
      else seen
  }

  // ---- timeout of the oldest packet in flight ----

  function OnTimer(w: Win, now: int): Win
    requires w.Filled(w.lpa + 1) && (w.lpa != 0 ==> w.Filled(w.lpa))
  {
    var stamp := w.buf[w.lpa + 1].value.timestamp;
    if stamp > 0 && w.lpa + 1 <= w.lps && w.lpa != 0 && now - stamp > TIMEOUT_SEC then w.Collapse() else w
  }

  // ---- sending ----

  /** How many packets one call of window_sender transmits. */
  function Burst(w: Win): int { Max(0, Min(w.count, w.lpr - 1 - w.lps)) }

  predicate CanSend(w: Win) {
    0 <= w.lps < w.lpr <= |w.buf| && forall i :: w.lps < i < w.lpr ==> w.buf[i].Some?
  }

  function Stamped(w: Win, now: int, lo: int, hi: int): seq<Option<Slot>>
    requires 0 <= lo <= hi < |w.buf| && forall i :: lo < i <= hi ==> w.buf[i].Some?
  {
    seq(|w.buf|, i requires 0 <= i < |w.buf| =>
      if lo < i <= hi then Some(w.buf[i].value.(timestamp := now)) else w.buf[i])
  }

  function OnSend(w: Win, now: int): Win
    requires CanSend(w)
  {
    var k := Burst(w);
    w.(lps := w.lps + k, count := 0, buf := Stamped(w, now, w.lps, w.lps + k))
  }

  function Transmitted(w: Win): seq<Packet>
    requires CanSend(w)
  {
    seq(Burst(w), i requires 0 <= i < Burst(w) => w.buf[w.lps + 1 + i].value.pack)
  }

  // ---- filling the buffer ----

  /** Packet number i of `data`, cut into pieces of at most 1024 bytes and numbered from `first`. */
  function Fragment(data: seq<byte>, first: int, i: int): Packet
    requires first <= i && (i - first) * PAYLOAD_LEN <= |data|
  {
    FormData(data[(i - first) * PAYLOAD_LEN .. Min((i - first + 1) * PAYLOAD_LEN, |data|)], i)
  }

  /** The buffer holds exactly the fragments of data[..len] at first..lpr-1. */
  predicate Holds(w: Win, data: seq<byte>, first: int, len: int) {
    && 0 <= first <= w.lpr <= |w.buf|
    && 0 <= len <= |data|
    && (w.lpr - first - 1) * PAYLOAD_LEN <= len <= (w.lpr - first) * PAYLOAD_LEN
    && forall i :: first <= i < w.lpr ==>
         && w.buf[i].Some?
         && w.buf[i].value == Slot(Fragment(data[..len], first, i), 0, 0)
  }

  /** Slots first..last-1 hold the first pieces of data, each of full size. */
  predicate Pieces(buf: seq<Option<Slot>>, data: seq<byte>, first: int, last: int) {
    && 0 <= first <= last <= |buf| && (last - first) * PAYLOAD_LEN <= |data|
    && forall i :: first <= i < last ==> buf[i] == Some(Slot(Fragment(data, first, i), 0, 0))
  }

  predicate SameOutside(buf: seq<Option<Slot>>, before: seq<Option<Slot>>, first: int, last: int) {
    |buf| == |before| && forall i :: 0 <= i < |buf| && (i < first || i >= last) ==> buf[i] == before[i]
  }

  lemma PieceAdded(buf: seq<Option<Slot>>, data: seq<byte>, first: int, last: int)
    requires Pieces(buf, data, first, last) && last < |buf| && (last - first + 1) * PAYLOAD_LEN <= |data|
    ensures var taken := (last - first) * PAYLOAD_LEN;
            Pieces(buf[last := Some(Slot(FormData(data[taken .. taken + PAYLOAD_LEN], last), 0, 0))], data, first, last + 1)
  {
  }

  /** The buffer became full: it holds the pieces of what was taken. */
  lemma PartHeld(w: Win, data: seq<byte>, first: int)
    requires Pieces(w.buf, data, first, w.lpr)
    ensures Holds(w, data, first, (w.lpr - first) * PAYLOAD_LEN)
  {
    FragmentPrefix(data, first, w.lpr, (w.lpr - first) * PAYLOAD_LEN);
    hide Fragment;
  }

  /** The last, possibly shorter piece was added: it holds all the data. */
  lemma AllHeld(w: Win, data: seq<byte>, first: int)
    requires first < w.lpr <= |w.buf| && Pieces(w.buf, data, first, w.lpr - 1)
    requires (w.lpr - 1 - first) * PAYLOAD_LEN <= |data| <= (w.lpr - first) * PAYLOAD_LEN
    requires w.buf[w.lpr - 1] == Some(Slot(FormData(data[(w.lpr - 1 - first) * PAYLOAD_LEN ..], w.lpr - 1), 0, 0))
    ensures Holds(w, data, first, |data|)
  {
    assert data[..|data|] == data;
    assert w.buf[w.lpr - 1].value.pack == Fragment(data, first, w.lpr - 1);
    hide Fragment;
  }

  class Window {
    var lpa: int
    var lps: int
    var lpr: int
    var count: int
    var cwnd: real
    var ssthresh: int
    const buf: array<Option<Slot>>

    ghost predicate Valid() { buf.Length == SENDER_BUF_SIZE }

    ghost function View(): Win
      reads this, buf
    {
      Win(lpa, lps, lpr, count, cwnd, ssthresh, buf[..])
    }

    /** create_SW */
    constructor ()
      ensures Valid() && fresh(buf)
      ensures View() == EmptyWin()
      ensures lpa == lps == 0 && lpr == count == 1 && cwnd == 1.0 && ssthresh == 64
      ensures forall i :: 0 <= i < buf.Length ==> buf[i] == None
    {
      buf := new Option<Slot>[SENDER_BUF_SIZE](i => None);
      lpa, lps, lpr, count := 0, 0, 1, 1;
      cwnd, ssthresh := 1.0, INITIAL_CONGESTION_THRESHOLD;
      new;
      assert buf[..] == EmptyWin().buf;
    }

    /** p2p_sender: cut data into packets and append them; stops when the buffer is full. */
    method Fill(data: seq<byte>) returns (taken: int)
      requires Valid() && 1 <= lpr <= SENDER_BUF_SIZE - 1
      modifies this`lpr, buf
      ensures taken == Min(|data|, (SENDER_BUF_SIZE - 1 - old(lpr)) * PAYLOAD_LEN)
      ensures lpr == Min(SENDER_BUF_SIZE - 1, old(lpr) + (if data == [] then 1 else (|data| + PAYLOAD_LEN - 1) / PAYLOAD_LEN))
      ensures Holds(View(), data, old(lpr), taken)
      ensures forall i :: 0 <= i < old(lpr) || lpr <= i < buf.Length ==> buf[i] == old(buf[i])
    {
      hide Fragment, FormData, Holds;
      var first := lpr;
      ghost var before := buf[..];
      taken := 0;
      while |data| - taken > PAYLOAD_LEN
        invariant first <= lpr <= SENDER_BUF_SIZE - 1
        invariant taken == (lpr - first) * PAYLOAD_LEN <= |data|
        invariant lpr > first ==> taken < |data|
        invariant Pieces(buf[..], data, first, lpr) && SameOutside(buf[..], before, first, lpr)
        decreases |data| - taken
      {
        if lpr == SENDER_BUF_SIZE - 1 {
          PartHeld(View(), data, first);
          return;
        }
        PieceAdded(buf[..], data, first, lpr);
        ghost var now := buf[..];
        buf[lpr] := Some(Slot(FormData(data[taken .. taken + PAYLOAD_LEN], lpr), 0, 0));
        assert buf[..] == now[lpr := Some(Slot(FormData(data[taken .. taken + PAYLOAD_LEN], lpr), 0, 0))];
        lpr := lpr + 1;
        taken := taken + PAYLOAD_LEN;
      }
      if lpr == SENDER_BUF_SIZE - 1 {
        PartHeld(View(), data, first);
        return;
      }
      buf[lpr] := Some(Slot(FormData(data[taken ..], lpr), 0, 0));
      lpr := lpr + 1;
      taken := |data|;
      AllHeld(View(), data, first);
    }

    method SetAcked(i: int, n: int)
      requires Valid() && View().Filled(i)
      modifies buf
      ensures View() == old(View()).WithAcked(i, n)
    {
      buf[i] := Some(buf[i].value.(acked := n));
    }

    /** The reaction shared by a timeout and a third duplicate acknowledgement. */
    method Collapse()
      requires Valid() && View().Filled(lpa)
      modifies this`lps, this`count, this`cwnd, this`ssthresh, buf
      ensures View() == old(View()).Collapse()
      ensures lpa == lps == old(lpa) && cwnd == 1.0 && count == 1
      ensures if old(cwnd) < 4.0 then ssthresh == 2
              else (2 * ssthresh) as real <= old(cwnd) < (2 * ssthresh + 2) as real
    {
      var tmp := Trunc(cwnd / 2.0);
      ssthresh := if tmp < 2 then 2 else tmp;
      cwnd := 1.0;
      lps := lpa;
      SetAcked(lpa, 1);
      count := Trunc(cwnd - (lps - lpa) as real);
    }

    /** Resynchronise with a receiver that is ahead of everything sent since the last collapse. */
    method Jump(c: int)
      requires Valid()
      modifies this`lpa, this`lps, this`count, this`cwnd
      ensures View() == old(View()).JumpTo(c)
    {
      lpa := c;
      lps := lpa;
      cwnd := cwnd + 1.0;
      count := Trunc(cwnd - (lps - lpa) as real);
    }

    /** Slow start up to ssthresh, congestion avoidance with a cap above it. */
    method Advance(c: int)
      requires Valid() && cwnd != 0.0
      modifies this`lpa, this`count, this`cwnd
      ensures View() == old(View()).AdvanceTo(c)
    {
      hide Trunc;
      var newly := c - lpa;
      lpa := c;
      if cwnd > ssthresh as real {
        cwnd := cwnd + (1.0 / cwnd) * newly as real;
        if cwnd > TCP_MAXWIN { cwnd := TCP_MAXWIN; }
      } else {
        cwnd := cwnd + newly as real;
      }
      count := Trunc(cwnd - (lps - lpa) as real);
    }

    /** upon_receive_ACK */
    method UponReceiveAck(c: int) returns (size: int)
      requires Valid() && AckNames(View(), c) && cwnd != 0.0
      modifies this`lpa, this`lps, this`count, this`cwnd, this`ssthresh, buf
      ensures View() == OnAck(old(View()), c)
      ensures size == Trunc(cwnd)
    {
      var newly := c - lpa;
      if c < 1 { return Trunc(cwnd); }
      SetAcked(c, buf[c].value.acked + 1);
      if c > lps {
        Jump(c);
        return Trunc(cwnd);
      }
      if newly > 0 {
        Advance(c);
      } else if newly == 0 {
        if buf[c].value.acked > 3 {
          Collapse();
        }
        count := Trunc(cwnd - (lps - lpa) as real);
      }
      return Trunc(cwnd);
    }

    /** check_datapack_timeout; `now` is the clock reading */
    method CheckDatapackTimeout(now: int) returns (expired: bool)
      requires Valid() && View().Filled(lpa + 1) && (lpa != 0 ==> View().Filled(lpa))
      modifies this`lps, this`count, this`cwnd, this`ssthresh, buf
      ensures View() == OnTimer(old(View()), now)
      ensures expired <==> old(buf[lpa + 1].value.timestamp > 0 && lpa + 1 <= lps && lpa != 0
                               && now - buf[lpa + 1].value.timestamp > TIMEOUT_SEC)
    {
      var index := lpa + 1;
      if buf[index].value.timestamp <= 0 { return false; }
      var elapse := now - buf[index].value.timestamp;
      if index > lps || index == 1 { return false; }
      if elapse > TIMEOUT_SEC {
        Collapse();
        return true;
      }
      return false;
    }

    /** window_sender; the transmitted packets are returned instead of written to the socket */
    method Send(now: int) returns (out: seq<Packet>)
      requires Valid() && CanSend(View())
      modifies this`lps, this`count, buf
      ensures View() == OnSend(old(View()), now)
      ensures out == Transmitted(old(View()))
    {
      hide Stamped, Trunc;
      out := [];
      ghost var w := View();
      StampNone(w, now);
      if count == 0 {
        return;
      }
      var i := 0;
      while i < count
        invariant 0 <= i <= Burst(w) && CanSend(w)
        invariant View() == w.(lps := w.lps + i, buf := Stamped(w, now, w.lps, w.lps + i))
        invariant out == Transmitted(w)[..i]
        decreases count - i
      {
        if lps == lpr - 1 { break; }
        StampNext(w, now, i);
        lps := lps + 1;
        out := out + [buf[lps].value.pack];
        ghost var before := buf[..];
        buf[lps] := Some(buf[lps].value.(timestamp := now));
        assert buf[..] == before[lps := Some(before[lps].value.(timestamp := now))];
        i := i + 1;
      }
      count := 0;
    }
  }

  lemma StampNone(w: Win, now: int)
    requires CanSend(w)
    ensures Stamped(w, now, w.lps, w.lps) == w.buf
  {
  }

  /** Stamping packet lps + 1 + i, when the i packets before it are stamped. */
  lemma StampNext(w: Win, now: int, i: int)
    requires CanSend(w) && 0 <= i && w.lps + i < w.lpr - 1
    ensures var b, k := Stamped(w, now, w.lps, w.lps + i), w.lps + i + 1;
            && |b| == |w.buf| && b[k] == w.buf[k] && b[k].Some?
            && Stamped(w, now, w.lps, w.lps + i + 1) == b[k := Some(b[k].value.(timestamp := now))]
  {
  }

  /** Cutting a prefix gives the same full-size fragments as cutting the whole. */
  lemma FragmentPrefix(data: seq<byte>, first: int, last: int, len: int)
    requires first <= last && len == (last - first) * PAYLOAD_LEN <= |data|
    ensures forall i :: first <= i < last ==> Fragment(data[..len], first, i) == Fragment(data, first, i)
  {
    forall i | first <= i < last
      ensures Fragment(data[..len], first, i) == Fragment(data, first, i)
    {
      assert data[..len][(i - first) * PAYLOAD_LEN .. (i - first + 1) * PAYLOAD_LEN]
          == data[(i - first) * PAYLOAD_LEN .. (i - first + 1) * PAYLOAD_LEN];
    }
  }
}
