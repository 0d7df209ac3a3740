/** The receive buffer: cutting a stream of bytes back into packets (get_firststream and get_firstpack of packet.c,
    the loop of process_inbound_udp of peer.c). */
module Framing {
  import opened Basics
  import opened Packets
  import opened Codec

  const BUFLEN := 1500

  /** The buffer after its first n bytes were taken: the rest moves to the front and zeros fill the end. */
  function Shifted(b: seq<byte>, n: nat): (r: seq<byte>)
    requires n <= |b|
    ensures |r| == |b|
  {
    b[n..] + seq(n, i => 0)
  }

  // ---- the packets in a buffer ----

  /** Each header that the loop meets announces a stream that lies in the buffer and is as long as its type needs. */
  predicate Parsable(b: seq<byte>, len: int)
    requires |b| == BUFLEN
    decreases len
  {
    len < HEADER_LEN ||
    (var n := LengthAt(b); 0 <= n <= BUFLEN && Readable(b[..n]) && Parsable(Shifted(b, n), len - n))
  }

  /** The packets the loop hands on, in order. */
  function Parsed(b: seq<byte>, len: int): seq<Packet>
    requires |b| == BUFLEN && Parsable(b, len)
    decreases len
  {
    if len < HEADER_LEN then []
    else
      var n := LengthAt(b);
      [Decode(b[..n])] + Parsed(Shifted(b, n), len - n)
  }

  /** What len is in the end: below a header's length, and negative if the last stream was cut off. */
  function Remainder(b: seq<byte>, len: int): int
    requires |b| == BUFLEN && Parsable(b, len)
    decreases len
  {
    if len < HEADER_LEN then len else Remainder(Shifted(b, LengthAt(b)), len - LengthAt(b))
  }

  class RecvBuf {
    const buf: array<byte>
    var len: int

    ghost predicate Valid() { buf.Length == BUFLEN }

    constructor ()
      ensures Valid() && len == 0
    {
      buf := new byte[BUFLEN](i => 0);
      len := 0;
    }

    /** get_firststream: cut the first packet's bytes off the front; nothing below a header's length */
    method FirstStream() returns (stream: Option<seq<byte>>)
      requires Valid() && len <= BUFLEN && (len >= HEADER_LEN ==> LengthAt(buf[..]) <= BUFLEN)
      modifies this`len, buf
      ensures old(len) < HEADER_LEN ==> stream == None && len == old(len) && buf[..] == old(buf[..])
      ensures old(len) >= HEADER_LEN ==>
                var n := LengthAt(old(buf[..]));
                && 0 <= n <= BUFLEN
                && stream == Some(old(buf[..n])) && len == old(len) - n && buf[..] == Shifted(old(buf[..]), n)
                && buf[..BUFLEN - n] == old(buf[n..]) && forall i :: BUFLEN - n <= i < BUFLEN ==> buf[i] == 0
    {
      if len < HEADER_LEN { return None; }
      hide Num16;
      LengthBounds(buf[..]);
      assert buf[..][6..8] == buf[6..8];
      var n := Num16(buf[6..8]);
      stream := Some(buf[..n]);
      Discard(n);
      len := len - n;
    }

    /** Move everything behind the first n bytes to the front and clear the freed end. */
    method Discard(n: nat)
      requires Valid() && n <= BUFLEN
      modifies buf
      ensures buf[..] == Shifted(old(buf[..]), n)
      ensures buf[..BUFLEN - n] == old(buf[n..]) && forall i :: BUFLEN - n <= i < BUFLEN ==> buf[i] == 0
    {
      forall i | 0 <= i < BUFLEN - n { buf[i] := buf[i + n]; }
      forall i | BUFLEN - n <= i < BUFLEN { buf[i] := 0; }
    }

    /** get_firstpack */
    method FirstPacket() returns (r: Packet)
      requires Valid() && HEADER_LEN <= len <= BUFLEN
      requires var n := LengthAt(buf[..]); 0 <= n <= BUFLEN && Readable(buf[..n])
      modifies this`len, buf
      ensures var n := LengthAt(old(buf[..]));
              r == Decode(old(buf[..n])) && len == old(len) - n && buf[..] == Shifted(old(buf[..]), n)
    {
      hide Decode, Readable, LengthAt, Shifted;
      ghost var before := buf[..];
      assert before[..LengthAt(before)] == buf[..LengthAt(before)];
      var stream := FirstStream();
      var pack := new PacketStruct();
      pack.Binary2Packet(stream.value);
      r := pack.View();
    }

    /** The loop of process_inbound_udp: take packets off the buffer while a header is there. The packets are
        returned in the order in which they are handed on. */
    method Drain() returns (out: seq<Packet>)
      requires Valid() && len <= BUFLEN && Parsable(buf[..], len)
      modifies this`len, buf
      ensures out == Parsed(old(buf[..]), old(len)) && len == Remainder(old(buf[..]), old(len))
      ensures len < HEADER_LEN
    {
      hide Parsable, Parsed, Remainder, Readable, Decode, Shifted;
      out := [];
      ghost var b, l := buf[..], len;
      while len >= HEADER_LEN
        invariant len <= BUFLEN && Parsable(buf[..], len)
        invariant Parsed(b, l) == out + Parsed(buf[..], len) && Remainder(b, l) == Remainder(buf[..], len)
        decreases len
      {
        ParsableStep(buf[..], len);
        ParseStep(buf[..], len, LengthAt(buf[..]), Shifted(buf[..], LengthAt(buf[..])));
        assert buf[..][..LengthAt(buf[..])] == buf[..LengthAt(buf[..])];
        var p := FirstPacket();
        out := out + [p];
      }
      ParseEnd(buf[..], len);
    }
  }

  lemma ParsableStep(b: seq<byte>, len: int)
    requires |b| == BUFLEN && len >= HEADER_LEN && Parsable(b, len)
    ensures var n := LengthAt(b);
            HEADER_LEN <= n <= BUFLEN && Readable(b[..n]) && |Shifted(b, n)| == BUFLEN && Parsable(Shifted(b, n), len - n)
  {
    hide Decode, Shifted, LengthAt;
  }

  lemma ParseStep(b: seq<byte>, len: int, n: nat, rest: seq<byte>)
    requires |b| == BUFLEN && len >= HEADER_LEN && Parsable(b, len)
    requires n == LengthAt(b) && HEADER_LEN <= n <= BUFLEN && Readable(b[..n])
    requires rest == Shifted(b, n) && Parsable(rest, len - n)
    ensures Parsed(b, len) == [Decode(b[..n])] + Parsed(rest, len - n)
    ensures Remainder(b, len) == Remainder(rest, len - n)
  {
    hide Decode, Shifted, LengthAt;
  }

  lemma ParseEnd(b: seq<byte>, len: int)
    requires |b| == BUFLEN && len < HEADER_LEN
    ensures Parsable(b, len) && Parsed(b, len) == [] && Remainder(b, len) == len
  {
  }

  // ---- packets back to back ----

  predicate AllFormed(ps: seq<Packet>) { forall i :: 0 <= i < |ps| ==> WellFormed(ps[i]) }

  /** The streams of several packets, back to back. */
  function EncodeAll(ps: seq<Packet>): seq<byte>
    requires AllFormed(ps)
  {
    if ps == [] then [] else Encode(ps[0]) + EncodeAll(ps[1..])
  }

  lemma ShiftedFront(b: seq<byte>, len: int, n: nat)
    requires n <= len <= |b|
    ensures Shifted(b, n)[..len - n] == b[n..len]
  {
  }

  /** A buffer that holds packets back to back yields exactly these packets, in order, and is empty then. */
  lemma {:induction false} ParsedEncodeAll(b: seq<byte>, len: int, ps: seq<Packet>)
    requires |b| == BUFLEN && 0 <= len <= BUFLEN && AllFormed(ps) && b[..len] == EncodeAll(ps)
    ensures Parsable(b, len) && Parsed(b, len) == ps && Remainder(b, len) == 0
    decreases |ps|
  {
    hide Encode, Decode, WellFormed, Readable, LengthAt, Shifted;
    if ps == [] {
      assert len == 0;
    } else {
      var p := ps[0];
      FormedIsSized(p);
      StartsWith(b, len, p, EncodeAll(ps[1..]));
      FormedSurvives(p);
      ShiftedFront(b, len, p.packLen);
      ParsedEncodeAll(Shifted(b, p.packLen), len - p.packLen, ps[1..]);
      assert ps == [p] + ps[1..];
    }
  }

  lemma FormedIsSized(p: Packet)
    requires WellFormed(p)
    ensures Sized(p)
  {
  }

  // ---- when the loop ends ----

  /** The loop after k iterations; `fault` when a stream would not lie in the buffer. */
  datatype Loop = Loop(buf: seq<byte>, len: int, fault: bool)

  function Iterated(b: seq<byte>, len: int, k: nat): Loop
    requires |b| == BUFLEN
    decreases k
  {
    if k == 0 || len < HEADER_LEN then Loop(b, len, false)
    else
      var n := LengthAt(b);
      if 0 <= n <= BUFLEN then Iterated(Shifted(b, n), len - n, k - 1) else Loop(b, len, true)
  }

  ghost predicate Ends(b: seq<byte>, len: int)
    requires |b| == BUFLEN
  {
    exists k: nat :: !Iterated(b, len, k).fault && Iterated(b, len, k).len < HEADER_LEN
  }

  /** Following the length fields through the bytes as they were received, from offset o on: none is 0 or exceeds
      the buffer. */
  predicate HeadersAdvance(b: seq<byte>, o: nat, len: int)
    requires len <= |b|
    decreases len - o
  {
    len - o < HEADER_LEN ||
    (var n := LengthAt(b[o..]); 0 < n <= BUFLEN && HeadersAdvance(b, o + n, len))
  }

  lemma SameLength(s: seq<byte>, t: seq<byte>)
    requires |s| >= HEADER_LEN && |t| >= HEADER_LEN && s[..HEADER_LEN] == t[..HEADER_LEN]
    ensures LengthAt(s) == LengthAt(t)
  {
    assert s[6..8] == s[..HEADER_LEN][6..8] == t[..HEADER_LEN][6..8] == t[6..8];
  }

  /** The buffer c shows the received bytes b from offset o on. */
  predicate ShowsFrom(c: seq<byte>, b: seq<byte>, o: nat, len: int) {
    |c| == |b| == BUFLEN && len <= BUFLEN && (o <= len ==> c[..len - o] == b[o..len])
  }

  lemma ShowsNext(c: seq<byte>, b: seq<byte>, o: nat, len: int, n: nat)
    requires ShowsFrom(c, b, o, len) && n <= BUFLEN && o <= len
    ensures ShowsFrom(Shifted(c, n), b, o + n, len)
  {
    if o + n <= len {
      ShiftedFront(c, len - o, n);
      assert c[..len - o][n..] == b[o..len][n..];
    }
  }

  lemma ShownLength(c: seq<byte>, b: seq<byte>, o: nat, len: int)
    requires ShowsFrom(c, b, o, len) && len - o >= HEADER_LEN
    ensures LengthAt(c) == LengthAt(b[o..]) >= 0
  {
    assert c[..HEADER_LEN] == c[..len - o][..HEADER_LEN];
    assert b[o..][..HEADER_LEN] == b[o..len][..HEADER_LEN];
    SameLength(c, b[o..]);
    LengthBounds(c);
  }

  lemma {:induction false} AdvancingEnds(c: seq<byte>, b: seq<byte>, o: nat, len: int) returns (k: nat)
    requires ShowsFrom(c, b, o, len) && HeadersAdvance(b, o, len)
    ensures !Iterated(c, len - o, k).fault && Iterated(c, len - o, k).len < HEADER_LEN
    decreases len - o
  {
    hide LengthAt, Shifted, ShowsFrom;
    ShownSize(c, b, o, len);
    if len - o < HEADER_LEN {
      k := 0;
    } else {
      ShownLength(c, b, o, len);
      var n := LengthAt(c);
      ShowsNext(c, b, o, len, n);
      var j := AdvancingEnds(Shifted(c, n), b, o + n, len);
      k := j + 1;
    }
  }

  lemma ShownSize(c: seq<byte>, b: seq<byte>, o: nat, len: int)
    requires ShowsFrom(c, b, o, len)
    ensures |c| == |b| == BUFLEN && len <= BUFLEN
  {
  }

  /** A length field of 0 leaves the buffer as it is. */
  lemma ShiftedByNone(b: seq<byte>)
    ensures Shifted(b, 0) == b
  {
  }

  lemma {:induction false} Stuck(c: seq<byte>, len: int, k: nat)
    requires |c| == BUFLEN && len >= HEADER_LEN && LengthAt(c) == 0
    ensures Iterated(c, len, k) == Loop(c, len, false)
    decreases k
  {
    hide LengthAt, Shifted;
    if k > 0 {
      ShiftedByNone(c);
      Stuck(c, len, k - 1);
    }
  }

  lemma {:induction false} EndingAdvances(c: seq<byte>, b: seq<byte>, o: nat, len: int, k: nat)
    requires ShowsFrom(c, b, o, len) && |c| == BUFLEN
    requires !Iterated(c, len - o, k).fault && Iterated(c, len - o, k).len < HEADER_LEN
    ensures len <= |b| && HeadersAdvance(b, o, len)
    decreases k
  {
    hide LengthAt, Shifted, ShowsFrom;
    ShownSize(c, b, o, len);
    if len - o >= HEADER_LEN {
      ShownLength(c, b, o, len);
      var n := LengthAt(c);
      if n == 0 {
        Stuck(c, len - o, k);
      }
      ShowsNext(c, b, o, len, n);
      EndingAdvances(Shifted(c, n), b, o + n, len, k - 1);
    }
  }

  /** The loop ends on exactly those buffers in which, following the length fields through the received bytes, none
      is 0 (it would go round for ever) and none exceeds the buffer. */
  lemma EndsIff(b: seq<byte>, len: int)
    requires |b| == BUFLEN && 0 <= len <= BUFLEN
    ensures Ends(b, len) <==> HeadersAdvance(b, 0, len)
  {
    hide LengthAt, Shifted, HeadersAdvance, Iterated;
    assert b[..len - 0] == b[0..len];
    if HeadersAdvance(b, 0, len) {
      var k := AdvancingEnds(b, b, 0, len);
      assert len - 0 == len;
    }
    if Ends(b, len) {
      var k: nat :| !Iterated(b, len, k).fault && Iterated(b, len, k).len < HEADER_LEN;
      EndingAdvances(b, b, 0, len, k);
    }
  }

  /** Sixteen zero bytes are such a buffer: the loop never gets past them. */
  lemma ZeroHeader(k: nat)
    ensures var b: seq<byte> := seq(BUFLEN, i => 0);
            Iterated(b, HEADER_LEN, k) == Loop(b, HEADER_LEN, false) && !Ends(b, HEADER_LEN)
  {
    hide Iterated, LengthAt;
    var b: seq<byte> := seq(BUFLEN, i => 0);
    ZeroLength(b);
    forall j: nat
      ensures Iterated(b, HEADER_LEN, j) == Loop(b, HEADER_LEN, false)
    {
      Stuck(b, HEADER_LEN, j);
    }
  }

  lemma ZeroLength(b: seq<byte>)
    requires |b| >= HEADER_LEN && b[6] == 0 && b[7] == 0
    ensures LengthAt(b) == 0
  {
    var field := b[6..8];
    assert field[0] as int == 0 && field[1] as int == 0;
  }

  // ---- what is left in the buffer ----

  /** Following the length fields through the received bytes, every stream ends within them. */
  predicate StreamsInside(b: seq<byte>, o: nat, len: int)
    requires len <= |b|
    decreases len - o
  {
    len - o < HEADER_LEN ||
    (var n := LengthAt(b[o..]); 0 < n <= len - o && StreamsInside(b, o + n, len))
  }

  lemma {:induction false} RemainderFrom(c: seq<byte>, b: seq<byte>, o: nat, len: int)
    requires ShowsFrom(c, b, o, len) && o <= len && |c| == BUFLEN && Parsable(c, len - o)
    ensures len <= |b| && (Remainder(c, len - o) >= 0 <==> StreamsInside(b, o, len))
    decreases len - o
  {
    hide LengthAt, Shifted, ShowsFrom, Readable, Decode;
    ShownSize(c, b, o, len);
    if len - o >= HEADER_LEN {
      ShownLength(c, b, o, len);
      var n := LengthAt(c);
      ParsableStep(c, len - o);
      ParseStep(c, len - o, n, Shifted(c, n));
      ShowsNext(c, b, o, len, n);
      if o + n <= len {
        RemainderFrom(Shifted(c, n), b, o + n, len);
      }
    }
  }

  /** After the loop the fill level is not negative exactly when every stream ended within the received bytes. */
  lemma RemainderIff(b: seq<byte>, len: int)
    requires |b| == BUFLEN && 0 <= len <= BUFLEN && Parsable(b, len)
    ensures Remainder(b, len) >= 0 <==> StreamsInside(b, 0, len)
  {
    hide Parsable, Remainder, StreamsInside;
    assert b[..len - 0] == b[0..len];
    RemainderFrom(b, b, 0, len);
    assert len - 0 == len;
  }

  /** An acknowledgement's header that announces one byte more than was received. */
  lemma CutOffStream()
    ensures var b: seq<byte> := seq(BUFLEN, i => if i == 3 then 4 else if i == 7 then 17 else 0);
            Parsable(b, HEADER_LEN) && Remainder(b, HEADER_LEN) == -1
  {
    var b: seq<byte> := seq(BUFLEN, i => if i == 3 then 4 else if i == 7 then 17 else 0);
    var n := 17;
    LengthFrom(b);
    LengthFrom(b[..n]);
    ParseEnd(Shifted(b, n), HEADER_LEN - n);
  }

  lemma LengthFrom(b: seq<byte>)
    requires |b| >= HEADER_LEN && b[6] == 0 && b[7] == 17
    ensures LengthAt(b) == 17
  {
    var field := b[6..8];
    assert field[0] as int == 0 && field[1] as int == 17;
  }
}
