/** The receiver half of the transfer (sock_io.c): accepting data packets and reaping the chunk. */
module Receiver {
  import opened Basics
  import opened Packets

  const SLOTS := 514
  const LAST_PACKET := 512
  const WINDOW := 30
  const CHUNK_SIZE := 524288

  datatype Recv = Recv(npe: int, bytes: int, buf: seq<Option<Packet>>)
  {
    predicate Shaped() { |buf| == SLOTS && 1 <= npe < SLOTS }

    /** The highest sequence number the receiver is willing to store. */
    function Limit(): int { Min(npe + WINDOW, LAST_PACKET) }
  }

  function EmptyRecv(): Recv { Recv(1, 0, seq(SLOTS, i => None)) }

  /** The first empty slot at or after i; slot 513 ends the search. */
  function Gap(buf: seq<Option<Packet>>, i: int): (g: int)
    requires |buf| == SLOTS && 0 <= i < SLOTS
    ensures i <= g < SLOTS
    ensures forall j :: i <= j < g ==> buf[j].Some?
    ensures g < SLOTS - 1 ==> buf[g].None?
    decreases SLOTS - i
  {
    if i == SLOTS - 1 || buf[i].None? then i else Gap(buf, i + 1)
  }

  /** Acknowledgements of packets i..j-1, in order. */
  function AckBurst(i: int, j: int): seq<Packet>
    requires i <= j
  {
    seq(j - i, k => FormAck(i + k))
  }

  /** Payload bytes of the packets in slots i..j-1. */
  function PayloadBytes(buf: seq<Option<Packet>>, i: int, j: int): int
    requires 0 <= i <= j <= |buf| && forall k :: i <= k < j ==> buf[k].Some?
    decreases j - i
  {
    if i == j then 0 else PayloadBytes(buf, i, j - 1) + buf[j - 1].value.packLen - buf[j - 1].value.hdLen
  }

  predicate Acceptable(r: Recv, p: Packet) { 1 <= ToInt32(p.seqNum) <= r.Limit() }

  function Stored(r: Recv, p: Packet): seq<Option<Packet>>
    requires r.Shaped() && Acceptable(r, p)
  {
    r.buf[ToInt32(p.seqNum) := Some(p)][SLOTS - 1 := None]
  }

  function OnData(r: Recv, p: Packet): Recv
    requires r.Shaped()
  {
    if !Acceptable(r, p) then r
    else
      var stored := r.(buf := Stored(r, p));
      if ToInt32(p.seqNum) != r.npe then stored
      else
        var gap := Gap(stored.buf, r.npe);
        stored.(npe := gap, bytes := r.bytes + PayloadBytes(stored.buf, r.npe, gap))
  }

  /** The acknowledgements sent in answer: a burst when the gap closes, the last accepted number when
      the packet is early, and the packet's own number when it is old. */
  function Answers(r: Recv, p: Packet): seq<Packet>
    requires r.Shaped()
  {
    var seqno := ToInt32(p.seqNum);
    if !Acceptable(r, p) then []
    else if seqno == r.npe then AckBurst(r.npe, Gap(Stored(r, p), r.npe))
    else if seqno > r.npe then [FormAck(r.npe - 1)]
    else [FormAck(seqno)]
  }

  /** The bytes of packets 1..n-1 in order. */
  function Assembled(buf: seq<Option<Packet>>, n: int): seq<byte>
    requires 1 <= n <= |buf| && forall k :: 1 <= k < n ==> buf[k].Some?
    decreases n
  {
    if n == 1 then [] else Assembled(buf, n - 1) + buf[n - 1].value.payload
  }

  class RecvState {
    var npe: int
    var bytes: int
    const hash: seq<byte>
    const buf: array<Option<Packet>>

    ghost predicate Valid()
      reads this, buf
    {
      buf.Length == SLOTS && View().Shaped()
    }

    ghost function View(): Recv
      reads this, buf
    {
      Recv(npe, bytes, buf[..])
    }

    /** create_Recver */
    constructor (hash: seq<byte>)
      ensures Valid() && fresh(buf)
      ensures View() == EmptyRecv() && this.hash == hash
      ensures npe == 1 && bytes == 0 && forall i :: 0 <= i < buf.Length ==> buf[i] == None
    {
      buf := new Option<Packet>[SLOTS](i => None);
      this.hash := hash;
      npe, bytes := 1, 0;
      new;
      assert buf[..] == EmptyRecv().buf;
    }

    /** upon_receiving_datapack; the acknowledgements are returned instead of written to the socket */
    method UponReceivingDatapack(pack: Packet) returns (out: seq<Packet>)
      requires Valid()
      modifies this, buf
      ensures Valid()
      ensures View() == OnData(old(View()), pack)
      ensures out == Answers(old(View()), pack)
      ensures var i := ToInt32(pack.seqNum);
              if i < 1 || i > Min(old(npe) + 30, 512) then buf[..] == old(buf[..]) && npe == old(npe) && out == []
              else buf[i] == Some(pack) && forall j :: 0 <= j < SLOTS - 1 && j != i ==> buf[j] == old(buf[j])
    {
      ghost var r := View();
      out := [];
      var seqno := ToInt32(pack.seqNum);
      var max := if npe + 30 > 512 then 512 else npe + 30;
      if seqno < 1 || seqno > max { return; }
      buf[seqno] := Some(pack);
      buf[SLOTS - 1] := None;
      assert buf[..] == Stored(r, pack);
      if seqno == npe {
        out := Advance();
      } else if seqno > npe {
        if npe > 0 { out := [FormAck(npe - 1)]; }
      } else {
        out := [FormAck(seqno)];
      }
    }

    /** The loop of upon_receiving_datapack that acknowledges everything up to the first gap. */
    method Advance() returns (out: seq<Packet>)
      requires Valid()
      modifies this`npe, this`bytes
      ensures npe == Gap(buf[..], old(npe))
      ensures bytes == old(bytes) + PayloadBytes(buf[..], old(npe), npe)
      ensures out == AckBurst(old(npe), npe)
    {
      out := [];
      var i := npe;
      while i < SLOTS - 1
        invariant npe <= i < SLOTS
        invariant npe == old(npe)
        invariant forall k :: npe <= k < i ==> buf[k].Some?
        invariant Gap(buf[..], npe) == Gap(buf[..], i)
        invariant bytes == old(bytes) + PayloadBytes(buf[..], npe, i)
        invariant out == AckBurst(npe, i)
      {
        if buf[i] == None { break; }
        out := out + [FormAck(i)];
        bytes := bytes + (buf[i].value.packLen - buf[i].value.hdLen);
        i := i + 1;
      }
      npe := i;
    }
  }
}
