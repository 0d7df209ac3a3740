/** The wire format of packets (packet.c). */
module Codec {
  import opened Basics
  import opened Packets

  // ---- numbers as base-256 digits ----

  /** Digit k of x, the least significant being digit 0. */
  function Digit(x: int, k: nat): (d: int)
    ensures 0 <= d < 256
    decreases k
  {
    if k == 0 then x % 256 else Digit(x / 256, k - 1)
  }

  function Join(q: int, d: int): int { q * 256 + d }

  function From2(a: int, b: int): int { Join(a, b) }

  function From4(a: int, b: int, c: int, d: int): int { Join(Join(Join(a, b), c), d) }

  lemma JoinSplits(q: int, d: int)
    requires 0 <= d < 256
    ensures Join(q, d) % 256 == d && Join(q, d) / 256 == q
  {
  }

  lemma SplitJoins(x: int)
    ensures Join(x / 256, x % 256) == x
  {
  }

  lemma DigitOfJoin(q: int, d: int, k: nat)
    requires 0 <= d < 256
    ensures Digit(Join(q, d), k) == if k == 0 then d else Digit(q, k - 1)
  {
    JoinSplits(q, d);
  }

  lemma DigitsOf4(a: int, b: int, c: int, d: int)
    requires 0 <= a < 256 && 0 <= b < 256 && 0 <= c < 256 && 0 <= d < 256
    ensures var x := From4(a, b, c, d); Digit(x, 3) == a && Digit(x, 2) == b && Digit(x, 1) == c && Digit(x, 0) == d
    ensures var x := From2(a, b); Digit(x, 1) == a && Digit(x, 0) == b
  {
    hide Digit, Join;
    var ab, abc := Join(a, b), Join(Join(a, b), c);
    DigitOfJoin(abc, d, 0);
    DigitOfJoin(abc, d, 1);
    DigitOfJoin(abc, d, 2);
    DigitOfJoin(abc, d, 3);
    DigitOfJoin(ab, c, 0);
    DigitOfJoin(ab, c, 1);
    DigitOfJoin(ab, c, 2);
    DigitOfJoin(a, b, 0);
    DigitOfJoin(a, b, 1);
    DigitSmall(a);
  }

  lemma DigitSmall(a: int)
    requires 0 <= a < 256
    ensures Digit(a, 0) == a
  {
  }

  lemma Rebuild4(x: int)
    requires 0 <= x < 0x1_0000_0000
    ensures From4(Digit(x, 3), Digit(x, 2), Digit(x, 1), Digit(x, 0)) == x
  {
    var y, z, w := x / 256, x / 256 / 256, x / 256 / 256 / 256;
    DigitsByDivision(x);
    SplitJoins(x);
    SplitJoins(y);
    SplitJoins(z);
    assert 0 <= w < 256;
  }

  lemma Rebuild2(x: int)
    requires 0 <= x < 0x1_0000
    ensures From2(Digit(x, 1), Digit(x, 0)) == x
  {
    DigitsByDivision(x);
    SplitJoins(x);
    assert 0 <= x / 256 < 256;
  }

  lemma DigitsByDivision(x: int)
    ensures Digit(x, 0) == x % 256 && Digit(x, 1) == x / 256 % 256
    ensures Digit(x, 2) == x / 256 / 256 % 256 && Digit(x, 3) == x / 256 / 256 / 256 % 256
  {
    assert Digit(x, 1) == Digit(x / 256, 0);
    assert Digit(x, 2) == Digit(x / 256, 1) == Digit(x / 256 / 256, 0);
    assert Digit(x, 3) == Digit(x / 256, 2) == Digit(x / 256 / 256, 1) == Digit(x / 256 / 256 / 256, 0);
  }

  // ---- numbers in network order ----

  /** The byte with value d. */
  function Byte(d: int): byte
    requires 0 <= d < 256
  {
    d as byte
  }

  lemma ByteValue(d: int)
    requires 0 <= d < 256
    ensures Byte(d) as int == d
  {
    CastValue(d);
  }

  function Net16(x: int): seq<byte> { [Byte(Digit(x, 1)), Byte(Digit(x, 0))] }

  function Net32(x: int): seq<byte> {
    [Byte(Digit(x, 3)), Byte(Digit(x, 2)), Byte(Digit(x, 1)), Byte(Digit(x, 0))]
  }

  function Num16(s: seq<byte>): int
    requires |s| == 2
  {
    From2(s[0] as int, s[1] as int)
  }

  function Num32(s: seq<byte>): int
    requires |s| == 4
  {
    From4(s[0] as int, s[1] as int, s[2] as int, s[3] as int)
  }

  lemma Net16Value(x: int)
    requires 0 <= x < 0x1_0000
    ensures Num16(Net16(x)) == x
  {
    hide Byte, From2, Digit;
    ByteValue(Digit(x, 1));
    ByteValue(Digit(x, 0));
    Rebuild2(x);
  }

  lemma Net32Value(x: int)
    requires 0 <= x < 0x1_0000_0000
    ensures Num32(Net32(x)) == x
  {
    hide Byte, From4, Digit;
    ByteValue(Digit(x, 3));
    ByteValue(Digit(x, 2));
    ByteValue(Digit(x, 1));
    ByteValue(Digit(x, 0));
    Rebuild4(x);
  }

  /** htons and htonl on the little-endian host, and the memory image of such numbers */
  function Swap16(x: int): int { From2(Digit(x, 0), Digit(x, 1)) }

  function Swap32(x: int): int { From4(Digit(x, 0), Digit(x, 1), Digit(x, 2), Digit(x, 3)) }

  function Memory16(x: int): seq<byte> { [Byte(Digit(x, 0)), Byte(Digit(x, 1))] }

  function Memory32(x: int): seq<byte> {
    [Byte(Digit(x, 0)), Byte(Digit(x, 1)), Byte(Digit(x, 2)), Byte(Digit(x, 3))]
  }

  lemma Swapped16(x: int)
    requires 0 <= x < 0x1_0000
    ensures Memory16(Swap16(x)) == Net16(x) && Swap16(Swap16(x)) == x
  {
    hide Byte, From2, From4, Digit;
    DigitsOf4(Digit(x, 0), Digit(x, 1), 0, 0);
    Rebuild2(x);
  }

  lemma Swapped32(x: int)
    requires 0 <= x < 0x1_0000_0000
    ensures Memory32(Swap32(x)) == Net32(x) && Swap32(Swap32(x)) == x
  {
    hide Byte, From2, From4, Digit;
    DigitsOf4(Digit(x, 0), Digit(x, 1), Digit(x, 2), Digit(x, 3));
    Rebuild4(x);
  }

  // ---- the wire format ----

  /** Field values fit their C types. */
  predicate InRange(p: Packet) {
    && 0 <= p.magic < 0x1_0000 && 0 <= p.version < 256 && 0 <= p.ptype < 256
    && 0 <= p.hdLen < 0x1_0000 && 0 <= p.packLen < 0x1_0000
    && 0 <= p.seqNum < 0x1_0000_0000 && 0 <= p.ackNum < 0x1_0000_0000 && 0 <= p.hashNum < 256
  }

  /** Bytes before the payload: packets of types 0 and 1 carry a hash count and three bytes of padding. */
  function Lead(ptype: int): int { if ptype <= 1 then 20 else HEADER_LEN }

  /** A packet whose length field says how long it is. */
  predicate Sized(p: Packet) { InRange(p) && p.packLen == Lead(p.ptype) + |p.payload| }

  function Header(p: Packet): (r: seq<byte>)
    requires InRange(p)
    ensures |r| == HEADER_LEN
  {
    Net16(p.magic) + [Byte(p.version), Byte(p.ptype)] + Net16(p.hdLen) + Net16(p.packLen) + Net32(p.seqNum) + Net32(p.ackNum)
  }

  function Encode(p: Packet): (r: seq<byte>)
    requires Sized(p)
    ensures |r| == p.packLen
  {
    Header(p) + (if p.ptype <= 1 then [Byte(p.hashNum), 0, 0, 0] else []) + p.payload
  }

  /** The length field of a stream. */
  function LengthAt(s: seq<byte>): int
    requires |s| >= HEADER_LEN
  {
    Num16(s[6..8])
  }

  /** A stream that is as long as its own length field and its type require. */
  predicate Readable(s: seq<byte>) {
    |s| >= HEADER_LEN && |s| >= LengthAt(s) && (s[3] as int <= 1 ==> |s| >= 20)
  }

  function Decode(s: seq<byte>): Packet
    requires Readable(s)
  {
    var ptype := s[3] as int;
    var packLen := LengthAt(s);
    Packet(Num16(s[0..2]), s[2] as int, ptype, Num16(s[4..6]), packLen, Num32(s[8..12]), Num32(s[12..16]),
           if ptype <= 1 then s[16] as int else 0,
           if ptype < 4 && packLen - Lead(ptype) > 0 then s[Lead(ptype)..packLen] else [])
  }

  lemma HeaderParts(p: Packet)
    requires InRange(p)
    ensures var h := Header(p);
            && h[0..2] == Net16(p.magic) && h[2] == Byte(p.version) && h[3] == Byte(p.ptype)
            && h[4..6] == Net16(p.hdLen) && h[6..8] == Net16(p.packLen)
            && h[8..12] == Net32(p.seqNum) && h[12..16] == Net32(p.ackNum)
  {
    hide Byte, Digit;
  }

  lemma EncodeParts(p: Packet)
    requires Sized(p)
    ensures Encode(p)[..HEADER_LEN] == Header(p)
    ensures p.ptype <= 1 ==> |Encode(p)| >= 20 && Encode(p)[16] == Byte(p.hashNum)
    ensures Encode(p)[Lead(p.ptype)..] == p.payload
  {
    hide Header, Byte;
  }

  lemma SliceOfPrefix(s: seq<byte>, h: seq<byte>, i: nat, j: nat)
    requires |s| >= HEADER_LEN && s[..HEADER_LEN] == h && i <= j <= HEADER_LEN
    ensures s[i..j] == h[i..j] && (i < HEADER_LEN ==> s[i] == h[i])
  {
    forall k | 0 <= k < HEADER_LEN
      ensures s[k] == h[k]
    {
      assert s[..HEADER_LEN][k] == s[k];
    }
  }

  /** The header of an encoded packet is read back field by field. */
  lemma HeaderRead(p: Packet, s: seq<byte>)
    requires InRange(p) && |s| >= HEADER_LEN && s[..HEADER_LEN] == Header(p)
    ensures Num16(s[0..2]) == p.magic && s[2] as int == p.version && s[3] as int == p.ptype
    ensures Num16(s[4..6]) == p.hdLen && LengthAt(s) == p.packLen
    ensures Num32(s[8..12]) == p.seqNum && Num32(s[12..16]) == p.ackNum
  {
    hide Header, Byte, Num16, Num32, Net16, Net32;
    var h := Header(p);
    HeaderParts(p);
    SliceOfPrefix(s, h, 0, 2);
    SliceOfPrefix(s, h, 2, 3);
    SliceOfPrefix(s, h, 3, 4);
    SliceOfPrefix(s, h, 4, 6);
    SliceOfPrefix(s, h, 6, 8);
    SliceOfPrefix(s, h, 8, 12);
    SliceOfPrefix(s, h, 12, 16);
    Net16Value(p.magic);
    ByteValue(p.version);
    ByteValue(p.ptype);
    Net16Value(p.hdLen);
    Net16Value(p.packLen);
    Net32Value(p.seqNum);
    Net32Value(p.ackNum);
  }

  /** The number at offset i of a stream, most significant byte first. */
  function Big16(s: seq<byte>, i: nat): int
    requires i + 2 <= |s|
  {
    0x100 * s[i] as int + s[i + 1] as int
  }

  function Big32(s: seq<byte>, i: nat): int
    requires i + 4 <= |s|
  {
    0x100_0000 * s[i] as int + 0x1_0000 * s[i + 1] as int + 0x100 * s[i + 2] as int + s[i + 3] as int
  }

  lemma BigIsNum(s: seq<byte>, i: nat)
    ensures i + 2 <= |s| ==> Num16(s[i..i + 2]) == Big16(s, i)
    ensures i + 4 <= |s| ==> Num32(s[i..i + 4]) == Big32(s, i)
  {
  }

  /** The wire format byte by byte: every number most significant byte first, the hash count and three zero bytes only in
      WHOHAS and IHAVE, and the payload last. */
  lemma WireLayout(p: Packet)
    requires Sized(p)
    ensures var s := Encode(p);
            && |s| == p.packLen >= 16
            && Big16(s, 0) == p.magic && s[2] as int == p.version && s[3] as int == p.ptype
            && Big16(s, 4) == p.hdLen && Big16(s, 6) == |s|
            && Big32(s, 8) == p.seqNum && Big32(s, 12) == p.ackNum
            && if p.ptype <= 1 then |s| >= 20 && s[16] as int == p.hashNum && s[17..20] == [0, 0, 0] && s[20..] == p.payload
               else s[16..] == p.payload
  {
    hide Header, Byte, Num16, Num32, Big16, Big32;
    var s := Encode(p);
    EncodeParts(p);
    HeaderRead(p, s);
    ByteValue(p.hashNum);
    BigIsNum(s, 0);
    BigIsNum(s, 4);
    BigIsNum(s, 6);
    BigIsNum(s, 8);
    BigIsNum(s, 12);
  }

  /** What survives the wire: everything, except a hash count outside types 0 and 1 and a payload from type 4 on. */
  function Surviving(p: Packet): Packet {
    p.(hashNum := if p.ptype <= 1 then p.hashNum else 0, payload := if p.ptype < 4 then p.payload else [])
  }

  lemma DecodeEncode(p: Packet, s: seq<byte>)
    requires Sized(p) && |s| >= p.packLen && s[..p.packLen] == Encode(p)
    ensures Readable(s) && Decode(s) == Surviving(p)
  {
    hide Header, Byte, Num16, Num32, LengthAt, Encode;
    EncodeParts(p);
    assert s[..HEADER_LEN] == Encode(p)[..HEADER_LEN];
    HeaderRead(p, s);
    ByteValue(p.hashNum);
    assert s[Lead(p.ptype)..p.packLen] == Encode(p)[Lead(p.ptype)..];
    if p.ptype <= 1 { assert s[16] == Encode(p)[16]; }
  }

  /** Reading back what was written returns the same packet exactly for the packets the protocol builds: no hash
      count outside WHOHAS and IHAVE, no payload in an ACK. */
  lemma RoundTripIff(p: Packet)
    requires Sized(p)
    ensures Readable(Encode(p))
    ensures Decode(Encode(p)) == p <==> (p.ptype >= 2 ==> p.hashNum == 0) && (p.ptype >= 4 ==> p.payload == [])
  {
    hide Encode, Decode, Readable;
    assert Encode(p)[..p.packLen] == Encode(p);
    DecodeEncode(p, Encode(p));
  }

  predicate WellFormed(p: Packet) {
    Sized(p) && (p.ptype >= 2 ==> p.hashNum == 0) && (p.ptype >= 4 ==> p.payload == [])
  }

  /** Every packet that the protocol builds is read back as it was. */
  lemma FormedSurvives(p: Packet)
    requires WellFormed(p)
    ensures Readable(Encode(p)) && Decode(Encode(p)) == p
  {
    hide Encode, Decode, Readable;
    RoundTripIff(p);
  }

  // ---- packet structs ----

  /** A packet struct; timestamp and ACKed_num never travel. */
  class PacketStruct {
    var magic: int
    var version: int
    var ptype: int
    var hdLen: int
    var packLen: int
    var seqNum: int
    var ackNum: int
    var hashNum: int
    var payload: seq<byte>

    function View(): Packet
      reads this
    {
      Packet(magic, version, ptype, hdLen, packLen, seqNum, ackNum, hashNum, payload)
    }

    /** malloc and bzero */
    constructor ()
      ensures View() == Packet(0, 0, 0, 0, 0, 0, 0, 0, [])
    {
      magic, version, ptype, hdLen, packLen, seqNum, ackNum, hashNum, payload := 0, 0, 0, 0, 0, 0, 0, 0, [];
    }

    /** The swaps serial_pack does before and after copying the header. */
    method SwapFields()
      requires InRange(View())
      modifies this
      ensures View() == Swapped(old(View()))
    {
      magic := Swap16(magic);
      hdLen := Swap16(hdLen);
      packLen := Swap16(packLen);
      seqNum := Swap32(seqNum);
      ackNum := Swap32(ackNum);
    }

    /** The part of serial_pack that swaps the header in place, copies it and swaps it back. */
    method CopyHeader() returns (header: seq<byte>)
      requires InRange(View())
      modifies this
      ensures View() == old(View())
      ensures header == Header(View())
    {
      SwappedImage(View());
      hide Header, ImageOf, Swapped, InRange;
      SwapFields();
      header := ImageOf(View());
      SwapFields();
    }

    /** serial_pack; the terminating zero byte of the C buffer is not part of the stream */
    method SerialPack() returns (stream: seq<byte>)
      requires Sized(View())
      modifies this
      ensures View() == old(View())
      ensures stream == Encode(View())
    {
      hide Header, Byte;
      var header := CopyHeader();
      var nonPayload := HEADER_LEN;
      stream := header;
      if ptype <= 1 {
        stream := stream + [Byte(hashNum), 0, 0, 0];
        nonPayload := 20;
      }
      assert payload[..packLen - nonPayload] == payload;
      stream := stream + payload[..packLen - nonPayload];
    }

    /** binary2packet into a cleared struct */
    method Binary2Packet(stream: seq<byte>)
      requires Readable(stream) && View() == Packet(0, 0, 0, 0, 0, 0, 0, 0, [])
      modifies this
      ensures View() == Decode(stream)
    {
      hide Num16, Num32;
      ReadHeader(stream);
      var nonPayload := 16;
      if ptype <= 1 {
        hashNum := stream[16] as int;
        nonPayload := 20;
      }
      if ptype < 4 && packLen - nonPayload > 0 {
        payload := stream[nonPayload..packLen];
      }
    }

    /** Copy the first 16 bytes over the struct and bring its numbers into host order. */
    method ReadHeader(stream: seq<byte>)
      requires |stream| >= HEADER_LEN
      modifies this`magic, this`version, this`ptype, this`hdLen, this`packLen, this`seqNum, this`ackNum
      ensures magic == Num16(stream[0..2]) && version == stream[2] as int && ptype == stream[3] as int
      ensures hdLen == Num16(stream[4..6]) && packLen == LengthAt(stream)
      ensures seqNum == Num32(stream[8..12]) && ackNum == Num32(stream[12..16])
    {
      hide Num16, Num32;
      magic, version, ptype := Num16(stream[0..2]), stream[2] as int, stream[3] as int;
      hdLen, packLen := Num16(stream[4..6]), Num16(stream[6..8]);
      seqNum, ackNum := Num32(stream[8..12]), Num32(stream[12..16]);
    }
  }

  function Swapped(p: Packet): Packet {
    p.(magic := Swap16(p.magic), hdLen := Swap16(p.hdLen), packLen := Swap16(p.packLen),
       seqNum := Swap32(p.seqNum), ackNum := Swap32(p.ackNum))
  }

  /** The first 16 bytes of the struct in memory. */
  function ImageOf(p: Packet): seq<byte>
    requires 0 <= p.version < 256 && 0 <= p.ptype < 256
  {
    Memory16(p.magic) + [Byte(p.version), Byte(p.ptype)] + Memory16(p.hdLen) + Memory16(p.packLen)
    + Memory32(p.seqNum) + Memory32(p.ackNum)
  }

  lemma SwappedImage(p: Packet)
    requires InRange(p)
    ensures InRange(Swapped(p)) && Swapped(Swapped(p)) == p && ImageOf(Swapped(p)) == Header(p)
  {
    hide Byte, Digit;
    Swapped16(p.magic);
    Swapped16(p.hdLen);
    Swapped16(p.packLen);
    Swapped32(p.seqNum);
    Swapped32(p.ackNum);
    SwapRange(p.magic);
    SwapRange(p.hdLen);
    SwapRange(p.packLen);
    SwapRange(p.seqNum);
    SwapRange(p.ackNum);
  }

  lemma SwapRange(x: int)
    ensures 0 <= Swap16(x) < 0x1_0000 && 0 <= Swap32(x) < 0x1_0000_0000
  {
    hide Digit;
  }

  // ---- the receive buffer ----

  lemma LengthBounds(s: seq<byte>)
    requires |s| >= HEADER_LEN
    ensures 0 <= LengthAt(s)
  {
  }

  lemma StartsWith(s: seq<byte>, len: nat, p: Packet, rest: seq<byte>)
    requires Sized(p) && len <= |s| && s[..len] == Encode(p) + rest
    ensures len >= p.packLen >= HEADER_LEN && s[..p.packLen] == Encode(p)
    ensures LengthAt(s) == p.packLen && s[p.packLen..len] == rest
  {
    hide Encode, LengthAt;
    assert s[..len][..p.packLen] == Encode(p) && s[..len][p.packLen..] == rest;
    assert s[..p.packLen] == s[..len][..p.packLen];
    EncodeHeader(p);
    assert s[..HEADER_LEN] == s[..p.packLen][..HEADER_LEN];
    HeaderRead(p, s);
  }

  lemma EncodeHeader(p: Packet)
    requires Sized(p)
    ensures p.packLen >= HEADER_LEN && Encode(p)[..HEADER_LEN] == Header(p)
  {
    EncodeParts(p);
  }
}
