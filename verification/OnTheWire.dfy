/** The wire format serves the protocols above it: what they build, it carries unchanged. */
module OnTheWire {
  import opened Basics
  import opened Packets
  import Codec
  import Discovery
  import opened HashLists
  import Receiver
  import T = Transfer

  lemma GenuineIsFormed(chunk: seq<byte>, p: Packet, hi: int, npe: int)
    requires |chunk| == Receiver.CHUNK_SIZE && T.Genuine(chunk, p, hi, npe) && npe <= 0x8000_0000
    ensures Codec.WellFormed(p)
  {
    if 1 <= p.seqNum <= T.N && p == T.Original(chunk, p.seqNum) {
      assert |p.payload| <= PAYLOAD_LEN;
    }
  }

  /** In every reachable state of a transfer each packet in the network is read back as exactly the packet that
      was sent, so modelling the network as a bag of packets instead of byte streams loses nothing. */
  lemma NetworkSurvivesTheWire(chunk: seq<byte>, s: T.Sys, p: Packet)
    requires T.Reachable(chunk, s) && p in s.net
    ensures Codec.WellFormed(p) && Codec.Readable(Codec.Encode(p)) && Codec.Decode(Codec.Encode(p)) == p
  {
    hide Codec.WellFormed, Codec.Encode, Codec.Decode, Codec.Readable, T.Genuine, T.Reachable;
    T.ReachableInv(chunk, s);
    GenuineIsFormed(chunk, p, s.past.hi, s.recv.npe);
    Codec.FormedSurvives(p);
  }

  /** A WHOHAS or IHAVE of at most 50 hashes arrives with exactly those hashes, in order. */
  lemma HashesSurviveTheWire(ptype: int, hashes: seq<Hash>)
    requires 0 <= ptype <= 1 && Discovery.Whole(hashes) && |hashes| <= MAX_HASHNUM_PER_PACK
    ensures var p := Discovery.FormHashes(ptype, hashes);
            && Codec.WellFormed(p) && Codec.Readable(Codec.Encode(p))
            && |Codec.Encode(p)| <= MAX_PACKET_SIZE
            && |hashes| == Codec.Decode(Codec.Encode(p)).hashNum
            && |hashes| * HASH_SIZE <= |Codec.Decode(Codec.Encode(p)).payload|
            && Discovery.HashesOf(Codec.Decode(Codec.Encode(p))) == hashes
  {
    hide Codec.Encode, Codec.Decode, Codec.Readable, Discovery.HashesOf;
    var p := Discovery.FormHashes(ptype, hashes);
    if hashes != [] {
      Discovery.PackedHash(hashes, 0);
    }
    Discovery.HashesOfFormed(ptype, hashes);
    assert Codec.WellFormed(p);
    Codec.FormedSurvives(p);
  }

  /** The first 16 bytes of a stream. */
  predicate Starts(s: seq<byte>, ptype: int, seqNum: int, ackNum: int) {
    && |s| >= 16 && Codec.Big16(s, 0) == 15441 && s[2] as int == 1 && s[3] as int == ptype
    && Codec.Big16(s, 4) == 16 && Codec.Big16(s, 6) == |s| && Codec.Big32(s, 8) == seqNum && Codec.Big32(s, 12) == ackNum
  }

  /** What travels for a piece of data, for an acknowledgement, and for a list of hashes. */
  lemma DataOnTheWire(data: seq<byte>, i: int)
    requires |data| <= PAYLOAD_LEN && 0 <= i < 0x1_0000_0000
    ensures var p := FormData(data, i);
            Codec.Sized(p) && Starts(Codec.Encode(p), 3, i, 0) && Codec.Encode(p)[16..] == data
  {
    Codec.WireLayout(FormData(data, i));
    hide Codec.Encode, Codec.Big16, Codec.Big32;
  }

  lemma AckOnTheWire(i: int)
    requires 0 <= i < 0x1_0000_0000
    ensures var p := FormAck(i);
            Codec.Sized(p) && |Codec.Encode(p)| == 16 && Starts(Codec.Encode(p), 4, 0, i)
  {
    Codec.WireLayout(FormAck(i));
    hide Codec.Encode, Codec.Big16, Codec.Big32;
  }

  lemma HashesOnTheWire(ptype: int, hashes: seq<Hash>, k: nat)
    requires 0 <= ptype <= 1 && Discovery.Whole(hashes) && k < |hashes| <= MAX_HASHNUM_PER_PACK
    ensures var p := Discovery.FormHashes(ptype, hashes);
            && Codec.Sized(p) && Starts(Codec.Encode(p), ptype, 0, 0)
            && |Codec.Encode(p)| == 20 + 20 * |hashes|
            && Codec.Encode(p)[16] as int == |hashes| && Codec.Encode(p)[17..20] == [0, 0, 0]
            && Codec.Encode(p)[20 + 20 * k .. 40 + 20 * k] == hashes[k]
  {
    HashesSized(ptype, hashes, k);
    hide *;
    var p := Discovery.FormHashes(ptype, hashes);
    Codec.WireLayout(p);
    StartsSo(Codec.Encode(p), p);
    var s := Codec.Encode(p);
    assert s[20 + 20 * k .. 40 + 20 * k] == s[20..][20 * k .. 20 + 20 * k];
  }

  lemma HashesSized(ptype: int, hashes: seq<Hash>, k: nat)
    requires 0 <= ptype <= 1 && Discovery.Whole(hashes) && k < |hashes| <= MAX_HASHNUM_PER_PACK
    ensures var p := Discovery.FormHashes(ptype, hashes);
            && Codec.Sized(p) && p.magic == 15441 && p.version == 1 && p.ptype == ptype && p.hdLen == 16
            && p.seqNum == 0 && p.ackNum == 0 && p.hashNum == |hashes| && p.packLen == 20 + 20 * |hashes|
            && |p.payload| == 20 * |hashes| && p.payload[20 * k .. 20 + 20 * k] == hashes[k]
  {
    Discovery.PackedHash(hashes, k);
    hide Discovery.Pack;
  }

  lemma StartsSo(s: seq<byte>, p: Packet)
    requires |s| >= 16 && Codec.Big16(s, 0) == p.magic == 15441 && s[2] as int == p.version == 1 && s[3] as int == p.ptype
    requires Codec.Big16(s, 4) == p.hdLen == 16 && Codec.Big16(s, 6) == |s|
    requires Codec.Big32(s, 8) == p.seqNum && Codec.Big32(s, 12) == p.ackNum
    ensures Starts(s, p.ptype, p.seqNum, p.ackNum)
  {
    hide Codec.Big16, Codec.Big32;
  }
}
