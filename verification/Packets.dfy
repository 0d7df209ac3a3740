/** The shared constants, packet.h and the packet constructors of packet.c. */
module Packets {
  import opened Basics

  const HEADER_LEN := 16
  const MAX_PACKET_SIZE := 1040
  const PAYLOAD_LEN := 1024
  const HASH_SIZE := 20
  const MAX_HASHNUM_PER_PACK := 50
  const MAGIC := 15441
  const TIMEOUT_SEC := 2

  /** The wire-visible part of `packet`; a NULL payload is the empty sequence. */
  datatype Packet = Packet(
    magic: int, version: int, ptype: int, hdLen: int, packLen: int,
    seqNum: int, ackNum: int, hashNum: int, payload: seq<byte>)

  function FormData(data: seq<byte>, seqno: int): Packet {
    Packet(MAGIC, 1, 3, HEADER_LEN, HEADER_LEN + |data|, seqno, 0, 0, data)
  }

  function FormAck(seqno: int): Packet {
    Packet(MAGIC, 1, 4, HEADER_LEN, HEADER_LEN, 0, seqno, 0, [])
  }
}
