/** SHA-1 as FIPS 180-4 defines it: functions (section 4.1.1), padding (5.1.1), initial value (5.3.1) and
    the computation by message schedule and 80 rounds (6.1.2). */
module Sha1Spec {
  import opened Basics

  type word = bv32

  datatype Regs = Regs(a: word, b: word, c: word, d: word, e: word)

  const H0 := Regs(0x67452301, 0xefcdab89, 0x98badcfe, 0x10325476, 0xc3d2e1f0)

  function Rotl(x: word, n: bv6): word
    requires n <= 32
  {
    (x << n) | (x >> (32 - n))
  }

  function Ch(x: word, y: word, z: word): word { (x & y) ^ (!x & z) }

  function Parity(x: word, y: word, z: word): word { x ^ y ^ z }

  function Maj(x: word, y: word, z: word): word { (x & y) ^ (x & z) ^ (y & z) }

  function F(t: nat, x: word, y: word, z: word): word {
    if t < 20 then Ch(x, y, z) else if 40 <= t < 60 then Maj(x, y, z) else Parity(x, y, z)
  }

  function K(t: nat): word {
    if t < 20 then 0x5a827999 else if t < 40 then 0x6ed9eba1 else if t < 60 then 0x8f1bbcdc else 0xca62c1d6
  }

  /** The big-endian word of four bytes. */
  function BigEndian(b0: byte, b1: byte, b2: byte, b3: byte): word {
    ((b0 as word) << 24) | ((b1 as word) << 16) | ((b2 as word) << 8) | (b3 as word)
  }

  function Xor4(x: word, y: word, z: word, w: word): word { x ^ y ^ z ^ w }

  /** Word t of the message schedule of a block. */
  function Schedule(block: seq<byte>, t: nat): word
    requires |block| == 64
  {
    if t < 16 then BigEndian(block[4 * t], block[4 * t + 1], block[4 * t + 2], block[4 * t + 3])
    else Rotl(Xor4(Schedule(block, t - 3), Schedule(block, t - 8), Schedule(block, t - 14), Schedule(block, t - 16)), 1)
  }

  function Sum5(a: word, f: word, e: word, k: word, w: word): word { a + f + e + k + w }

  function Round(r: Regs, t: nat, w: word): Regs {
    Regs(Sum5(Rotl(r.a, 5), F(t, r.b, r.c, r.d), r.e, K(t), w), r.a, Rotl(r.b, 30), r.c, r.d)
  }

  /** The working variables after the first t rounds. */
  function Rounds(h: Regs, block: seq<byte>, t: nat): Regs
    requires |block| == 64
  {
    if t == 0 then h else Round(Rounds(h, block, t - 1), t - 1, Schedule(block, t - 1))
  }

  function Plus(x: word, y: word): word { x + y }

  function Add(x: Regs, y: Regs): Regs {
    Regs(Plus(x.a, y.a), Plus(x.b, y.b), Plus(x.c, y.c), Plus(x.d, y.d), Plus(x.e, y.e))
  }

  function Compress(h: Regs, block: seq<byte>): Regs
    requires |block| == 64
  {
    Add(h, Rounds(h, block, 80))
  }

  /** Process every whole block of `bytes` in order; a shorter tail is ignored. */
  function Absorb(h: Regs, bytes: seq<byte>): Regs
    decreases |bytes|
  {
    if |bytes| < 64 then h else Absorb(Compress(h, bytes[..64]), bytes[64..])
  }

  function Zeros(n: nat): (r: seq<byte>)
    ensures |r| == n
  { 
    seq(n, i => 0)
  }

  /** A 64-bit number as eight bytes, most significant first. */
  function Length64(n: int): (r: seq<byte>)
    requires 0 <= n < 0x1_0000_0000_0000_0000
    ensures |r| == 8
  {
    BigEndian64(n as bv64)
  }

  function BigEndian64(x: bv64): seq<byte> {
    [((x >> 56) & 0xff) as bv8, ((x >> 48) & 0xff) as bv8, ((x >> 40) & 0xff) as bv8, ((x >> 32) & 0xff) as bv8,
     ((x >> 24) & 0xff) as bv8, ((x >> 16) & 0xff) as bv8, ((x >> 8) & 0xff) as bv8, (x & 0xff) as bv8]
  }

  /** How many zero bytes follow the 0x80 byte: the least number that leaves room for the length. */
  function ZeroCount(len: nat): (k: nat)
    ensures k < 64 && (len + 1 + k) % 64 == 56
  {
    (119 - len % 64) % 64
  }

  lemma ZeroCountIsLeast(len: nat, j: nat)
    requires (len + 1 + j) % 64 == 56
    ensures ZeroCount(len) <= j
  {
  }

  function Pad(msg: seq<byte>): seq<byte>
    requires 8 * |msg| < 0x1_0000_0000_0000_0000
  {
    msg + [0x80] + Zeros(ZeroCount(|msg|)) + Length64(8 * |msg|)
  }

  /** Padding adds at least nine bytes, fewer than 73, and ends on a block boundary. */
  lemma PadLength(msg: seq<byte>)
    requires 8 * |msg| < 0x1_0000_0000_0000_0000
    ensures |Pad(msg)| % 64 == 0 && |msg| + 9 <= |Pad(msg)| < |msg| + 73
  {
    hide Length64, Zeros;
  }

  function Bytes(x: word): seq<byte> {
    [(x >> 24) as bv8, ((x >> 16) & 0xff) as bv8, ((x >> 8) & 0xff) as bv8, (x & 0xff) as bv8]
  }

  function Digest(h: Regs): seq<byte> {
    Bytes(h.a) + Bytes(h.b) + Bytes(h.c) + Bytes(h.d) + Bytes(h.e)
  }

  function Sha1(msg: seq<byte>): seq<byte>
    requires 8 * |msg| < 0x1_0000_0000_0000_0000
  {
    Digest(Absorb(H0, Pad(msg)))
  }
}
