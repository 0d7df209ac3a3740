/** sha.c: the streaming implementation of SHA-1, in both SHA1Update variants and every SHA1_UNROLL variant. */
module Sha1 {
  import opened Basics
  import opened Sha1Spec

  const WRAP := 0x1_0000_0000_0000_0000

  // ---- the macros of sha.c ----

  function Rotr(x: word, n: bv6): word
    requires n <= 32
  {
    (x >> n) | (x << (32 - n))
  }

  function F0(x: word, y: word, z: word): word { z ^ (x & (y ^ z)) }

  function F20(x: word, y: word, z: word): word { x ^ y ^ z }

  function F40(x: word, y: word, z: word): word { (x & (y | z)) | (y & z) }

  /** The function a round of the given phase (20 rounds each) applies. */
  function FMacro(phase: nat, x: word, y: word, z: word): word {
    if phase == 0 then F0(x, y, z) else if phase == 2 then F40(x, y, z) else F20(x, y, z)
  }

  function KMacro(phase: nat): word {
    if phase == 0 then 0x5a827999 else if phase == 1 then 0x6ed9eba1 else if phase == 2 then 0x8f1bbcdc else 0xca62c1d6
  }

  function ByteSwap(x: word): word { (Rotr(x, 8) & 0xff00ff00) | (Rotl(x, 8) & 0x00ff00ff) }

  /** _byteswap64 */
  function ByteSwap64(x: bv64): bv64 {
    var a := ((x >> 32) & 0xffffffff) as bv32;
    var b := (x & 0xffffffff) as bv32;
    ((ByteSwap(b) as bv64) << 32) | (ByteSwap(a) as bv64)
  }

  /** A 32-bit load from memory on the little-endian host. */
  function LittleEndian(b0: byte, b1: byte, b2: byte, b3: byte): word {
    (b0 as word) | ((b1 as word) << 8) | ((b2 as word) << 16) | ((b3 as word) << 24)
  }

  /** The memory image of a 64-bit variable on the little-endian host. */
  function Memory64(x: bv64): (r: seq<byte>)
    ensures |r| == 8
  {
    [(x & 0xff) as bv8, ((x >> 8) & 0xff) as bv8, ((x >> 16) & 0xff) as bv8, ((x >> 24) & 0xff) as bv8,
     ((x >> 32) & 0xff) as bv8, ((x >> 40) & 0xff) as bv8, ((x >> 48) & 0xff) as bv8, ((x >> 56) & 0xff) as bv8]
  }

  lemma SwapIsBigEndian(b0: byte, b1: byte, b2: byte, b3: byte)
    ensures ByteSwap(LittleEndian(b0, b1, b2, b3)) == BigEndian(b0, b1, b2, b3)
  {
  }

  lemma SwapLengthIsBigEndian(x: bv64)
    ensures Memory64(ByteSwap64(x)) == BigEndian64(x)
  {
  }

  /** The memory image of a 32-bit variable on the little-endian host. */
  function Memory32(x: word): seq<byte> {
    [(x & 0xff) as bv8, ((x >> 8) & 0xff) as bv8, ((x >> 16) & 0xff) as bv8, (x >> 24) as bv8]
  }

  /** Under SHA1_FAST_COPY the digest is stored word by word, byte-swapped: the same bytes as one at a time. */
  lemma FastStoreIsSame(x: word)
    ensures Memory32(ByteSwap(x)) == Bytes(x)
  {
  }

  lemma ChBits(x: word, y: word, z: word)
    ensures (z ^ (x & (y ^ z))) == (x & y) ^ (!x & z)
  {
  }

  lemma MajBits(x: word, y: word, z: word)
    ensures ((x & (y | z)) | (y & z)) == (x & y) ^ (x & z) ^ (y & z)
  {
  }

  lemma ChMacro(x: word, y: word, z: word)
    ensures F0(x, y, z) == Ch(x, y, z)
  {
    ChBits(x, y, z);
  }

  lemma MajMacro(x: word, y: word, z: word)
    ensures F40(x, y, z) == Maj(x, y, z)
  {
    MajBits(x, y, z);
  }

  lemma ParityMacro(x: word, y: word, z: word)
    ensures F20(x, y, z) == Parity(x, y, z)
  {
  }

  lemma MacrosMatch(phase: nat, t: nat, x: word, y: word, z: word)
    requires phase < 4 && 20 * phase <= t < 20 * phase + 20
    ensures FMacro(phase, x, y, z) == F(t, x, y, z) && KMacro(phase) == K(t)
  {
    hide F0, F20, F40, Ch, Maj, Parity;
    ChMacro(x, y, z);
    MajMacro(x, y, z);
    ParityMacro(x, y, z);
  }

  function Temp(a: word, f: word, e: word, w: word, k: word): word { a + f + e + w + k }

  /** DO_ROUND */
  function DoRound(r: Regs, phase: nat, w: word): Regs {
    Regs(Temp(Rotl(r.a, 5), FMacro(phase, r.b, r.c, r.d), r.e, w, KMacro(phase)), r.a, Rotl(r.b, 30), r.c, r.d)
  }

  lemma TempIsSum(a: word, f: word, e: word, w: word, k: word)
    ensures Temp(a, f, e, w, k) == Sum5(a, f, e, k, w)
  {
  }

  lemma DoRoundIsRound(r: Regs, phase: nat, t: nat, w: word)
    requires phase < 4 && 20 * phase <= t < 20 * phase + 20
    ensures DoRound(r, phase, w) == Round(r, t, w)
  {
    hide Rotl, F, FMacro, K, KMacro, Temp, Sum5;
    MacrosMatch(phase, t, r.b, r.c, r.d);
    TempIsSum(Rotl(r.a, 5), F(t, r.b, r.c, r.d), r.e, w, K(t));
  }

  // ---- the abstract value of a context, and what feeding it data does ----

  datatype Sha = Sha(total: int, h: Regs, pending: seq<byte>)

  const INITIAL := Sha(0, H0, [])

  predicate Ready(s: Sha) { |s.pending| < 64 && 0 <= s.total < WRAP }

  /** The part of `bytes` after its last whole block. */
  function Rest(bytes: seq<byte>): (r: seq<byte>)
    ensures |r| == |bytes| % 64
    decreases |bytes|
  {
    if |bytes| < 64 then bytes else Rest(bytes[64..])
  }

  function Feed(s: Sha, data: seq<byte>): Sha {
    Sha((s.total + 8 * |data|) % WRAP, Absorb(s.h, s.pending + data), Rest(s.pending + data))
  }

  /** The context after one pass of the copy loop with k bytes. */
  function Copied(s: Sha, data: seq<byte>, k: nat): Sha
    requires k <= |data| && |s.pending| + k <= 64
  {
    var pending := s.pending + data[..k];
    var total := (s.total + 8 * k) % WRAP;
    if |pending| == 64 then Sha(total, Compress(s.h, pending), []) else Sha(total, s.h, pending)
  }

  lemma LengthSplit(x: int, k: int, n: int)
    requires 0 <= k <= n
    ensures ((x + 8 * k) % WRAP + 8 * (n - k)) % WRAP == (x + 8 * n) % WRAP
  {
    var y := x + 8 * k;
    assert y == y / WRAP * WRAP + y % WRAP;
    assert x + 8 * n == (y % WRAP + 8 * (n - k)) + y / WRAP * WRAP;
    ModShift(y % WRAP + 8 * (n - k), y / WRAP);
  }

  lemma ModShift(x: int, q: int)
    ensures (x + q * WRAP) % WRAP == x % WRAP
  {
  }

  lemma FeedCopied(s: Sha, data: seq<byte>, k: nat)
    requires Ready(s) && k <= |data| && |s.pending| + k <= 64
    ensures Ready(Copied(s, data, k))
    ensures Feed(Copied(s, data, k), data[k..]) == Feed(s, data)
  {
    hide Compress;
    var pending := s.pending + data[..k];
    LengthSplit(s.total, k, |data|);
    assert s.pending + data == pending + data[k..];
    if |pending| == 64 {
      assert (pending + data[k..])[..64] == pending && (pending + data[k..])[64..] == data[k..] == [] + data[k..];
    }
  }

  lemma FeedNothing(s: Sha)
    requires Ready(s)
    ensures Feed(s, []) == s
  {
    assert s.pending + [] == s.pending;
  }

  /** Feeding a + b is feeding a, then b: how the input is split does not matter. */
  lemma {:induction false} FeedConcat(s: Sha, a: seq<byte>, b: seq<byte>)
    requires Ready(s)
    ensures Ready(Feed(s, a))
    ensures Feed(Feed(s, a), b) == Feed(s, a + b)
    decreases |a|
  {
    hide Compress;
    if a == [] {
      FeedNothing(s);
      assert a + b == b;
    } else {
      var k := Min(64 - |s.pending|, |a|);
      FeedCopied(s, a, k);
      FeedCopied(s, a + b, k);
      assert (a + b)[..k] == a[..k] && (a + b)[k..] == a[k..] + b;
      FeedConcat(Copied(s, a, k), a[k..], b);
    }
  }

  class SHA1Context {
    var totalLength: int
    const hash: array<word>
    var bufferLength: int
    const buffer: array<byte>

    ghost predicate Valid()
      reads this
    {
      hash.Length == 5 && buffer.Length == 64 && 0 <= bufferLength < 64 && 0 <= totalLength < WRAP
    }

    function Words(): Regs
      requires hash.Length == 5
      reads hash
    {
      Regs(hash[0], hash[1], hash[2], hash[3], hash[4])
    }

    ghost function View(): Sha
      requires Valid()
      reads this, hash, buffer
    {
      Sha(totalLength, Words(), buffer[..bufferLength])
    }

    /** SHA1Init */
    constructor ()
      ensures Valid() && fresh(hash) && fresh(buffer)
      ensures View() == INITIAL
    {
      hash := new word[5];
      buffer := new byte[64];
      totalLength, bufferLength := 0, 0;
      new;
      hash[0], hash[1], hash[2], hash[3], hash[4] := 0x67452301, 0xefcdab89, 0x98badcfe, 0x10325476, 0xc3d2e1f0;
    }

    /** The schedule loops of SHA1Guts: byte-swapped loads, then four pointers walking behind W. */
    static method Expand(cbuf: seq<byte>) returns (buf: array<word>)
      requires |cbuf| == 64
      ensures fresh(buf) && buf.Length == 80
      ensures forall t :: 0 <= t < 80 ==> buf[t] == Schedule(cbuf, t)
    {
      hide Rotl, ByteSwap, LittleEndian, BigEndian, Xor4;
      buf := new word[80];
      var w := 0;
      while w < 16
        invariant 0 <= w <= 16
        invariant forall t :: 0 <= t < w ==> buf[t] == Schedule(cbuf, t)
      {
        SwapIsBigEndian(cbuf[4 * w], cbuf[4 * w + 1], cbuf[4 * w + 2], cbuf[4 * w + 3]);
        buf[w] := ByteSwap(LittleEndian(cbuf[4 * w], cbuf[4 * w + 1], cbuf[4 * w + 2], cbuf[4 * w + 3]));
        w := w + 1;
      }
      var w16, w14, w8, w3 := 0, 2, 8, 13;
      while w < 80
        invariant 16 <= w <= 80
        invariant w16 == w - 16 && w14 == w - 14 && w8 == w - 8 && w3 == w - 3
        invariant forall t :: 0 <= t < w ==> buf[t] == Schedule(cbuf, t)
      {
        buf[w] := Xor4(buf[w3], buf[w8], buf[w14], buf[w16]);
        buf[w] := Rotl(buf[w], 1);
        w, w16, w14, w8, w3 := w + 1, w16 + 1, w14 + 1, w8 + 1, w3 + 1;
      }
    }

    /** One loop iteration of SHA1Guts: `unroll` copies of DO_ROUND. */
    static method Iteration(h: Regs, r0: Regs, w: array<word>, ghost block: seq<byte>, phase: nat, t0: nat, unroll: nat)
      returns (r: Regs)
      requires |block| == 64 && w.Length == 80 && forall t :: 0 <= t < 80 ==> w[t] == Schedule(block, t)
      requires phase < 4 && 20 * phase <= t0 && t0 + unroll <= 20 * phase + 20
      requires r0 == Rounds(h, block, t0)
      ensures r == Rounds(h, block, t0 + unroll)
    {
      hide DoRound, Round, Schedule;
      r := r0;
      var t := t0;
      while t < t0 + unroll
        invariant t0 <= t <= t0 + unroll && r == Rounds(h, block, t)
      {
        DoRoundIsRound(r, phase, t, w[t]);
        r := DoRound(r, phase, w[t]);
        t := t + 1;
      }
    }

    /** The 80 rounds for SHA1_UNROLL = unroll: in each phase 20/unroll iterations of `unroll` rounds. */
    static method RunRounds(h: Regs, w: array<word>, ghost block: seq<byte>, unroll: nat) returns (r: Regs)
      requires unroll in {1, 2, 4, 5, 10, 20}
      requires |block| == 64 && w.Length == 80 && forall t :: 0 <= t < 80 ==> w[t] == Schedule(block, t)
      ensures r == Rounds(h, block, 80)
    {
      hide Round, Schedule, Rounds;
      NoRounds(h, block);
      r := h;
      var t, phase := 0, 0;
      while phase < 4
        invariant 0 <= phase <= 4 && t == 20 * phase && r == Rounds(h, block, t)
      {
        var i := 20 / unroll - 1;
        Divides(unroll);
        while i >= 0
          invariant -1 <= i < 20 / unroll
          invariant t == 20 * phase + 20 - (i + 1) * unroll && t >= 20 * phase
          invariant r == Rounds(h, block, t)
        {
          NextTurn(i, unroll);
          r := Iteration(h, r, w, block, phase, t, unroll);
          t := t + unroll;
          i := i - 1;
        }
        phase := phase + 1;
      }
    }

    static lemma NoRounds(h: Regs, block: seq<byte>)
      requires |block| == 64
      ensures Rounds(h, block, 0) == h
    {
    }

    static lemma Divides(unroll: nat)
      requires unroll in {1, 2, 4, 5, 10, 20}
      ensures (20 / unroll - 1 + 1) * unroll == 20 && 20 / unroll >= 1
    {
    }

    static lemma NextTurn(i: int, unroll: nat)
      requires i >= 0
      ensures (i + 1) * unroll == i * unroll + unroll && i * unroll >= 0 && (i - 1 + 1) * unroll == i * unroll
    {
    }

    method Accumulate(r: Regs)
      requires hash.Length == 5
      modifies hash
      ensures Words() == Add(old(Words()), r)
    {
      hide Plus;
      hash[0] := Plus(hash[0], r.a);
      hash[1] := Plus(hash[1], r.b);
      hash[2] := Plus(hash[2], r.c);
      hash[3] := Plus(hash[3], r.d);
      hash[4] := Plus(hash[4], r.e);
    }

    /** SHA1Guts */
    method Guts(cbuf: seq<byte>, unroll: nat)
      requires hash.Length == 5 && |cbuf| == 64 && unroll in {1, 2, 4, 5, 10, 20}
      modifies hash
      ensures Words() == Compress(old(Words()), cbuf)
    {
      hide Rounds, Add, Schedule;
      var w := Expand(cbuf);
      var r := RunRounds(Words(), w, cbuf, unroll);
      Accumulate(r);
    }

    /** One pass of the copy loop: append k bytes to the buffer and compress it when it is full. */
    method Take(data: seq<byte>, k: int, unroll: nat)
      requires Valid() && 0 <= k <= |data| && bufferLength + k <= 64 && unroll in {1, 2, 4, 5, 10, 20}
      modifies this`totalLength, this`bufferLength, hash, buffer
      ensures Valid() && View() == Copied(old(View()), data, k)
      ensures bufferLength == (if old(bufferLength) + k == 64 then 0 else old(bufferLength) + k)
    {
      hide Compress;
      ghost var before := buffer[..bufferLength];
      forall i | 0 <= i < k { buffer[bufferLength + i] := data[i]; }
      totalLength := (totalLength + k * 8) % WRAP;
      bufferLength := bufferLength + k;
      assert buffer[..bufferLength] == before + data[..k];
      if bufferLength == 64 {
        Guts(buffer[..64], unroll);
        bufferLength := 0;
      }
    }

    /** SHA1Update without SHA1_FAST_COPY */
    method Update(data: seq<byte>, unroll: nat)
      requires Valid() && |data| < 0x1_0000_0000 && unroll in {1, 2, 4, 5, 10, 20}
      modifies this`totalLength, this`bufferLength, hash, buffer
      ensures Valid() && View() == Feed(old(View()), data)
    {
      hide Feed, Copied;
      var rest := data;
      ghost var target := Feed(View(), data);
      while rest != []
        invariant Valid() && Feed(View(), rest) == target
        decreases |rest|
      {
        var bytesToCopy := 64 - bufferLength;
        if bytesToCopy > |rest| { bytesToCopy := |rest|; }
        FeedCopied(View(), rest, bytesToCopy);
        Take(rest, bytesToCopy, unroll);
        rest := rest[bytesToCopy..];
      }
      FeedNothing(View());
    }

    /** SHA1Update with SHA1_FAST_COPY: whole blocks are compressed straight from the input. */
    method UpdateFast(data: seq<byte>, unroll: nat)
      requires Valid() && |data| < 0x1_0000_0000 && unroll in {1, 2, 4, 5, 10, 20}
      modifies this`totalLength, this`bufferLength, hash, buffer
      ensures Valid() && View() == Feed(old(View()), data)
    {
      hide Feed, Copied;
      var rest := data;
      ghost var target := Feed(View(), data);
      if bufferLength != 0 {
        var bytesToCopy := 64 - bufferLength;
        if bytesToCopy > |rest| { bytesToCopy := |rest|; }
        FeedCopied(View(), rest, bytesToCopy);
        Take(rest, bytesToCopy, unroll);
        rest := rest[bytesToCopy..];
      }
      while |rest| > 63
        invariant Valid() && Feed(View(), rest) == target
        invariant bufferLength == 0 || rest == []
        decreases |rest|
      {
        FeedCopied(View(), rest, 64);
        TakeBlock(rest, unroll);
        rest := rest[64..];
      }
      if |rest| > 0 {
        FeedCopied(View(), rest, |rest|);
        TakeTail(rest);
        assert rest[|rest|..] == [];
        rest := [];
      }
      assert rest == [];
      FeedNothing(View());
    }

    method TakeTail(data: seq<byte>)
      requires Valid() && bufferLength + |data| < 64
      modifies this`totalLength, this`bufferLength, buffer
      ensures Valid() && View() == Copied(old(View()), data, |data|)
    {
      ghost var before := buffer[..bufferLength];
      forall i | 0 <= i < |data| { buffer[bufferLength + i] := data[i]; }
      totalLength := (totalLength + |data| * 8) % WRAP;
      bufferLength := bufferLength + |data|;
      assert buffer[..bufferLength] == before + data[..|data|];
    }

    method TakeBlock(data: seq<byte>, unroll: nat)
      requires Valid() && bufferLength == 0 && |data| > 63 && unroll in {1, 2, 4, 5, 10, 20}
      modifies this`totalLength, hash
      ensures Valid() && View() == Copied(old(View()), data, 64)
    {
      hide Compress;
      assert [] + data[..64] == data[..64];
      totalLength := (totalLength + 512) % WRAP;
      Guts(data[..64], unroll);
    }

    /** SHA1Final; a null destination is allowed and receives nothing. */
    method Final(out: array?<byte>, unroll: nat)
      requires Valid() && (out != null ==> out.Length >= 20 && out != buffer) && unroll in {1, 2, 4, 5, 10, 20}
      modifies this`totalLength, this`bufferLength, hash, buffer, out
      ensures Valid() && View() == Closed(old(View()))
      ensures out != null ==> out[..20] == Digest(View().h) && forall i :: 20 <= i < out.Length ==> out[i] == old(out[i])
    {
      hide Closed, Digest;
      Close(unroll);
      if out != null { WriteDigest(out); }
    }

    /** The part of SHA1Final that feeds the padding and the length. */
    method Close(unroll: nat)
      requires Valid() && unroll in {1, 2, 4, 5, 10, 20}
      modifies this`totalLength, this`bufferLength, hash, buffer
      ensures Valid() && View() == Closed(old(View()))
    {
      hide Feed, Padding, Length64, LengthPad;
      var bytesToPad := 120 - bufferLength;
      if bytesToPad > 64 { bytesToPad := bytesToPad - 64; }
      var lengthPad := LengthPad(totalLength);
      LengthBytes(totalLength);
      PaddingPrefix(bufferLength);
      Update(PADDING[..bytesToPad], unroll);
      Update(lengthPad, unroll);
    }

    /** The output loop of SHA1Final. */
    method WriteDigest(out: array<byte>)
      requires hash.Length == 5 && out.Length >= 20
      modifies out
      ensures out[..20] == Digest(Words())
      ensures forall i :: 20 <= i < out.Length ==> out[i] == old(out[i])
    {
      hide Bytes, DigestPrefix, Digest, HashWord, Words;
      DigestPrefixes(Words());
      var i := 0;
      while i < 5
        invariant 0 <= i <= 5
        invariant out[..4 * i] == DigestPrefix(Words(), i)
        invariant forall j :: 20 <= j < out.Length ==> out[j] == old(out[j])
      {
        WordAt(i);
        PutWord(out, 4 * i, hash[i]);
        DigestStep(Words(), i);
        i := i + 1;
      }
    }

    lemma WordAt(i: nat)
      requires hash.Length == 5 && i < 5
      ensures hash[i] == HashWord(Words(), i)
    {
    }

    static method PutWord(out: array<byte>, at: nat, x: word)
      requires at + 4 <= out.Length
      modifies out
      ensures out[..at + 4] == old(out[..at]) + Bytes(x)
      ensures forall j :: at + 4 <= j < out.Length ==> out[j] == old(out[j])
    {
      ghost var before := out[..at];
      out[at] := (x >> 24) as bv8;
      out[at + 1] := ((x >> 16) & 0xff) as bv8;
      out[at + 2] := ((x >> 8) & 0xff) as bv8;
      out[at + 3] := (x & 0xff) as bv8;
      assert out[..at] == before && out[at .. at + 4] == Bytes(x);
      assert out[..at + 4] == out[..at] + out[at .. at + 4];
    }
  }

  /** hash[n] */
  function HashWord(h: Regs, n: nat): word
    requires n < 5
  {
    if n == 0 then h.a else if n == 1 then h.b else if n == 2 then h.c else if n == 3 then h.d else h.e
  }

  function DigestPrefix(h: Regs, n: nat): seq<byte>
    requires n <= 5
  {
    if n == 0 then [] else DigestPrefix(h, n - 1) + Bytes(HashWord(h, n - 1))
  }

  lemma DigestStep(h: Regs, n: nat)
    requires n < 5
    ensures DigestPrefix(h, n + 1) == DigestPrefix(h, n) + Bytes(HashWord(h, n))
  {
    hide Bytes, HashWord;
  }

  lemma DigestPrefixes(h: Regs)
    ensures DigestPrefix(h, 0) == [] && DigestPrefix(h, 5) == Digest(h)
  {
    hide Bytes, DigestPrefix;
    DigestStart(h);
    DigestStep(h, 0);
    DigestStep(h, 1);
    DigestStep(h, 2);
    DigestStep(h, 3);
    DigestStep(h, 4);
    assert [] + Bytes(h.a) == Bytes(h.a);
  }

  lemma DigestStart(h: Regs)
    ensures DigestPrefix(h, 0) == []
  {
  }

  const PADDING: seq<byte> := [0x80] + Zeros(63)

  /** What SHA1Final feeds before the length when `used` bytes are buffered. */
  function Padding(used: nat): seq<byte>
    requires used < 64
  {
    [0x80] + Zeros(ZeroCount(used))
  }

  /** The bytes of the swapped length variable. */
  function LengthPad(n: int): (r: seq<byte>)
    requires 0 <= n < WRAP
    ensures |r| == 8
  {
    Memory64(ByteSwap64(n as bv64))
  }

  lemma PaddingPrefix(used: nat)
    requires used < 64
    ensures var n := if 120 - used > 64 then 120 - used - 64 else 120 - used;
            n <= |PADDING| && PADDING[..n] == Padding(used)
  {
  }

  lemma LengthBytes(n: int)
    requires 0 <= n < WRAP
    ensures LengthPad(n) == Length64(n)
  {
    hide Memory64, ByteSwap64, BigEndian64;
    SwapLengthIsBigEndian(n as bv64);
  }

  /** The context after padding. */
  function Closed(s: Sha): Sha
    requires Ready(s)
  {
    Feed(Feed(s, Padding(|s.pending|)), Length64(s.total))
  }

  // ---- streaming computes SHA-1 ----

  /** What a fresh context knows after being fed msg: its length, and how much of it is buffered. */
  lemma FedState(msg: seq<byte>)
    requires 8 * |msg| < WRAP
    ensures Ready(Feed(INITIAL, msg))
    ensures Feed(INITIAL, msg).total == 8 * |msg| && |Feed(INITIAL, msg).pending| == |msg| % 64
  {
    hide Absorb;
    assert [] + msg == msg;
  }

  lemma PaddingIsPad(msg: seq<byte>)
    requires 8 * |msg| < WRAP
    ensures msg + Padding(|msg| % 64) + Length64(8 * |msg|) == Pad(msg)
  {
    SameZeroCount(|msg|);
    hide Length64, Zeros, ZeroCount;
    var zeros := Zeros(ZeroCount(|msg|));
    assert Padding(|msg| % 64) == [0x80] + zeros;
    assert msg + ([0x80] + zeros) == msg + [0x80] + zeros;
  }

  lemma SameZeroCount(len: nat)
    ensures ZeroCount(len % 64) == ZeroCount(len)
  {
  }

  /** Padding and closing a context that was fed msg leaves the FIPS hash of msg. */
  lemma ClosedIsSha1(msg: seq<byte>)
    requires 8 * |msg| < WRAP
    ensures Ready(Feed(INITIAL, msg))
    ensures Digest(Closed(Feed(INITIAL, msg)).h) == Sha1(msg)
  {
    hide Absorb, Digest, Length64, Padding, Pad, Feed;
    var padding, length := Padding(|msg| % 64), Length64(8 * |msg|);
    FedState(msg);
    FeedConcat(INITIAL, msg, padding);
    FeedConcat(INITIAL, msg + padding, length);
    PaddingIsPad(msg);
    FedHash(Pad(msg));
  }

  lemma FedHash(bytes: seq<byte>)
    ensures Feed(INITIAL, bytes).h == Absorb(H0, bytes)
  {
    hide Absorb;
    assert [] + bytes == bytes;
  }

  function Flatten(parts: seq<seq<byte>>): seq<byte> {
    if parts == [] then [] else Flatten(parts[..|parts| - 1]) + parts[|parts| - 1]
  }

  /** One SHA1Update call per part. */
  function FeedAll(s: Sha, parts: seq<seq<byte>>): Sha {
    if parts == [] then s else Feed(FeedAll(s, parts[..|parts| - 1]), parts[|parts| - 1])
  }

  lemma {:induction false} FeedAllIsFeed(s: Sha, parts: seq<seq<byte>>)
    requires Ready(s)
    ensures FeedAll(s, parts) == Feed(s, Flatten(parts))
  {
    hide Feed;
    if parts == [] {
      FeedNothing(s);
    } else {
      FeedAllIsFeed(s, parts[..|parts| - 1]);
      FeedConcat(s, Flatten(parts[..|parts| - 1]), parts[|parts| - 1]);
    }
  }

  /** Init, any sequence of updates, Final: the digest is the FIPS 180-4 SHA-1 of the concatenated input. */
  lemma StreamingIsSha1(parts: seq<seq<byte>>)
    requires 8 * |Flatten(parts)| < WRAP
    ensures Ready(FeedAll(INITIAL, parts))
    ensures Digest(Closed(FeedAll(INITIAL, parts)).h) == Sha1(Flatten(parts))
  {
    hide Feed, Closed, Digest, Sha1, Flatten;
    FeedAllIsFeed(INITIAL, parts);
    ClosedIsSha1(Flatten(parts));
  }

  /** shahash of chunk.c */
  method ShaHash(str: seq<byte>) returns (digest: seq<byte>)
    requires |str| < 0x8000_0000
    ensures digest == Sha1(str)
  {
    hide Feed, Closed, Digest, Sha1;
    var sha := new SHA1Context();
    sha.Update(str, 20);
    var out := new byte[20];
    sha.Final(out, 20);
    digest := out[..];
    ClosedIsSha1(str);
  }
}
