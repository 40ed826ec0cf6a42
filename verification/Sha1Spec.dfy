/** SHA-1 as a function of the whole message: RFC 3174, sections 3 to 6.1. */
module Sha1Spec {
  import opened Bytes

  type Word = bv32

  // ----- words (section 2 and 3) -----

  function Rotate(n: nat, x: Word): Word
    requires n <= 32
  {
    (x << n) | (x >> (32 - n))
  }

  function Add(v: Word, w: Word): Word { v + w }

  function Sum5(v: Word, w: Word, x: Word, y: Word, z: Word): Word { v + w + x + y + z }

  function WordOf(b0: Byte, b1: Byte, b2: Byte, b3: Byte): Word {
    ((b0 as bv32) << 24) | ((b1 as bv32) << 16) | ((b2 as bv32) << 8) | (b3 as bv32)
  }

  function ByteOf(w: Word, k: nat): Byte
    requires k < 4
  {
    ((w >> (8 * (3 - k))) & 0xFF) as int
  }

  // ----- functions and constants (section 5) -----

  function Choose(b: Word, c: Word, d: Word): Word { (b & c) | ((!b) & d) }

  function Parity(b: Word, c: Word, d: Word): Word { b ^ c ^ d }

  function Majority(b: Word, c: Word, d: Word): Word { (b & c) | (b & d) | (c & d) }

  function Mixed(t: nat, b: Word, c: Word, d: Word): Word {
    if t < 20 then Choose(b, c, d) else if 40 <= t < 60 then Majority(b, c, d) else Parity(b, c, d)
  }

  function K(t: nat): Word {
    if t < 20 then 0x5A827999 else if t < 40 then 0x6ED9EBA1 else if t < 60 then 0x8F1BBCDC else 0xCA62C1D6
  }

  // ----- one block (section 6.1) -----

  datatype Chain = Chain(a: Word, b: Word, c: Word, d: Word, e: Word)

  const INITIAL: Chain := Chain(0x67452301, 0xEFCDAB89, 0x98BADCFE, 0x10325476, 0xC3D2E1F0)

  function Schedule(block: seq<Byte>, t: nat): Word
    requires |block| == 64
  {
    if t < 16 then WordOf(block[4 * t], block[4 * t + 1], block[4 * t + 2], block[4 * t + 3])
    else Rotate(1, Schedule(block, t - 3) ^ Schedule(block, t - 8) ^ Schedule(block, t - 14) ^ Schedule(block, t - 16))
  }

  function Round(t: nat, s: Chain, w: Word): Chain {
    Chain(Sum5(Rotate(5, s.a), Mixed(t, s.b, s.c, s.d), s.e, w, K(t)), s.a, Rotate(30, s.b), s.c, s.d)
  }

  function Rounds(block: seq<Byte>, h: Chain, t: nat): Chain
    requires |block| == 64
  {
    if t == 0 then h else Round(t - 1, Rounds(block, h, t - 1), Schedule(block, t - 1))
  }

  function Sum(x: Chain, y: Chain): Chain {
    Chain(Add(x.a, y.a), Add(x.b, y.b), Add(x.c, y.c), Add(x.d, y.d), Add(x.e, y.e))
  }

  function Compress(h: Chain, block: seq<Byte>): Chain
    requires |block| == 64
  {
    Sum(h, Rounds(block, h, 80))
  }

  /** All the blocks of a message whose length is a multiple of 64, in order. */
  function Absorb(h: Chain, m: seq<Byte>): Chain
    requires |m| % 64 == 0
  {
    if |m| == 0 then h else Compress(Absorb(h, m[..|m| - 64]), m[|m| - 64..])
  }

  // ----- padding (section 4) -----

  function Zeros(n: nat): seq<Byte> { seq(n, _ => 0) }

  /** The bit length as two words, high word first. */
  function Big64(n: int): (s: seq<Byte>)
    ensures |s| == 8
  {
    Big32(n / TWO32) + Big32(n % TWO32)
  }

  function ZeroCount(n: nat): (k: nat)
    ensures (n + (1 + k + 8)) % 64 == 0 && k < 64
  {
    if n % 64 <= 55 then 55 - n % 64 else 119 - n % 64
  }

  /** A one bit, the fewest zeros that make room, and the bit length of n bytes. */
  function Padding(n: nat): (s: seq<Byte>)
    ensures (n + |s|) % 64 == 0
  {
    var s := [0x80] + Zeros(ZeroCount(n)) + Big64(8 * n);
    assert |s| == 1 + ZeroCount(n) + 8;
    s
  }

  function Pad(m: seq<Byte>): (s: seq<Byte>)
    ensures |s| % 64 == 0
  {
    m + Padding(|m|)
  }

  function WordAt(h: Chain, k: nat): Word {
    if k == 0 then h.a else if k == 1 then h.b else if k == 2 then h.c else if k == 3 then h.d else h.e
  }

  /** The five words, most significant byte first. */
  function Digest(h: Chain): (s: seq<Byte>)
    ensures |s| == 20
  {
    seq(20, i requires 0 <= i < 20 => ByteOf(WordAt(h, i / 4), i % 4))
  }

  function Sha1(m: seq<Byte>): seq<Byte> { Digest(Absorb(INITIAL, Pad(m))) }

  // ----- facts about the specification -----

  lemma AbsorbBlock(h: Chain, m: seq<Byte>, block: seq<Byte>)
    requires |m| % 64 == 0 && |block| == 64
    ensures (|m| + 64) % 64 == 0 && Absorb(h, m + block) == Compress(Absorb(h, m), block)
  {
    hide Compress;
    assert (m + block)[..|m|] == m && (m + block)[|m|..] == block;
  }

  /** The padding takes one block beyond the complete ones, or two when fewer than nine bytes are free. */
  lemma PadBlocks(m: seq<Byte>)
    ensures |Pad(m)| == |m| - |m| % 64 + if |m| % 64 > 55 then 128 else 64
  {
  }

  /** Two messages of less than 2^64 bits with the same padding are the same. */
  lemma PadInjective(m: seq<Byte>, n: seq<Byte>)
    requires 8 * |m| < TWO64 && 8 * |n| < TWO64 && Pad(m) == Pad(n)
    ensures m == n
  {
    hide Big32;
    var p := Pad(m);
    var k := |p|;
    assert p[k - 8..] == Big64(8 * |m|) && Pad(n)[k - 8..] == Big64(8 * |n|);
    Big64Injective(8 * |m|, 8 * |n|);
    assert p[..|m|] == m && Pad(n)[..|n|] == n;
  }

  lemma Big64Injective(x: int, y: int)
    requires 0 <= x < TWO64 && 0 <= y < TWO64 && Big64(x) == Big64(y)
    ensures x == y
  {
    hide Big32;
    var s, t := Big64(x), Big64(y);
    assert s[..4] == Big32(x / TWO32) && t[..4] == Big32(y / TWO32);
    assert s[4..] == Big32(x % TWO32) && t[4..] == Big32(y % TWO32);
    Big32Value(x / TWO32);
    Big32Value(y / TWO32);
    Big32Value(x % TWO32);
    Big32Value(y % TWO32);
  }
}
