/** The streaming SHA-1 context: a block buffer, a two-word bit count and two
    flags, updated in place by every call. */
module Sha1Context {
  import opened Bytes
  import opened Sha1Spec

  const SHA_SUCCESS := 0
  const SHA_STATE_ERROR := 3
  const TOO_LONG := 1

  /** What the caller may rely on between two calls. */
  datatype Phase =
    | Open(message: seq<Byte>)
    | Done(message: seq<Byte>)
    | Poisoned(code: int)

  /** The phase after an Input. */
  function AfterInput(p: Phase, chunk: seq<Byte>): Phase {
    if chunk == [] then p
    else match p
      case Open(m) => if 8 * (|m| + |chunk|) < TWO64 then Open(m + chunk) else Poisoned(TOO_LONG)
      case Done(_) => Poisoned(SHA_STATE_ERROR)
      case Poisoned(code) => p
  }

  function InputCode(p: Phase, chunk: seq<Byte>): int {
    if chunk == [] || p.Open? then SHA_SUCCESS else if p.Done? then SHA_STATE_ERROR else p.code
  }

  function AfterResult(p: Phase): Phase { if p.Open? then Done(p.message) else p }

  class Context {
    const hash: array<Word>
    const block: array<Byte>
    var lengthLow: int
    var lengthHigh: int
    var index: int
    var computed: bool
    var corrupted: int
    ghost var phase: Phase

    ghost function Hash(): Chain
      reads hash
      requires hash.Length == 5
    {
      Chain(hash[0], hash[1], hash[2], hash[3], hash[4])
    }

    /** The bytes m are in: complete blocks in the hash, the rest at the front of the buffer, the count in bits. */
    ghost predicate Holds(m: seq<Byte>)
      reads this, hash, block
      requires hash.Length == 5 && block.Length == 64
    {
      && Filled(m) && index < 64
      && 0 <= lengthLow < TWO32 && 0 <= lengthHigh < TWO32
      && lengthHigh * TWO32 + lengthLow == 8 * |m|
    }

    /** The full blocks of `m` are in the hash and the rest in the block, which may be full. */
    ghost predicate Filled(m: seq<Byte>)
      reads `index, hash, block
      requires hash.Length == 5 && block.Length == 64
    {
      && 0 <= index <= |m| && (|m| - index) % 64 == 0 && index <= 64
      && block[..index] == m[|m| - index..]
      && Hash() == Absorb(INITIAL, m[..|m| - index])
    }

    ghost predicate Valid()
      reads this, hash, block
    {
      && hash.Length == 5 && block.Length == 64
      && match phase
         case Open(m) => !computed && corrupted == 0 && Holds(m)
         case Done(m) => computed && corrupted == 0 && 8 * |m| < TWO64 && Hash() == Absorb(INITIAL, Pad(m))
         case Poisoned(code) => corrupted == code != 0 && (computed ==> code == SHA_STATE_ERROR)
    }

    constructor ()
      ensures Valid() && phase == Open([]) && fresh(hash) && fresh(block)
    {
      hash := new Word[5](i => 0);
      block := new Byte[64](i => 0);
      lengthLow, lengthHigh, index, computed, corrupted, phase := 0, 0, 0, false, 0, Open([]);
      new;
      var _ := Reset();
    }

    method Reset() returns (code: int)
      requires hash.Length == 5 && block.Length == 64
      modifies this, hash
      ensures Valid() && phase == Open([]) && code == SHA_SUCCESS
    {
      lengthLow, lengthHigh, index := 0, 0, 0;
      hash[0], hash[1], hash[2], hash[3], hash[4] := 0x67452301, 0xEFCDAB89, 0x98BADCFE, 0x10325476, 0xC3D2E1F0;
      computed, corrupted, phase := false, 0, Open([]);
      code := SHA_SUCCESS;
    }

    /** The first half of SHA1ProcessMessageBlock: the word sequence W. */
    method Expand() returns (w: array<Word>)
      requires block.Length == 64
      ensures fresh(w) && w.Length == 80 && forall j | 0 <= j < 80 :: w[j] == Schedule(block[..], j)
    {
      hide Rotate, WordOf, Schedule;
      w := new Word[80];
      ghost var bytes := block[..];
      var t := 0;
      while t < 16
        invariant 0 <= t <= 16
        invariant forall j | 0 <= j < t :: w[j] == Schedule(bytes, j)
      {
        ScheduleStep(bytes, t);
        w[t] := WordOf(block[t * 4], block[t * 4 + 1], block[t * 4 + 2], block[t * 4 + 3]);
        t := t + 1;
      }
      while t < 80
        invariant 16 <= t <= 80
        invariant forall j | 0 <= j < t :: w[j] == Schedule(bytes, j)
      {
        ScheduleStep(bytes, t);
        w[t] := Rotate(1, w[t - 3] ^ w[t - 8] ^ w[t - 14] ^ w[t - 16]);
        t := t + 1;
      }
    }

    /** SHA1ProcessMessageBlock: the buffer goes into the hash. */
    method ProcessBlock()
      requires hash.Length == 5 && block.Length == 64
      modifies this`index, hash
      ensures Hash() == Compress(old(Hash()), block[..]) && index == 0
    {
      hide Rotate, Schedule, Rounds, Sum5, Add, Choose, Parity, Majority, K;
      var w := Expand();
      ghost var bytes, words := block[..], w[..];
      ghost var h := Hash();
      var a, b, c, d, e := hash[0], hash[1], hash[2], hash[3], hash[4];
      RoundsZero(bytes, h);
      var t := 0;
      while t < 20
        invariant 0 <= t <= 20 && w[..] == words && Hash() == h
        invariant Chain(a, b, c, d, e) == Rounds(bytes, h, t)
      {
        RoundStep(bytes, h, t, a, b, c, d, e);
        assert w[t] == words[t];
        var temp := Sum5(Rotate(5, a), Choose(b, c, d), e, w[t], 0x5A827999);
        a, b, c, d, e := temp, a, Rotate(30, b), c, d;
        t := t + 1;
      }
      while t < 40
        invariant 20 <= t <= 40 && w[..] == words && Hash() == h
        invariant Chain(a, b, c, d, e) == Rounds(bytes, h, t)
      {
        RoundStep(bytes, h, t, a, b, c, d, e);
        assert w[t] == words[t];
        var temp := Sum5(Rotate(5, a), Parity(b, c, d), e, w[t], 0x6ED9EBA1);
        a, b, c, d, e := temp, a, Rotate(30, b), c, d;
        t := t + 1;
      }
      while t < 60
        invariant 40 <= t <= 60 && w[..] == words && Hash() == h
        invariant Chain(a, b, c, d, e) == Rounds(bytes, h, t)
      {
        RoundStep(bytes, h, t, a, b, c, d, e);
        assert w[t] == words[t];
        var temp := Sum5(Rotate(5, a), Majority(b, c, d), e, w[t], 0x8F1BBCDC);
        a, b, c, d, e := temp, a, Rotate(30, b), c, d;
        t := t + 1;
      }
      while t < 80
        invariant 60 <= t <= 80 && w[..] == words && Hash() == h
        invariant Chain(a, b, c, d, e) == Rounds(bytes, h, t)
      {
        RoundStep(bytes, h, t, a, b, c, d, e);
        assert w[t] == words[t];
        var temp := Sum5(Rotate(5, a), Parity(b, c, d), e, w[t], 0xCA62C1D6);
        a, b, c, d, e := temp, a, Rotate(30, b), c, d;
        t := t + 1;
      }
      hash[0] := Add(hash[0], a);
      hash[1] := Add(hash[1], b);
      hash[2] := Add(hash[2], c);
      hash[3] := Add(hash[3], d);
      hash[4] := Add(hash[4], e);
      index := 0;
    }

    /** Stores zero bytes from `index` up to `upTo`. */
    method Fill(upTo: int)
      requires block.Length == 64 && 0 <= index <= upTo <= 64
      modifies this`index, block
      ensures index == upTo && block[..upTo] == old(block[..index]) + Zeros(upTo - old(index))
    {
      ghost var before, from := block[..index], index;
      while index < upTo
        invariant from <= index <= upTo && block[..index] == before + Zeros(index - from)
      {
        block[index] := 0;
        index := index + 1;
      }
    }

    /** SHA1PadMessage: one or two more blocks, and the hash is that of the padded message. */
    method PadMessage(ghost m: seq<Byte>)
      requires hash.Length == 5 && block.Length == 64 && Holds(m)
      modifies this`index, hash, block
      ensures Hash() == Absorb(INITIAL, Pad(m))
    {
      hide Compress, Absorb, Pad, Big32;
      ghost var i, full := index, m[..|m| - index];
      ghost var tail := m[|m| - i..];
      ghost var h := Hash();
      TailPadding(m, i);
      if index > 55 {
        block[index] := 0x80;
        index := index + 1;
        Fill(64);
        ghost var first := block[..];
        assert first == tail + [0x80] + Zeros(63 - i);
        ProcessBlock();
        Fill(56);
        assert block[..56] == Zeros(56);
      } else {
        block[index] := 0x80;
        index := index + 1;
        Fill(56);
        assert block[..56] == tail + [0x80] + Zeros(55 - i);
      }
      ghost var front := block[..56];
      WriteLength(|m|);
      assert block[..] == front + Big64(8 * |m|);
      ProcessBlock();
    }

    /** The bit count as the last eight bytes of the buffer, high word first. */
    method WriteLength(ghost n: nat)
      requires block.Length == 64 && 0 <= lengthLow < TWO32 && lengthHigh * TWO32 + lengthLow == 8 * n
      modifies block
      ensures block[..56] == old(block[..56]) && block[56..] == Big64(8 * n)
    {
      hide Big64;
      block[56] := lengthHigh / 0x100_0000 % 0x100;
      block[57] := lengthHigh / 0x1_0000 % 0x100;
      block[58] := lengthHigh / 0x100 % 0x100;
      block[59] := lengthHigh % 0x100;
      block[60] := lengthLow / 0x100_0000 % 0x100;
      block[61] := lengthLow / 0x1_0000 % 0x100;
      block[62] := lengthLow / 0x100 % 0x100;
      block[63] := lengthLow % 0x100;
      LengthBytes(lengthHigh, lengthLow, n);
      Words(block[..], lengthHigh, lengthLow);
    }

    /** The two-word count bounds the bytes that are in. */
    lemma FewBits(m: seq<Byte>)
      requires hash.Length == 5 && block.Length == 64 && Holds(m)
      ensures 8 * |m| < TWO64
    {
    }

    method Input(chunk: seq<Byte>) returns (code: int)
      requires Valid()
      modifies this, hash, block
      ensures Valid() && phase == AfterInput(old(phase), chunk) && code == InputCode(old(phase), chunk)
    {
      hide Absorb, Compress, Pad;
      if chunk == [] { return SHA_SUCCESS; }
      if computed {
        corrupted := SHA_STATE_ERROR;
        phase := AfterInput(phase, chunk);
        return SHA_STATE_ERROR;
      }
      if corrupted != 0 { return corrupted; }
      FewBits(phase.message);
      AddBytes(phase.message, chunk);
      phase := AfterInput(phase, chunk);
      code := SHA_SUCCESS;
    }

    /** SHA1Input's loop: byte after byte, until the count overflows. */
    method AddBytes(ghost m: seq<Byte>, chunk: seq<Byte>)
      requires hash.Length == 5 && block.Length == 64 && corrupted == 0 && Holds(m) && 8 * |m| < TWO64
      modifies this`index, this`lengthLow, this`lengthHigh, this`corrupted, hash, block
      ensures if 8 * (|m| + |chunk|) < TWO64 then corrupted == 0 && Holds(m + chunk) else corrupted == TOO_LONG
    {
      hide Holds;
      var i := 0;
      assert m + chunk[..0] == m;
      while i < |chunk| && corrupted == 0
        invariant 0 <= i <= |chunk|
        invariant if 8 * (|m| + i) < TWO64 then corrupted == 0 && Holds(m + chunk[..i]) else corrupted == TOO_LONG
      {
        ghost var before := m + chunk[..i];
        AddByte(before, chunk[i]);
        i := i + 1;
        assert before + [chunk[i - 1]] == m + chunk[..i];
      }
      assert chunk[..|chunk|] == chunk;
    }

    /** Eight more bits in the two-word count; a count back at zero is too long. */
    method CountByte(ghost n: nat)
      requires corrupted == 0 && 0 <= lengthLow < TWO32 && 0 <= lengthHigh < TWO32
      requires lengthHigh * TWO32 + lengthLow == 8 * n
      modifies this`lengthLow, this`lengthHigh, this`corrupted
      ensures if 8 * (n + 1) < TWO64 then
                && corrupted == 0 && 0 <= lengthLow < TWO32 && 0 <= lengthHigh < TWO32
                && lengthHigh * TWO32 + lengthLow == 8 * (n + 1)
              else corrupted == TOO_LONG
    {
      lengthLow := (lengthLow + 8) % TWO32;
      if lengthLow == 0 {
        lengthHigh := (lengthHigh + 1) % TWO32;
        if lengthHigh == 0 { corrupted := TOO_LONG; }
      }
    }

    method StoreByte(ghost m: seq<Byte>, b: Byte)
      requires hash.Length == 5 && block.Length == 64 && Filled(m) && index < 64
      modifies this`index, block
      ensures Filled(m + [b]) && index == old(index) + 1
    {
      hide Compress, Absorb;
      ghost var i, m' := index, m + [b];
      block[index] := b;
      index := index + 1;
      assert m'[..|m'| - (i + 1)] == m[..|m| - i];
      assert block[..index] == m'[|m'| - index..];
    }

    method Flush(ghost m: seq<Byte>)
      requires hash.Length == 5 && block.Length == 64 && Filled(m) && index == 64
      modifies this`index, hash
      ensures Filled(m) && index == 0
    {
      hide Compress, Absorb;
      ghost var full := m[..|m| - 64];
      AbsorbBlock(INITIAL, full, block[..]);
      assert full + block[..] == m;
      ProcessBlock();
      assert m[..|m|] == m;
    }

    /** The body of SHA1Input's loop: one byte into the buffer, eight onto the count, a full buffer into the hash. */
    method AddByte(ghost m: seq<Byte>, b: Byte)
      requires hash.Length == 5 && block.Length == 64 && corrupted == 0 && Holds(m)
      modifies this`index, this`lengthLow, this`lengthHigh, this`corrupted, hash, block
      ensures if 8 * (|m| + 1) < TWO64 then corrupted == 0 && Holds(m + [b]) else corrupted == TOO_LONG
    {
      hide Filled;
      StoreByte(m, b);
      CountByte(|m|);
      if index == 64 {
        Flush(m + [b]);
      }
    }

    method ClearBlock()
      requires block.Length == 64
      modifies block
    {
      var i := 0;
      while i < 64
        invariant 0 <= i <= 64
      {
        block[i] := 0;
        i := i + 1;
      }
    }

    method WriteDigest(out: array<Byte>, off: nat)
      requires hash.Length == 5 && off + 20 <= out.Length
      modifies out
      ensures out[..off] == old(out[..off]) && out[off + 20..] == old(out[off + 20..])
      ensures out[off..off + 20] == Digest(Hash())
    {
      hide ByteOf;
      ghost var before := out[..];
      var i := 0;
      while i < 20
        invariant 0 <= i <= 20
        invariant forall k | 0 <= k < out.Length ::
          out[k] == if off <= k < off + i then Digest(Hash())[k - off] else before[k]
      {
        out[off + i] := ByteOf(hash[i / 4], i % 4);
        i := i + 1;
      }
    }

    /** SHA1Result: pads on the first call; the digest goes to `out` from `off` on. */
    method Result(out: array<Byte>, off: nat) returns (code: int)
      requires Valid() && off + 20 <= out.Length && out != block
      modifies this, hash, block, out
      ensures Valid() && phase == AfterResult(old(phase))
      ensures code == if old(phase).Poisoned? then old(phase).code else SHA_SUCCESS
      ensures out[..off] == old(out[..off]) && out[off + 20..] == old(out[off + 20..])
      ensures out[off..off + 20] == if old(phase).Poisoned? then old(out[off..off + 20]) else Sha1(old(phase).message)
    {
      hide Absorb, Compress, Pad, Digest;
      if corrupted != 0 { return corrupted; }
      if !computed {
        PadMessage(phase.message);
        ClearBlock();
        lengthLow, lengthHigh, computed := 0, 0, true;
        phase := Done(phase.message);
      }
      WriteDigest(out, off);
      code := SHA_SUCCESS;
    }
  }

  // ----- the arithmetic of padding -----

  /** The last one or two blocks of the padded message, for i bytes beyond the complete blocks. */
  lemma TailPadding(m: seq<Byte>, i: nat)
    requires i <= |m| && (|m| - i) % 64 == 0 && i < 64
    ensures var full, tail, len := m[..|m| - i], m[|m| - i..], Big64(8 * |m|);
            && |full| % 64 == 0
            && (i <= 55 ==>
                  Absorb(INITIAL, Pad(m)) == Compress(Absorb(INITIAL, full), tail + [0x80] + Zeros(55 - i) + len))
            && (i > 55 ==>
                  Absorb(INITIAL, Pad(m)) ==
                  Compress(Compress(Absorb(INITIAL, full), tail + [0x80] + Zeros(63 - i)), Zeros(56) + len))
  {
    hide Absorb, Compress, Big64;
    var full, tail, len := m[..|m| - i], m[|m| - i..], Big64(8 * |m|);
    assert full + tail == m && |m| % 64 == i;
    if i <= 55 {
      var last := tail + [0x80] + Zeros(55 - i) + len;
      assert Pad(m) == full + last;
      AbsorbBlock(INITIAL, full, last);
    } else {
      var first, last := tail + [0x80] + Zeros(63 - i), Zeros(56) + len;
      assert Zeros(119 - i) == Zeros(63 - i) + Zeros(56);
      assert Pad(m) == full + first + last;
      AbsorbBlock(INITIAL, full, first);
      AbsorbBlock(INITIAL, full + first, last);
    }
  }

  lemma LengthBytes(high: int, low: int, n: nat)
    requires 0 <= low < TWO32 && high * TWO32 + low == 8 * n
    ensures Big64(8 * n) == Big32(high) + Big32(low)
  {
    hide Big32;
    assert 8 * n / TWO32 == high && 8 * n % TWO32 == low;
  }

  lemma Words(s: seq<Byte>, high: int, low: int)
    requires |s| == 64
    requires s[56] == high / 0x100_0000 % 0x100 && s[57] == high / 0x1_0000 % 0x100
    requires s[58] == high / 0x100 % 0x100 && s[59] == high % 0x100
    requires s[60] == low / 0x100_0000 % 0x100 && s[61] == low / 0x1_0000 % 0x100
    requires s[62] == low / 0x100 % 0x100 && s[63] == low % 0x100
    ensures s[56..] == Big32(high) + Big32(low)
  {
  }

  lemma ScheduleStep(block: seq<Byte>, t: nat)
    requires |block| == 64
    ensures t < 16 ==> Schedule(block, t) == WordOf(block[4 * t], block[4 * t + 1], block[4 * t + 2], block[4 * t + 3])
    ensures t >= 16 ==>
              Schedule(block, t) ==
              Rotate(1, Schedule(block, t - 3) ^ Schedule(block, t - 8) ^ Schedule(block, t - 14)
                        ^ Schedule(block, t - 16))
  {
  }

  lemma RoundsZero(block: seq<Byte>, h: Chain)
    requires |block| == 64
    ensures Rounds(block, h, 0) == h
  {
  }

  /** Round t spelled out as the four loops write it. */
  lemma RoundStep(block: seq<Byte>, h: Chain, t: nat, a: Word, b: Word, c: Word, d: Word, e: Word)
    requires |block| == 64 && t < 80 && Rounds(block, h, t) == Chain(a, b, c, d, e)
    ensures var w := Schedule(block, t);
            var r := Rounds(block, h, t + 1);
            && r == Chain(r.a, a, Rotate(30, b), c, d)
            && (t < 20 ==> r.a == Sum5(Rotate(5, a), Choose(b, c, d), e, w, 0x5A827999))
            && (20 <= t < 40 ==> r.a == Sum5(Rotate(5, a), Parity(b, c, d), e, w, 0x6ED9EBA1))
            && (40 <= t < 60 ==> r.a == Sum5(Rotate(5, a), Majority(b, c, d), e, w, 0x8F1BBCDC))
            && (60 <= t ==> r.a == Sum5(Rotate(5, a), Parity(b, c, d), e, w, 0xCA62C1D6))
  {
    hide Rotate, Schedule, Sum5, Choose, Parity, Majority;
  }
}
