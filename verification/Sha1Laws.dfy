/** What the words of SHA-1 are, independently of how they are computed: RFC 3174, sections 3 to 6. */
module Sha1Laws {
  import opened Sha1Spec

  /** Choose agrees with c where b is 1 and with d where it is 0. */
  lemma ChooseLaw(b: Word, c: Word, d: Word)
    ensures b & (Choose(b, c, d) ^ c) == 0 && !b & (Choose(b, c, d) ^ d) == 0
  {
  }

  /** Majority agrees with any two arguments where they agree. */
  lemma MajorityLaw(b: Word, c: Word, d: Word)
    ensures !(b ^ c) & (Majority(b, c, d) ^ b) == 0 && !(b ^ d) & (Majority(b, c, d) ^ b) == 0
            && !(c ^ d) & (Majority(b, c, d) ^ c) == 0
  {
  }

  /** Parity agrees with d where b and c agree, and is its opposite where they differ: the sum of the bits modulo 2. */
  lemma ParityLaw(b: Word, c: Word, d: Word)
    ensures !(b ^ c) & (Parity(b, c, d) ^ d) == 0 && (b ^ c) & !(Parity(b, c, d) ^ d) == 0
  {
  }

  /** Rotation by n moves bit k to bit k + n, and the n bits that leave at the top come in at the bottom. */
  lemma RotateOne(x: Word)
    ensures Rotate(1, x) >> 1 == x & 0x7FFF_FFFF && Rotate(1, x) << 31 == x & 0x8000_0000
  {
  }

  lemma RotateFive(x: Word)
    ensures Rotate(5, x) >> 5 == x & 0x07FF_FFFF && Rotate(5, x) << 27 == x & 0xF800_0000
  {
  }

  lemma RotateThirty(x: Word)
    ensures Rotate(30, x) >> 30 == x & 3 && Rotate(30, x) << 2 == x & 0xFFFF_FFFC
  {
  }

  /** The constants are the integer parts of 2^30 times the square roots of 2, 3, 5 and 10. */
  lemma ConstantsLaw(t: nat)
    requires t < 80
    ensures var n, k := (if t < 20 then 2 else if t < 40 then 3 else if t < 60 then 5 else 10), K(t) as int;
            k * k <= n * 0x1000_0000_0000_0000 < (k + 1) * (k + 1)
  {
  }

  /** The initial words are the bytes 01 to EF up and FE to 10 down, low byte first, and C3D2E1F0. */
  lemma InitialLaw()
    ensures INITIAL.a == 0x6745_2301 && INITIAL.b == 0xEFCD_AB89 && INITIAL.c == !INITIAL.a && INITIAL.d == !INITIAL.b
            && INITIAL.e == 0xC3D2_E1F0
  {
  }
}
