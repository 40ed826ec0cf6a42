/** A published digest, that of "abc" (RFC 3174, section 7.3), word by word and round by round. */
module Sha1Vector {
  import opened Bytes
  import opened Sha1Spec

  const ABC: seq<Byte> := [0x61, 0x62, 0x63]

  /** The words of its message schedule, sixteen at a time. */
  function WordIn(t: nat): Word {
    if t < 16 then (if t == 0 then 0x61626380 else if t == 15 then 24 else 0) else if t < 32 then WordTo32(t)
    else if t < 48 then WordTo48(t) else if t < 64 then WordTo64(t) else WordTo80(t)
  }

  function WordTo32(t: nat): Word {
    if t == 16 then 0xC2C4C700 else if t == 17 then 0x00000000 else if t == 18 then 0x00000030 else
    if t == 19 then 0x85898E01 else if t == 20 then 0x00000000 else if t == 21 then 0x00000060 else
    if t == 22 then 0x0B131C03 else if t == 23 then 0x00000030 else if t == 24 then 0x85898EC1 else
    if t == 25 then 0x16263806 else if t == 26 then 0x00000000 else if t == 27 then 0x00000180 else
    if t == 28 then 0x2C4C700C else if t == 29 then 0x000000F0 else if t == 30 then 0x93AFB507 else
    0x5898E048
  }

  function WordTo48(t: nat): Word {
    if t == 32 then 0x8E9A9202 else if t == 33 then 0x00000600 else if t == 34 then 0xB131C0F0 else
    if t == 35 then 0x16263BC6 else if t == 36 then 0x4EBED41E else if t == 37 then 0x626380A1 else
    if t == 38 then 0x16263806 else if t == 39 then 0x000018C0 else if t == 40 then 0xD2E138C4 else
    if t == 41 then 0x00000F00 else if t == 42 then 0x3AFB5079 else if t == 43 then 0x898E04E5 else
    if t == 44 then 0xE2BA3C2B else if t == 45 then 0x000060C0 else if t == 46 then 0x053A37CD else
    0x74458547
  }

  function WordTo64(t: nat): Word {
    if t == 48 then 0xDA9415ED else if t == 49 then 0x26380A16 else if t == 50 then 0x626383A1 else
    if t == 51 then 0x4EBF54DE else if t == 52 then 0x3835B44B else if t == 53 then 0x0000F600 else
    if t == 54 then 0x1E84C7A3 else if t == 55 then 0x98E04D98 else if t == 56 then 0x651D16A0 else
    if t == 57 then 0x62658CA1 else if t == 58 then 0x458544D6 else if t == 59 then 0x44584CB7 else
    if t == 60 then 0x7BA06619 else if t == 61 then 0x6380AEA2 else if t == 62 then 0x0AE55269 else
    0x627B49A1
  }

  function WordTo80(t: nat): Word {
    if t == 64 then 0x7CD45C9D else if t == 65 then 0x000F0000 else if t == 66 then 0xFB50753A else
    if t == 67 then 0xEC6765E8 else if t == 68 then 0xBA3C2BE2 else if t == 69 then 0x0060C000 else
    if t == 70 then 0x3A37CD05 else if t == 71 then 0x458546F4 else if t == 72 then 0xB8599DD6 else
    if t == 73 then 0x380A1A26 else if t == 74 then 0x01E02203 else if t == 75 then 0xE7CC3456 else
    if t == 76 then 0xE6E60B69 else if t == 77 then 0x00F60A00 else if t == 78 then 0x5795EF4F else
    0x822E0879
  }

  /** The first word of the chain after t - 4 rounds. */
  function First(t: nat): Word {
    if t == 0 then 0x0F4B87C3 else if t == 1 then 0x40C951D8 else if t == 2 then 0x62EB73FA else
    if t == 3 then 0xEFCDAB89 else if t == 4 then 0x67452301 else if t == 5 then 0x0116FC33 else
    if t == 6 then 0x8990536D else if t == 7 then 0xA1390F08 else if t == 8 then 0xCDD8E11B else
    if t == 9 then 0xCFD499DE else if t == 10 then 0x3FC7CA40 else if t == 11 then 0x993E30C1 else
    if t == 12 then 0x9E8C07D4 else if t == 13 then 0x4B6AE328 else if t == 14 then 0x8351F929 else
    if t == 15 then 0xFBDA9E89 else if t == 16 then 0x63188FE4 else if t == 17 then 0x4607B664 else
    if t == 18 then 0x9128F695 else if t == 19 then 0x196BEE77 else if t == 20 then 0x20BDD62F else
    if t == 21 then 0x4E925823 else if t == 22 then 0x82AA6728 else if t == 23 then 0xDC64901D else
    if t == 24 then 0xFD9E1D7D else if t == 25 then 0x1A37B0CA else if t == 26 then 0x33A23BFC else
    if t == 27 then 0x21283486 else if t == 28 then 0xD541F12D else if t == 29 then 0xC7567DC6 else
    if t == 30 then 0x48413BA4 else if t == 31 then 0xBE35FBD5 else if t == 32 then 0x4AA84D97 else
    if t == 33 then 0x8370B52E else if t == 34 then 0xC5FBAF5D else if t == 35 then 0x1267B407 else
    if t == 36 then 0x3B845D33 else if t == 37 then 0x046FAA0A else if t == 38 then 0x2C0EBC11 else
    if t == 39 then 0x21796AD4 else if t == 40 then 0xDCBBB0CB else if t == 41 then 0x0F511FD8 else
    if t == 42 then 0xDC63973F else if t == 43 then 0x4C986405 else if t == 44 then 0x32DE1CBA else
    if t == 45 then 0xFC87DEDF else if t == 46 then 0x970A0D5C else if t == 47 then 0x7F193DC5 else
    if t == 48 then 0xEE1B1AAF else if t == 49 then 0x40F28E09 else if t == 50 then 0x1C51E1F2 else
    if t == 51 then 0xA01B846C else if t == 52 then 0xBEAD02CA else if t == 53 then 0xBAF39337 else
    if t == 54 then 0x120731C5 else if t == 55 then 0x641DB2CE else if t == 56 then 0x3847AD66 else
    if t == 57 then 0xE490436D else if t == 58 then 0x27E9F1D8 else if t == 59 then 0x7B71F76D else
    if t == 60 then 0x5E6456AF else if t == 61 then 0xC846093F else if t == 62 then 0xD262FF50 else
    if t == 63 then 0x09D785FD else if t == 64 then 0x3F52DE5A else if t == 65 then 0xD756C147 else
    if t == 66 then 0x548C9CB2 else if t == 67 then 0xB66C020B else if t == 68 then 0x6B61C9E1 else
    if t == 69 then 0x19DFA7AC else if t == 70 then 0x101655F9 else if t == 71 then 0x0C3DF2B4 else
    if t == 72 then 0x78DD4D2B else if t == 73 then 0x497093C0 else if t == 74 then 0x3F2588C2 else
    if t == 75 then 0xC199F8C7 else if t == 76 then 0x39859DE7 else if t == 77 then 0xEDB42DE4 else
    if t == 78 then 0x11793F6F else if t == 79 then 0x5EE76897 else if t == 80 then 0x63F7DAB7 else
    if t == 81 then 0xA079B7D9 else if t == 82 then 0x860D21CC else if t == 83 then 0x5738D5E1 else
    0x42541B35
  }

  /** The chain after t rounds. */
  function State(t: nat): Chain {
    Chain(First(t + 4), First(t + 3), Rotate(30, First(t + 2)), Rotate(30, First(t + 1)), Rotate(30, First(t)))
  }

  /** The only block. */
  lemma AbcBlock(i: nat)
    requires i < 64
    ensures |Pad(ABC)| == 64
    ensures Pad(ABC)[i] == if i == 0 then 0x61 else if i == 1 then 0x62 else if i == 2 then 0x63
                           else if i == 3 then 0x80 else if i == 63 then 24 else 0
  {
  }

  // ----- the schedule

  ghost predicate Scheduled(t: nat) { |Pad(ABC)| == 64 && Schedule(Pad(ABC), t) == WordIn(t) }

  lemma FirstWord(t: nat)
    requires t < 16
    ensures Scheduled(t)
  {
    hide Pad;
    AbcBlock(4 * t);
    AbcBlock(4 * t + 1);
    AbcBlock(4 * t + 2);
    AbcBlock(4 * t + 3);
  }

  lemma NextWord(t: nat)
    requires 16 <= t && Scheduled(t - 3) && Scheduled(t - 8) && Scheduled(t - 14) && Scheduled(t - 16)
    requires WordIn(t) == Rotate(1, WordIn(t - 3) ^ WordIn(t - 8) ^ WordIn(t - 14) ^ WordIn(t - 16))
    ensures Scheduled(t)
  {
    hide Pad, WordIn, Rotate;
  }

  lemma Words0()
    ensures Scheduled(0) && Scheduled(1) && Scheduled(2) && Scheduled(3) && Scheduled(4)
            && Scheduled(5) && Scheduled(6) && Scheduled(7) && Scheduled(8) && Scheduled(9)
            && Scheduled(10) && Scheduled(11) && Scheduled(12) && Scheduled(13) && Scheduled(14)
            && Scheduled(15)
  {
    hide Scheduled;
    forall t: nat | t < 16
      ensures Scheduled(t)
    {
      FirstWord(t);
    }
  }

  lemma Words2()
    ensures Scheduled(16) && Scheduled(17) && Scheduled(18) && Scheduled(19) && Scheduled(20)
            && Scheduled(21) && Scheduled(22) && Scheduled(23)
  {
    hide Scheduled;
    Words0();
    NextWord(16); NextWord(17); NextWord(18); NextWord(19); NextWord(20); NextWord(21); NextWord(22); NextWord(23);
  }

  lemma Words3()
    ensures Scheduled(24) && Scheduled(25) && Scheduled(26) && Scheduled(27) && Scheduled(28)
            && Scheduled(29) && Scheduled(30) && Scheduled(31)
  {
    hide Scheduled;
    Words0();
    Words2();
    NextWord(24); NextWord(25); NextWord(26); NextWord(27); NextWord(28); NextWord(29); NextWord(30); NextWord(31);
  }

  lemma Words4()
    ensures Scheduled(32) && Scheduled(33) && Scheduled(34) && Scheduled(35) && Scheduled(36)
            && Scheduled(37) && Scheduled(38) && Scheduled(39)
  {
    hide Scheduled;
    Words2();
    Words3();
    NextWord(32); NextWord(33); NextWord(34); NextWord(35); NextWord(36); NextWord(37); NextWord(38); NextWord(39);
  }

  lemma HalfWords5()
    ensures Scheduled(40) && Scheduled(41) && Scheduled(42) && Scheduled(43)
  {
    hide Scheduled;
    Words3();
    Words4();
    NextWord(40); NextWord(41); NextWord(42); NextWord(43);
  }

  lemma Words5()
    ensures Scheduled(40) && Scheduled(41) && Scheduled(42) && Scheduled(43) && Scheduled(44)
            && Scheduled(45) && Scheduled(46) && Scheduled(47)
  {
    hide Scheduled;
    HalfWords5();
    Words3();
    Words4();
    NextWord(44); NextWord(45); NextWord(46); NextWord(47);
  }

  lemma Words6()
    ensures Scheduled(48) && Scheduled(49) && Scheduled(50) && Scheduled(51) && Scheduled(52)
            && Scheduled(53) && Scheduled(54) && Scheduled(55)
  {
    hide Scheduled;
    Words4();
    Words5();
    NextWord(48); NextWord(49); NextWord(50); NextWord(51); NextWord(52); NextWord(53); NextWord(54); NextWord(55);
  }

  lemma Words7()
    ensures Scheduled(56) && Scheduled(57) && Scheduled(58) && Scheduled(59) && Scheduled(60)
            && Scheduled(61) && Scheduled(62) && Scheduled(63)
  {
    hide Scheduled;
    Words5();
    Words6();
    NextWord(56); NextWord(57); NextWord(58); NextWord(59); NextWord(60); NextWord(61); NextWord(62); NextWord(63);
  }

  lemma Words8()
    ensures Scheduled(64) && Scheduled(65) && Scheduled(66) && Scheduled(67) && Scheduled(68)
            && Scheduled(69) && Scheduled(70) && Scheduled(71)
  {
    hide Scheduled;
    Words6();
    Words7();
    NextWord(64); NextWord(65); NextWord(66); NextWord(67); NextWord(68); NextWord(69); NextWord(70); NextWord(71);
  }

  lemma Words9()
    ensures Scheduled(72) && Scheduled(73) && Scheduled(74) && Scheduled(75) && Scheduled(76)
            && Scheduled(77) && Scheduled(78) && Scheduled(79)
  {
    hide Scheduled;
    Words7();
    Words8();
    NextWord(72); NextWord(73); NextWord(74); NextWord(75); NextWord(76); NextWord(77); NextWord(78); NextWord(79);
  }

  // ----- the rounds

  ghost predicate Reached(t: nat) { |Pad(ABC)| == 64 && Rounds(Pad(ABC), INITIAL, t) == State(t) }

  lemma NextRound(t: nat)
    requires Reached(t) && Scheduled(t)
    requires Sum5(Rotate(5, First(t + 4)), Mixed(t, First(t + 3), Rotate(30, First(t + 2)), Rotate(30, First(t + 1))),
                  Rotate(30, First(t)), WordIn(t), K(t)) == First(t + 5)
    ensures Reached(t + 1)
  {
    hide Pad, WordIn, First, Rotate, Sum5, Mixed, K, Schedule;
  }

  lemma Rounds0()
    ensures Reached(8)
  {
    hide Scheduled, Reached;
    Start();
    Words0();
    NextRound(0); NextRound(1); NextRound(2); NextRound(3); NextRound(4); NextRound(5);
    NextRound(6); NextRound(7);
  }

  lemma Rounds1()
    ensures Reached(16)
  {
    hide Scheduled, Reached;
    Rounds0();
    Words0();
    NextRound(8); NextRound(9); NextRound(10); NextRound(11); NextRound(12); NextRound(13);
    NextRound(14); NextRound(15);
  }

  lemma Rounds2()
    ensures Reached(24)
  {
    hide Scheduled, Reached;
    Rounds1();
    Words2();
    NextRound(16); NextRound(17); NextRound(18); NextRound(19); NextRound(20); NextRound(21);
    NextRound(22); NextRound(23);
  }

  lemma Rounds3()
    ensures Reached(32)
  {
    hide Scheduled, Reached;
    Rounds2();
    Words3();
    NextRound(24); NextRound(25); NextRound(26); NextRound(27); NextRound(28); NextRound(29);
    NextRound(30); NextRound(31);
  }

  lemma Rounds4()
    ensures Reached(40)
  {
    hide Scheduled, Reached;
    Rounds3();
    Words4();
    NextRound(32); NextRound(33); NextRound(34); NextRound(35); NextRound(36); NextRound(37);
    NextRound(38); NextRound(39);
  }

  lemma Rounds5()
    ensures Reached(48)
  {
    hide Scheduled, Reached;
    Rounds4();
    Words5();
    NextRound(40); NextRound(41); NextRound(42); NextRound(43); NextRound(44); NextRound(45);
    NextRound(46); NextRound(47);
  }

  lemma Rounds6()
    ensures Reached(56)
  {
    hide Scheduled, Reached;
    Rounds5();
    Words6();
    NextRound(48); NextRound(49); NextRound(50); NextRound(51); NextRound(52); NextRound(53);
    NextRound(54); NextRound(55);
  }

  lemma Rounds7()
    ensures Reached(64)
  {
    hide Scheduled, Reached;
    Rounds6();
    Words7();
    NextRound(56); NextRound(57); NextRound(58); NextRound(59); NextRound(60); NextRound(61);
    NextRound(62); NextRound(63);
  }

  lemma Rounds8()
    ensures Reached(72)
  {
    hide Scheduled, Reached;
    Rounds7();
    Words8();
    NextRound(64); NextRound(65); NextRound(66); NextRound(67); NextRound(68); NextRound(69);
    NextRound(70); NextRound(71);
  }

  lemma Rounds9()
    ensures Reached(80)
  {
    hide Scheduled, Reached;
    Rounds8();
    Words9();
    NextRound(72); NextRound(73); NextRound(74); NextRound(75); NextRound(76); NextRound(77);
    NextRound(78); NextRound(79);
  }

  lemma Start()
    ensures Reached(0)
  {
    AbcBlock(0);
  }

  lemma LastFirsts()
    ensures First(80) == 0x63F7DAB7
            && First(81) == 0xA079B7D9
            && First(82) == 0x860D21CC
  {
  }

  lemma LastTwo()
    ensures First(83) == 0x5738D5E1 && First(84) == 0x42541B35
  {
  }

  lemma LastState()
    ensures State(80) == Chain(0x42541B35, 0x5738D5E1, 0x21834873, 0x681E6DF6, 0xD8FDF6AD)
  {
    hide First;
    LastFirsts();
    LastTwo();
  }

  lemma LastSum()
    ensures Sum(INITIAL, State(80)) == AbcChain()
  {
    hide State;
    LastState();
  }

  /** The published words. */
  function AbcChain(): Chain { Chain(0xA9993E36, 0x4706816A, 0xBA3E2571, 0x7850C26C, 0x9CD0D89D) }

  lemma AbcWords()
    ensures Absorb(INITIAL, Pad(ABC)) == AbcChain()
  {
    hide Pad, Schedule, Rounds, First, Sum, AbcChain;
    Rounds9();
    LastSum();
    var block := Pad(ABC);
    assert block[..|block| - 64] == [] && block[|block| - 64..] == block;
    assert Rounds(block, INITIAL, 80) == State(80);
  }

  lemma Bytes0()
    ensures ByteOf(0xA9993E36, 0) == 0xA9 && ByteOf(0xA9993E36, 1) == 0x99
            && ByteOf(0xA9993E36, 2) == 0x3E && ByteOf(0xA9993E36, 3) == 0x36
  {
  }

  lemma Bytes1()
    ensures ByteOf(0x4706816A, 0) == 0x47 && ByteOf(0x4706816A, 1) == 0x06
            && ByteOf(0x4706816A, 2) == 0x81 && ByteOf(0x4706816A, 3) == 0x6A
  {
  }

  lemma Bytes2()
    ensures ByteOf(0xBA3E2571, 0) == 0xBA && ByteOf(0xBA3E2571, 1) == 0x3E
            && ByteOf(0xBA3E2571, 2) == 0x25 && ByteOf(0xBA3E2571, 3) == 0x71
  {
  }

  lemma Bytes3()
    ensures ByteOf(0x7850C26C, 0) == 0x78 && ByteOf(0x7850C26C, 1) == 0x50
            && ByteOf(0x7850C26C, 2) == 0xC2 && ByteOf(0x7850C26C, 3) == 0x6C
  {
  }

  lemma Bytes4()
    ensures ByteOf(0x9CD0D89D, 0) == 0x9C && ByteOf(0x9CD0D89D, 1) == 0xD0
            && ByteOf(0x9CD0D89D, 2) == 0xD8 && ByteOf(0x9CD0D89D, 3) == 0x9D
  {
  }

  /** The bytes of the digest. */
  lemma AbcDigest()
    ensures Sha1(ABC) == [0xA9, 0x99, 0x3E, 0x36, 0x47, 0x06, 0x81, 0x6A, 0xBA, 0x3E,
                          0x25, 0x71, 0x78, 0x50, 0xC2, 0x6C, 0x9C, 0xD0, 0xD8, 0x9D]
  {
    hide Absorb, Pad, ByteOf;
    AbcWords();
    Bytes0();
    Bytes1();
    Bytes2();
    Bytes3();
    Bytes4();
  }
}
