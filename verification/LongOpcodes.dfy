/** The opcodes on 64-bit values, the conversions between widths and the calls of the float unit, by their numbers. */
module LongOpcodes {
  import opened Alu
  import opened Bytes
  import opened Options
  import opened Scode
  import opened Opcodes
  import F = FlatMachine

  lemma LongIs(p: Point, d: nat)
    requires Ready(p) && d <= 2
    ensures Long(Top(p, d + 1), Top(p, d)) == TopLong(p, d)
  {
    var hi, lo := Top(p, d), Top(p, d + 1);
    assert Int32(hi) == hi by { WordHere(p, d); }
    assert hi == Int32(hi);
    var q := if hi < 0 then 1 else 0;
    assert hi % TWO32 == hi + q * TWO32;
    assert (hi % TWO32) * TWO32 == hi * TWO32 + q * TWO64;
  }

  lemma WordHere(p: Point, d: nat)
    requires Ready(p) && d <= 3
    ensures Int32(Top(p, d)) == Top(p, d)
  {
    hide Int32;
  }

  lemma CutLong(v: int)
    ensures Int64(v) == Halves(Wrap64(v))
  {
    var q := (v - Wrap64(v)) / TWO64;
    assert v == Wrap64(v) + q * TWO64;
    assert v / TWO32 == Wrap64(v) / TWO32 + q * TWO32;
    assert v % TWO32 == Wrap64(v) % TWO32;
    SameRest(Wrap64(v) / TWO32, q);
    Cut(v);
    Cut(v / TWO32);
  }

  lemma LongCompares(p: Point)
    requires Ready(p)
    ensures var x, z := TopLong(p, 2), TopLong(p, 0);
            && Does(p, 77, 1, 4, Truth(x == z)) && Does(p, 78, 1, 4, Truth(x != z)) && Does(p, 79, 1, 4, Truth(x > z))
            && Does(p, 80, 1, 4, Truth(x >= z)) && Does(p, 81, 1, 4, Truth(x < z)) && Does(p, 82, 1, 4, Truth(x <= z))
  {
    hide Goes, Ready, Operand, TopLong, Long;
    InCode(p);
    Room(p);
    ArgCells(p);
    LongIs(p, 2);
    LongIs(p, 0);
    var op := U1(p, 0);
    if 77 <= op <= 82 {
      NumberDoes(p, Arithmetic(op), Truth(Compare(Arithmetic(op).cmp, TopLong(p, 2), TopLong(p, 0))));
    }
  }

  lemma LongMath(p: Point)
    requires Ready(p)
    ensures var x, z := TopLong(p, 2), TopLong(p, 0);
            && Does(p, 83, 1, 4, Int64(x * z)) && Does(p, 86, 1, 4, Int64(x + z)) && Does(p, 87, 1, 4, Int64(x - z))
    ensures var x := TopLong(p, 0); Does(p, 91, 1, 2, Int64(-1 - x)) && Does(p, 92, 1, 2, Int64(-x))
  {
    hide Goes, Ready, Operand, TopLong, Long, Int64, Halves, Wrap64;
    InCode(p);
    Room(p);
    ArgCells(p);
    LongIs(p, 2);
    LongIs(p, 0);
    var op, x, z := U1(p, 0), TopLong(p, 2), TopLong(p, 0);
    CutLong(x * z);
    CutLong(x + z);
    CutLong(x - z);
    CutLong(-z);
    NotLong(p);
    if op == 83 { NumberDoes(p, Arithmetic(83), Int64(x * z)); }
    if op == 86 { NumberDoes(p, Arithmetic(86), Int64(x + z)); }
    if op == 87 { NumberDoes(p, Arithmetic(87), Int64(x - z)); }
    if op == 91 { NumberDoes(p, Arithmetic(91), Int64(-1 - z)); }
    if op == 92 { NumberDoes(p, Arithmetic(92), Int64(-z)); }
  }

  lemma NotLong(p: Point)
    requires Ready(p)
    ensures Int64(-1 - TopLong(p, 0)) == Halves(-1 - TopLong(p, 0))
  {
    hide Int64, Halves, TopLong, Ready;
    LongIs(p, 0);
    var v := U32(Top(p, 0)) * TWO32 + U32(Top(p, 1));
    InLong(v);
    assert TopLong(p, 0) == Wrap64(v);
    Within(-1 - TopLong(p, 0));
    CutLong(-1 - TopLong(p, 0));
  }

  lemma Within(v: int)
    requires -0x8000_0000_0000_0000 <= v < 0x8000_0000_0000_0000
    ensures Wrap64(v) == v
  {
  }

  lemma LongDivision(p: Point)
    requires Ready(p)
    ensures var x, z := TopLong(p, 2), TopLong(p, 0);
            if z == 0 || (x == -0x8000_0000_0000_0000 && z == -1) then Faults(p, 84) && Faults(p, 85)
            else Does(p, 84, 1, 4, Int64(Quotient(x, z))) && Does(p, 85, 1, 4, Int64(Remainder(x, z)))
  {
    hide Goes, Ready, Operand, TopLong, Long, Int64, Halves, Wrap64, Quotient, Remainder, TruncDiv;
    InCode(p);
    Room(p);
    ArgCells(p);
    LongIs(p, 2);
    LongIs(p, 0);
    var op, x, z := U1(p, 0), TopLong(p, 2), TopLong(p, 0);
    if z == 0 || (x == -0x8000_0000_0000_0000 && z == -1) {
      if op == 84 { NumberFaults(p, Arithmetic(84)); }
      if op == 85 { NumberFaults(p, Arithmetic(85)); }
    } else {
      QuotientIs(x, z, -0x8000_0000_0000_0000);
      CutLong(Quotient(x, z));
      CutLong(Remainder(x, z));
      if op == 84 { NumberDoes(p, Arithmetic(84), Int64(Quotient(x, z))); }
      if op == 85 { NumberDoes(p, Arithmetic(85), Int64(Remainder(x, z))); }
    }
  }

  lemma ShiftDoes(p: Point, d: Shift, v: int)
    requires Ready(p) && U1(p, 0) == (if d == ShiftL then 93 else 94)
    requires Shifted(d, TopLong(p, 1), Top(p, 0), 64) == Some(v)
    ensures Goes(p, 3, Int64(v), p.r.cp + 1)
  {
    hide Goes, Ready, Operand, TopLong, Long, Int64, Halves, Wrap64, Alu.Shifted;
    InCode(p);
    Room(p);
    ArgCells(p);
    LongIs(p, 1);
    CutLong(v);
    NumberDoes(p, LongShift(d), Int64(v));
  }

  lemma ShiftFaults(p: Point, d: Shift)
    requires Ready(p) && U1(p, 0) == (if d == ShiftL then 93 else 94)
    requires Shifted(d, TopLong(p, 1), Top(p, 0), 64) == None
    ensures F.Step(ImageAt(p), p.s) == F.Fault
  {
    hide F.Step, Ready, Operand, TopLong, Long, Alu.Shifted;
    InCode(p);
    Room(p);
    ArgCells(p);
    LongIs(p, 1);
    NumberFaults(p, LongShift(d));
  }

  lemma LongShifts(p: Point)
    requires Ready(p)
    ensures var x, n := TopLong(p, 1), Top(p, 0);
            if 0 <= n < 64 then Does(p, 93, 1, 3, Int64(x * Pow2(n))) && Does(p, 94, 1, 3, Int64(x / Pow2(n)))
            else Faults(p, 93) && Faults(p, 94)
  {
    hide Goes, Ready, TopLong, Int64, Pow2, F.Step, ImageAt;
    var op, x, n := U1(p, 0), TopLong(p, 1), Top(p, 0);
    if 0 <= n < 64 {
      if op == 93 { ShiftDoes(p, ShiftL, x * Pow2(n)); }
      if op == 94 { ShiftDoes(p, ShiftR, x / Pow2(n)); }
    } else {
      if op == 93 { ShiftFaults(p, ShiftL); }
      if op == 94 { ShiftFaults(p, ShiftR); }
    }
  }

  // ----- bit by bit

  lemma CutKeepsLongBits(v: int)
    ensures forall k: nat | k < 64 :: Bit(Wrap64(v), k) == Bit(v, k)
  {
    hide Bit;
    var q := (v - Wrap64(v)) / TWO64;
    assert v == Wrap64(v) + q * TWO64;
    PowWords();
    forall k: nat | k < 64
      ensures Bit(Wrap64(v), k) == Bit(v, k)
    {
      LowBits(Wrap64(v), q, 64, k);
    }
  }

  lemma LongCombined(g: (bool, bool) -> bool, f: (bool, bool) -> bool, x: int, z: int)
    requires forall a, b :: f(a, b) == g(a, b)
    ensures Combined(f, Wrap64(Bitwise(g, x, z, 64)), x, z, 64)
  {
    hide Bit, Bitwise, Wrap64;
    CutKeepsLongBits(Bitwise(g, x, z, 64));
    forall k: nat | k < 64
      ensures Bit(Wrap64(Bitwise(g, x, z, 64)), k) == f(Bit(x, k), Bit(z, k))
    {
      BitwiseBit(g, x, z, 64, k);
    }
  }

  /** A 64-bit value combined bit by bit. */
  ghost predicate DoesLongBits(p: Point, op: int, f: (bool, bool) -> bool) {
    exists v | -0x8000_0000_0000_0000 <= v < 0x8000_0000_0000_0000 ::
      Combined(f, v, TopLong(p, 2), TopLong(p, 0), 64) && Does(p, op, 1, 4, Int64(v))
  }

  lemma LongBitsDo(p: Point, op: int, b: Bin, g: (bool, bool) -> bool, f: (bool, bool) -> bool)
    requires Ready(p) && 88 <= op <= 90 && Arithmetic(op) == LongBin(b) && forall x, z :: f(x, z) == g(x, z)
    requires Binary(b, TopLong(p, 2), TopLong(p, 0), -0x8000_0000_0000_0000)
             == Some(Bitwise(g, TopLong(p, 2), TopLong(p, 0), 64))
    ensures DoesLongBits(p, op, f)
  {
    hide Goes, Ready, Operand, TopLong, Long, Int64, Halves, Bitwise, Combined, Binary, Wrap64;
    InCode(p);
    Room(p);
    ArgCells(p);
    LongIs(p, 2);
    LongIs(p, 0);
    var v := Wrap64(Bitwise(g, TopLong(p, 2), TopLong(p, 0), 64));
    LongCombined(g, f, TopLong(p, 2), TopLong(p, 0));
    CutLong(v);
    InLong(Bitwise(g, TopLong(p, 2), TopLong(p, 0), 64));
    if U1(p, 0) == op { NumberDoes(p, Arithmetic(op), Int64(v)); }
    assert Does(p, op, 1, 4, Int64(v));
  }

  lemma InLong(v: int)
    ensures -0x8000_0000_0000_0000 <= Wrap64(v) < 0x8000_0000_0000_0000 && Wrap64(Wrap64(v)) == Wrap64(v)
  {
  }

  lemma LongBits(p: Point)
    requires Ready(p)
    ensures DoesLongBits(p, 88, (a: bool, b: bool) => a || b) && DoesLongBits(p, 89, (a: bool, b: bool) => a != b)
            && DoesLongBits(p, 90, (a: bool, b: bool) => a && b)
  {
    hide Ready, Bitwise, DoesLongBits, TopLong;
    LongBitsDo(p, 88, Or, Either, (a: bool, b: bool) => a || b);
    LongBitsDo(p, 89, Xor, Differ, (a: bool, b: bool) => a != b);
    LongBitsDo(p, 90, And, Both, (a: bool, b: bool) => a && b);
  }

  // ----- conversions and the float unit

  lemma Conversions(p: Point)
    requires Ready(p)
    ensures Does(p, 118, 1, 1, [Top(p, 0), if Top(p, 0) < 0 then -1 else 0]) && Does(p, 120, 1, 2, [Top(p, 1)])
  {
    hide Goes, Ready, Operand;
    InCode(p);
    Room(p);
    ArgCells(p);
    WordHere(p, 0);
    if U1(p, 0) == 118 { NumberDoes(p, Arithmetic(118), [Top(p, 0), if Top(p, 0) < 0 then -1 else 0]); }
    if U1(p, 0) == 120 { NumberDoes(p, Arithmetic(120), [Top(p, 1)]); }
  }

  /** The float unit is told the opcode and its operands and leaves `pushes` cells. */
  ghost predicate Floats(p: Point, op: int, pops: nat, pushes: nat) {
    U1(p, 0) == op && pops <= p.r.sp + 1 <= |p.s.mem| && |p.h.fpu(op, Args(p, pops))| == pushes ==>
      Goes(p, pops, p.h.fpu(op, Args(p, pops)), p.r.cp + 1)
  }

  lemma FloatDoes(p: Point, op: int, pops: nat, pushes: nat)
    requires Ready(p) && 57 <= op <= 141 && Arithmetic(op) == Float(op, pops, pushes) && pops <= 4 && pushes <= 2
    ensures Floats(p, op, pops, pushes)
  {
    hide Goes, Ready, Operand, Arithmetic;
    InCode(p);
    Room(p);
    if U1(p, 0) == op && |p.h.fpu(op, Args(p, pops))| == pushes {
      NumberDoes(p, Arithmetic(op), p.h.fpu(op, Args(p, pops)));
    }
  }

  lemma FloatMath(p: Point)
    requires Ready(p)
    ensures forall op | 95 <= op <= 104 :: Floats(p, op, 2, 1)
    ensures forall op | 106 <= op <= 111 :: Floats(p, op, 4, 1)
    ensures forall op | 112 <= op <= 115 :: Floats(p, op, 4, 2)
    ensures Floats(p, 105, 1, 1) && Floats(p, 116, 2, 2)
  {
    hide Floats, Ready;
    forall op | 95 <= op <= 104 ensures Floats(p, op, 2, 1) { FloatDoes(p, op, 2, 1); }
    forall op | 106 <= op <= 111 ensures Floats(p, op, 4, 1) { FloatDoes(p, op, 4, 1); }
    forall op | 112 <= op <= 115 ensures Floats(p, op, 4, 2) { FloatDoes(p, op, 4, 2); }
    FloatDoes(p, 105, 1, 1);
    FloatDoes(p, 116, 2, 2);
  }

  lemma FloatKinds()
    ensures Arithmetic(117) == Float(117, 1, 1) && Arithmetic(119) == Float(119, 1, 2)
    ensures Arithmetic(121) == Float(121, 2, 1) && Arithmetic(122) == Float(122, 2, 2)
    ensures Arithmetic(123) == Float(123, 1, 1) && Arithmetic(124) == Float(124, 1, 2)
    ensures Arithmetic(125) == Float(125, 1, 2) && Arithmetic(126) == Float(126, 2, 1)
    ensures Arithmetic(127) == Float(127, 2, 2) && Arithmetic(128) == Float(128, 2, 1)
  {
  }

  lemma FloatConversions(p: Point)
    requires Ready(p)
    ensures Floats(p, 117, 1, 1) && Floats(p, 119, 1, 2) && Floats(p, 121, 2, 1) && Floats(p, 122, 2, 2)
    ensures Floats(p, 123, 1, 1) && Floats(p, 124, 1, 2) && Floats(p, 125, 1, 2)
    ensures Floats(p, 126, 2, 1) && Floats(p, 127, 2, 2) && Floats(p, 128, 2, 1)
  {
    hide Floats, Ready, Arithmetic;
    FloatKinds();
    FloatDoes(p, 117, 1, 1);
    FloatDoes(p, 119, 1, 2);
    FloatDoes(p, 121, 2, 1);
    FloatDoes(p, 122, 2, 2);
    FloatDoes(p, 123, 1, 1);
    FloatDoes(p, 124, 1, 2);
    FloatDoes(p, 125, 1, 2);
    FloatDoes(p, 126, 2, 1);
    FloatDoes(p, 127, 2, 2);
    FloatDoes(p, 128, 2, 1);
  }
}
