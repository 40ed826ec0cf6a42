/** What the data instructions mean to each other, and the stack shuffles as the cell moves they are. */
module AluLaws {
  import opened Alu
  import opened Bytes
  import opened Options
  import opened Slots

  /** The six comparisons are three pairs of opposites, and greater is less with the operands exchanged. */
  lemma Opposites(x: int, y: int)
    ensures Compare(NotEq, x, y) == !Compare(Eq, x, y)
    ensures Compare(GtEq, x, y) == !Compare(Lt, x, y) && Compare(LtEq, x, y) == !Compare(Gt, x, y)
    ensures Compare(Gt, x, y) == Compare(Lt, y, x)
    ensures Compare(Eq, x, y) || Compare(Lt, x, y) || Compare(Gt, x, y)
  {
  }

  function Cell(o: Option<(seq<int>, World)>): int { if o.Some? && |o.value.0| == 1 then o.value.0[0] else 0 }

  /** Subtraction undoes addition, through every wrap-around. */
  lemma SubUndoesAdd(x: int, y: int, w: World, fpu: (int, seq<int>) -> seq<int>)
    requires Wrap32(x) == x
    ensures var s := Cell(EvalNumber(IntBin(Add), [x, y], w, fpu));
            EvalNumber(IntBin(Sub), [s, y], w, fpu) == Some(([x], w))
  {
    hide Wrap32;
    WrapSum(x + y, -y);
    assert x + y + -y == x && Wrap32(x + y) + -y == Wrap32(x + y) - y;
  }

  /** Quotient and remainder belong together and round towards zero, as C divides; only division by zero and
      -2^31 / -1 have no result. */
  lemma DivMod(x: int, y: int, min: int)
    ensures Binary(Div, x, y, min).None? <==> y == 0 || (x == min && y == -1)
    ensures Binary(Mod, x, y, min).None? <==> y == 0 || (x == min && y == -1)
    ensures Binary(Div, x, y, min).Some? ==>
              var q, r := Binary(Div, x, y, min).value, Binary(Mod, x, y, min).value;
              && x == y * q + r && (if y > 0 then -y < r < y else y < r < -y)
              && (x >= 0 ==> r >= 0) && (x <= 0 ==> r <= 0)
  {
    hide TruncDiv;
    if y != 0 {
      Truncated(x, y);
    }
  }

  lemma Truncated(x: int, y: int)
    requires y != 0
    ensures var r := x - y * TruncDiv(x, y);
            && (if y > 0 then -y < r < y else y < r < -y) && (x >= 0 ==> r >= 0) && (x <= 0 ==> r <= 0)
  {
    var z := if x >= 0 then x else -x;
    Euclid(z, y);
    assert x < 0 ==> y * -(z / y) == -(y * (z / y));
  }

  lemma Euclid(z: nat, y: int)
    requires y != 0
    ensures 0 <= z - y * (z / y) < if y > 0 then y else -y
  {
    assert z - y * (z / y) == z % y;
  }

  /** Negation is complement plus one. */
  lemma NegIsNotPlusOne(x: int, w: World, fpu: (int, seq<int>) -> seq<int>)
    ensures var n := Cell(EvalNumber(IntNot, [x], w, fpu));
            EvalNumber(IntAddK(1), [n], w, fpu) == EvalNumber(IntNeg, [x], w, fpu)
  {
  }

  /** Widening keeps the value, and narrowing undoes it. */
  lemma WidenNarrow(x: int, w: World, fpu: (int, seq<int>) -> seq<int>)
    requires Wrap32(x) == x
    ensures var a := EvalNumber(IntToLong, [x], w, fpu);
            && a.Some? && Long(a.value.0[0], a.value.0[1]) == x
            && EvalNumber(LongToInt, a.value.0, w, fpu) == Some(([x], w))
  {
    LongOfHalves(x);
  }

  /** A left shift multiplies, and a right shift undoes it. */
  lemma ShiftBack(x: int, n: nat, bits: nat)
    requires n < bits
    ensures Alu.Shifted(ShiftL, x, n, bits) == Some(x * Pow2(n))
    ensures Alu.Shifted(ShiftR, x * Pow2(n), n, bits) == Some(x)
  {
    var p := Pow2(n);
    assert x * p / p == x by {
      Exact(x, p);
    }
  }

  lemma Exact(x: int, p: int)
    requires p > 0
    ensures x * p / p == x
  {
    var q, r := x * p / p, x * p % p;
    assert (x - q) * p == r;
    Multiple(x - q, p);
  }

  /** What a field store leaves, the load of the same width finds: whole words and wide values unchanged, bytes and
      shorts cut to their width and zero-extended. */
  lemma StoreThenLoad(w: World, a: int, ws: seq<int>, width: nat)
    requires width == 1 || width == 2 || width == 4
    requires Wrap32(a) == a && |ws| == 1 && Wrap32(ws[0]) == ws[0]
    ensures Load(Store(w, a, width, ws), a, width) == [if width == 4 then ws[0] else ws[0] % Power256(width)]
  {
    hide SetUnsigned, GetUnsigned;
    SetGet(w.heap, a, width, ws[0]);
    assert Power256(1) == 256 && Power256(2) == 0x1_0000;
    assert Power256(3) == 0x100_0000 && Power256(4) == TWO32;
  }

  /** A wide value comes back too, if its eight bytes do not wrap around. */
  lemma WideStoreThenLoad(w: World, a: int, ws: seq<int>)
    requires Wrap32(a) == a && |ws| == 2 && Wrap32(ws[0]) == ws[0] && Wrap32(ws[1]) == ws[1]
    ensures Load(Store(w, a, 8, ws), a, 8) == ws
  {
    hide SetUnsigned, GetUnsigned, GetByte, Wrap32;
    var b := Wrap32(a + 4);
    WrapTwice(a + 4);
    var h1 := SetUnsigned(w.heap, a, 4, ws[0]);
    var h2 := SetUnsigned(h1, b, 4, ws[1]);
    SetGet(w.heap, a, 4, ws[0]);
    SetGet(h1, b, 4, ws[1]);
    SetOutside(h1, b, 4, ws[1]);
    ApartWords(a, h1, h2);
    FourBytes(ws[0]);
    FourBytes(ws[1]);
  }

  lemma FourBytes(v: int)
    requires Wrap32(v) == v
    ensures Wrap32(v % Power256(4)) == v
  {
    assert Power256(2) == 0x1_0000;
    assert Power256(4) == TWO32;
  }

  lemma ApartWords(a: int, h: map<int, int>, h': map<int, int>)
    requires Wrap32(a) == a && SameOutside(h, h', Wrap32(a + 4), 4)
    ensures GetUnsigned(h', a, 4) == GetUnsigned(h, a, 4)
  {
    hide GetByte, GetUnsigned, InSlot, Wrap32;
    forall b | InSlot(a, 4, b)
      ensures GetByte(h', b) == GetByte(h, b)
    {
      Behind(a, 0, b);
    }
    SameWord(h, h', a, 4);
  }

  /** The bytes from a + i to a + 3 are none of the four behind them. */
  lemma {:induction false} Behind(a: int, i: nat, b: int)
    requires i <= 4 && InSlot(Wrap32(a + i), 4 - i, b)
    ensures !InSlot(Wrap32(a + 4), 4, b)
    decreases 4 - i
  {
    hide Wrap32;
    var c := Wrap32(a + i);
    WrapTwice(a + i);
    WrapSum(a + i, 1);
    WrapSum(a + i, 4 - i);
    assert a + i + 1 == a + (i + 1) && a + i + (4 - i) == a + 4;
    if b == c {
      NotBefore(c, 4 - i, 4);
    } else {
      Behind(a, i + 1, b);
    }
  }
}
