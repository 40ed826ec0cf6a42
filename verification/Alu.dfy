/** Cells, memory and the data instructions of the Sedona bytecode.
    A cell is a 32-bit word, kept as a signed `int`; a 64-bit value is two
    adjacent cells, low word first. Object memory is a byte map, zero elsewhere. */
module Alu {
  import opened Bytes
  import opened Options

  /** Everything an instruction can change apart from the cell stack. */
  datatype World = World(heap: map<int, int>, passes: nat, failures: nat)

  function U32(x: int): nat { x % TWO32 }

  function Wrap32(x: int): int {
    var u := x % TWO32;
    if u < 0x8000_0000 then u else u - TWO32
  }

  function Wrap64(x: int): int {
    var u := x % TWO64;
    if u < 0x8000_0000_0000_0000 then u else u - TWO64
  }

  function Long(lo: int, hi: int): int { Wrap64(U32(hi) * TWO32 + U32(lo)) }

  function Halves(v: int): (ws: seq<int>)
    ensures |ws| == 2
  {
    [Wrap32(v), Wrap32(v / TWO32)]
  }

  /** Cutting to 32 bits in between changes nothing. */
  lemma WrapSum(a: int, b: int)
    ensures Wrap32(Wrap32(a) + b) == Wrap32(a + b)
  {
    var q := if a % TWO32 < 0x8000_0000 then a / TWO32 else a / TWO32 + 1;
    assert Wrap32(a) == a - q * TWO32;
    SameRest(Wrap32(a) + b, q);
  }

  lemma SameRest(x: int, q: int)
    ensures (x + q * TWO32) % TWO32 == x % TWO32
  {
    var d := x / TWO32;
    assert x + q * TWO32 == (d + q) * TWO32 + x % TWO32;
  }

  /** Two cells hold every 64-bit value, ... */
  lemma LongOfHalves(v: int)
    ensures Long(Halves(v)[0], Halves(v)[1]) == Wrap64(v)
  {
    var lo, rest := v % TWO32, v / TWO32;
    var hi, q := rest % TWO32, rest / TWO32;
    assert v == (q * TWO32 + hi) * TWO32 + lo == q * TWO64 + (hi * TWO32 + lo);
    hide Wrap32, Wrap64;
    WordOfWrap(v);
    WordOfWrap(rest);
    SameLong(q, hi * TWO32 + lo);
  }

  lemma WordOfWrap(x: int)
    ensures U32(Wrap32(x)) == x % TWO32
  {
  }

  lemma SameLong(q: int, r: int)
    requires 0 <= r < TWO64
    ensures Wrap64(q * TWO64 + r) == Wrap64(r)
  {
    assert (q * TWO64 + r) % TWO64 == r;
  }

  /** ... and every pair of cells is one. */
  lemma HalvesOfLong(lo: int, hi: int)
    requires Wrap32(lo) == lo && Wrap32(hi) == hi
    ensures Halves(Long(lo, hi)) == [lo, hi]
  {
    var v := Long(lo, hi);
    var q := if U32(hi) * TWO32 + U32(lo) < 0x8000_0000_0000_0000 then 0 else 1;
    assert v == (U32(hi) - q * TWO32) * TWO32 + U32(lo);
    assert v % TWO32 == U32(lo) && v / TWO32 == U32(hi) - q * TWO32;
  }

  function Bool(b: bool): int { if b then 1 else 0 }

  // ----- runs of cells -----

  predicate InRange(mem: seq<int>, from: int, n: int) { 0 <= from && 0 <= n && from + n <= |mem| }

  predicate IsPut(r: seq<int>, mem: seq<int>, at: int, ws: seq<int>)
    requires InRange(mem, at, |ws|)
  {
    |r| == |mem| && forall k | 0 <= k < |mem| :: r[k] == if at <= k < at + |ws| then ws[k - at] else mem[k]
  }

  /** The array that holds `ws` from index `at` on and `mem` elsewhere. */
  ghost function Put(mem: seq<int>, at: int, ws: seq<int>): (r: seq<int>)
    requires InRange(mem, at, |ws|)
    ensures IsPut(r, mem, at, ws)
  {
    assert IsPut(mem[..at] + ws + mem[at + |ws|..], mem, at, ws);
    var r: seq<int> :| IsPut(r, mem, at, ws);
    r
  }

  // ----- object memory -----

  function GetByte(h: map<int, int>, a: int): int { if a in h then h[a] % 256 else 0 }

  function GetUnsigned(h: map<int, int>, a: int, width: nat): int
    decreases width
  {
    if width == 0 then 0 else GetByte(h, a) + 256 * GetUnsigned(h, Wrap32(a + 1), width - 1)
  }

  function SetUnsigned(h: map<int, int>, a: int, width: nat, v: int): map<int, int>
    decreases width
  {
    if width == 0 then h else SetUnsigned(h[a := v % 256], Wrap32(a + 1), width - 1, v / 256)
  }

  /** The cells a load of `width` bytes leaves: bytes and shorts zero-extended, a wide value in two cells. */
  function Load(w: World, a: int, width: nat): (ws: seq<int>)
    ensures |ws| == Cells(width)
  {
    if width == 8 then [Wrap32(GetUnsigned(w.heap, a, 4)), Wrap32(GetUnsigned(w.heap, Wrap32(a + 4), 4))]
    else [Wrap32(GetUnsigned(w.heap, a, width))]
  }

  function Store(w: World, a: int, width: nat, ws: seq<int>): World
    requires |ws| == Cells(width)
  {
    if width == 8 then
      w.(heap := SetUnsigned(SetUnsigned(w.heap, a, 4, ws[0]), Wrap32(a + 4), 4, ws[1]))
    else
      w.(heap := SetUnsigned(w.heap, a, width, ws[0]))
  }

  function Cells(width: nat): nat { if width == 8 then 2 else 1 }

  /** The reference table of an inline object array: slot k points at object k, laid out after the table. */
  function InitArray(h: map<int, int>, base: int, length: int, size: int, k: nat): map<int, int>
    decreases length - k
  {
    if k >= length then h
    else InitArray(SetUnsigned(h, Wrap32(base + 4 * k), 4, Wrap32(base + 4 * length + size * k)),
                   base, length, size, k + 1)
  }

  // ----- data instructions -----

  datatype Cmp = Eq | NotEq | Gt | GtEq | Lt | LtEq
  datatype Bin = Mul | Div | Mod | Add | Sub | Or | Xor | And
  datatype Shift = ShiftL | ShiftR

  datatype Data =
    | IntCmp(cmp: Cmp) | IntBin(bin: Bin) | IntShift(shift: Shift) | IntNot | IntNeg | IntAddK(k: int)
    | LongCmp(cmp: Cmp) | LongBin(bin: Bin) | LongShift(shift: Shift) | LongNot | LongNeg
    | IntToLong | LongToInt
    | ZeroTest(whenZero: bool)
    | Float(op: int, pops: nat, pushes: nat)
    | Shuffle(pops: nat, picks: seq<nat>)
    | LoadField(width: nat, off: int) | LoadElem(width: nat)
    | StoreField(width: nat, off: int) | StoreElem(width: nat)
    | AddElem(scale: int) | Inline(off: int)
    | ConstField(off: int) | ConstElem
    | InitRefs | InitHalf(at: int, v: int)

  function DataPops(d: Data): nat {
    match d
    case IntCmp(_) | IntBin(_) | IntShift(_) => 2
    case IntNot | IntNeg | IntAddK(_) => 1
    case LongCmp(_) | LongBin(_) => 4
    case LongShift(_) => 3
    case LongNot | LongNeg => 2
    case IntToLong => 1
    case LongToInt => 2
    case ZeroTest(_) => 1
    case Float(_, pops, _) => pops
    case Shuffle(pops, _) => pops
    case LoadField(_, _) => 1
    case LoadElem(_) => 2
    case StoreField(width, _) => 1 + Cells(width)
    case StoreElem(width) => 2 + Cells(width)
    case AddElem(_) => 2
    case Inline(_) | ConstField(_) => 1
    case ConstElem => 2
    case InitRefs => 3
    case InitHalf(_, _) => 1
  }

  function DataPushes(d: Data): nat {
    match d
    case IntCmp(_) | IntBin(_) | IntShift(_) | IntNot | IntNeg | IntAddK(_) => 1
    case LongCmp(_) => 1
    case LongBin(_) | LongShift(_) | LongNot | LongNeg => 2
    case IntToLong => 2
    case LongToInt => 1
    case ZeroTest(_) => 1
    case Float(_, _, pushes) => pushes
    case Shuffle(_, picks) => |picks|
    case LoadField(width, _) => Cells(width)
    case LoadElem(width) => Cells(width)
    case StoreField(_, _) | StoreElem(_) => 0
    case AddElem(_) | Inline(_) | ConstField(_) | ConstElem => 1
    case InitRefs | InitHalf(_, _) => 0
  }

  /** Depth below the stack top of the cell the debug build tests for null, or -1. */
  function PointerDepth(d: Data): int {
    match d
    case LoadField(_, _) | Inline(_) | ConstField(_) => 0
    case LoadElem(_) | AddElem(_) | ConstElem => 1
    case StoreField(width, _) => Cells(width)
    case StoreElem(width) => 1 + Cells(width)
    case _ => -1
  }

  function Compare(c: Cmp, x: int, y: int): bool {
    match c
    case Eq => x == y
    case NotEq => x != y
    case Gt => x > y
    case GtEq => x >= y
    case Lt => x < y
    case LtEq => x <= y
  }

  /** Quotient rounded towards zero, as C divides. */
  function TruncDiv(x: int, y: int): int
    requires y != 0
  {
    if x >= 0 then x / y else -((-x) / y)
  }

  predicate Either(p: bool, q: bool) { p || q }

  predicate Differ(p: bool, q: bool) { p != q }

  predicate Both(p: bool, q: bool) { p && q }

  /** The low n bits of two numbers combined. */
  function Bitwise(f: (bool, bool) -> bool, x: int, y: int, n: nat): int
    decreases n
  {
    if n == 0 then 0 else Bool(f(x % 2 == 1, y % 2 == 1)) + 2 * Bitwise(f, x / 2, y / 2, n - 1)
  }

  /** An exact binary result before wrapping; None where C leaves the operation undefined. */
  function Binary(b: Bin, x: int, y: int, min: int): Option<int> {
    match b
    case Mul => Some(x * y)
    case Div => if y == 0 || (x == min && y == -1) then None else Some(TruncDiv(x, y))
    case Mod => if y == 0 || (x == min && y == -1) then None else Some(x - y * TruncDiv(x, y))
    case Add => Some(x + y)
    case Sub => Some(x - y)
    case Or => Some(Bitwise(Either, x, y, 64))
    case Xor => Some(Bitwise(Differ, x, y, 64))
    case And => Some(Bitwise(Both, x, y, 64))
  }

  function Shifted(s: Shift, x: int, n: int, bits: int): Option<int> {
    if !(0 <= n < bits) then None
    else if s == ShiftL then Some(x * Pow2(n))
    else Some(x / Pow2(n))
  }

  function WrapAll(o: Option<int>, w: World): Option<(seq<int>, World)> {
    match o
    case None => None
    case Some(v) => Some(([Wrap32(v)], w))
  }

  function SplitAll(o: Option<int>, w: World): Option<(seq<int>, World)> {
    match o
    case None => None
    case Some(v) => Some((Halves(Wrap64(v)), w))
  }

  /** Cuts or zero-fills to exactly n cells. */
  function Fit(ws: seq<int>, n: nat): (r: seq<int>)
    ensures |r| == n && (|ws| == n ==> r == ws)
    ensures forall i | 0 <= i < n && i < |ws| :: r[i] == ws[i]
  {
    seq(n, i requires 0 <= i < n => if i < |ws| then ws[i] else 0)
  }

  /** What an instruction on numbers leaves in place of its operands `a` (deepest first). */
  function EvalNumber(d: Data, a: seq<int>, w: World, fpu: (int, seq<int>) -> seq<int>): (r: Option<(seq<int>, World)>)
    requires |a| == DataPops(d)
    ensures r.Some? ==> |r.value.0| == DataPushes(d)
  {
    match d
    case IntCmp(c) => Some(([Bool(Compare(c, a[0], a[1]))], w))
    case IntBin(b) => WrapAll(Binary(b, a[0], a[1], -0x8000_0000), w)
    case IntShift(s) => WrapAll(Shifted(s, a[0], a[1], 32), w)
    case IntNot => Some(([-1 - a[0]], w))
    case IntNeg => Some(([Wrap32(-a[0])], w))
    case IntAddK(k) => Some(([Wrap32(a[0] + k)], w))
    case LongCmp(c) => Some(([Bool(Compare(c, Long(a[0], a[1]), Long(a[2], a[3])))], w))
    case LongBin(b) => SplitAll(Binary(b, Long(a[0], a[1]), Long(a[2], a[3]), -0x8000_0000_0000_0000), w)
    case LongShift(s) => SplitAll(Shifted(s, Long(a[0], a[1]), a[2], 64), w)
    case LongNot => Some((Halves(-1 - Long(a[0], a[1])), w))
    case LongNeg => Some((Halves(Wrap64(-Long(a[0], a[1]))), w))
    case IntToLong => Some((Halves(a[0]), w))
    case LongToInt => Some(([a[0]], w))
    case ZeroTest(z) => Some(([Bool((a[0] == 0) == z)], w))
    case Float(op, _, pushes) => Some((Fit(fpu(op, a), pushes), w))
    case _ => None
  }

  function Pick(a: seq<int>, i: nat): int { if i < |a| then a[i] else 0 }

  function Picks(a: seq<int>, picks: seq<nat>): (r: seq<int>)
    ensures |r| == |picks|
  {
    seq(|picks|, i requires 0 <= i < |picks| => Pick(a, picks[i]))
  }

  /** Stack shuffles and object memory. */
  function EvalMemory(d: Data, a: seq<int>, w: World, blockAddr: int -> int): (r: Option<(seq<int>, World)>)
    requires |a| == DataPops(d)
    ensures r.Some? ==> |r.value.0| == DataPushes(d)
  {
    match d
    case Shuffle(_, picks) => Some((Picks(a, picks), w))
    case LoadField(width, off) => Some((Load(w, Wrap32(a[0] + off), width), w))
    case LoadElem(width) => Some((Load(w, Wrap32(a[0] + width * a[1]), width), w))
    case StoreField(width, off) => Some(([], Store(w, Wrap32(a[0] + off), width, a[1..])))
    case StoreElem(width) => Some(([], Store(w, Wrap32(a[0] + width * a[1]), width, a[2..])))
    case AddElem(scale) => Some(([Wrap32(a[0] + scale * a[1])], w))
    case Inline(off) => Some(([Wrap32(a[0] + off)], w))
    case ConstField(off) => Some(([BlockOrNull(GetUnsigned(w.heap, Wrap32(a[0] + off), 2), blockAddr)], w))
    case ConstElem => Some(([BlockOrNull(GetUnsigned(w.heap, Wrap32(a[0] + 2 * a[1]), 2), blockAddr)], w))
    case InitRefs => Some(([], w.(heap := InitArray(w.heap, a[0], a[1], a[2], 0))))
    case InitHalf(at, v) => Some(([], w.(heap := SetUnsigned(w.heap, Wrap32(a[0] + at), 2, v))))
    case _ => None
  }

  predicate OnNumbers(d: Data) {
    match d
    case Shuffle(_, _) | LoadField(_, _) | LoadElem(_) | StoreField(_, _) | StoreElem(_) | AddElem(_) | Inline(_)
       | ConstField(_) | ConstElem | InitRefs | InitHalf(_, _) => false
    case _ => true
  }

  /** None where C leaves the operation undefined. */
  function Evaluate(d: Data, a: seq<int>, w: World, fpu: (int, seq<int>) -> seq<int>, blockAddr: int -> int)
    : (r: Option<(seq<int>, World)>)
    requires |a| == DataPops(d)
    ensures r.Some? ==> |r.value.0| == DataPushes(d)
  {
    if OnNumbers(d) then EvalNumber(d, a, w, fpu) else EvalMemory(d, a, w, blockAddr)
  }

  function BlockOrNull(block: int, blockAddr: int -> int): int {
    if block == 0 then 0 else blockAddr(block)
  }
}
