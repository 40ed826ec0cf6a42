/** The opcodes by their numbers in svm/scode.h: what one pass of the loop does to cells, registers and heap bytes.
    The statements are made of numbers and bytes only; decoder and instructions occur in the proofs alone. */
module Opcodes {
  import opened Alu
  import opened Bytes
  import opened Image
  import opened Options
  import opened Scode
  import F = FlatMachine
  import R = Relocation
  import opened Slots

  // ----- words, bytes and cells

  /** The value in 32 bits. */
  function Int32(v: int): int { (v + 0x8000_0000) % 0x1_0000_0000 - 0x8000_0000 }

  /** The value in 64 bits, as two cells, low one first. */
  function Int64(v: int): seq<int> { [Int32(v), Int32(v / 0x1_0000_0000)] }

  /** A machine in front of an instruction of a loaded code segment. */
  datatype Point = Point(y: Layout, code: seq<Byte>, h: R.Host, s: F.Flat, r: F.Regs)

  function ImageAt(p: Point): Image { R.ImageOf(p.y, p.code, p.h) }

  /** Byte k of the instruction. */
  function U1(p: Point, k: int): int { ByteAt(p.code, p.r.cp + k) }

  function ByteAt(code: seq<Byte>, i: int): int { if 0 <= i < |code| then code[i] else 0 }

  function U2(p: Point, k: int): int { HalfAt(p.code, p.r.cp + k) }

  function HalfAt(code: seq<Byte>, i: int): int { ByteAt(code, i) + 0x100 * ByteAt(code, i + 1) }

  function WordAt(code: seq<Byte>, i: int): int { HalfAt(code, i) + 0x1_0000 * HalfAt(code, i + 2) }

  /** The operand of the U1, U2 and U4 forms. */
  function Wide(p: Point, n: int): int {
    if n == 1 then U1(p, 1) else if n == 2 then U2(p, 1) else WordAt(p.code, p.r.cp + 1)
  }

  function S1(p: Point, k: int): int { (U1(p, k) + 0x80) % 0x100 - 0x80 }

  function S2(p: Point, k: int): int { (U2(p, k) + 0x8000) % 0x1_0000 - 0x8000 }

  /** The cell d below the top. */
  function Top(p: Point, d: int): int { CellAt(p, p.r.sp - d) }

  function CellAt(p: Point, i: int): int { if 0 <= i < |p.s.mem| then p.s.mem[i] else 0 }

  /** The 64-bit value whose high cell is d below the top. */
  function TopLong(p: Point, d: int): int { Top(p, d) * 0x1_0000_0000 + Top(p, d + 1) % 0x1_0000_0000 }

  /** The array with ws from index `at` on. */
  function Written(mem: seq<int>, at: int, ws: seq<int>): seq<int>
    requires 0 <= at && at + |ws| <= |mem|
  {
    mem[..at] + ws + mem[at + |ws|..]
  }

  /** Neither limit is near, and cells hold 32-bit words. */
  predicate Ready(p: Point) {
    && p.s.mode == F.Running(p.r) && 0 <= p.r.cp < |p.code| && 3 <= p.r.sp < p.y.stackMax && p.r.sp + 2 < |p.s.mem|
    && forall k | 0 <= k < |p.s.mem| :: Int32(p.s.mem[k]) == p.s.mem[k]
  }

  // ----- what a step does

  /** The top n cells become ws and the machine goes to `next`. */
  ghost predicate Goes(p: Point, n: nat, ws: seq<int>, next: int) {
    && n <= p.r.sp + 1 && p.r.sp + 1 - n + |ws| <= |p.s.mem|
    && F.Step(ImageAt(p), p.s)
       == F.Next(p.s.(mem := Written(p.s.mem, p.r.sp + 1 - n, ws),
                      mode := F.Running(p.r.(sp := p.r.sp - n + |ws|, cp := next))))
  }

  /** Opcode `op` of `len` bytes replaces the top n cells by ws. */
  ghost predicate Does(p: Point, op: int, len: int, n: nat, ws: seq<int>) {
    U1(p, 0) == op ==> Goes(p, n, ws, p.r.cp + len)
  }

  // ----- connections to the machine

  lemma Cut(v: int)
    ensures Int32(v) == Wrap32(v)
  {
  }

  lemma WrittenPut(mem: seq<int>, at: int, ws: seq<int>)
    requires 0 <= at && at + |ws| <= |mem|
    ensures Put(mem, at, ws) == Written(mem, at, ws)
  {
    hide Put;
  }

  lemma Loaded(p: Point)
    requires 0 <= p.r.cp < |p.code|
    ensures var img := ImageAt(p);
            p.r.cp in img.lines && img.lines[p.r.cp] == Decode(p.y, p.code, p.r.cp) && img.stackMax == p.y.stackMax
            && img.alu == Unit(p.y, p.h.fpu)
  {
    hide Decode, Unit, R.ImageOf;
    R.LoadedLine(p.y, p.code, p.h, p.r.cp);
    R.LoadedRest(p.y, p.code, p.h);
  }

  /** The top n cells. */
  function Args(p: Point, n: nat): seq<int>
    requires n <= p.r.sp + 1 <= |p.s.mem|
  {
    p.s.mem[p.r.sp + 1 - n..p.r.sp + 1]
  }

  /** A step of an instruction that touches the operand area only. */
  lemma SimpleGoes(p: Point, l: Line, ws: seq<int>, next: int, w: World)
    requires Ready(p) && Decode(p.y, p.code, p.r.cp) == l && Simple(l.instr) && Pops(l.instr) <= 4
    requires PointerDepthOf(l.instr) < 4 && (PointerDepthOf(l.instr) >= 0 ==> Top(p, PointerDepthOf(l.instr)) != 0)
    requires Pops(l.instr) <= p.r.sp + 1 && |ws| <= Pops(l.instr) + 2
    requires Perform(ImageAt(p), l, Args(p, Pops(l.instr)), p.s.w) == Go(ws, next, w)
    ensures var n := Pops(l.instr);
            F.Step(ImageAt(p), p.s)
            == F.Next(p.s.(mem := Written(p.s.mem, p.r.sp + 1 - n, ws), w := w,
                           mode := F.Running(p.r.(sp := p.r.sp - n + |ws|, cp := next))))
  {
    hide Perform, Decode, Unit, R.ImageOf, Written, Int32, Put;
    Loaded(p);
    var n := Pops(l.instr);
    assert p.s.mem[p.r.sp - n + 1..p.r.sp + 1] == Args(p, n);
    WrittenPut(p.s.mem, p.r.sp + 1 - n, ws);
  }

  lemma ConstDoes(p: Point, ws: seq<int>, next: int)
    requires Ready(p) && |ws| <= 2 && Decode(p.y, p.code, p.r.cp) == Line(Const(ws), next)
    ensures Goes(p, 0, ws, next)
  {
    hide Decode, Int32;
    SimpleGoes(p, Line(Const(ws), next), ws, next, p.s.w);
  }

  // ----- 0 to 27, 162, 210, 218 to 220, 236: literals

  lemma BytesAt(code: seq<Byte>, i: int)
    requires 0 <= i
    ensures Operand(code, i, 1) == ByteAt(code, i)
    ensures Operand(code, i, 2) == HalfAt(code, i) && Operand(code, i, 4) == WordAt(code, i)
  {
    OneByte(code, i);
    OneByte(code, i + 1);
    OneByte(code, i + 3);
    MoreBytes(code, i, 2);
    MoreBytes(code, i + 2, 2);
    MoreBytes(code, i + 1, 3);
    MoreBytes(code, i, 4);
  }

  lemma OneByte(code: seq<Byte>, i: int)
    ensures Operand(code, i, 1) == ByteAt(code, i)
  {
    assert Operand(code, i + 1, 0) == 0;
  }

  lemma {:induction false} MoreBytes(code: seq<Byte>, i: int, n: nat)
    requires 0 <= i && 0 < n
    ensures Operand(code, i, n) == ByteAt(code, i) + 256 * Operand(code, i + 1, n - 1)
  {
    if i >= |code| {
      Beyond(code, i + 1, n - 1);
    }
  }

  lemma Beyond(code: seq<Byte>, i: int, n: nat)
    requires i >= |code|
    ensures Operand(code, i, n) == 0
  {
  }

  lemma Literals(p: Point)
    requires Ready(p)
    ensures Does(p, 0, 1, 0, [])
    ensures Does(p, 1, 1, 0, [-1]) && Does(p, 2, 1, 0, [0]) && Does(p, 3, 1, 0, [1]) && Does(p, 4, 1, 0, [2])
    ensures Does(p, 5, 1, 0, [3]) && Does(p, 6, 1, 0, [4]) && Does(p, 7, 1, 0, [5])
    ensures Does(p, 8, 2, 0, [U1(p, 1)]) && Does(p, 9, 3, 0, [U2(p, 1)])
    ensures Does(p, 10, 1, 0, [0, 0]) && Does(p, 11, 1, 0, [1, 0])
    ensures Does(p, 12, 1, 0, [0]) && Does(p, 13, 1, 0, [0x3F80_0000])
    ensures Does(p, 14, 1, 0, [0, 0]) && Does(p, 15, 1, 0, [0, 0x3FF0_0000])
    ensures Does(p, 16, 1, 0, [0]) && Does(p, 17, 1, 0, [2])
    ensures Does(p, 18, 1, 0, [0x7FC0_0000]) && Does(p, 19, 1, 0, [0, 0x7FF8_0000])
    ensures Does(p, 236, 3, 0, [])
  {
    hide Goes, Ready, Operand, BlockWord, BlockCell, Switches, Int32;
    InCode(p);
    var op, l := U1(p, 0), Decode(p.y, p.code, p.r.cp);
    BytesAt(p.code, p.r.cp + 1);
    if op <= 19 || op == 236 {
      ConstDoes(p, l.instr.ws, l.next);
    }
  }

  lemma InCode(p: Point)
    requires Ready(p)
    ensures 0 <= p.r.cp < |p.code| && U1(p, 0) == p.code[p.r.cp]
  {
  }

  /** Literals out of the code segment, addresses in it and in the static data. */
  lemma CodeLiterals(p: Point)
    requires Ready(p)
    ensures var at := p.y.blockSize * U2(p, 1);
            && Does(p, 20, 3, 0, [Int32(WordAt(p.code, at))]) && Does(p, 21, 3, 0, [Int32(WordAt(p.code, at))])
            && Does(p, 22, 3, 0, [Int32(WordAt(p.code, at)), Int32(WordAt(p.code, at + 4))])
            && Does(p, 23, 3, 0, [Int32(WordAt(p.code, at)), Int32(WordAt(p.code, at + 4))])
    ensures var address := Int32(p.y.codeBase + p.y.blockSize * U2(p, 1));
            && Does(p, 24, 3, 0, [address]) && Does(p, 25, 3, 0, [address])
            && Does(p, 26, 3, 0, [address]) && Does(p, 27, 3, 0, [address])
            && Does(p, 210, 3, 0, [if U2(p, 1) == 0 then 0 else address])
    ensures Does(p, 162, 1, 0, [Int32(p.y.dataBase)])
    ensures Does(p, 218, 2, 0, [Int32(p.y.dataBase + Wide(p, 1))])
    ensures Does(p, 219, 3, 0, [Int32(p.y.dataBase + Wide(p, 2))])
    ensures Does(p, 220, 5, 0, [Int32(p.y.dataBase + Wide(p, 4))])
  {
    hide Goes, Ready, Operand, Switches, Int32, Wrap32;
    InCode(p);
    var op, l, at := U1(p, 0), Decode(p.y, p.code, p.r.cp), p.y.blockSize * U2(p, 1);
    BytesAt(p.code, p.r.cp + 1);
    BlockStart(p.y.blockSize, U2(p, 1));
    BytesAt(p.code, at);
    BytesAt(p.code, at + 4);
    Cut(WordAt(p.code, at));
    Cut(WordAt(p.code, at + 4));
    Cut(p.y.codeBase + at);
    Cut(p.y.dataBase);
    Cut(p.y.dataBase + Wide(p, 1));
    Cut(p.y.dataBase + Wide(p, 2));
    Cut(p.y.dataBase + Wide(p, 4));
    if 20 <= op <= 27 || op == 162 || op == 210 || 218 <= op <= 220 {
      ConstDoes(p, l.instr.ws, l.next);
    }
  }

  lemma BlockStart(size: nat, block: int)
    requires 0 <= block
    ensures 0 <= size * block
  {
  }

  // ----- 29 to 56: parameters and locals

  /** Loads n cells from index `at` on. */
  ghost predicate Loads(p: Point, op: int, len: int, at: int, n: nat) {
    U1(p, 0) == op && 0 <= at && at + n <= |p.s.mem| ==> Goes(p, 0, p.s.mem[at..at + n], p.r.cp + len)
  }

  /** Stores the top n cells from index `at` on. */
  ghost predicate Stores(p: Point, op: int, len: int, at: int, n: nat) {
    U1(p, 0) == op && 0 <= at && at + n <= |p.s.mem| && n <= p.r.sp + 1 <= |p.s.mem| ==>
      F.Step(ImageAt(p), p.s)
      == F.Next(p.s.(mem := Written(p.s.mem, at, p.s.mem[p.r.sp + 1 - n..p.r.sp + 1]),
                     mode := F.Running(p.r.(sp := p.r.sp - n, cp := p.r.cp + len))))
  }

  /** The index a variable instruction names. */
  function VariableAt(p: Point, i: Instr): int
    requires i.LoadVar? || i.StoreVar?
  {
    (if i.isLocal then p.r.lp else p.r.pp) + i.index
  }

  lemma LoadDoes(p: Point, l: Line, at: int, n: nat)
    requires Ready(p) && Decode(p.y, p.code, p.r.cp) == l && l.instr.LoadVar?
    requires n == l.instr.width <= 2 && at == VariableAt(p, l.instr) && 0 <= at && at + n <= |p.s.mem|
    ensures Goes(p, 0, p.s.mem[at..at + n], l.next)
  {
    hide Decode, R.ImageOf, Written, Int32, Put;
    Loaded(p);
    WrittenPut(p.s.mem, p.r.sp + 1, p.s.mem[at..at + n]);
  }

  lemma StoreDoes(p: Point, l: Line, at: int, n: nat)
    requires Ready(p) && Decode(p.y, p.code, p.r.cp) == l && l.instr.StoreVar?
    requires n == l.instr.width <= 2 && at == VariableAt(p, l.instr) && 0 <= at && at + n <= |p.s.mem|
    ensures F.Step(ImageAt(p), p.s)
            == F.Next(p.s.(mem := Written(p.s.mem, at, p.s.mem[p.r.sp + 1 - n..p.r.sp + 1]),
                           mode := F.Running(p.r.(sp := p.r.sp - n, cp := l.next))))
  {
    hide Decode, R.ImageOf, Written, Int32, Put;
    Loaded(p);
    assert p.s.mem[p.r.sp - n + 1..p.r.sp - n + 1 + n] == p.s.mem[p.r.sp + 1 - n..p.r.sp + 1];
    WrittenPut(p.s.mem, at, p.s.mem[p.r.sp + 1 - n..p.r.sp + 1]);
  }

  lemma Variables(p: Point)
    requires Ready(p)
    ensures Loads(p, 29, 1, p.r.pp, 1) && Loads(p, 30, 1, p.r.pp + 1, 1)
    ensures Loads(p, 31, 1, p.r.pp + 2, 1) && Loads(p, 32, 1, p.r.pp + 3, 1)
    ensures Loads(p, 33, 2, p.r.pp + U1(p, 1), 1) && Loads(p, 34, 2, p.r.pp + U1(p, 1), 2)
    ensures Stores(p, 35, 2, p.r.pp + U1(p, 1), 1) && Stores(p, 36, 2, p.r.pp + U1(p, 1), 2)
    ensures Loads(p, 37, 1, p.r.lp, 1) && Loads(p, 38, 1, p.r.lp + 1, 1) && Loads(p, 39, 1, p.r.lp + 2, 1)
    ensures Loads(p, 40, 1, p.r.lp + 3, 1) && Loads(p, 41, 1, p.r.lp + 4, 1) && Loads(p, 42, 1, p.r.lp + 5, 1)
    ensures Loads(p, 43, 1, p.r.lp + 6, 1) && Loads(p, 44, 1, p.r.lp + 7, 1)
    ensures Loads(p, 45, 2, p.r.lp + U1(p, 1), 1) && Loads(p, 46, 2, p.r.lp + U1(p, 1), 2)
    ensures Stores(p, 47, 1, p.r.lp, 1) && Stores(p, 48, 1, p.r.lp + 1, 1) && Stores(p, 49, 1, p.r.lp + 2, 1)
    ensures Stores(p, 50, 1, p.r.lp + 3, 1) && Stores(p, 51, 1, p.r.lp + 4, 1) && Stores(p, 52, 1, p.r.lp + 5, 1)
    ensures Stores(p, 53, 1, p.r.lp + 6, 1) && Stores(p, 54, 1, p.r.lp + 7, 1)
    ensures Stores(p, 55, 2, p.r.lp + U1(p, 1), 1) && Stores(p, 56, 2, p.r.lp + U1(p, 1), 2)
  {
    hide Goes, Ready, Operand, Written, F.Step, ImageAt;
    InCode(p);
    var op, l := U1(p, 0), Decode(p.y, p.code, p.r.cp);
    OneByte(p.code, p.r.cp + 1);
    if 29 <= op <= 56 {
      var at := VariableAt(p, l.instr);
      if 0 <= at && at + l.instr.width <= |p.s.mem| {
        if l.instr.LoadVar? { LoadDoes(p, l, at, l.instr.width); } else { StoreDoes(p, l, at, l.instr.width); }
      }
    }
  }

  // ----- 57 to 94, 118, 120, 129 to 132: numbers

  function Truth(b: bool): seq<int> { if b then [1] else [0] }

  /** Division as C rounds it, towards zero. */
  function Quotient(x: int, z: int): int
    requires z != 0
  {
    var m, n := if x < 0 then -x else x, if z < 0 then -z else z;
    if (x < 0) == (z < 0) then m / n else -(m / n)
  }

  function Remainder(x: int, z: int): int
    requires z != 0
  {
    var m, n := if x < 0 then -x else x, if z < 0 then -z else z;
    if x < 0 then -(m % n) else m % n
  }

  /** Bit k in two's complement. */
  predicate Bit(v: int, k: nat) { v / Pow2(k) % 2 == 1 }

  lemma OperateDoes(p: Point, d: Data, len: int, ws: seq<int>)
    requires Ready(p) && Decode(p.y, p.code, p.r.cp) == Line(Operate(d), p.r.cp + len)
    requires DataPops(d) <= 4 && |ws| == DataPushes(d) <= DataPops(d) + 2
    requires PointerDepth(d) < 4 && (PointerDepth(d) >= 0 ==> Top(p, PointerDepth(d)) != 0)
    requires Evaluate(d, Args(p, DataPops(d)), p.s.w, p.h.fpu, b => BlockCell(p.y, b)) == Some((ws, p.s.w))
    ensures Goes(p, DataPops(d), ws, p.r.cp + len)
  {
    hide Decode, Int32, Evaluate, R.ImageOf, F.Step, Written, PointerDepth, DataPops, DataPushes;
    Loaded(p);
    SimpleGoes(p, Line(Operate(d), p.r.cp + len), ws, p.r.cp + len, p.s.w);
  }

  lemma NumberDoes(p: Point, d: Data, ws: seq<int>)
    requires Ready(p) && Decode(p.y, p.code, p.r.cp) == Line(Operate(d), p.r.cp + 1) && OnNumbers(d)
    requires DataPops(d) <= 4 && |ws| == DataPushes(d) <= DataPops(d) + 2 && PointerDepth(d) == -1
    requires EvalNumber(d, Args(p, DataPops(d)), p.s.w, p.h.fpu) == Some((ws, p.s.w))
    ensures Goes(p, DataPops(d), ws, p.r.cp + 1)
  {
    hide Decode, Int32, EvalNumber, Goes, Ready, DataPops, DataPushes;
    assert DataPops(d) <= p.r.sp + 1 <= |p.s.mem| by { Room(p); }
    OperateDoes(p, d, 1, ws);
  }

  lemma Room(p: Point)
    requires Ready(p)
    ensures 4 <= p.r.sp + 1 && p.r.sp + 2 < |p.s.mem|
  {
  }

  lemma ArgCells(p: Point)
    requires Ready(p)
    ensures Args(p, 1) == [Top(p, 0)] && Args(p, 2) == [Top(p, 1), Top(p, 0)]
    ensures Args(p, 3) == [Top(p, 2), Top(p, 1), Top(p, 0)]
    ensures Args(p, 4) == [Top(p, 3), Top(p, 2), Top(p, 1), Top(p, 0)]
  {
    hide Int32;
  }

  lemma IntCompares(p: Point)
    requires Ready(p)
    ensures var x, z := Top(p, 1), Top(p, 0);
            && Does(p, 57, 1, 2, Truth(x == z)) && Does(p, 58, 1, 2, Truth(x != z)) && Does(p, 59, 1, 2, Truth(x > z))
            && Does(p, 60, 1, 2, Truth(x >= z)) && Does(p, 61, 1, 2, Truth(x < z)) && Does(p, 62, 1, 2, Truth(x <= z))
            && Does(p, 129, 1, 2, Truth(x == z)) && Does(p, 130, 1, 2, Truth(x != z))
  {
    hide Goes, Ready, Operand;
    InCode(p);
    Room(p);
    ArgCells(p);
    var op := U1(p, 0);
    if 57 <= op <= 62 || op == 129 || op == 130 {
      NumberDoes(p, Arithmetic(op), Truth(Compare(Arithmetic(op).cmp, Top(p, 1), Top(p, 0))));
    }
  }

  lemma ZeroTests(p: Point)
    requires Ready(p)
    ensures Does(p, 131, 1, 1, Truth(Top(p, 0) == 0)) && Does(p, 132, 1, 1, Truth(Top(p, 0) != 0))
  {
    hide Goes, Ready, Operand;
    InCode(p);
    Room(p);
    ArgCells(p);
    if U1(p, 0) == 131 { NumberDoes(p, Arithmetic(131), Truth(Top(p, 0) == 0)); }
    if U1(p, 0) == 132 { NumberDoes(p, Arithmetic(132), Truth(Top(p, 0) != 0)); }
  }

  /** Undefined in C. */
  ghost predicate Faults(p: Point, op: int) { U1(p, 0) == op ==> F.Step(ImageAt(p), p.s) == F.Fault }

  lemma NumberFaults(p: Point, d: Data)
    requires Ready(p) && Decode(p.y, p.code, p.r.cp) == Line(Operate(d), p.r.cp + 1) && OnNumbers(d)
    requires DataPops(d) <= 4 && PointerDepth(d) == -1 && DataPops(d) <= p.r.sp + 1 <= |p.s.mem|
    requires EvalNumber(d, Args(p, DataPops(d)), p.s.w, p.h.fpu) == None
    ensures F.Step(ImageAt(p), p.s) == F.Fault
  {
    hide Decode, Int32, EvalNumber, R.ImageOf, DataPops, DataPushes;
    Loaded(p);
    assert p.s.mem[p.r.sp - DataPops(d) + 1..p.r.sp + 1] == Args(p, DataPops(d));
  }

  lemma IntMath(p: Point)
    requires Ready(p)
    ensures var x, z := Top(p, 1), Top(p, 0);
            && Does(p, 63, 1, 2, [Int32(x * z)]) && Does(p, 66, 1, 2, [Int32(x + z)])
            && Does(p, 67, 1, 2, [Int32(x - z)])
    ensures var x := Top(p, 0);
            && Does(p, 71, 1, 1, [-1 - x]) && Does(p, 72, 1, 1, [Int32(-x)]) && Does(p, 75, 1, 1, [Int32(x + 1)])
            && Does(p, 76, 1, 1, [Int32(x - 1)])
  {
    hide Goes, Ready, Operand, Int32, Wrap32;
    InCode(p);
    Room(p);
    ArgCells(p);
    var op, x, z := U1(p, 0), Top(p, 1), Top(p, 0);
    Cut(x * z);
    Cut(x + z);
    Cut(x - z);
    Cut(-z);
    Cut(z + 1);
    Cut(z - 1);
    if op == 63 { NumberDoes(p, Arithmetic(63), [Int32(x * z)]); }
    if op == 66 { NumberDoes(p, Arithmetic(66), [Int32(x + z)]); }
    if op == 67 { NumberDoes(p, Arithmetic(67), [Int32(x - z)]); }
    if op == 71 { NumberDoes(p, Arithmetic(71), [-1 - z]); }
    if op == 72 { NumberDoes(p, Arithmetic(72), [Int32(-z)]); }
    if op == 75 { NumberDoes(p, Arithmetic(75), [Int32(z + 1)]); }
    if op == 76 { NumberDoes(p, Arithmetic(76), [Int32(z - 1)]); }
  }

  lemma QuotientIs(x: int, z: int, min: int)
    requires z != 0 && !(x == min && z == -1)
    ensures Binary(Div, x, z, min) == Some(Quotient(x, z)) && Binary(Mod, x, z, min) == Some(Remainder(x, z))
  {
    var m, n := if x < 0 then -x else x, if z < 0 then -z else z;
    assert m == n * (m / n) + m % n;
    NegativeDivisor(m, z);
    if z < 0 {
      assert z * -(m / n) == n * (m / n);
      assert z * (m / n) == -(n * (m / n));
    }
  }

  lemma NegativeDivisor(m: nat, z: int)
    requires z != 0
    ensures m / z == if z < 0 then -(m / -z) else m / z
  {
    if z < 0 {
      var q, r := m / -z, m % -z;
      assert m == -z * q + r;
      assert -z * q == z * -q;
    }
  }

  lemma Division(p: Point)
    requires Ready(p)
    ensures var x, z := Top(p, 1), Top(p, 0);
            if z == 0 || (x == -0x8000_0000 && z == -1) then Faults(p, 64) && Faults(p, 65)
            else Does(p, 64, 1, 2, [Int32(Quotient(x, z))]) && Does(p, 65, 1, 2, [Int32(Remainder(x, z))])
  {
    hide Goes, Ready, Operand, Int32, Wrap32, Quotient, Remainder, TruncDiv;
    InCode(p);
    Room(p);
    ArgCells(p);
    var op, x, z := U1(p, 0), Top(p, 1), Top(p, 0);
    if z == 0 || (x == -0x8000_0000 && z == -1) {
      if op == 64 { NumberFaults(p, Arithmetic(64)); }
      if op == 65 { NumberFaults(p, Arithmetic(65)); }
    } else {
      QuotientIs(x, z, -0x8000_0000);
      Cut(Quotient(x, z));
      Cut(Remainder(x, z));
      if op == 64 { NumberDoes(p, Arithmetic(64), [Int32(Quotient(x, z))]); }
      if op == 65 { NumberDoes(p, Arithmetic(65), [Int32(Remainder(x, z))]); }
    }
  }

  lemma Shifts(p: Point)
    requires Ready(p)
    ensures var x, n := Top(p, 1), Top(p, 0);
            if 0 <= n < 32 then Does(p, 73, 1, 2, [Int32(x * Pow2(n))]) && Does(p, 74, 1, 2, [Int32(x / Pow2(n))])
            else Faults(p, 73) && Faults(p, 74)
  {
    hide Goes, Ready, Operand, Int32, Wrap32, Pow2;
    InCode(p);
    Room(p);
    ArgCells(p);
    var op, x, n := U1(p, 0), Top(p, 1), Top(p, 0);
    if 0 <= n < 32 {
      Cut(x * Pow2(n));
      Cut(x / Pow2(n));
      if op == 73 { NumberDoes(p, Arithmetic(73), [Int32(x * Pow2(n))]); }
      if op == 74 { NumberDoes(p, Arithmetic(74), [Int32(x / Pow2(n))]); }
    } else {
      if op == 73 { NumberFaults(p, Arithmetic(73)); }
      if op == 74 { NumberFaults(p, Arithmetic(74)); }
    }
  }

  // ----- bit by bit

  /** The low n bits of w are those of x and z combined. */
  predicate Combined(f: (bool, bool) -> bool, w: int, x: int, z: int, n: nat) {
    forall k: nat | k < n :: Bit(w, k) == f(Bit(x, k), Bit(z, k))
  }

  lemma BitUp(v: int, k: nat)
    requires k > 0
    ensures Bit(v, k) == Bit(v / 2, k - 1)
  {
    var d, q := Pow2(k - 1), v / 2 / Pow2(k - 1);
    assert v == 2 * (q * d + v / 2 % d) + v % 2 == q * (2 * d) + (2 * (v / 2 % d) + v % 2);
    DividesTo(v, 2 * d, q, 2 * (v / 2 % d) + v % 2);
  }

  lemma DividesTo(v: int, d: int, q: int, rest: int)
    requires d > 0 && v == q * d + rest && 0 <= rest < d
    ensures v / d == q
  {
    Unique(v, d, q, rest);
    Multiple(v / d - q, d);
    Scaled(v / d, q, d);
  }

  lemma Scaled(a: int, b: int, d: int)
    ensures (a - b) * d == a * d - b * d
  {
  }

  lemma {:induction false} BitwiseBit(f: (bool, bool) -> bool, x: int, z: int, n: nat, k: nat)
    requires k < n
    ensures Bit(Bitwise(f, x, z, n), k) == f(Bit(x, k), Bit(z, k))
    decreases n
  {
    var w := Bitwise(f, x, z, n);
    assert w / 2 == Bitwise(f, x / 2, z / 2, n - 1);
    if k == 0 {
      LowBit(w);
      LowBit(x);
      LowBit(z);
    } else {
      BitUp(w, k);
      BitUp(x, k);
      BitUp(z, k);
      BitwiseBit(f, x / 2, z / 2, n - 1, k - 1);
    }
  }

  lemma LowBit(v: int)
    ensures Bit(v, 0) == (v % 2 == 1)
  {
  }

  /** Whole multiples of 2^n do not touch the low n bits. */
  lemma {:induction false} LowBits(v: int, q: int, n: nat, k: nat)
    requires k < n
    ensures Bit(v + q * Pow2(n), k) == Bit(v, k)
    decreases n
  {
    hide Bit;
    var d := q * Pow2(n - 1);
    Doubled(q, n);
    Halved(v, d);
    if k == 0 {
      LowBit(v);
      LowBit(v + 2 * d);
    } else {
      BitUp(v, k);
      BitUp(v + 2 * d, k);
      LowBits(v / 2, q, n - 1, k - 1);
    }
  }

  lemma Doubled(q: int, n: nat)
    requires n > 0
    ensures q * Pow2(n) == 2 * (q * Pow2(n - 1))
  {
  }

  lemma Halved(v: int, d: int)
    ensures (v + 2 * d) / 2 == v / 2 + d && (v + 2 * d) % 2 == v % 2
  {
  }

  lemma {:induction false} PowSum(a: nat, b: nat)
    ensures Pow2(a + b) == Pow2(a) * Pow2(b)
    decreases a
  {
    if a > 0 {
      PowSum(a - 1, b);
      assert Pow2(a + b) == 2 * (Pow2(a - 1) * Pow2(b)) == 2 * Pow2(a - 1) * Pow2(b);
    }
  }

  lemma PowFour()
    ensures Pow2(4) == 16
  {
    assert Pow2(2) == 4;
  }

  lemma PowWords()
    ensures Pow2(32) == 0x1_0000_0000 && Pow2(64) == 0x1_0000_0000_0000_0000
  {
    hide Pow2;
    PowFour();
    PowSum(4, 4);
    PowSum(8, 8);
    PowSum(16, 16);
    PowSum(32, 32);
  }

  /** Cutting to 32 bits keeps the low 32 bits. */
  lemma CutKeepsBits(v: int)
    ensures forall k: nat | k < 32 :: Bit(Int32(v), k) == Bit(v, k)
  {
    hide Bit;
    var q := (v - Int32(v)) / 0x1_0000_0000;
    assert v == Int32(v) + q * 0x1_0000_0000;
    PowWords();
    forall k: nat | k < 32
      ensures Bit(Int32(v), k) == Bit(v, k)
    {
      LowBits(Int32(v), q, 32, k);
    }
  }

  lemma WordCombined(g: (bool, bool) -> bool, f: (bool, bool) -> bool, x: int, z: int)
    requires forall a, b :: f(a, b) == g(a, b)
    ensures Combined(f, Int32(Bitwise(g, x, z, 64)), x, z, 32)
  {
    hide Bit, Bitwise, Int32;
    CutKeepsBits(Bitwise(g, x, z, 64));
    forall k: nat | k < 32
      ensures Bit(Int32(Bitwise(g, x, z, 64)), k) == f(Bit(x, k), Bit(z, k))
    {
      BitwiseBit(g, x, z, 64, k);
    }
  }

  /** A 32-bit word combined bit by bit. */
  ghost predicate DoesBits(p: Point, op: int, f: (bool, bool) -> bool) {
    exists w :: Int32(w) == w && Combined(f, w, Top(p, 1), Top(p, 0), 32) && Does(p, op, 1, 2, [w])
  }

  lemma BitsDo(p: Point, op: int, b: Bin, g: (bool, bool) -> bool, f: (bool, bool) -> bool)
    requires Ready(p) && 68 <= op <= 70 && Arithmetic(op) == IntBin(b) && forall a, b :: f(a, b) == g(a, b)
    requires Binary(b, Top(p, 1), Top(p, 0), -0x8000_0000) == Some(Bitwise(g, Top(p, 1), Top(p, 0), 64))
    ensures DoesBits(p, op, f)
  {
    hide Goes, Ready, Operand, Bitwise, Combined, Binary, Wrap32, Int32;
    InCode(p);
    Room(p);
    ArgCells(p);
    var v := Bitwise(g, Top(p, 1), Top(p, 0), 64);
    WordCombined(g, f, Top(p, 1), Top(p, 0));
    Cut(v);
    CutTwice(v);
    if U1(p, 0) == op { NumberDoes(p, Arithmetic(op), [Int32(v)]); }
    assert Does(p, op, 1, 2, [Int32(v)]);
  }

  lemma CutTwice(v: int)
    ensures Int32(Int32(v)) == Int32(v)
  {
  }

  lemma IntBits(p: Point)
    requires Ready(p)
    ensures DoesBits(p, 68, (a: bool, b: bool) => a || b) && DoesBits(p, 69, (a: bool, b: bool) => a != b)
            && DoesBits(p, 70, (a: bool, b: bool) => a && b)
  {
    hide Ready, Bitwise, DoesBits;
    BitsDo(p, 68, Or, Either, (a: bool, b: bool) => a || b);
    BitsDo(p, 69, Xor, Differ, (a: bool, b: bool) => a != b);
    BitsDo(p, 70, And, Both, (a: bool, b: bool) => a && b);
  }
}
