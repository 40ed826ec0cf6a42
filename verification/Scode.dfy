/** From the bytes of a code image to the instructions the machines run. */
module Scode {
  import opened Alu
  import opened Options
  import opened Bytes
  import opened Image

  /** Where the image lies in memory; a block index counts units of `blockSize` bytes. */
  datatype Layout = Layout(codeBase: int, dataBase: int, stackBase: int, stackMax: nat, blockSize: nat)

  function Operand(code: seq<Byte>, at: int, width: nat): (v: nat)
    decreases width
  {
    if width == 0 || !(0 <= at < |code|) then 0 else code[at] + 256 * Operand(code, at + 1, width - 1)
  }

  function Signed8(code: seq<Byte>, at: int): int {
    var v := Operand(code, at, 1);
    if v < 0x80 then v else v - 0x100
  }

  function Signed16(code: seq<Byte>, at: int): int {
    var v := Operand(code, at, 2);
    if v < 0x8000 then v else v - 0x1_0000
  }

  function BlockCell(y: Layout, block: int): int { Wrap32(y.codeBase + y.blockSize * block) }

  /** The word stored in the code image at a block, `skip` bytes in. */
  function BlockWord(y: Layout, code: seq<Byte>, block: int, skip: int): int {
    Wrap32(Operand(code, y.blockSize * block + skip, 4))
  }

  function CmpOf(k: int): Cmp {
    if k == 0 then Eq else if k == 1 then NotEq else if k == 2 then Gt else if k == 3 then GtEq
    else if k == 4 then Lt else LtEq
  }

  function BinOf(k: int): Bin {
    if k == 0 then Mul else if k == 1 then Div else if k == 2 then Mod else if k == 3 then Add
    else if k == 4 then Sub else if k == 5 then Or else if k == 6 then Xor else And
  }

  /** Opcodes 0 to 27: literals. */
  function Literal(y: Layout, code: seq<Byte>, pc: int, op: int): Line {
    var u2 := Operand(code, pc + 1, 2);
    if op == 0 then Line(Const([]), pc + 1)
    else if op <= 7 then Line(Const([op - 2]), pc + 1)
    else if op == 8 then Line(Const([Operand(code, pc + 1, 1)]), pc + 2)
    else if op == 9 then Line(Const([u2]), pc + 3)
    else if op == 10 || op == 14 then Line(Const([0, 0]), pc + 1)
    else if op == 11 then Line(Const([1, 0]), pc + 1)
    else if op == 12 || op == 16 then Line(Const([0]), pc + 1)
    else if op == 13 then Line(Const([0x3F80_0000]), pc + 1)
    else if op == 15 then Line(Const([0, 0x3FF0_0000]), pc + 1)
    else if op == 17 then Line(Const([2]), pc + 1)
    else if op == 18 then Line(Const([0x7FC0_0000]), pc + 1)
    else if op == 19 then Line(Const([0, 0x7FF8_0000]), pc + 1)
    else if op <= 21 then Line(Const([BlockWord(y, code, u2, 0)]), pc + 3)
    else if op <= 23 then Line(Const([BlockWord(y, code, u2, 0), BlockWord(y, code, u2, 4)]), pc + 3)
    else Line(Const([BlockCell(y, u2)]), pc + 3)
  }

  /** Opcodes 29 to 56: parameters and locals. */
  function Variable(code: seq<Byte>, pc: int, op: int): Line
    requires 29 <= op <= 56
  {
    var u1 := Operand(code, pc + 1, 1);
    if op <= 32 then Line(LoadVar(false, op - 29, 1), pc + 1)
    else if op <= 34 then Line(LoadVar(false, u1, op - 32), pc + 2)
    else if op <= 36 then Line(StoreVar(false, u1, op - 34), pc + 2)
    else if op <= 44 then Line(LoadVar(true, op - 37, 1), pc + 1)
    else if op <= 46 then Line(LoadVar(true, u1, op - 44), pc + 2)
    else if op <= 54 then Line(StoreVar(true, op - 47, 1), pc + 1)
    else Line(StoreVar(true, u1, op - 54), pc + 2)
  }

  /** Opcodes 57 to 141: arithmetic, comparison, conversion and stack manipulation. */
  function Arithmetic(op: int): Data
    requires 57 <= op <= 141
  {
    if op <= 62 then IntCmp(CmpOf(op - 57))
    else if op <= 70 then IntBin(BinOf(op - 63))
    else if op == 71 then IntNot
    else if op == 72 then IntNeg
    else if op == 73 then IntShift(ShiftL)
    else if op == 74 then IntShift(ShiftR)
    else if op == 75 then IntAddK(1)
    else if op == 76 then IntAddK(-1)
    else if op <= 82 then LongCmp(CmpOf(op - 77))
    else if op <= 90 then LongBin(BinOf(op - 83))
    else if op == 91 then LongNot
    else if op == 92 then LongNeg
    else if op == 93 then LongShift(ShiftL)
    else if op == 94 then LongShift(ShiftR)
    else if op == 118 then IntToLong
    else if op == 120 then LongToInt
    else if op <= 104 then Float(op, 2, 1)
    else if op == 105 then Float(op, 1, 1)
    else if op <= 111 then Float(op, 4, 1)
    else if op <= 115 then Float(op, 4, 2)
    else if op == 116 || op == 122 || op == 127 then Float(op, 2, 2)
    else if op == 117 || op == 123 then Float(op, 1, 1)
    else if op == 119 || op == 124 || op == 125 then Float(op, 1, 2)
    else if op <= 128 then Float(op, 2, 1)
    else if op == 129 then IntCmp(Eq)
    else if op == 130 then IntCmp(NotEq)
    else if op <= 132 then ZeroTest(op == 131)
    else if op <= 135 then Shuffle(op - 132, [])
    else if op == 136 then Shuffle(1, [0, 0])
    else if op == 137 then Shuffle(2, [0, 1, 0, 1])
    else if op == 138 then Shuffle(2, [1, 0, 1])
    else if op == 139 then Shuffle(3, [2, 0, 1, 2])
    else if op == 140 then Shuffle(3, [1, 2, 0, 1, 2])
    else Shuffle(4, [2, 3, 0, 1, 2, 3])
  }

  /** Opcodes 142 to 161: branches, near (8-bit offset) and far (16-bit). */
  function Branch(code: seq<Byte>, pc: int, op: int): Line {
    var near := pc + Signed8(code, pc + 1);
    var far := pc + Signed16(code, pc + 1);
    if op == 142 then Line(Jump(near), pc + 2)
    else if op <= 144 then Line(JumpIf(op == 144, near), pc + 2)
    else if op == 145 then Line(Foreach(near), pc + 2)
    else if op == 146 then Line(Jump(far), pc + 3)
    else if op <= 148 then Line(JumpIf(op == 148, far), pc + 3)
    else if op == 149 then Line(Foreach(far), pc + 3)
    else if op <= 155 then Line(JumpCmp(CmpOf(op - 150), near), pc + 2)
    else Line(JumpCmp(CmpOf(op - 156), far), pc + 3)
  }

  /** Bytes of a field-offset operand: U1, U2 or U4. */
  function OffsetBytes(k: int): nat { if k == 0 then 1 else if k == 1 then 2 else 4 }

  /** Opcodes 163 to 207 come in groups of nine, one per width: three field loads, the array load,
      three field stores, the array store and the array address. */
  function Storage(code: seq<Byte>, pc: int, op: int): Line
    requires 163 <= op <= 207
  {
    var k := (op - 163) % 9;
    var width := if op < 172 then 1 else if op < 181 then 2 else if op < 190 then 4 else if op < 199 then 8 else 4;
    if k <= 2 then Line(Operate(LoadField(width, Operand(code, pc + 1, OffsetBytes(k)))), pc + 1 + OffsetBytes(k))
    else if k == 3 then Line(Operate(LoadElem(width)), pc + 1)
    else if k <= 6 then
      Line(Operate(StoreField(width, Operand(code, pc + 1, OffsetBytes(k - 4)))), pc + 1 + OffsetBytes(k - 4))
    else if k == 7 then Line(Operate(StoreElem(width)), pc + 1)
    else Line(Operate(AddElem(width)), pc + 1)
  }

  /** Opcodes 208 to 220: constant and inline fields. */
  function Inlined(y: Layout, code: seq<Byte>, pc: int, op: int): Line {
    var u2 := Operand(code, pc + 1, 2);
    if op <= 209 then
      Line(Operate(ConstField(Operand(code, pc + 1, OffsetBytes(op - 208)))), pc + 1 + OffsetBytes(op - 208))
    else if op == 210 then Line(Const([BlockOrNull(u2, b => BlockCell(y, b))]), pc + 3)
    else if op == 211 then Line(Operate(ConstElem), pc + 1)
    else
      var n := OffsetBytes((op - 212) % 3);
      var off := Operand(code, pc + 1, n);
      Line(if op <= 214 then Operate(Inline(off)) else if op <= 217 then InlineParam0(off)
           else Const([Wrap32(y.dataBase + off)]), pc + 1 + n)
  }

  function Switches(code: seq<Byte>, pc: int): (l: Line)
    ensures Simple(l.instr)
  {
    var n := Operand(code, pc + 1, 2);
    Line(Switch(seq(n, k => pc + Signed16(code, pc + 3 + 2 * k))), pc + 3 + 2 * n)
  }

  /** Opcodes 221 to 236: calls, returns and the rest. */
  function Transfer(y: Layout, code: seq<Byte>, pc: int, op: int): Line {
    var u2 := Operand(code, pc + 1, 2);
    var kit, id, argc := Operand(code, pc + 1, 1), Operand(code, pc + 2, 1), Operand(code, pc + 3, 1);
    if op == 221 || op == 229 then Line(Call(op == 229, y.blockSize * u2), pc + 3)
    else if op == 222 then Line(CallVirtual(u2, argc), pc + 4)
    else if op == 223 then Line(CallNative(kit, id, argc, 1), pc + 4)
    else if op == 224 then Line(CallNative(kit, id, argc, 2), pc + 4)
    else if op == 225 then Line(CallNative(kit, id, argc, 0), pc + 4)
    else if 226 <= op <= 228 then Line(Return(op - 226), pc + 1)
    else if op == 230 then Line(Operate(InitRefs), pc + 1)
    else if op == 231 then Line(Operate(InitHalf(0, u2)), pc + 3)
    else if op == 232 then Line(Operate(InitHalf(2, u2)), pc + 3)
    else if op == 234 then Line(Assert, pc + 3)
    else if op == 235 then Switches(code, pc)
    else if op == 236 then Line(Const([]), pc + 3)
    else Line(Unknown, pc + 1)
  }

  function Decode(y: Layout, code: seq<Byte>, pc: int): Line
    requires 0 <= pc < |code|
  {
    var op := code[pc];
    if op <= 27 then Literal(y, code, pc, op)
    else if op == 28 then Line(Unknown, pc + 1)
    else if op <= 56 then Variable(code, pc, op)
    else if op <= 141 then Line(Operate(Arithmetic(op)), pc + 1)
    else if op <= 161 then Branch(code, pc, op)
    else if op == 162 then Line(Const([Wrap32(y.dataBase)]), pc + 1)
    else if op <= 207 then Storage(code, pc, op)
    else if op <= 220 then Inlined(y, code, pc, op)
    else Transfer(y, code, pc, op)
  }

  /** vtable lookup: the object's first half-word is its vtable's block, the slot holds the method's block. */
  function Resolve(y: Layout, code: seq<Byte>, w: World, this_: int, slot: int): int {
    var vtable := GetUnsigned(w.heap, this_, 2);
    y.blockSize * Operand(code, y.blockSize * vtable + 2 * slot, 2)
  }

  function HeadAt(code: seq<Byte>, m: int): Head
    requires 0 <= m < |code| - 1
  {
    Head(code[m], code[m + 1])
  }

  /** The data instructions of a layout. */
  function Unit(y: Layout, fpu: (int, seq<int>) -> seq<int>)
    : (Data, seq<int>, World) -> Option<(seq<int>, World)>
  {
    (d: Data, a: seq<int>, w: World) =>
      if |a| == DataPops(d) then Evaluate(d, a, w, fpu, b => BlockCell(y, b)) else None
  }

  /** The image a code segment loads to, with the float unit and the native table as parameters. */
  function LoadImage(y: Layout, code: seq<Byte>, fpu: (int, seq<int>) -> seq<int>,
                     hasNative: (int, int) -> bool, native: (int, int, seq<int>, World) -> Act): Image {
    Image(map pc: int | 0 <= pc < |code| :: Decode(y, code, pc),
          map m: int | 0 <= m < |code| - 1 :: HeadAt(code, m),
          y.codeBase, y.stackBase, y.stackMax,
          Unit(y, fpu), (w: World, this_: int, slot: int) => Resolve(y, code, w, this_, slot),
          hasNative, native)
  }

  predicate Small(l: Line, pc: int) {
    && (Simple(l.instr) ==> Pops(l.instr) <= 4 && forall f | f in Flows(l) :: f.1 <= 6)
    && (l.instr.LoadVar? || l.instr.StoreVar? ==> 1 <= l.instr.width <= 2)
    && (l.instr.Return? || l.instr.CallNative? ==> l.instr.results <= 2)
    && (l.instr.CallNative? || l.instr.CallVirtual? ==> l.instr.argc <= 255)
    && PointerDepthOf(l.instr) < (if Simple(l.instr) then Pops(l.instr) else 0)
    && pc < l.next
  }

  /** Every decoded instruction is small: at most four operands and six pushed cells, one or two cells
      per variable, at most two result cells. So the size clauses of well-formedness always hold. */
  lemma DecodedIsSmall(y: Layout, code: seq<Byte>, pc: int)
    requires 0 <= pc < |code|
    ensures Small(Decode(y, code, pc), pc)
  {
    hide Small, Literal, Variable, Branch, Storage, Inlined, Transfer, Arithmetic, DataPops, DataPushes, PointerDepth;
    var op := code[pc];
    if op <= 27 { LiteralSmall(y, code, pc, op); }
    else if op <= 56 { VariableSmall(code, pc, op); }
    else if op <= 141 { ArithmeticSmall(op, pc); }
    else if op <= 161 { BranchSmall(code, pc, op); }
    else if op == 162 { LiteralSmall(y, code, pc, op); }
    else if op <= 207 { StorageSmall(code, pc, op); }
    else if op <= 220 { InlinedSmall(y, code, pc, op); }
    else { ControlSmall(y, code, pc, op); }
  }

  lemma LiteralSmall(y: Layout, code: seq<Byte>, pc: int, op: int)
    ensures op <= 27 ==> Small(Literal(y, code, pc, op), pc)
    ensures Small(Line(Unknown, pc + 1), pc) && Small(Line(Const([Wrap32(y.dataBase)]), pc + 1), pc)
  {
  }

  lemma VariableSmall(code: seq<Byte>, pc: int, op: int)
    requires op <= 56
    ensures 29 <= op ==> Small(Variable(code, pc, op), pc)
    ensures Small(Line(Unknown, pc + 1), pc)
  {
  }

  lemma ArithmeticSmall(op: int, pc: int)
    requires 57 <= op <= 141
    ensures Small(Line(Operate(Arithmetic(op)), pc + 1), pc)
  {
    var d := Arithmetic(op);
    assert DataPops(d) <= 4 && DataPushes(d) <= 6 && PointerDepth(d) == -1;
  }

  lemma BranchSmall(code: seq<Byte>, pc: int, op: int)
    ensures Small(Branch(code, pc, op), pc)
  {
    hide Signed8, Signed16;
  }

  lemma StorageSmall(code: seq<Byte>, pc: int, op: int)
    requires 163 <= op <= 207
    ensures Small(Storage(code, pc, op), pc)
  {
    hide Operand;
  }

  lemma InlinedSmall(y: Layout, code: seq<Byte>, pc: int, op: int)
    ensures Small(Inlined(y, code, pc, op), pc)
  {
    hide Operand, BlockCell;
  }

  lemma ControlSmall(y: Layout, code: seq<Byte>, pc: int, op: int)
    ensures Small(Transfer(y, code, pc, op), pc)
  {
    OperandByte(code, pc + 3);
    hide Operand, Signed16;
  }

  lemma OperandByte(code: seq<Byte>, at: int)
    ensures Operand(code, at, 1) <= 255
  {
    assert Operand(code, at + 1, 0) == 0;
  }
}
