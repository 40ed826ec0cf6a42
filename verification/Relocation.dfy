/** The expansion in bytes: what the bytes of an instruction become at its new place, and that they decode to its base
    sequence with all code addresses moved. */
module Relocation {
  import opened Alu
  import opened Bytes
  import opened Image
  import opened FrameMachine
  import opened Scode
  import opened Fusion

  // ----- bytes

  /** The low two bytes, low one first. */
  function Half(v: int): (s: seq<Byte>)
    ensures |s| == 2
  {
    [v % 0x100, v / 0x100 % 0x100]
  }

  predicate Sits(code: seq<Byte>, at: int, s: seq<Byte>) {
    0 <= at && at + |s| <= |code| && code[at..at + |s|] == s
  }

  lemma SitsAt(code: seq<Byte>, at: int, s: seq<Byte>, k: nat)
    requires Sits(code, at, s) && k < |s|
    ensures code[at + k] == s[k]
  {
    assert code[at..at + |s|][k] == s[k];
  }

  lemma SitsPart(code: seq<Byte>, at: int, s: seq<Byte>, i: nat, t: seq<Byte>)
    requires Sits(code, at, s) && i + |t| <= |s| && s[i..i + |t|] == t
    ensures Sits(code, at + i, t)
  {
    forall k | 0 <= k < |t|
      ensures code[at + i + k] == t[k]
    {
      assert s[i..i + |t|][k] == s[i + k] == code[at..at + |s|][i + k];
    }
  }

  lemma {:induction false} OperandSits(code: seq<Byte>, at: int, s: seq<Byte>, was: seq<Byte>, pc: int, width: nat)
    requires Sits(code, at, s) && Sits(was, pc, s) && width <= |s|
    ensures Operand(code, at, width) == Operand(was, pc, width)
    decreases width
  {
    if width > 0 {
      SitsAt(code, at, s, 0);
      SitsAt(was, pc, s, 0);
      SitsPart(code, at, s, 1, s[1..]);
      SitsPart(was, pc, s, 1, s[1..]);
      OperandSits(code, at + 1, s[1..], was, pc + 1, width - 1);
    }
  }

  lemma HalfOperand(code: seq<Byte>, at: int, v: int)
    requires Sits(code, at, Half(v))
    ensures Operand(code, at, 2) == v % 0x1_0000
  {
    SitsAt(code, at, Half(v), 0);
    SitsAt(code, at, Half(v), 1);
    assert Operand(code, at + 2, 0) == 0;
    assert Operand(code, at + 1, 1) == code[at + 1];
    assert Operand(code, at, 2) == code[at] as int + 0x100 * code[at + 1] as int;
    HalfValue(v);
  }

  lemma HalfValue(v: int)
    ensures v % 0x100 + 0x100 * (v / 0x100 % 0x100) == v % 0x1_0000
  {
    var q, r := v / 0x100, v % 0x100;
    var d := q / 0x100;
    assert v == d * 0x1_0000 + (0x100 * (q % 0x100) + r);
  }

  lemma HalfSigned(code: seq<Byte>, at: int, v: int)
    requires Sits(code, at, Half(v)) && -0x8000 <= v < 0x8000
    ensures Signed16(code, at) == v
  {
    HalfOperand(code, at, v);
  }

  lemma OneOperand(code: seq<Byte>, at: int)
    requires 0 <= at < |code|
    ensures Operand(code, at, 1) == code[at]
  {
    assert Operand(code, at + 1, 0) == 0;
  }

  // ----- an instruction's bytes

  function Length(y: Layout, code: seq<Byte>, pc: int): nat
    requires 0 <= pc < |code|
  {
    DecodedIsSmall(y, code, pc);
    Decode(y, code, pc).next - pc
  }

  function Offsets(p: Plan, tos: seq<int>, at: int): seq<Byte> {
    seq(2 * |tos|, k requires 0 <= k < 2 * |tos| => Half(p.place(tos[k / 2]) - at)[k % 2])
  }

  predicate IsBranch(op: int) { 142 <= op <= 149 }

  /** A near branch becomes a far one. */
  function FarBranch(op: int): int
    requires IsBranch(op)
  {
    if op <= 145 then op + 4 else op
  }

  /** What the bytes of the instruction at pc become: short forms are spelled out, near branches made far, fused
      instructions split in two, and all offsets and method blocks rewritten. */
  function Item(y: Layout, code: seq<Byte>, p: Plan, pc: int): seq<Byte>
    requires 0 <= pc < |code| && pc + Length(y, code, pc) <= |code| && y.blockSize > 0
  {
    var op, at, i, n := code[pc], p.place(pc), Decode(y, code, pc).instr, Length(y, code, pc);
    if 29 <= op <= 32 then [33, op - 29]
    else if 37 <= op <= 44 then [45, op - 37]
    else if 47 <= op <= 54 then [55, op - 47]
    else if IsBranch(op) then [FarBranch(op)] + Half(p.place(i.to) - at)
    else if 150 <= op <= 161 then [57 + (op - 150) % 6, 147] + Half(p.place(i.to) - (at + 1))
    else if 215 <= op <= 217 then [29, op - 3] + code[pc + 1..pc + n]
    else if 218 <= op <= 220 then [162, op - 6] + code[pc + 1..pc + n]
    else if op == 221 then [221] + Half(p.meth(i.target) / y.blockSize)
    else if op == 229 then [29, 221] + Half(p.meth(i.target) / y.blockSize)
    else if op == 235 then code[pc..pc + 3] + Offsets(p, i.tos, at)
    else code[pc..pc + n]
  }

  predicate Near(v: int) { -0x8000 <= v < 0x8000 }

  predicate OnBlock(y: Layout, m: int)
    requires y.blockSize > 0
  {
    m % y.blockSize == 0 && 0 <= m / y.blockSize < 0x1_0000
  }

  /** The rewritten offsets and blocks fit their operands. */
  predicate Fits(y: Layout, code: seq<Byte>, p: Plan, pc: int)
    requires 0 <= pc < |code| && y.blockSize > 0
  {
    var op, at, i := code[pc], p.place(pc), Decode(y, code, pc).instr;
    if IsBranch(op) then Near(p.place(i.to) - at)
    else if 150 <= op <= 161 then Near(p.place(i.to) - (at + 1))
    else if op == 221 || op == 229 then OnBlock(y, p.meth(i.target))
    else if op == 235 then forall k | 0 <= k < |i.tos| :: Near(p.place(i.tos[k]) - at)
    else true
  }

  /** The constants that literals 20 to 23 read out of the code segment are where they were. */
  predicate ConstantsStay(y: Layout, code: seq<Byte>, code': seq<Byte>, pc: int)
    requires 0 <= pc < |code|
  {
    20 <= code[pc] <= 23 ==>
      var block := Operand(code, pc + 1, 2);
      && BlockWord(y, code', block, 0) == BlockWord(y, code, block, 0)
      && (22 <= code[pc] ==> BlockWord(y, code', block, 4) == BlockWord(y, code, block, 4))
  }

  // ----- instructions whose bytes stay

  /** The same n bytes at two places. */
  predicate Same(was: seq<Byte>, pc: int, code: seq<Byte>, at: int, n: nat) {
    0 <= pc && pc + n <= |was| && Sits(code, at, was[pc..pc + n])
  }

  lemma SameByte(was: seq<Byte>, pc: int, code: seq<Byte>, at: int, n: nat, k: nat)
    requires Same(was, pc, code, at, n) && k < n
    ensures 0 <= pc + k < |was| && 0 <= at + k < |code| && code[at + k] == was[pc + k]
  {
    SitsAt(code, at, was[pc..pc + n], k);
  }

  lemma SameOperand(was: seq<Byte>, pc: int, code: seq<Byte>, at: int, n: nat, k: nat, width: nat)
    requires Same(was, pc, code, at, n) && k + width <= n
    ensures Operand(code, at + k, width) == Operand(was, pc + k, width)
  {
    var s := was[pc..pc + n];
    var t := s[k..k + width];
    SitsPart(code, at, s, k, t);
    SitsPart(was, pc, s, k, t);
    OperandSits(code, at + k, t, was, pc + k, width);
  }

  lemma LiteralStays(y: Layout, was: seq<Byte>, pc: int, code: seq<Byte>, at: int, op: int)
    requires 0 <= pc < |was| && was[pc] == op <= 27 && Same(was, pc, code, at, Literal(y, was, pc, op).next - pc)
    requires ConstantsStay(y, was, code, pc)
    ensures var l := Literal(y, was, pc, op); Literal(y, code, at, op) == Line(l.instr, at + (l.next - pc))
  {
    hide Operand, BlockWord, Same, BlockCell;
    var n := Literal(y, was, pc, op).next - pc;
    if op == 8 { SameOperand(was, pc, code, at, n, 1, 1); }
    if n >= 3 { SameOperand(was, pc, code, at, n, 1, 2); }
  }

  lemma VariableStays(was: seq<Byte>, pc: int, code: seq<Byte>, at: int, op: int)
    requires 29 <= op <= 56 && Same(was, pc, code, at, Variable(was, pc, op).next - pc)
    ensures var l := Variable(was, pc, op); Variable(code, at, op) == Line(l.instr, at + (l.next - pc))
  {
    hide Operand, Same;
    var n := Variable(was, pc, op).next - pc;
    if n >= 2 { SameOperand(was, pc, code, at, n, 1, 1); }
  }

  lemma StorageStays(was: seq<Byte>, pc: int, code: seq<Byte>, at: int, op: int)
    requires 163 <= op <= 207 && Same(was, pc, code, at, Storage(was, pc, op).next - pc)
    ensures var l := Storage(was, pc, op); Storage(code, at, op) == Line(l.instr, at + (l.next - pc))
  {
    hide Operand, Same;
    var n := Storage(was, pc, op).next - pc;
    var k := (op - 163) % 9;
    if k <= 2 { SameOperand(was, pc, code, at, n, 1, OffsetBytes(k)); }
    else if 4 <= k <= 6 { SameOperand(was, pc, code, at, n, 1, OffsetBytes(k - 4)); }
  }

  lemma InlinedStays(y: Layout, was: seq<Byte>, pc: int, code: seq<Byte>, at: int, op: int)
    requires 208 <= op <= 220 && Same(was, pc, code, at, Inlined(y, was, pc, op).next - pc)
    ensures var l := Inlined(y, was, pc, op); Inlined(y, code, at, op) == Line(l.instr, at + (l.next - pc))
  {
    hide Operand, Same, BlockCell, Wrap32;
    var n := Inlined(y, was, pc, op).next - pc;
    if op <= 209 { SameOperand(was, pc, code, at, n, 1, OffsetBytes(op - 208)); }
    else if op == 210 { SameOperand(was, pc, code, at, n, 1, 2); }
    else if op >= 212 { SameOperand(was, pc, code, at, n, 1, OffsetBytes((op - 212) % 3)); }
  }

  predicate ControlKept(op: int) { 222 <= op && op != 229 && op != 235 }

  lemma ControlStays(y: Layout, was: seq<Byte>, pc: int, code: seq<Byte>, at: int, op: int)
    requires ControlKept(op) && Same(was, pc, code, at, Transfer(y, was, pc, op).next - pc)
    ensures var l := Transfer(y, was, pc, op); Transfer(y, code, at, op) == Line(l.instr, at + (l.next - pc))
  {
    hide Operand, Same, Switches;
    var n := Transfer(y, was, pc, op).next - pc;
    if n >= 3 { SameOperand(was, pc, code, at, n, 1, 2); }
    if n >= 4 {
      SameOperand(was, pc, code, at, n, 1, 1);
      SameOperand(was, pc, code, at, n, 2, 1);
      SameOperand(was, pc, code, at, n, 3, 1);
    }
  }

  /** Opcodes whose bytes are copied. */
  predicate Copied(op: int) {
    !(29 <= op <= 32) && !(37 <= op <= 44) && !(47 <= op <= 54) && !(142 <= op <= 161) && !(215 <= op <= 221)
    && op != 229 && op != 235
  }

  lemma CopyDecodes(y: Layout, was: seq<Byte>, pc: int, code: seq<Byte>, at: int)
    requires 0 <= pc < |was| && Copied(was[pc]) && Same(was, pc, code, at, Length(y, was, pc))
    requires ConstantsStay(y, was, code, pc)
    ensures 0 <= at < |code| && Decode(y, code, at) == Line(Decode(y, was, pc).instr, at + Length(y, was, pc))
  {
    hide Literal, Variable, Arithmetic, Branch, Storage, Inlined, Transfer, Same, ConstantsStay;
    var op := was[pc];
    DecodedIsSmall(y, was, pc);
    SameByte(was, pc, code, at, Length(y, was, pc), 0);
    if op <= 27 { LiteralStays(y, was, pc, code, at, op); }
    else if op == 28 { }
    else if op <= 56 { VariableStays(was, pc, code, at, op); }
    else if op <= 162 { }
    else if op <= 207 { StorageStays(was, pc, code, at, op); }
    else if op <= 220 { InlinedStays(y, was, pc, code, at, op); }
    else { ControlStays(y, was, pc, code, at, op); }
  }

  // ----- instructions that are rewritten

  /** A one-byte opcode with a one-byte operand. */
  lemma ShortDecodes(y: Layout, code: seq<Byte>, at: int, op: int, k: Byte)
    requires op == 33 || op == 45 || op == 55
    requires Sits(code, at, [op, k])
    ensures Decode(y, code, at) == Line(if op == 33 then LoadVar(false, k, 1) else if op == 45 then LoadVar(true, k, 1)
                                        else StoreVar(true, k, 1), at + 2)
  {
    SitsAt(code, at, [op, k], 0);
    SitsAt(code, at, [op, k], 1);
    OneOperand(code, at + 1);
  }

  lemma BranchDecodes(y: Layout, code: seq<Byte>, at: int, op: int, v: int)
    requires 146 <= op <= 149 && Sits(code, at, [op] + Half(v)) && Near(v)
    ensures Decode(y, code, at)
            == Line(if op == 146 then Jump(at + v) else if op == 149 then Foreach(at + v)
                    else JumpIf(op == 148, at + v), at + 3)
  {
    hide Half;
    SitsAt(code, at, [op] + Half(v), 0);
    SitsPart(code, at, [op] + Half(v), 1, Half(v));
    HalfSigned(code, at + 1, v);
  }

  lemma CallDecodes(y: Layout, code: seq<Byte>, at: int, m: int)
    requires y.blockSize > 0 && OnBlock(y, m) && Sits(code, at, [221] + Half(m / y.blockSize))
    ensures Decode(y, code, at) == Line(Call(false, m), at + 3)
  {
    hide Half;
    var s := Half(m / y.blockSize);
    SitsAt(code, at, [221] + s, 0);
    SitsPart(code, at, [221] + s, 1, s);
    HalfOperand(code, at + 1, m / y.blockSize);
    Divides(m, y.blockSize);
  }

  lemma Divides(m: int, d: nat)
    requires d > 0 && m % d == 0
    ensures d * (m / d) == m
  {
  }

  /** A single byte that is an instruction. */
  lemma ByteDecodes(y: Layout, code: seq<Byte>, at: int, op: Byte)
    requires Sits(code, at, [op])
    ensures op == 29 ==> Decode(y, code, at) == Line(LoadVar(false, 0, 1), at + 1)
    ensures op == 162 ==> Decode(y, code, at) == Line(Const([Wrap32(y.dataBase)]), at + 1)
    ensures 57 <= op <= 62 ==> Decode(y, code, at) == Line(Operate(IntCmp(CmpOf(op - 57))), at + 1)
  {
    SitsAt(code, at, [op], 0);
  }

  /** LoadInlineField with the offset operand of a fused form. */
  lemma InlineDecodes(y: Layout, was: seq<Byte>, pc: int, code: seq<Byte>, at: int, op: int, n: nat)
    requires 212 <= op <= 214 && n == OffsetBytes(op - 212) && 0 <= pc && pc + 1 + n <= |was|
    requires Sits(code, at, [op] + was[pc + 1..pc + 1 + n])
    ensures Decode(y, code, at) == Line(Operate(Inline(Operand(was, pc + 1, n))), at + 1 + n)
  {
    hide Operand;
    var s := was[pc + 1..pc + 1 + n];
    SitsAt(code, at, [op] + s, 0);
    SitsPart(code, at, [op] + s, 1, s);
    OperandSits(code, at + 1, s, was, pc + 1, n);
  }

  lemma SwitchDecodes(y: Layout, code: seq<Byte>, p: Plan, at: int, head: seq<Byte>, tos: seq<int>)
    requires |head| == 3 && head[0] == 235 && Sits(code, at, head + Offsets(p, tos, at))
    requires Operand(code, at + 1, 2) == |tos| && forall k | 0 <= k < |tos| :: Near(p.place(tos[k]) - at)
    ensures Decode(y, code, at) == Line(MovedInstr(p, Switch(tos)), at + 3 + 2 * |tos|)
  {
    hide Half, Near, Operand, Signed16, Offsets;
    SitsAt(code, at, head + Offsets(p, tos, at), 0);
    forall k | 0 <= k < |tos|
      ensures Signed16(code, at + 3 + 2 * k) == p.place(tos[k]) - at
    {
      SwitchEntry(code, p, at, head, tos, k);
    }
    assert Decode(y, code, at) == Switches(code, at);
    assert Switches(code, at).instr.tos == MovedInstr(p, Switch(tos)).tos;
  }

  lemma SwitchEntry(code: seq<Byte>, p: Plan, at: int, head: seq<Byte>, tos: seq<int>, k: nat)
    requires |head| == 3 && Sits(code, at, head + Offsets(p, tos, at)) && k < |tos| && Near(p.place(tos[k]) - at)
    ensures Signed16(code, at + 3 + 2 * k) == p.place(tos[k]) - at
  {
    hide Half, Near;
    var s, v := head + Offsets(p, tos, at), p.place(tos[k]) - at;
    assert s[3 + 2 * k..3 + 2 * k + 2] == Half(v) by {
      assert (2 * k) / 2 == k && (2 * k + 1) / 2 == k && (2 * k) % 2 == 0 && (2 * k + 1) % 2 == 1;
    }
    SitsPart(code, at, s, 3 + 2 * k, Half(v));
    assert Near(v);
    NearHalf(code, at + 3 + 2 * k, v);
  }

  lemma NearHalf(code: seq<Byte>, at: int, v: int)
    requires Sits(code, at, Half(v)) && Near(v)
    ensures Signed16(code, at) == v
  {
    HalfSigned(code, at, v);
  }

  // ----- every instruction

  predicate InCode(code: seq<Byte>, at: int) { 0 <= at < |code| }

  /** The bytes at the new places decode to what the plan says. */
  predicate DecodesTo(y: Layout, was: seq<Byte>, code: seq<Byte>, p: Plan, pc: int)
    requires InCode(was, pc)
  {
    var l := Decode(y, was, pc);
    && InCode(code, p.place(pc))
    && if Fused(p, pc, l.instr) then
         && Decode(y, code, p.place(pc)) == Line(First(p, pc, l.instr), p.middle(pc))
         && InCode(code, p.middle(pc))
         && Decode(y, code, p.middle(pc)) == Line(Second(p, pc, l.instr), p.place(l.next))
       else Decode(y, code, p.place(pc)) == Line(MovedInstr(p, l.instr), p.place(l.next))
  }

  /** The plan lists the LoadDataInlineField instructions. */
  predicate InlinedAs(y: Layout, code: seq<Byte>, p: Plan, pc: int)
    requires InCode(code, pc)
  {
    && (pc in p.inlined <==> 218 <= code[pc] <= 220)
    && (pc in p.inlined ==>
          p.inlined[pc] == (Wrap32(y.dataBase), Operand(code, pc + 1, OffsetBytes(code[pc] - 218))))
  }

  /** The instruction's new bytes are at its place, its successor follows, and all they hold fits. */
  predicate Rewritten(y: Layout, was: seq<Byte>, code: seq<Byte>, p: Plan, pc: int) {
    && y.blockSize > 0 && InCode(was, pc) && pc + Length(y, was, pc) <= |was|
    && Sits(code, p.place(pc), Item(y, was, p, pc)) && Fits(y, was, p, pc) && InlinedAs(y, was, p, pc)
    && p.place(Decode(y, was, pc).next) == p.place(pc) + |Item(y, was, p, pc)| && p.middle(pc) == p.place(pc) + 1
    && ConstantsStay(y, was, code, pc)
  }

  lemma ShortForm(y: Layout, was: seq<Byte>, code: seq<Byte>, p: Plan, pc: int)
    requires Rewritten(y, was, code, p, pc)
    requires var op := was[pc]; 29 <= op <= 32 || 37 <= op <= 44 || 47 <= op <= 54
    ensures DecodesTo(y, was, code, p, pc)
  {
    hide Fits, ConstantsStay;
    var op, at := was[pc], p.place(pc);
    if op <= 32 { ShortDecodes(y, code, at, 33, op - 29); }
    else if op <= 44 { ShortDecodes(y, code, at, 45, op - 37); }
    else { ShortDecodes(y, code, at, 55, op - 47); }
  }

  lemma Facts(y: Layout, was: seq<Byte>, code: seq<Byte>, p: Plan, pc: int)
    requires Rewritten(y, was, code, p, pc)
    ensures y.blockSize > 0 && InCode(was, pc) && pc + Length(y, was, pc) <= |was| && Fits(y, was, p, pc)
    ensures Sits(code, p.place(pc), Item(y, was, p, pc)) && InlinedAs(y, was, p, pc)
    ensures p.place(Decode(y, was, pc).next) == p.place(pc) + |Item(y, was, p, pc)| && p.middle(pc) == p.place(pc) + 1
  {
    hide Item, Fits, InlinedAs, Length, Decode;
  }

  /** The parts of two instructions in one place. */
  lemma TwoParts(code: seq<Byte>, at: int, first: Byte, second: seq<Byte>)
    requires Sits(code, at, [first] + second) && second != []
    ensures Sits(code, at, [first]) && Sits(code, at + 1, second) && InCode(code, at) && InCode(code, at + 1)
  {
    var s := [first] + second;
    SitsPart(code, at, s, 0, [first]);
    SitsPart(code, at, s, 1, second);
  }

  lemma BranchForm(y: Layout, was: seq<Byte>, code: seq<Byte>, p: Plan, pc: int)
    requires Rewritten(y, was, code, p, pc) && IsBranch(was[pc])
    ensures DecodesTo(y, was, code, p, pc)
  {
    hide Half, Decode, Item, Rewritten, Sits, Fits;
    Facts(y, was, code, p, pc);
    OldBranch(y, was, pc);
    BranchItem(y, was, p, pc);
    var op, at, v := was[pc], p.place(pc), p.place(Decode(y, was, pc).instr.to) - p.place(pc);
    BranchDecodes(y, code, at, FarBranch(op), v);
    SitsInCode(code, at, [FarBranch(op)] + Half(v));
  }

  lemma OldBranch(y: Layout, was: seq<Byte>, pc: int)
    requires InCode(was, pc) && IsBranch(was[pc])
    ensures var i, op := Decode(y, was, pc).instr, FarBranch(was[pc]);
            && (i.Jump? || i.JumpIf? || i.Foreach?)
            && i == if op == 146 then Jump(i.to) else if op == 149 then Foreach(i.to) else JumpIf(op == 148, i.to)
  {
    hide Signed8, Signed16;
  }

  lemma BranchItem(y: Layout, was: seq<Byte>, p: Plan, pc: int)
    requires InCode(was, pc) && IsBranch(was[pc]) && pc + Length(y, was, pc) <= |was| && y.blockSize > 0
    requires var i := Decode(y, was, pc).instr; i.Jump? || i.JumpIf? || i.Foreach?
    requires Fits(y, was, p, pc)
    ensures var v := p.place(Decode(y, was, pc).instr.to) - p.place(pc);
            Item(y, was, p, pc) == [FarBranch(was[pc])] + Half(v) && Near(v)
  {
    hide Half, Decode;
  }

  lemma CompareForm(y: Layout, was: seq<Byte>, code: seq<Byte>, p: Plan, pc: int)
    requires Rewritten(y, was, code, p, pc) && 150 <= was[pc] <= 161
    ensures DecodesTo(y, was, code, p, pc)
  {
    hide Half, Decode, Item, Rewritten, Sits, Fits, CmpOf;
    Facts(y, was, code, p, pc);
    OldCompare(y, was, pc);
    CompareItem(y, was, p, pc);
    var at, v := p.place(pc), p.place(Decode(y, was, pc).instr.to) - (p.place(pc) + 1);
    var c: Byte := 57 + (was[pc] - 150) % 6;
    TwoParts(code, at, c, [147] + Half(v));
    ByteDecodes(y, code, at, c);
    BranchDecodes(y, code, at + 1, 147, v);
  }

  lemma CompareItem(y: Layout, was: seq<Byte>, p: Plan, pc: int)
    requires InCode(was, pc) && 150 <= was[pc] <= 161 && pc + Length(y, was, pc) <= |was| && y.blockSize > 0
    requires Decode(y, was, pc).instr.JumpCmp? && Fits(y, was, p, pc)
    ensures var v := p.place(Decode(y, was, pc).instr.to) - (p.place(pc) + 1);
            Item(y, was, p, pc) == [57 + (was[pc] - 150) % 6] + ([147] + Half(v)) && Near(v)
  {
    hide Half, Decode;
  }

  lemma OldCompare(y: Layout, was: seq<Byte>, pc: int)
    requires InCode(was, pc) && 150 <= was[pc] <= 161
    ensures Decode(y, was, pc).instr.JumpCmp? && Decode(y, was, pc).instr.cmp == CmpOf((was[pc] - 150) % 6)
  {
    hide Signed8, Signed16;
  }

  lemma InlineForm(y: Layout, was: seq<Byte>, code: seq<Byte>, p: Plan, pc: int)
    requires Rewritten(y, was, code, p, pc) && 215 <= was[pc] <= 220
    ensures DecodesTo(y, was, code, p, pc)
  {
    hide Decode, Operand, Fits, Item, Rewritten, Sits, Length, Wrap32;
    Facts(y, was, code, p, pc);
    OldInline(y, was, pc);
    var op, at := was[pc], p.place(pc);
    var n := OffsetBytes((op - 212) % 3);
    var first: Byte, second: Byte := if op <= 217 then 29 else 162, if op <= 217 then op - 3 else op - 6;
    var rest := [second] + was[pc + 1..pc + 1 + n];
    InlineItem(y, was, p, pc, n);
    TwoParts(code, at, first, rest);
    ByteDecodes(y, code, at, first);
    InlineDecodes(y, was, pc, code, at + 1, second, n);
    InlinedOperand(y, was, p, pc, n);
  }

  lemma InlineItem(y: Layout, was: seq<Byte>, p: Plan, pc: int, n: nat)
    requires InCode(was, pc) && 215 <= was[pc] <= 220 && y.blockSize > 0 && pc + Length(y, was, pc) <= |was|
    requires Length(y, was, pc) == 1 + n
    ensures var op := was[pc];
            Item(y, was, p, pc)
            == if op <= 217 then [29] + ([op - 3] + was[pc + 1..pc + 1 + n])
               else [162] + ([op - 6] + was[pc + 1..pc + 1 + n])
  {
    hide Decode, Length;
  }

  lemma InlinedOperand(y: Layout, was: seq<Byte>, p: Plan, pc: int, n: nat)
    requires InCode(was, pc) && 215 <= was[pc] <= 220 && InlinedAs(y, was, p, pc)
    requires n == OffsetBytes((was[pc] - 212) % 3)
    ensures pc in p.inlined <==> was[pc] >= 218
    ensures pc in p.inlined ==> p.inlined[pc] == (Wrap32(y.dataBase), Operand(was, pc + 1, n))
  {
    hide Operand, Wrap32;
  }

  lemma OldInline(y: Layout, was: seq<Byte>, pc: int)
    requires InCode(was, pc) && 215 <= was[pc] <= 220
    ensures var op := was[pc];
            var n := OffsetBytes((op - 212) % 3);
            && Length(y, was, pc) == 1 + n && OffsetBytes((if op <= 217 then op - 3 else op - 6) - 212) == n
            && Decode(y, was, pc).instr == if op <= 217 then InlineParam0(Operand(was, pc + 1, n))
                                           else Const([Wrap32(y.dataBase + Operand(was, pc + 1, n))])
  {
    hide Operand;
  }

  lemma CallForm(y: Layout, was: seq<Byte>, code: seq<Byte>, p: Plan, pc: int)
    requires Rewritten(y, was, code, p, pc) && (was[pc] == 221 || was[pc] == 229)
    ensures DecodesTo(y, was, code, p, pc)
  {
    hide Half, Decode, Item, Rewritten, Sits, Fits, OnBlock;
    Facts(y, was, code, p, pc);
    OldCall(y, was, pc);
    CallItem(y, was, p, pc);
    var at, m := p.place(pc), p.meth(Decode(y, was, pc).instr.target);
    var call := [221] + Half(m / y.blockSize);
    if was[pc] == 229 {
      TwoParts(code, at, 29, call);
      ByteDecodes(y, code, at, 29);
      CallDecodes(y, code, at + 1, m);
    } else {
      CallDecodes(y, code, at, m);
      SitsInCode(code, at, call);
    }
  }

  lemma SitsInCode(code: seq<Byte>, at: int, s: seq<Byte>)
    requires Sits(code, at, s) && s != []
    ensures InCode(code, at)
  {
  }

  lemma CallItem(y: Layout, was: seq<Byte>, p: Plan, pc: int)
    requires InCode(was, pc) && (was[pc] == 221 || was[pc] == 229) && pc + Length(y, was, pc) <= |was|
    requires Decode(y, was, pc).instr.Call? && y.blockSize > 0 && Fits(y, was, p, pc)
    ensures var m := p.meth(Decode(y, was, pc).instr.target);
            var call := [221] + Half(m / y.blockSize);
            && Item(y, was, p, pc) == (if was[pc] == 229 then [29] + call else call)
            && OnBlock(y, m) && call != []
  {
    hide Half, Decode;
  }

  lemma OldCall(y: Layout, was: seq<Byte>, pc: int)
    requires InCode(was, pc) && (was[pc] == 221 || was[pc] == 229)
    ensures Decode(y, was, pc).instr.Call? && Decode(y, was, pc).instr.withParam0 == (was[pc] == 229)
    ensures Length(y, was, pc) == 3
  {
    hide Operand;
  }

  lemma SwitchForm(y: Layout, was: seq<Byte>, code: seq<Byte>, p: Plan, pc: int)
    requires Rewritten(y, was, code, p, pc) && was[pc] == 235
    ensures DecodesTo(y, was, code, p, pc)
  {
    hide Half, Decode, Item, Rewritten, Sits, Fits, Operand, Offsets, MovedInstr, Near;
    Facts(y, was, code, p, pc);
    OldSwitch(y, was, pc);
    var at, tos, head := p.place(pc), Decode(y, was, pc).instr.tos, was[pc..pc + 3];
    SwitchItem(y, was, p, pc);
    SitsHead(code, at, head, Offsets(p, tos, at));
    OperandSits(code, at + 1, head[1..], was, pc + 1, 2) by { HeadTail(was, pc, code, at); }
    SwitchDecodes(y, code, p, at, head, tos);
    SitsInCode(code, at, head);
  }

  lemma SitsHead(code: seq<Byte>, at: int, head: seq<Byte>, rest: seq<Byte>)
    requires Sits(code, at, head + rest)
    ensures Sits(code, at, head)
  {
    SitsPart(code, at, head + rest, 0, head);
  }

  lemma HeadTail(was: seq<Byte>, pc: int, code: seq<Byte>, at: int)
    requires 0 <= pc && pc + 3 <= |was| && Sits(code, at, was[pc..pc + 3])
    ensures Sits(code, at + 1, was[pc..pc + 3][1..]) && Sits(was, pc + 1, was[pc..pc + 3][1..])
  {
    var head := was[pc..pc + 3];
    SitsPart(code, at, head, 1, head[1..]);
  }

  lemma OldSwitch(y: Layout, was: seq<Byte>, pc: int)
    requires InCode(was, pc) && was[pc] == 235
    ensures var i := Decode(y, was, pc).instr;
            i.Switch? && |i.tos| == Operand(was, pc + 1, 2) && Length(y, was, pc) == 3 + 2 * |i.tos|
  {
    hide Operand, Signed16;
  }

  lemma SwitchItem(y: Layout, was: seq<Byte>, p: Plan, pc: int)
    requires InCode(was, pc) && was[pc] == 235 && pc + Length(y, was, pc) <= |was| && y.blockSize > 0
    requires Decode(y, was, pc).instr.Switch? && Fits(y, was, p, pc)
    requires Length(y, was, pc) == 3 + 2 * |Decode(y, was, pc).instr.tos|
    ensures var tos := Decode(y, was, pc).instr.tos;
            && Item(y, was, p, pc) == was[pc..pc + 3] + Offsets(p, tos, p.place(pc))
            && |Item(y, was, p, pc)| == 3 + 2 * |tos|
            && forall k | 0 <= k < |tos| :: Near(p.place(tos[k]) - p.place(pc))
  {
    hide Decode, Length, Near, Half;
  }

  lemma CopyForm(y: Layout, was: seq<Byte>, code: seq<Byte>, p: Plan, pc: int)
    requires Rewritten(y, was, code, p, pc) && Copied(was[pc])
    ensures DecodesTo(y, was, code, p, pc)
  {
    hide Fits, Decode;
    CopyDecodes(y, was, pc, code, p.place(pc));
    OldPlain(y, was, p, pc);
  }

  lemma OldPlain(y: Layout, was: seq<Byte>, p: Plan, pc: int)
    requires InCode(was, pc) && Copied(was[pc])
    ensures var i := Decode(y, was, pc).instr;
            !i.JumpCmp? && !i.InlineParam0? && !i.Call? && MovedInstr(p, i) == i
  {
    hide Operand, BlockWord, BlockCell, Arithmetic, Signed8, Signed16;
  }

  /** Opcode by opcode: the rewritten bytes of an instruction decode to its base sequence, moved. */
  lemma ItemDecodes(y: Layout, was: seq<Byte>, code: seq<Byte>, p: Plan, pc: int)
    requires Rewritten(y, was, code, p, pc)
    ensures DecodesTo(y, was, code, p, pc)
  {
    hide Rewritten, DecodesTo;
    assert InCode(was, pc) by { RewrittenIn(y, was, code, p, pc); }
    var op := was[pc];
    if Copied(op) {
      CopyForm(y, was, code, p, pc);
    } else if op <= 54 {
      ShortForm(y, was, code, p, pc);
    } else if op <= 149 {
      BranchForm(y, was, code, p, pc);
    } else if op <= 161 {
      CompareForm(y, was, code, p, pc);
    } else if op <= 220 {
      InlineForm(y, was, code, p, pc);
    } else if op == 235 {
      SwitchForm(y, was, code, p, pc);
    } else {
      CallForm(y, was, code, p, pc);
    }
  }

  lemma RewrittenIn(y: Layout, was: seq<Byte>, code: seq<Byte>, p: Plan, pc: int)
    requires Rewritten(y, was, code, p, pc)
    ensures InCode(was, pc)
  {
  }

  // ----- whole images

  /** A method's header bytes are copied and its first instruction follows them. */
  predicate HeaderMoves(was: seq<Byte>, code: seq<Byte>, p: Plan, m: int) {
    && 0 <= m && m + 1 < |was| && 0 <= p.meth(m) && p.meth(m) + 1 < |code|
    && code[p.meth(m)] == was[m] && code[p.meth(m) + 1] == was[m + 1] && p.place(m + 2) == p.meth(m) + 2
  }

  /** A vtable entry that names a method names it where it has gone. */
  predicate EntryMoves(y: Layout, was: seq<Byte>, ty: Typing, code: seq<Byte>, p: Plan, e: int) {
    var m := y.blockSize * Operand(was, e, 2);
    m in ty.kind ==> y.blockSize * Operand(code, e, 2) == p.meth(m)
  }

  /** Where a virtual call looks up its method: the object's first half-word names its vtable. */
  function EntryOf(y: Layout, w: World, o: int, slot: int): int {
    y.blockSize * GetUnsigned(w.heap, o, 2) + 2 * slot
  }

  /** `code` is `was` with all that the typing knows rewritten by the plan; `tables` are the offsets of the vtable
      entries. */
  ghost predicate Relocated(y: Layout, was: seq<Byte>, ty: Typing, code: seq<Byte>, p: Plan, tables: set<int>) {
    && (forall pc | pc in ty.at :: Rewritten(y, was, code, p, pc))
    && (forall pc | pc in p.inlined :: pc in ty.at) && (p.inlined != map[] ==> Wrap32(y.dataBase) != 0)
    && p.methods == ty.kind.Keys && (forall m | m in ty.kind :: HeaderMoves(was, code, p, m))
    && (forall e | e in tables :: EntryMoves(y, was, ty, code, p, e))
    && forall w, o, slot | p.dispatch(w, o, slot) :: EntryOf(y, w, o, slot) in tables
  }

  /** What stands beside the bytes of an image. */
  datatype Host = Host(fpu: (int, seq<int>) -> seq<int>, hasNative: (int, int) -> bool,
                       native: (int, int, seq<int>, World) -> Act)

  function ImageOf(y: Layout, code: seq<Byte>, h: Host): Image { LoadImage(y, code, h.fpu, h.hasNative, h.native) }

  lemma LoadedLine(y: Layout, code: seq<Byte>, h: Host, pc: int)
    ensures pc in ImageOf(y, code, h).lines <==> InCode(code, pc)
    ensures InCode(code, pc) ==> ImageOf(y, code, h).lines[pc] == Decode(y, code, pc)
  {
    hide Decode;
  }

  lemma LoadedHead(y: Layout, code: seq<Byte>, h: Host, m: int)
    ensures m in ImageOf(y, code, h).heads <==> 0 <= m < |code| - 1
    ensures 0 <= m < |code| - 1 ==> ImageOf(y, code, h).heads[m] == Head(code[m], code[m + 1])
  {
    hide Decode;
  }

  lemma LoadedRest(y: Layout, code: seq<Byte>, h: Host)
    ensures var img := ImageOf(y, code, h);
            && img.alu == Unit(y, h.fpu) && img.hasNative == h.hasNative && img.native == h.native
            && img.stackMax == y.stackMax && img.codeBase == y.codeBase && img.stackBase == y.stackBase
    ensures forall w, o, slot ::
              ImageOf(y, code, h).resolve(w, o, slot) == y.blockSize * Operand(code, EntryOf(y, w, o, slot), 2)
    ensures SmallHeads(ImageOf(y, code, h))
  {
    hide Decode, Operand, Unit;
  }

  lemma LineLoaded(y: Layout, was: seq<Byte>, code: seq<Byte>, p: Plan, h: Host, h': Host, pc: int)
    requires Rewritten(y, was, code, p, pc)
    ensures pc in ImageOf(y, was, h).lines && LineExpands(ImageOf(y, was, h), ImageOf(y, code, h'), p, pc)
  {
    hide Decode, Rewritten, ImageOf, First, Second, MovedInstr, Fused;
    RewrittenIn(y, was, code, p, pc);
    ItemDecodes(y, was, code, p, pc);
    LoadedLine(y, was, h, pc);
    LoadedLine(y, code, h', p.place(pc));
    LoadedLine(y, code, h', p.middle(pc));
  }

  lemma InlinedLoaded(y: Layout, was: seq<Byte>, code: seq<Byte>, p: Plan, h: Host, pc: int)
    requires Rewritten(y, was, code, p, pc) && pc in p.inlined && Wrap32(y.dataBase) != 0
    ensures pc in ImageOf(y, was, h).lines && p.inlined[pc].0 != 0
    ensures ImageOf(y, was, h).lines[pc].instr == Const([Wrap32(p.inlined[pc].0 + p.inlined[pc].1)])
  {
    hide Decode, ImageOf, Wrap32, Operand, Item, Fits, Sits, Length, ConstantsStay;
    LoadedLine(y, was, h, pc);
    OldInline(y, was, pc);
    WrapSum(y.dataBase, p.inlined[pc].1);
  }

  lemma HeaderLoaded(y: Layout, was: seq<Byte>, ty: Typing, code: seq<Byte>, ty': Typing, p: Plan, h: Host, h': Host,
                     m: int)
    requires m in ty.kind && HeaderMoves(was, code, p, m) && p.meth(m) in ty'.kind && ty'.kind[p.meth(m)] == ty.kind[m]
    ensures MethodMoves(ImageOf(y, was, h), ty, ImageOf(y, code, h'), ty', p, m)
  {
    hide ImageOf;
    LoadedHead(y, was, h, m);
    LoadedHead(y, code, h', p.meth(m));
  }

  /** The typing of the rewritten image knows what the old one knew. */
  predicate Retyped(ty: Typing, ty': Typing, p: Plan) {
    SpotsMove(ty, ty', p) && forall m | m in ty.kind :: p.meth(m) in ty'.kind && ty'.kind[p.meth(m)] == ty.kind[m]
  }

  lemma RelocatedParts(y: Layout, was: seq<Byte>, ty: Typing, code: seq<Byte>, p: Plan, tables: set<int>)
    requires Relocated(y, was, ty, code, p, tables)
    ensures forall pc | pc in ty.at :: Rewritten(y, was, code, p, pc)
    ensures forall pc | pc in p.inlined :: pc in ty.at && Wrap32(y.dataBase) != 0
    ensures p.methods == ty.kind.Keys && forall m | m in ty.kind :: HeaderMoves(was, code, p, m)
  {
    hide Rewritten, HeaderMoves, EntryMoves, Wrap32;
  }

  lemma TablesLoaded(y: Layout, was: seq<Byte>, ty: Typing, code: seq<Byte>, p: Plan, tables: set<int>, h: Host,
                     h': Host)
    requires Relocated(y, was, ty, code, p, tables)
    ensures TablesMove(ImageOf(y, was, h), ImageOf(y, code, h'), p)
  {
    hide Rewritten, HeaderMoves, ImageOf, Operand, EntryOf, Wrap32;
    LoadedRest(y, was, h);
    LoadedRest(y, code, h');
    forall w, o, slot | p.dispatch(w, o, slot) && ImageOf(y, was, h).resolve(w, o, slot) in p.methods
      ensures ImageOf(y, code, h').resolve(w, o, slot) == p.meth(ImageOf(y, was, h).resolve(w, o, slot))
    {
      assert EntryMoves(y, was, ty, code, p, EntryOf(y, w, o, slot));
    }
  }

  ghost predicate HostsAlike(h: Host, h': Host, p: Plan) {
    && h'.fpu == h.fpu && h'.hasNative == h.hasNative
    && forall kit, id, a, w :: ActsAlike(p, h.native(kit, id, a, w), h'.native(kit, id, a, w))
  }

  /** Bytes rewritten by a plan load to an expansion. */
  lemma RelocatedExpands(y: Layout, was: seq<Byte>, ty: Typing, code: seq<Byte>, ty': Typing, p: Plan,
                         tables: set<int>, h: Host, h': Host)
    requires Relocated(y, was, ty, code, p, tables) && Retyped(ty, ty', p) && HostsAlike(h, h', p)
    requires BaseOpcodes(ImageOf(y, was, h))
    ensures Expands(ImageOf(y, was, h), ty, ImageOf(y, code, h'), ty', p)
  {
    hide Rewritten, HeaderMoves, ImageOf, BaseOpcodes, TablesMove, Relocated, ActsAlike, Wrap32, LineExpands,
      MethodMoves, SpotsMove;
    var img, img' := ImageOf(y, was, h), ImageOf(y, code, h');
    LoadedRest(y, was, h);
    LoadedRest(y, code, h');
    RelocatedParts(y, was, ty, code, p, tables);
    TablesLoaded(y, was, ty, code, p, tables, h, h');
    forall pc | pc in ty.at && pc in img.lines
      ensures LineExpands(img, img', p, pc)
    {
      LineLoaded(y, was, code, p, h, h', pc);
    }
    forall pc | pc in p.inlined
      ensures pc in img.lines && p.inlined[pc].0 != 0
      ensures img.lines[pc].instr == Const([Wrap32(p.inlined[pc].0 + p.inlined[pc].1)])
    {
      InlinedLoaded(y, was, code, p, h, pc);
    }
    forall m | m in ty.kind
      ensures MethodMoves(img, ty, img', ty', p, m)
    {
      HeaderLoaded(y, was, ty, code, ty', p, h, h', m);
    }
  }
}
