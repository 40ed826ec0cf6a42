/** The opcodes that move control, shuffle the stack, call and return, by their numbers, and the tests before them. */
module ControlOpcodes {
  import opened Alu
  import opened Bytes
  import opened Image
  import opened Scode
  import opened Opcodes
  import opened MemoryOpcodes
  import F = FlatMachine
  import R = Relocation

  // ----- the tests before every instruction

  /** How deep the pointer lies that the debug build tests for null, -1 for none. */
  function NullDepth(op: int): int {
    if op in {163, 164, 165, 172, 173, 174, 181, 182, 183, 190, 191, 192, 199, 200, 201, 208, 209, 212, 213, 214} then 0
    else if op in {166, 167, 168, 169, 171, 175, 176, 177, 178, 180, 184, 185, 186, 187, 189, 193, 198, 202, 203, 204,
                   205, 207, 211} then 1
    else if op in {170, 179, 188, 194, 195, 196, 206} then 2
    else if op == 197 then 3
    else -1
  }

  lemma NullDepthIs(p: Point)
    requires 0 <= p.r.cp < |p.code|
    ensures PointerDepthOf(Decode(p.y, p.code, p.r.cp).instr) == NullDepth(U1(p, 0))
  {
    hide Operand, Arithmetic, Literal, Variable, Branch, Storage, Inlined, Transfer, NullDepth, PointerDepth;
    var op := p.code[p.r.cp];
    if op <= 162 {
      LowDepth(p.y, p.code, p.r.cp, op);
    } else if op <= 207 {
      StorageDepth(p.code, p.r.cp, op);
    } else {
      HighDepth(p.y, p.code, p.r.cp, op);
    }
  }

  lemma LowDepth(y: Layout, code: seq<Byte>, pc: int, op: int)
    requires op <= 162
    ensures NullDepth(op) == -1 && (op <= 27 ==> PointerDepthOf(Literal(y, code, pc, op).instr) == -1)
    ensures 29 <= op <= 56 ==> PointerDepthOf(Variable(code, pc, op).instr) == -1
    ensures 57 <= op <= 141 ==> PointerDepth(Arithmetic(op)) == -1
    ensures 142 <= op <= 161 ==> PointerDepthOf(Branch(code, pc, op).instr) == -1
  {
    hide Operand;
  }

  lemma StorageDepth(code: seq<Byte>, pc: int, op: int)
    requires 163 <= op <= 207
    ensures PointerDepthOf(Storage(code, pc, op).instr) == NullDepth(op)
  {
    hide Operand, Storage, NullDepth;
    if op <= 189 { NarrowDepth(code, pc, op); } else { WideDepth(code, pc, op); }
  }

  lemma NarrowDepth(code: seq<Byte>, pc: int, op: int)
    requires 163 <= op <= 189
    ensures PointerDepthOf(Storage(code, pc, op).instr) == NullDepth(op)
  {
    hide Operand;
  }

  lemma WideDepth(code: seq<Byte>, pc: int, op: int)
    requires 190 <= op <= 207
    ensures PointerDepthOf(Storage(code, pc, op).instr) == NullDepth(op)
  {
    hide Operand;
  }

  lemma HighDepth(y: Layout, code: seq<Byte>, pc: int, op: int)
    requires 208 <= op
    ensures op <= 220 ==> PointerDepthOf(Inlined(y, code, pc, op).instr) == NullDepth(op)
    ensures op > 220 ==> PointerDepthOf(Transfer(y, code, pc, op).instr) == NullDepth(op)
  {
    hide Operand;
  }

  /** A null pointer ends the call with 100, a full stack with 101, in this order, and opcodes without a pointer are
      not tested for null. */
  lemma Tests(p: Point)
    requires p.s.mode == F.Running(p.r) && 0 <= p.r.cp < |p.code| && 3 <= p.r.sp < |p.s.mem|
    ensures var d := NullDepth(U1(p, 0));
            if d >= 0 && Top(p, d) == 0 then
              F.Step(ImageAt(p), p.s) == F.Leave(p.s.mem, p.s.vmsp, p.s.w, p.s.chain, 100)
            else p.r.sp >= p.y.stackMax ==>
              F.Step(ImageAt(p), p.s) == F.Leave(p.s.mem, p.s.vmsp, p.s.w, p.s.chain, 101)
  {
    hide Decode, R.ImageOf, Unit, NullDepth;
    Loaded(p);
    NullDepthIs(p);
    assert NullDepth(U1(p, 0)) <= 3 by { DepthSmall(U1(p, 0)); }
  }

  lemma DepthSmall(op: int)
    ensures NullDepth(op) <= 3
  {
  }

  /** Opcodes the source does not accept end the call with 11. */
  lemma UnknownOpcodes(p: Point)
    requires Ready(p) && (U1(p, 0) == 28 || U1(p, 0) == 233 || U1(p, 0) >= 237)
    ensures F.Step(ImageAt(p), p.s) == F.Leave(p.s.mem, p.s.vmsp, p.s.w, p.s.chain, 11)
  {
    hide R.ImageOf, Unit, Operand, Int32, Literal, Variable, Branch, Storage, Inlined;
    Loaded(p);
  }

  // ----- 133 to 141: the stack

  lemma ShuffleGoes(p: Point, pops: nat, picks: seq<nat>, ws: seq<int>)
    requires Ready(p) && Decode(p.y, p.code, p.r.cp) == Line(Operate(Shuffle(pops, picks)), p.r.cp + 1)
    requires pops <= 4 && pops <= p.r.sp + 1 <= |p.s.mem| && |ws| == |picks| <= pops + 2
    requires forall k | 0 <= k < |picks| :: picks[k] < pops && ws[k] == Args(p, pops)[picks[k]]
    ensures Goes(p, pops, ws, p.r.cp + 1)
  {
    hide Goes, Ready, Decode;
    assert ws == Picks(Args(p, pops), picks);
    LoadGoes(p, Shuffle(pops, picks), 1, ws);
  }

  lemma Shuffled(p: Point, op: int)
    requires Ready(p) && 133 <= op <= 141 && U1(p, 0) == op
    ensures Arithmetic(op).Shuffle? && Decode(p.y, p.code, p.r.cp) == Line(Operate(Arithmetic(op)), p.r.cp + 1)
  {
    hide Ready;
    InCode(p);
  }

  /** Pops, and the Dup opcodes, whose copied cells go under one or two others; the cells of the result are listed
      from the deepest to the top. */
  lemma StackOpcodes(p: Point)
    requires Ready(p)
    ensures var t, u, v, x := Top(p, 0), Top(p, 1), Top(p, 2), Top(p, 3);
            && Does(p, 133, 1, 1, []) && Does(p, 134, 1, 2, []) && Does(p, 135, 1, 3, [])
            && Does(p, 136, 1, 1, [t, t]) && Does(p, 137, 1, 2, [u, t, u, t])
            && Does(p, 138, 1, 2, [t, u, t]) && Does(p, 139, 1, 3, [t, v, u, t])
            && Does(p, 140, 1, 3, [u, t, v, u, t]) && Does(p, 141, 1, 4, [u, t, x, v, u, t])
  {
    hide Goes, Ready, Decode;
    ArgCells(p);
    Room(p);
    var op, t, u, v, x := U1(p, 0), Top(p, 0), Top(p, 1), Top(p, 2), Top(p, 3);
    if 133 <= op <= 141 {
      Shuffled(p, op);
      ShuffleGoes(p, Arithmetic(op).pops, Arithmetic(op).picks,
                  if op <= 135 then [] else if op == 136 then [t, t] else if op == 137 then [u, t, u, t]
                  else if op == 138 then [t, u, t] else if op == 139 then [t, v, u, t]
                  else if op == 140 then [u, t, v, u, t] else [u, t, x, v, u, t]);
    }
  }

  // ----- 142 to 161, 235: branches

  /** Opcode `op` of `len` bytes takes n cells and goes to `to` if taken. */
  ghost predicate Branches(p: Point, op: int, len: int, n: nat, taken: bool, to: int) {
    U1(p, 0) == op ==> Goes(p, n, [], if taken then to else p.r.cp + len)
  }

  lemma SignedBytes(p: Point)
    requires Ready(p)
    ensures Signed8(p.code, p.r.cp + 1) == S1(p, 1) && Signed16(p.code, p.r.cp + 1) == S2(p, 1)
  {
    BytesAt(p.code, p.r.cp + 1);
  }

  lemma BranchGoes(p: Point, l: Line, taken: bool, to: int)
    requires Ready(p) && Decode(p.y, p.code, p.r.cp) == l
    requires match l.instr
             case Jump(t) => taken && to == t
             case JumpIf(onZero, t) => taken == ((Top(p, 0) == 0) == onZero) && to == t
             case JumpCmp(c, t) => taken == Compare(c, Top(p, 1), Top(p, 0)) && to == t
             case _ => false
    ensures Goes(p, Pops(l.instr), [], if taken then to else l.next)
  {
    hide Decode, Ready, Compare, F.Step;
    ArgCells(p);
    Room(p);
    SimpleGoes(p, l, [], if taken then to else l.next, p.s.w);
  }

  lemma Jumps(p: Point)
    requires Ready(p)
    ensures Branches(p, 142, 2, 0, true, p.r.cp + S1(p, 1)) && Branches(p, 146, 3, 0, true, p.r.cp + S2(p, 1))
    ensures Branches(p, 143, 2, 1, Top(p, 0) != 0, p.r.cp + S1(p, 1))
    ensures Branches(p, 147, 3, 1, Top(p, 0) != 0, p.r.cp + S2(p, 1))
    ensures Branches(p, 144, 2, 1, Top(p, 0) == 0, p.r.cp + S1(p, 1))
    ensures Branches(p, 148, 3, 1, Top(p, 0) == 0, p.r.cp + S2(p, 1))
  {
    hide Goes, Ready, Signed8, Signed16, S1, S2;
    InCode(p);
    SignedBytes(p);
    var op, l := U1(p, 0), Decode(p.y, p.code, p.r.cp);
    if op == 142 || op == 146 { BranchGoes(p, l, true, l.instr.to); }
    if op == 143 || op == 147 { BranchGoes(p, l, Top(p, 0) != 0, l.instr.to); }
    if op == 144 || op == 148 { BranchGoes(p, l, Top(p, 0) == 0, l.instr.to); }
  }

  /** The six near comparisons start at 150, the six far ones at 156. */
  lemma CompareJumps(p: Point, first: int, len: int, to: int)
    requires Ready(p)
    requires (first == 150 && len == 2 && to == p.r.cp + S1(p, 1))
             || (first == 156 && len == 3 && to == p.r.cp + S2(p, 1))
    ensures var x, z := Top(p, 1), Top(p, 0);
            && Branches(p, first, len, 2, x == z, to) && Branches(p, first + 1, len, 2, x != z, to)
            && Branches(p, first + 2, len, 2, x > z, to) && Branches(p, first + 3, len, 2, x >= z, to)
            && Branches(p, first + 4, len, 2, x < z, to) && Branches(p, first + 5, len, 2, x <= z, to)
  {
    hide Goes, Ready, Signed8, Signed16, S1, S2;
    InCode(p);
    SignedBytes(p);
    var op, l := U1(p, 0), Decode(p.y, p.code, p.r.cp);
    if first <= op <= first + 5 {
      BranchGoes(p, l, Compare(CmpOf(op - first), Top(p, 1), Top(p, 0)), to);
    }
  }

  lemma ForeachDecodes(p: Point)
    requires Ready(p)
    ensures U1(p, 0) == 145 ==> Decode(p.y, p.code, p.r.cp) == Line(Foreach(p.r.cp + S1(p, 1)), p.r.cp + 2)
    ensures U1(p, 0) == 149 ==> Decode(p.y, p.code, p.r.cp) == Line(Foreach(p.r.cp + S2(p, 1)), p.r.cp + 3)
  {
    hide Ready, Signed8, Signed16, S1, S2;
    InCode(p);
    SignedBytes(p);
  }

  lemma ForeachGoes(p: Point, to: int, next: int)
    requires Ready(p) && Decode(p.y, p.code, p.r.cp) == Line(Foreach(to), next)
    ensures var i := Int32(Top(p, 0) + 1);
            if i >= Top(p, 1) then Goes(p, 1, [i], to) else Goes(p, 1, [i, Top(p, 2), i], next)
  {
    hide Ready, Decode, F.Step, Int32, Written;
    Room(p);
    ArgCells(p);
    var i, a, b := Int32(Top(p, 0) + 1), Top(p, 2), Top(p, 1);
    Cut(Top(p, 0) + 1);
    if i >= b {
      SimpleGoes(p, Line(Foreach(to), next), [a, b, i], to, p.s.w);
      SameBelow(p, [i], [a, b, i]);
    } else {
      SimpleGoes(p, Line(Foreach(to), next), [a, b, i, a, i], next, p.s.w);
      SameBelow(p, [i, a, i], [a, b, i, a, i]);
    }
  }

  /** Foreach counts up and leaves at the length; otherwise it pushes array and counter. */
  lemma Foreaches(p: Point)
    requires Ready(p)
    ensures var i := Int32(Top(p, 0) + 1);
            && (i >= Top(p, 1) ==>
                  && (U1(p, 0) == 145 ==> Goes(p, 1, [i], p.r.cp + S1(p, 1)))
                  && (U1(p, 0) == 149 ==> Goes(p, 1, [i], p.r.cp + S2(p, 1))))
            && (i < Top(p, 1) ==> Does(p, 145, 2, 1, [i, Top(p, 2), i]) && Does(p, 149, 3, 1, [i, Top(p, 2), i]))
  {
    hide Ready, Decode, S1, S2, Goes, Int32;
    ForeachDecodes(p);
    if U1(p, 0) == 145 { ForeachGoes(p, p.r.cp + S1(p, 1), p.r.cp + 2); }
    if U1(p, 0) == 149 { ForeachGoes(p, p.r.cp + S2(p, 1), p.r.cp + 3); }
  }

  /** Two cells that stay need not be written. */
  lemma SameBelow(p: Point, tail: seq<int>, ws: seq<int>)
    requires Ready(p) && |tail| <= 3
    ensures ws == [Top(p, 2), Top(p, 1)] + tail ==>
              p.r.sp - 2 >= 0 && p.r.sp + |tail| <= |p.s.mem|
              && Written(p.s.mem, p.r.sp, tail) == Written(p.s.mem, p.r.sp - 2, ws)
  {
    hide Int32;
    if ws == [Top(p, 2), Top(p, 1)] + tail {
      var m := p.s.mem;
      assert m[..p.r.sp] == m[..p.r.sp - 2] + [Top(p, 2), Top(p, 1)];
    }
  }

  lemma SwitchDecodes(p: Point)
    requires Ready(p) && U1(p, 0) == 235
    ensures var l, n := Decode(p.y, p.code, p.r.cp), U2(p, 1);
            && n >= 0 && l.instr.Switch? && |l.instr.tos| == n && l.next == p.r.cp + 3 + 2 * n
            && forall k | 0 <= k < n :: l.instr.tos[k] == p.r.cp + S2(p, 3 + 2 * k)
  {
    hide Operand;
    BytesAt(p.code, p.r.cp + 1);
    var n := U2(p, 1);
    forall k | 0 <= k < n
      ensures Signed16(p.code, p.r.cp + 3 + 2 * k) == S2(p, 3 + 2 * k)
    {
      BytesAt(p.code, p.r.cp + 3 + 2 * k);
    }
  }

  /** Switch takes the offset its operand selects from a table of U2 entries, or goes behind the table. */
  lemma Switching(p: Point)
    requires Ready(p) && U1(p, 0) == 235
    ensures var x, n := Top(p, 0), U2(p, 1);
            Goes(p, 1, [], if 0 <= x < n then p.r.cp + S2(p, 3 + 2 * x) else p.r.cp + 3 + 2 * n)
  {
    hide Ready, Decode, F.Step, S2;
    SwitchDecodes(p);
    ArgCells(p);
    Room(p);
    var l, x, n := Decode(p.y, p.code, p.r.cp), Top(p, 0), U2(p, 1);
    SimpleGoes(p, l, [], if 0 <= x < n then p.r.cp + S2(p, 3 + 2 * x) else l.next, p.s.w);
  }

  /** Assert counts a failure for 0 and a success for everything else. */
  lemma Asserting(p: Point)
    requires Ready(p) && U1(p, 0) == 234
    ensures var w := p.s.w;
            F.Step(ImageAt(p), p.s)
            == F.Next(p.s.(w := if Top(p, 0) == 0 then w.(failures := w.failures + 1) else w.(passes := w.passes + 1),
                           mode := F.Running(p.r.(sp := p.r.sp - 1, cp := p.r.cp + 3))))
  {
    hide Ready, F.Step, Operand, Switches, Written;
    InCode(p);
    ArgCells(p);
    Room(p);
    var w := p.s.w;
    NothingWritten(p.s.mem, p.r.sp);
    SimpleGoes(p, Line(Assert, p.r.cp + 3), [], p.r.cp + 3,
               if Top(p, 0) == 0 then w.(failures := w.failures + 1) else w.(passes := w.passes + 1));
  }

  // ----- 215 to 217, 221, 222, 229: inline fields of parameter 0, and calls

  /** Pushes `push`, then return address, frame pointer and method above it, and starts the method at offset m with as
      many parameters and locals as its two header bytes say. */
  ghost predicate Calls(p: Point, push: seq<int>, ret: int, m: int) {
    var fp := p.r.sp + |push| + 1;
    0 <= m && m + 1 < |p.code| && 0 <= p.r.sp && fp + 2 < |p.s.mem| ==>
      var saved := [p.y.codeBase + ret, p.y.stackBase + 4 * p.r.fp, p.y.codeBase + m];
      var params, locals := ByteAt(p.code, m), ByteAt(p.code, m + 1);
      F.Step(ImageAt(p), p.s)
      == F.Next(p.s.(mem := Written(p.s.mem, p.r.sp + 1, push + saved),
                     mode := F.Running(F.Regs(fp + 2 + locals, m + 2, fp, fp - params, fp + 3, params, locals))))
  }

  lemma HeadIs(p: Point, m: int)
    requires 0 <= m && m + 1 < |p.code|
    ensures var img := ImageAt(p);
            m in img.heads && img.heads[m] == Head(ByteAt(p.code, m), ByteAt(p.code, m + 1))
            && img.codeBase == p.y.codeBase && img.stackBase == p.y.stackBase
  {
    hide R.ImageOf, Unit;
    R.LoadedHead(p.y, p.code, p.h, m);
    R.LoadedRest(p.y, p.code, p.h);
  }

  lemma InvokeIs(p: Point, s: F.Flat, r: F.Regs, ret: int, m: int)
    requires 0 <= m && m + 1 < |p.code| && 0 <= r.sp && r.sp + 3 < |s.mem|
    ensures var saved := [p.y.codeBase + ret, p.y.stackBase + 4 * r.fp, p.y.codeBase + m];
            var fp, params, locals := r.sp + 1, ByteAt(p.code, m), ByteAt(p.code, m + 1);
            F.Invoke(ImageAt(p), s, r, ret, m)
            == F.Next(s.(mem := Written(s.mem, r.sp + 1, saved),
                         mode := F.Running(F.Regs(fp + 2 + locals, m + 2, fp, fp - params, fp + 3, params, locals))))
  {
    hide R.ImageOf, Put, Written;
    HeadIs(p, m);
    WrittenPut(s.mem, r.sp + 1, [p.y.codeBase + ret, p.y.stackBase + 4 * r.fp, p.y.codeBase + m]);
  }

  lemma WrittenTwice(mem: seq<int>, at: int, a: seq<int>, b: seq<int>)
    requires 0 <= at && at + |a| + |b| <= |mem|
    ensures Written(Written(mem, at, a), at + |a|, b) == Written(mem, at, a + b)
  {
  }

  lemma CallDecodes(p: Point)
    requires Ready(p)
    ensures var l := Decode(p.y, p.code, p.r.cp);
            && (U1(p, 0) == 221 ==> l == Line(Call(false, p.y.blockSize * U2(p, 1)), p.r.cp + 3))
            && (U1(p, 0) == 229 ==> l == Line(Call(true, p.y.blockSize * U2(p, 1)), p.r.cp + 3))
            && (U1(p, 0) == 222 ==> l == Line(CallVirtual(U2(p, 1), U1(p, 3)), p.r.cp + 4))
            && (215 <= U1(p, 0) <= 217 ==>
                  var n := if U1(p, 0) == 215 then 1 else if U1(p, 0) == 216 then 2 else 4;
                  l == Line(InlineParam0(Wide(p, n)), p.r.cp + 1 + n))
  {
    hide Ready, Operand, Switches;
    InCode(p);
    BytesAt(p.code, p.r.cp + 1);
    BytesAt(p.code, p.r.cp + 3);
  }

  lemma CallIs(p: Point)
    requires Ready(p) && U1(p, 0) == 221
    ensures Calls(p, [], p.r.cp + 3, p.y.blockSize * U2(p, 1))
  {
    hide Decode, R.ImageOf, Unit, Int32, Written, F.Invoke;
    var m := p.y.blockSize * U2(p, 1);
    Loaded(p);
    CallDecodes(p);
    if 0 <= m && m + 1 < |p.code| && p.r.sp + 3 < |p.s.mem| {
      InvokeIs(p, p.s, p.r, p.r.cp + 3, m);
      assert [] + [p.y.codeBase + (p.r.cp + 3), p.y.stackBase + 4 * p.r.fp, p.y.codeBase + m]
          == [p.y.codeBase + (p.r.cp + 3), p.y.stackBase + 4 * p.r.fp, p.y.codeBase + m];
    }
  }

  /** Parameter 0 goes on the stack first. */
  lemma Param0CallIs(p: Point)
    requires Ready(p) && U1(p, 0) == 229 && 0 <= p.r.pp < |p.s.mem|
    ensures Calls(p, [p.s.mem[p.r.pp]], p.r.cp + 3, p.y.blockSize * U2(p, 1))
  {
    hide Decode, R.ImageOf, Unit, Int32, Written, F.Invoke, Put;
    var m := p.y.blockSize * U2(p, 1);
    Loaded(p);
    CallDecodes(p);
    if 0 <= m && m + 1 < |p.code| && p.r.sp + 4 < |p.s.mem| {
      WrittenPut(p.s.mem, p.r.sp + 1, [p.s.mem[p.r.pp]]);
      WrittenLength(p.s.mem, p.r.sp + 1, [p.s.mem[p.r.pp]]);
      var s := p.s.(mem := Written(p.s.mem, p.r.sp + 1, [p.s.mem[p.r.pp]]));
      InvokeIs(p, s, p.r.(sp := p.r.sp + 1), p.r.cp + 3, m);
      WrittenTwice(p.s.mem, p.r.sp + 1, [p.s.mem[p.r.pp]],
                   [p.y.codeBase + (p.r.cp + 3), p.y.stackBase + 4 * p.r.fp, p.y.codeBase + m]);
    }
  }

  lemma WrittenLength(mem: seq<int>, at: int, ws: seq<int>)
    requires 0 <= at && at + |ws| <= |mem|
    ensures |Written(mem, at, ws)| == |mem|
  {
  }

  /** The method's block stands in the vtable that the first half-word of the object names: the object is the first of
      the operands that the instruction counts. */
  lemma VirtualCallIs(p: Point)
    requires Ready(p) && U1(p, 0) == 222 && 0 <= p.r.sp + 1 - U1(p, 3) <= p.r.sp
    ensures var vtable := Fetch(p.s.w.heap, Top(p, U1(p, 3) - 1), 2);
            Calls(p, [], p.r.cp + 4, p.y.blockSize * HalfAt(p.code, p.y.blockSize * vtable + 2 * U2(p, 1)))
  {
    hide Decode, R.ImageOf, Unit, Int32, Written, F.Invoke, Fetch, GetUnsigned, Operand;
    var o := Top(p, U1(p, 3) - 1);
    var vtable := Fetch(p.s.w.heap, o, 2);
    var at := p.y.blockSize * vtable + 2 * U2(p, 1);
    var m := p.y.blockSize * HalfAt(p.code, at);
    Loaded(p);
    CallDecodes(p);
    R.LoadedRest(p.y, p.code, p.h);
    if 0 <= m && m + 1 < |p.code| && p.r.sp + 3 < |p.s.mem| {
      Cut(o);
      CellIsWord(p, p.r.sp + 1 - U1(p, 3));
      FetchIs(p.s.w.heap, o, 2);
      TableStart(p, o, U2(p, 1));
      BytesAt(p.code, at);
      assert ImageAt(p).resolve(p.s.w, o, U2(p, 1)) == m;
      InvokeIs(p, p.s, p.r, p.r.cp + 4, m);
      assert [] + [p.y.codeBase + (p.r.cp + 4), p.y.stackBase + 4 * p.r.fp, p.y.codeBase + m]
          == [p.y.codeBase + (p.r.cp + 4), p.y.stackBase + 4 * p.r.fp, p.y.codeBase + m];
    }
  }

  lemma CellIsWord(p: Point, i: int)
    requires Ready(p) && 0 <= i < |p.s.mem|
    ensures Int32(CellAt(p, i)) == CellAt(p, i)
  {
    hide Int32;
  }

  lemma TableStart(p: Point, o: int, slot: int)
    requires slot >= 0
    ensures Fetch(p.s.w.heap, o, 2) >= 0 && 0 <= p.y.blockSize * Fetch(p.s.w.heap, o, 2) + 2 * slot
  {
    hide Int32;
    assert Fetch(p.s.w.heap, o + 2, 0) == 0;
    assert Fetch(p.s.w.heap, o + 1, 1) >= 0;
    BlockStart(p.y.blockSize, Fetch(p.s.w.heap, o, 2));
  }

  lemma Param0Inlines(p: Point)
    requires Ready(p) && 0 <= p.r.pp < |p.s.mem|
    ensures Does(p, 215, 2, 0, [Int32(p.s.mem[p.r.pp] + Wide(p, 1))])
            && Does(p, 216, 3, 0, [Int32(p.s.mem[p.r.pp] + Wide(p, 2))])
            && Does(p, 217, 5, 0, [Int32(p.s.mem[p.r.pp] + Wide(p, 4))])
  {
    hide Decode, R.ImageOf, Unit, Int32, Wrap32, Written, Put, Wide;
    Loaded(p);
    CallDecodes(p);
    var n := if U1(p, 0) == 215 then 1 else if U1(p, 0) == 216 then 2 else 4;
    Cut(p.s.mem[p.r.pp] + Wide(p, n));
    WrittenPut(p.s.mem, p.r.sp + 1, [Int32(p.s.mem[p.r.pp] + Wide(p, n))]);
  }

  // ----- 223 to 225: natives

  lemma NativeDecodes(p: Point)
    requires Ready(p) && 223 <= U1(p, 0) <= 225
    ensures var n := if U1(p, 0) == 223 then 1 else if U1(p, 0) == 224 then 2 else 0;
            Decode(p.y, p.code, p.r.cp) == Line(CallNative(U1(p, 1), U1(p, 2), U1(p, 3), n), p.r.cp + 4)
  {
    hide Operand, Switches, Int32;
    BytesAt(p.code, p.r.cp + 1);
    BytesAt(p.code, p.r.cp + 2);
    BytesAt(p.code, p.r.cp + 3);
  }

  /** The native of a kit and an id gets the last operands, as many as the instruction counts; vm->sp is the caller's
      sp meanwhile. A missing native ends the call with 12. */
  lemma NativeCalls(p: Point)
    requires Ready(p) && 223 <= U1(p, 0) <= 225 && U1(p, 3) <= p.r.sp + 1
    ensures var n, kit, id, argc := (if U1(p, 0) == 223 then 1 else if U1(p, 0) == 224 then 2 else 0), U1(p, 1),
                                    U1(p, 2), U1(p, 3);
            if p.h.hasNative(kit, id) then
              F.Step(ImageAt(p), p.s)
              == F.Next(p.s.(vmsp := p.r.sp,
                             mode := F.InNative(p.h.native(kit, id, p.s.mem[p.r.sp + 1 - argc..p.r.sp + 1], p.s.w),
                                                p.r.(cp := p.r.cp + 4), argc, n)))
            else n != 0 ==> F.Step(ImageAt(p), p.s) == F.Leave(p.s.mem, p.s.vmsp, p.s.w, p.s.chain, 12)
  {
    hide Decode, R.ImageOf, Unit, Int32;
    Loaded(p);
    NativeDecodes(p);
    R.LoadedRest(p.y, p.code, p.h);
    assert p.s.mem[p.r.sp - U1(p, 3) + 1..p.r.sp + 1] == p.s.mem[p.r.sp + 1 - U1(p, 3)..p.r.sp + 1];
  }

  /** What a native answers takes the place of its operands: nothing for void, the int, or both cells of a wide value,
      low one first. */
  lemma NativeAnswers(img: Image, s: F.Flat, r: F.Regs, argc: nat, n: nat, lo: int, hi: int, w: World)
    requires s.mode == F.InNative(Finish(lo, hi, w), r, argc, n) && n <= 2
    requires argc <= r.sp + 1 && r.sp + 1 - argc + n <= |s.mem|
    ensures var ws := if n == 0 then [] else if n == 1 then [lo] else [lo, hi];
            F.Step(img, s) == F.Next(s.(mem := Written(s.mem, r.sp + 1 - argc, ws), w := w,
                                        mode := F.Running(r.(sp := r.sp - argc + n))))
  {
    hide Put, Written;
    var ws := if n == 0 then [] else if n == 1 then [lo] else [lo, hi];
    WrittenPut(s.mem, r.sp + 1 - argc, ws);
    assert [lo, hi][..n] == ws;
  }

  // ----- 226 to 228: returns

  /** The saved words and the place of the result lie in the array. */
  predicate HasFrame(p: Point, n: nat) {
    && 0 <= p.r.fp && p.r.fp + 2 < |p.s.mem| && 1 <= p.r.fp - p.r.numParams
    && p.r.fp - p.r.numParams + n <= |p.s.mem| && 0 <= p.r.sp + 1 - n && p.r.sp < |p.s.mem|
  }

  /** A zero return address leads into the host: with the int, with 0 for a wide result, with the cell under the
      parameters for void. */
  ghost predicate ReturnsToHost(p: Point, n: nat)
    requires HasFrame(p, n)
  {
    var m, under := p.s.mem, p.r.fp - p.r.numParams - 1;
    m[p.r.fp] == 0 ==>
      F.Step(ImageAt(p), p.s)
      == F.Leave(m, p.s.vmsp, p.s.w, p.s.chain, if n == 0 then m[under] else if n == 1 then m[p.r.sp] else 0)
  }

  /** The caller's frame, as the saved words name it. */
  function CallerFrame(p: Point): int
    requires HasFrame(p, 0)
  {
    (p.s.mem[p.r.fp + 1] - p.y.stackBase) / 4
  }

  /** Its method. */
  function CallerMethod(p: Point): int
    requires HasFrame(p, 0) && 0 <= CallerFrame(p) && CallerFrame(p) + 2 < |p.s.mem|
  {
    p.s.mem[CallerFrame(p) + 2] - p.y.codeBase
  }

  /** Any other leads into the caller's frame, with the n top cells in place of the parameters. */
  ghost predicate ReturnsToCaller(p: Point, n: nat)
    requires HasFrame(p, n)
  {
    var m, at := p.s.mem, p.r.fp - p.r.numParams;
    HasFrame(p, 0) && m[p.r.fp] != 0 && 0 <= CallerFrame(p) && CallerFrame(p) + 2 < |m| && 0 <= CallerMethod(p)
    && CallerMethod(p) + 1 < |p.code| ==>
      var fp, params, locals := CallerFrame(p), ByteAt(p.code, CallerMethod(p)), ByteAt(p.code, CallerMethod(p) + 1);
      F.Step(ImageAt(p), p.s)
      == F.Next(p.s.(mem := Written(m, at, m[p.r.sp + 1 - n..p.r.sp + 1]),
                     mode := F.Running(F.Regs(at - 1 + n, m[p.r.fp] - p.y.codeBase, fp, fp - params, fp + 3, params,
                                              locals))))
  }

  lemma ReturnDecodes(p: Point)
    requires Ready(p) && 226 <= U1(p, 0) <= 228
    ensures Decode(p.y, p.code, p.r.cp) == Line(Return(U1(p, 0) - 226), p.r.cp + 1)
  {
    hide Operand, Switches, Int32;
  }

  lemma ReturnSteps(p: Point)
    requires Ready(p) && 226 <= U1(p, 0) <= 228
    ensures F.Step(ImageAt(p), p.s) == F.Unwind(ImageAt(p), p.s, p.r, U1(p, 0) - 226)
  {
    hide Decode, R.ImageOf, Unit, Int32, F.Unwind;
    Loaded(p);
    ReturnDecodes(p);
  }

  lemma Returns(p: Point)
    requires Ready(p) && 226 <= U1(p, 0) <= 228 && HasFrame(p, U1(p, 0) - 226)
    ensures ReturnsToHost(p, U1(p, 0) - 226) && ReturnsToCaller(p, U1(p, 0) - 226)
  {
    hide F.Step, F.Unwind, Ready, U1, HasFrame, ReturnsToHost, ReturnsToCaller;
    ReturnSteps(p);
    ToHost(p, U1(p, 0) - 226);
    ToCaller(p, U1(p, 0) - 226);
  }

  lemma ToHost(p: Point, n: nat)
    requires F.Step(ImageAt(p), p.s) == F.Unwind(ImageAt(p), p.s, p.r, n) && n <= 2 && HasFrame(p, n)
    ensures ReturnsToHost(p, n)
  {
    hide F.Step, R.ImageOf, F.Leave, F.ReadsCaller, F.CallerRegs;
  }

  lemma ToCaller(p: Point, n: nat)
    requires F.Step(ImageAt(p), p.s) == F.Unwind(ImageAt(p), p.s, p.r, n) && n <= 2 && HasFrame(p, n)
    ensures ReturnsToCaller(p, n)
  {
    hide F.Step, F.Unwind, R.ImageOf, Written;
    var m := p.s.mem;
    if HasFrame(p, 0) && m[p.r.fp] != 0 && 0 <= CallerFrame(p) && CallerFrame(p) + 2 < |m| && 0 <= CallerMethod(p)
       && CallerMethod(p) + 1 < |p.code| {
      UnwindsBack(p, n);
      CallerIs(p, n);
    }
  }

  lemma UnwindsBack(p: Point, n: nat)
    requires HasFrame(p, n) && HasFrame(p, 0) && p.s.mem[p.r.fp] != 0 && n <= 2
    requires 0 <= CallerFrame(p) && CallerFrame(p) + 2 < |p.s.mem| && 0 <= CallerMethod(p)
    requires CallerMethod(p) + 1 < |p.code|
    ensures F.ReadsCaller(ImageAt(p), p.s.mem, p.r, n)
    ensures F.Unwind(ImageAt(p), p.s, p.r, n)
            == F.Next(p.s.(mem := Written(p.s.mem, p.r.fp - p.r.numParams, p.s.mem[p.r.sp + 1 - n..p.r.sp + 1]),
                           mode := F.Running(F.CallerRegs(ImageAt(p), p.s.mem, p.r, n))))
  {
    hide F.Unwind, R.ImageOf, Put, Written, F.ReadsCaller, F.CallerRegs;
    var m, at := p.s.mem, p.r.fp - p.r.numParams;
    CallerIs(p, n);
    F.UnwindBack(ImageAt(p), p.s, p.r, n);
    assert m[p.r.sp - n + 1..p.r.sp + 1] == m[p.r.sp + 1 - n..p.r.sp + 1];
    WrittenPut(m, at, m[p.r.sp + 1 - n..p.r.sp + 1]);
  }

  lemma CallerIs(p: Point, n: nat)
    requires HasFrame(p, n) && HasFrame(p, 0) && p.s.mem[p.r.fp] != 0 && n <= 2
    requires 0 <= CallerFrame(p) && CallerFrame(p) + 2 < |p.s.mem| && 0 <= CallerMethod(p)
    requires CallerMethod(p) + 1 < |p.code|
    ensures var m, fp := CallerMethod(p), CallerFrame(p);
            var params, locals := ByteAt(p.code, m), ByteAt(p.code, m + 1);
            && F.ReadsCaller(ImageAt(p), p.s.mem, p.r, n)
            && F.CallerRegs(ImageAt(p), p.s.mem, p.r, n)
               == F.Regs(p.r.fp - p.r.numParams - 1 + n, p.s.mem[p.r.fp] - p.y.codeBase, fp, fp - params, fp + 3,
                         params, locals)
  {
    hide R.ImageOf;
    HeadIs(p, CallerMethod(p));
  }
}
