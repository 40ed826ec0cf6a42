/** Why locals must be stored before they are loaded: a fused code segment and its assembled expansion whose vmCalls
    differ, because a local that was never stored names a cell only the unfused comparison writes. */
module FusionStale {
  import opened Alu
  import opened Bytes
  import opened Options
  import opened Image
  import opened FrameMachine
  import opened Scode
  import opened Fusion
  import opened Relocation
  import opened Assembler
  import F = FlatMachine
  import L = FusionLayout
  import S = Staleness
  import V = VmCall

  /** Method 0 pushes 1, 2, 3, 7, 8, compares with JumpIntEq to the next instruction, pops three, calls block 4 and
      returns its result; the method in block 4 returns its only local. */
  function Dirty(): (code: seq<Byte>)
    ensures |code| == 20
  {
    [0, 0, 3, 4, 5, 8, 7, 8, 8, 150, 2, 135, 221, 4, 0, 227, 0, 1, 37, 227]
  }

  predicate Occurs(pc: int) { 2 <= pc <= 5 || pc == 7 || pc == 9 || pc == 11 || pc == 12 || pc == 15 || 18 <= pc <= 19 }

  /** What the bytes are. */
  function LineOf(pc: int): Line {
    if pc == 2 then Line(Const([1]), 3)
    else if pc == 3 then Line(Const([2]), 4)
    else if pc == 4 then Line(Const([3]), 5)
    else if pc == 5 then Line(Const([7]), 7)
    else if pc == 7 then Line(Const([8]), 9)
    else if pc == 9 then Line(JumpCmp(Eq, 11), 11)
    else if pc == 11 then Line(Operate(Shuffle(3, [])), 12)
    else if pc == 12 then Line(Call(false, 16), 15)
    else if pc == 18 then Line(LoadVar(true, 0, 1), 19)
    else Line(Return(1), pc + 1)
  }

  predicate SmallStack(y: Layout) { y.blockSize == 4 && y.stackMax == 20 && y.codeBase > 0 }

  lemma DirtyOperands(at: int)
    requires at == 6 || at == 8 || at == 10
    ensures Operand(Dirty(), at, 1) == Dirty()[at]
  {
    OneOperand(Dirty(), at);
  }

  lemma DirtyCall()
    ensures Operand(Dirty(), 13, 2) == 4
  {
    var code := Dirty();
    assert code[13] == 4 && code[14] == 0;
    assert Operand(code, 15, 0) == 0;
    assert Operand(code, 14, 1) == 0;
  }

  lemma DirtyDecodes(y: Layout, pc: int)
    requires y.blockSize == 4 && Occurs(pc)
    ensures Decode(y, Dirty(), pc) == LineOf(pc)
  {
    hide Operand, Arithmetic, Storage, Inlined;
    if pc == 5 { DirtyOperands(6); }
    if pc == 7 { DirtyOperands(8); }
    if pc == 9 { DirtyOperands(10); }
    if pc == 12 { DirtyCall(); }
    if pc == 11 { assert Arithmetic(135) == Shuffle(3, []) by { PopThreeIs(); } }
  }

  lemma PopThreeIs()
    ensures Arithmetic(135) == Shuffle(3, [])
  {
  }

  function SpotOf(pc: int): Spot {
    if pc == 18 then Spot(16, 0)
    else if pc == 19 then Spot(16, 1)
    else if pc == 15 then Spot(0, 1)
    else if pc == 12 then Spot(0, 0)
    else if pc == 11 then Spot(0, 3)
    else if pc == 9 then Spot(0, 5)
    else if pc == 7 then Spot(0, 4)
    else if 2 <= pc then Spot(0, pc - 2)
    else Spot(0, 0)
  }

  function DirtyTyping(): Typing {
    Typing(map pc: int | 2 <= pc <= 19 && Occurs(pc) :: SpotOf(pc), map[0 := 1, 16 := 1])
  }

  function Source(y: Layout): Program { Program(y, Dirty(), DirtyTyping(), {}) }

  function FusedImage(y: Layout, h: Host): Image { ImageOf(y, Dirty(), h) }

  lemma FusedLine(y: Layout, h: Host, pc: int)
    requires y.blockSize == 4 && Occurs(pc)
    ensures pc in FusedImage(y, h).lines && FusedImage(y, h).lines[pc] == LineOf(pc)
  {
    hide Decode, ImageOf, LineOf;
    LoadedLine(y, Dirty(), h, pc);
    DirtyDecodes(y, pc);
  }

  lemma FusedHeads(y: Layout, h: Host)
    ensures var heads := FusedImage(y, h).heads;
            0 in heads && 16 in heads && heads[0] == Head(0, 0) && heads[16] == Head(0, 1)
  {
    hide ImageOf;
    LoadedHead(y, Dirty(), h, 0);
    LoadedHead(y, Dirty(), h, 16);
  }

  // ----- the segment is well-formed and can be assembled

  lemma ConstOk(img: Image, ty: Typing, pc: int)
    requires ty == DirtyTyping() && Occurs(pc) && pc < 9 && 0 in img.heads
    requires pc in img.lines && img.lines[pc] == LineOf(pc)
    ensures pc in ty.at && LineOk(img, ty, pc)
  {
    var l := LineOf(pc);
    assert Occurs(l.next) && Flows(l) == {(l.next, 1)} && At(ty, l.next, 0, SpotOf(pc).height + 1);
  }

  lemma JumpOk(img: Image, ty: Typing)
    requires ty == DirtyTyping() && 0 in img.heads && 9 in img.lines && img.lines[9] == LineOf(9)
    ensures 9 in ty.at && LineOk(img, ty, 9)
  {
    assert Flows(LineOf(9)) == {(11, 0)} && At(ty, 11, 0, 3);
  }

  lemma PopOk(img: Image, ty: Typing)
    requires ty == DirtyTyping() && 0 in img.heads && 11 in img.lines && img.lines[11] == LineOf(11)
    ensures 11 in ty.at && LineOk(img, ty, 11)
  {
    assert Flows(LineOf(11)) == {(12, 0)} && At(ty, 12, 0, 0);
  }

  lemma OtherOk(img: Image, ty: Typing, pc: int)
    requires ty == DirtyTyping() && Occurs(pc) && pc >= 12 && 0 in img.heads && 16 in img.heads
    requires img.heads[16] == Head(0, 1) && pc in img.lines && img.lines[pc] == LineOf(pc)
    ensures pc in ty.at && LineOk(img, ty, pc)
  {
    assert At(ty, 15, 0, 1) && At(ty, 19, 16, 1);
  }

  lemma DirtyLineOk(y: Layout, h: Host, pc: int)
    requires y.blockSize == 4 && Occurs(pc)
    ensures pc in DirtyTyping().at && LineOk(FusedImage(y, h), DirtyTyping(), pc)
  {
    hide LineOk, LineOf, FusedImage, SpotOf;
    var img, ty := FusedImage(y, h), DirtyTyping();
    FusedLine(y, h, pc);
    FusedHeads(y, h);
    if pc < 9 {
      ConstOk(img, ty, pc);
    } else if pc == 9 {
      JumpOk(img, ty);
    } else if pc == 11 {
      PopOk(img, ty);
    } else {
      OtherOk(img, ty, pc);
    }
  }

  lemma DirtyEntries()
    ensures At(DirtyTyping(), 2, 0, 0) && At(DirtyTyping(), 18, 16, 0)
  {
  }

  lemma DirtyWellFormed(y: Layout, h: Host)
    requires SmallStack(y)
    ensures WellFormed(FusedImage(y, h), DirtyTyping())
  {
    hide LineOk, SpotOf, ImageOf, SmallHeads, At;
    var ty := DirtyTyping();
    LoadedRest(y, Dirty(), h);
    FusedHeads(y, h);
    DirtyEntries();
    forall pc | pc in ty.at
      ensures pc >= 0 && LineOk(FusedImage(y, h), ty, pc)
    {
      DirtyLineOk(y, h, pc);
    }
  }

  lemma DirtyLength(y: Layout, pc: int)
    requires y.blockSize == 4 && Occurs(pc)
    ensures InCode(Dirty(), pc) && Length(y, Dirty(), pc) == LineOf(pc).next - pc <= 3 && LineOf(pc).next <= 20
    ensures !(215 <= Dirty()[pc] <= 220) && !(20 <= Dirty()[pc] <= 23)
  {
    hide Decode;
    DirtyDecodes(y, pc);
  }

  /** Nothing else begins inside an instruction. */
  lemma DirtyApart(y: Layout, pc: int)
    requires y.blockSize == 4 && Occurs(pc)
    ensures forall q | pc < q < LineOf(pc).next :: q !in DirtyTyping().at && q !in DirtyTyping().kind
  {
    hide SpotOf;
  }

  lemma DirtyInside(y: Layout)
    requires y.blockSize == 4
    ensures Inside(Source(y)) && Disjoint(Source(y)) && TablesApart(Source(y)) && InlinedFields(Source(y)) == map[]
  {
    hide SpotOf, Length, Operand, LineOf, Dirty;
    forall pc | pc in DirtyTyping().at
      ensures InCode(Dirty(), pc) && pc + Length(y, Dirty(), pc) <= 20
      ensures !(215 <= Dirty()[pc] <= 220) && !(20 <= Dirty()[pc] <= 23)
      ensures forall q | pc < q < pc + Length(y, Dirty(), pc) :: q !in DirtyTyping().at && q !in DirtyTyping().kind
    {
      DirtyLength(y, pc);
      DirtyApart(y, pc);
    }
  }

  lemma NarrowPiece(y: Layout, x: int, at: int)
    requires y.blockSize == 4 && Inside(Source(y))
    ensures Width(Source(y), x, at) <= 8
  {
    hide Inside, Length, SpotOf, Dirty;
    if Occurs(x) { DirtyLength(y, x); }
  }

  lemma DirtyAssemblable(y: Layout)
    requires y.blockSize == 4
    ensures Assemblable(Source(y))
  {
    hide Inside, Disjoint, FitsAll, TablesApart, Width;
    DirtyInside(y);
    forall z, at
      ensures Width(Source(y), z, at) <= 8
    {
      NarrowPiece(y, z, at);
    }
    NarrowFits(Source(y), 8);
  }

  // ----- straight-line steps of the flat machine, wherever the code lies

  /** The image holds the instructions of the segment at the places of the plan, the comparison apart. */
  ghost predicate Holds(img: Image, p: Plan, y: Layout) {
    && (forall pc | Occurs(pc) && pc != 9 ::
          p.place(pc) in img.lines
          && img.lines[p.place(pc)] == Line(MovedInstr(p, LineOf(pc).instr), p.place(LineOf(pc).next)))
    && p.meth(0) in img.heads && img.heads[p.meth(0)] == Head(0, 0) && p.place(2) == p.meth(0) + 2
    && p.meth(16) in img.heads && img.heads[p.meth(16)] == Head(0, 1) && p.place(18) == p.meth(16) + 2
    && p.place(15) >= 0 && img.stackMax == 20 && img.codeBase > 0
    && exists fpu :: img.alu == Unit(y, fpu)
  }

  lemma HoldsLine(img: Image, p: Plan, y: Layout, pc: int)
    requires Holds(img, p, y) && Occurs(pc) && pc != 9
    ensures p.place(pc) in img.lines
    ensures img.lines[p.place(pc)] == Line(MovedInstr(p, LineOf(pc).instr), p.place(LineOf(pc).next))
  {
    hide LineOf, MovedInstr;
  }

  lemma Pushes(img: Image, p: Plan, y: Layout, s: F.Flat, r: F.Regs, pc: int)
    requires Holds(img, p, y) && Occurs(pc) && pc < 9 && r.cp == p.place(pc)
    requires s.mode == F.Running(r) && 0 <= r.sp && r.sp + 1 < |s.mem| == 20
    ensures F.Step(img, s) == F.Next(s.(mem := Put(s.mem, r.sp + 1, LineOf(pc).instr.ws),
                                        mode := F.Running(r.(sp := r.sp + 1, cp := p.place(LineOf(pc).next)))))
  {
    hide Put, Holds;
    HoldsLine(img, p, y, pc);
    assert img.stackMax == 20 by { HoldsRest(img, p, y); }
    var l := img.lines[p.place(pc)];
    assert Perform(img, l, [], s.w) == Go(l.instr.ws, l.next, s.w);
  }

  lemma HoldsRest(img: Image, p: Plan, y: Layout)
    requires Holds(img, p, y)
    ensures img.stackMax == 20 && img.codeBase > 0 && p.place(15) >= 0
    ensures p.meth(0) in img.heads && img.heads[p.meth(0)] == Head(0, 0) && p.place(2) == p.meth(0) + 2
    ensures p.meth(16) in img.heads && img.heads[p.meth(16)] == Head(0, 1) && p.place(18) == p.meth(16) + 2
  {
    hide LineOf, MovedInstr;
  }

  /** The five constants. */
  lemma FivePushes(img: Image, p: Plan, y: Layout, s: F.Flat, r: F.Regs)
    requires Holds(img, p, y) && s.mode == F.Running(r) && r.sp == 3 && r.cp == p.place(2) && |s.mem| == 20
    ensures F.Run(img, s, 5).Next?
    ensures var s' := F.Run(img, s, 5).s;
            && s' == s.(mem := s'.mem, mode := F.Running(r.(sp := 8, cp := p.place(9)))) && |s'.mem| == 20
            && s'.mem[..4] == s.mem[..4] && s'.mem[7] == 7 && s'.mem[8] == 8
  {
    hide F.Step, Holds;
    Pushes(img, p, y, s, r, 2);
    var s1 := F.Step(img, s).s;
    Pushes(img, p, y, s1, s1.mode.r, 3);
    var s2 := F.Step(img, s1).s;
    Pushes(img, p, y, s2, s2.mode.r, 4);
    var s3 := F.Step(img, s2).s;
    Pushes(img, p, y, s3, s3.mode.r, 5);
    var s4 := F.Step(img, s3).s;
    Pushes(img, p, y, s4, s4.mode.r, 7);
  }

  /** A simple instruction that pushes nothing. */
  lemma Drops(img: Image, s: F.Flat, r: F.Regs, l: Line, pc: int)
    requires s.mode == F.Running(r) && r.sp < img.stackMax == |s.mem|
    requires r.cp in img.lines && img.lines[r.cp] == l && Simple(l.instr) && PointerDepthOf(l.instr) < 0
    requires 0 <= r.sp - Pops(l.instr) + 1
    requires Perform(img, l, s.mem[r.sp - Pops(l.instr) + 1..r.sp + 1], s.w) == Go([], pc, s.w)
    ensures F.Step(img, s) == F.Next(s.(mode := F.Running(r.(sp := r.sp - Pops(l.instr), cp := pc))))
  {
    hide Perform, Pops;
    var at := r.sp - Pops(l.instr) + 1;
    assert Put(s.mem, at, []) == s.mem;
  }

  lemma PopsThree(img: Image, p: Plan, y: Layout, a: seq<int>, w: World)
    requires Holds(img, p, y) && |a| == 3
    ensures var l := img.lines[p.place(11)];
            && p.place(11) in img.lines && Simple(l.instr) && PointerDepthOf(l.instr) < 0 && Pops(l.instr) == 3
            && Perform(img, l, a, w) == Go([], p.place(12), w)
  {
    HoldsLine(img, p, y, 11);
    assert Picks(a, []) == [];
  }

  /** Pop3, Call, LoadLocal0, ReturnPop, ReturnPop: the value is what the seventh cell holds. */
  lemma Tail(img: Image, p: Plan, y: Layout, s: F.Flat, r: F.Regs)
    requires Holds(img, p, y) && s.mode == F.Running(r) && r == F.Regs(6, p.place(11), 1, 1, 4, 0, 0) && |s.mem| == 20
    requires s.mem[1] == 0 && s.mem[3] == CodeCell(img, p.meth(0)) && s.chain == F.Outside
    ensures F.Run(img, s, 5).Halt? && F.Run(img, s, 5).value == s.mem[7]
  {
    hide F.Step, Holds, CodeCell;
    HoldsRest(img, p, y);
    PopsThree(img, p, y, s.mem[4..7], s.w);
    Drops(img, s, r, img.lines[p.place(11)], p.place(12));
    var s1 := F.Step(img, s).s;
    Calls(img, p, y, s1, s1.mode.r);
    var s2 := F.Step(img, s1).s;
    Loads(img, p, y, s2, s2.mode.r);
    var s3 := F.Step(img, s2).s;
    Returns(img, p, y, s3, s3.mode.r);
    var s4 := F.Step(img, s3).s;
    Halts(img, p, y, s4, s4.mode.r);
  }

  lemma Calls(img: Image, p: Plan, y: Layout, s: F.Flat, r: F.Regs)
    requires Holds(img, p, y) && s.mode == F.Running(r) && r == F.Regs(3, p.place(12), 1, 1, 4, 0, 0) && |s.mem| == 20
    ensures F.Step(img, s).Next?
    ensures var s' := F.Step(img, s).s;
            && s' == s.(mem := s'.mem, mode := F.Running(F.Regs(7, p.place(18), 4, 4, 7, 0, 1))) && |s'.mem| == 20
            && s'.mem[4] == CodeCell(img, p.place(15)) && s'.mem[5] == StackCell(img, 1)
            && s'.mem[1] == s.mem[1] && s'.mem[3] == s.mem[3] && s'.mem[7] == s.mem[7]
  {
    hide CodeCell, StackCell, Holds;
    HoldsRest(img, p, y);
    HoldsLine(img, p, y, 12);
  }

  lemma Loads(img: Image, p: Plan, y: Layout, s: F.Flat, r: F.Regs)
    requires Holds(img, p, y) && s.mode == F.Running(r) && r == F.Regs(7, p.place(18), 4, 4, 7, 0, 1) && |s.mem| == 20
    ensures F.Step(img, s).Next?
    ensures var s' := F.Step(img, s).s;
            && s' == s.(mem := s'.mem, mode := F.Running(r.(sp := 8, cp := p.place(19)))) && |s'.mem| == 20
            && s'.mem[8] == s.mem[7] && forall k | 0 <= k < 8 :: s'.mem[k] == s.mem[k]
  {
    hide Holds;
    HoldsRest(img, p, y);
    HoldsLine(img, p, y, 18);
  }

  lemma Returns(img: Image, p: Plan, y: Layout, s: F.Flat, r: F.Regs)
    requires Holds(img, p, y) && s.mode == F.Running(r) && r == F.Regs(8, p.place(19), 4, 4, 7, 0, 1) && |s.mem| == 20
    requires s.mem[4] == CodeCell(img, p.place(15)) && s.mem[5] == StackCell(img, 1)
    requires s.mem[3] == CodeCell(img, p.meth(0))
    ensures F.Step(img, s).Next?
    ensures var s' := F.Step(img, s).s;
            && s' == s.(mem := s'.mem, mode := F.Running(F.Regs(4, p.place(15), 1, 1, 4, 0, 0))) && |s'.mem| == 20
            && s'.mem[4] == s.mem[8] && s'.mem[1] == s.mem[1]
  {
    hide Holds;
    HoldsRest(img, p, y);
    HoldsLine(img, p, y, 19);
    F.UnwindBack(img, s, r, 1);
  }

  lemma Halts(img: Image, p: Plan, y: Layout, s: F.Flat, r: F.Regs)
    requires Holds(img, p, y) && s.mode == F.Running(r) && r == F.Regs(4, p.place(15), 1, 1, 4, 0, 0) && |s.mem| == 20
    requires s.mem[1] == 0 && s.chain == F.Outside
    ensures F.Step(img, s).Halt? && F.Step(img, s).value == s.mem[4]
  {
    hide Holds;
    HoldsRest(img, p, y);
    HoldsLine(img, p, y, 15);
  }

  // ----- both calls

  lemma {:induction false} RunSplit(img: Image, s: F.Flat, m: nat, n: nat)
    ensures F.Run(img, s, m + n) == F.Continue(img, F.Run(img, s, m), n)
    decreases m
  {
    hide F.Step;
    if m > 0 {
      var o := F.Step(img, s);
      if o.Next? { RunSplit(img, o.s, m - 1, n); }
    }
  }

  lemma OneMore(img: Image, s: F.Flat, n: nat)
    ensures F.Run(img, s, n + 1) == F.Continue(img, F.Step(img, s), n)
  {
    hide F.Step;
  }

  /** vmCall of the first method reaches the comparison with 7 and 8 on top. */
  lemma Begins(img: Image, p: Plan, y: Layout, mem: seq<int>, w: World)
    requires Holds(img, p, y) && |mem| == 20
    ensures F.Enter(img, mem, 0, w, F.Outside, p.meth(0), []).Next?
    ensures var o := F.Run(img, F.Enter(img, mem, 0, w, F.Outside, p.meth(0), []).s, 5);
            && o.Next? && o.s.mode == F.Running(F.Regs(8, p.place(9), 1, 1, 4, 0, 0))
            && |o.s.mem| == 20 && o.s.chain == F.Outside
            && o.s.mem[1] == 0 && o.s.mem[3] == CodeCell(img, p.meth(0)) && o.s.mem[7] == 7 && o.s.mem[8] == 8
  {
    hide F.Run, CodeCell, Holds;
    HoldsRest(img, p, y);
    var s := F.Enter(img, mem, 0, w, F.Outside, p.meth(0), []).s;
    FivePushes(img, p, y, s, s.mode.r);
    var s' := F.Run(img, s, 5).s;
    assert s'.mem[1] == s'.mem[..4][1] && s'.mem[3] == s'.mem[..4][3];
  }

  /** Nothing moves. */
  function Stay(): Plan {
    Plan(x => x, x => x + 1, m => m, {0, 16}, (w: World, o: int, slot: int) => false, map[])
  }

  lemma FusedHolds(y: Layout, h: Host)
    requires SmallStack(y)
    ensures Holds(FusedImage(y, h), Stay(), y)
    ensures 9 in FusedImage(y, h).lines && FusedImage(y, h).lines[9] == LineOf(9)
  {
    hide ImageOf, Decode;
    LoadedRest(y, Dirty(), h);
    FusedHeads(y, h);
    forall pc | Occurs(pc)
      ensures pc in FusedImage(y, h).lines && FusedImage(y, h).lines[pc] == LineOf(pc)
    {
      FusedLine(y, h, pc);
    }
  }

  lemma Compares(img: Image, a: seq<int>, w: World)
    requires |a| == 2 && a[0] == 7 && a[1] == 8
    ensures Perform(img, LineOf(9), a, w) == Go([], 11, w)
  {
  }

  lemma FusedAnswers(y: Layout, h: Host, mem: seq<int>, w: World)
    requires SmallStack(y) && |mem| == 20
    ensures V.Call(FusedImage(y, h), mem, 0, w, 0, [], 11).Halt?
    ensures V.Call(FusedImage(y, h), mem, 0, w, 0, [], 11).value == 7
  {
    hide F.Enter, F.Run, F.Step, Perform, CodeCell, Holds, FusedImage;
    var img := FusedImage(y, h);
    FusedHolds(y, h);
    HoldsRest(img, Stay(), y);
    Begins(img, Stay(), y, mem, w);
    var s := F.Enter(img, mem, 0, w, F.Outside, 0, []).s;
    var s1 := F.Run(img, s, 5).s;
    Compares(img, s1.mem[7..9], s1.w);
    Drops(img, s1, s1.mode.r, LineOf(9), 11);
    RunSplit(img, s, 5, 6);
    var s2 := F.Step(img, s1).s;
    OneMore(img, s1, 5);
    Tail(img, Stay(), y, s2, s2.mode.r);
  }

  // ----- the assembled segment

  function Clean(y: Layout, h: Host): Image
    requires y.blockSize == 4
  {
    DirtyInside(y);
    ImageOf(y, Assemble(Source(y)), h)
  }

  function Moves(y: Layout): Plan
    requires y.blockSize == 4
  {
    DirtyInside(y);
    PlanOf(Source(y))
  }

  /** The typing moved along. */
  function CleanTyping(y: Layout, h: Host): Typing
    requires y.blockSize == 4
  {
    DirtyInside(y);
    ProgramApart(Source(y), h);
    L.MovedTyping(FusedImage(y, h), DirtyTyping(), Moves(y))
  }

  lemma CleanExpands(y: Layout, fpu: (int, seq<int>) -> seq<int>)
    requires y.blockSize == 4
    ensures var h := Quiet(fpu); Expands(FusedImage(y, h), DirtyTyping(), Clean(y, h), CleanTyping(y, h), Moves(y))
  {
    hide Expands, Assemble, PlanOf, Inside, Assemblable, L.MovedTyping, HostsAlike;
    DirtyAssemblable(y);
    DirtyInside(y);
    QuietAlike(fpu, Moves(y));
    AssembledExpands(Source(y), Quiet(fpu), Quiet(fpu));
  }

  lemma MovedPlain(p: Plan, pc: int)
    requires Occurs(pc) && p.inlined == map[]
    ensures Fused(p, pc, LineOf(pc).instr) <==> pc == 9
  {
  }

  lemma CleanLine(y: Layout, fpu: (int, seq<int>) -> seq<int>, pc: int)
    requires y.blockSize == 4 && Occurs(pc) && pc != 9
    ensures var img, p := Clean(y, Quiet(fpu)), Moves(y);
            p.place(pc) in img.lines
            && img.lines[p.place(pc)] == Line(MovedInstr(p, LineOf(pc).instr), p.place(LineOf(pc).next))
  {
    hide Clean, FusedImage, Expands, LineOf, MovedInstr, Fused, CleanTyping, SpotOf, Inside;
    CleanExpands(y, fpu);
    FusedLine(y, Quiet(fpu), pc);
    LineAt(FusedImage(y, Quiet(fpu)), DirtyTyping(), Clean(y, Quiet(fpu)), CleanTyping(y, Quiet(fpu)), Moves(y), pc);
    MovesPlain(y);
    MovedPlain(Moves(y), pc);
  }

  lemma MovesPlain(y: Layout)
    requires y.blockSize == 4
    ensures Moves(y).inlined == map[] && Moves(y).middle(9) == Moves(y).place(9) + 1
  {
    hide Inside, InlinedFields;
    DirtyInside(y);
  }

  lemma CleanCompare(y: Layout, fpu: (int, seq<int>) -> seq<int>)
    requires y.blockSize == 4
    ensures var img, p := Clean(y, Quiet(fpu)), Moves(y);
            && p.place(9) in img.lines && img.lines[p.place(9)] == Line(Operate(IntCmp(Eq)), p.middle(9))
            && p.middle(9) in img.lines && img.lines[p.middle(9)] == Line(JumpIf(false, p.place(11)), p.place(11))
  {
    hide Clean, FusedImage, Expands, CleanTyping, SpotOf, Inside;
    CleanExpands(y, fpu);
    FusedLine(y, Quiet(fpu), 9);
    LineAt(FusedImage(y, Quiet(fpu)), DirtyTyping(), Clean(y, Quiet(fpu)), CleanTyping(y, Quiet(fpu)), Moves(y), 9);
    MovesPlain(y);
  }

  lemma CleanHeads(y: Layout, fpu: (int, seq<int>) -> seq<int>)
    requires y.blockSize == 4
    ensures var img, p := Clean(y, Quiet(fpu)), Moves(y);
            && p.meth(0) in img.heads && img.heads[p.meth(0)] == Head(0, 0) && p.place(2) == p.meth(0) + 2
            && p.meth(16) in img.heads && img.heads[p.meth(16)] == Head(0, 1) && p.place(18) == p.meth(16) + 2
  {
    hide Clean, FusedImage, Expands, CleanTyping, Moves, SpotOf;
    var h := Quiet(fpu);
    CleanExpands(y, fpu);
    FusedHeads(y, h);
    HeadMoves(FusedImage(y, h), DirtyTyping(), Clean(y, h), CleanTyping(y, h), Moves(y), 0);
    HeadMoves(FusedImage(y, h), DirtyTyping(), Clean(y, h), CleanTyping(y, h), Moves(y), 16);
  }

  lemma CleanRest(y: Layout, fpu: (int, seq<int>) -> seq<int>)
    requires SmallStack(y)
    ensures var img := Clean(y, Quiet(fpu)); img.stackMax == 20 && img.codeBase > 0 && img.alu == Unit(y, fpu)
  {
    hide Inside, ImageOf, Assemble;
    DirtyInside(y);
    LoadedRest(y, Assemble(Source(y)), Quiet(fpu));
  }

  lemma CleanHolds(y: Layout, fpu: (int, seq<int>) -> seq<int>)
    requires SmallStack(y)
    ensures Holds(Clean(y, Quiet(fpu)), Moves(y), y)
  {
    hide LineOf, MovedInstr, Clean, Moves;
    var h, p := Quiet(fpu), Moves(y);
    CleanHeads(y, fpu);
    CleanRest(y, fpu);
    ReturnPlace(y);
    forall pc | Occurs(pc) && pc != 9
      ensures p.place(pc) in Clean(y, h).lines
      ensures Clean(y, h).lines[p.place(pc)] == Line(MovedInstr(p, LineOf(pc).instr), p.place(LineOf(pc).next))
    {
      CleanLine(y, fpu, pc);
    }
  }

  lemma ReturnPlace(y: Layout)
    requires y.blockSize == 4
    ensures Moves(y).place(15) >= 0
  {
    hide Inside;
    DirtyInside(y);
    PosMonotone(Source(y), 15, 15);
  }

  /** The unfused comparison writes its 0 to the seventh cell. */
  lemma CleanCompares(img: Image, p: Plan, y: Layout, s: F.Flat, r: F.Regs)
    requires Holds(img, p, y) && s.mode == F.Running(r) && r == F.Regs(8, p.place(9), 1, 1, 4, 0, 0) && |s.mem| == 20
    requires s.mem[7] == 7 && s.mem[8] == 8
    requires p.place(9) in img.lines && img.lines[p.place(9)] == Line(Operate(IntCmp(Eq)), p.middle(9))
    ensures F.Step(img, s).Next?
    ensures var s' := F.Step(img, s).s;
            && s' == s.(mem := s'.mem, mode := F.Running(r.(sp := 7, cp := p.middle(9)))) && |s'.mem| == 20
            && s'.mem[7] == 0 && s'.mem[1] == s.mem[1] && s'.mem[3] == s.mem[3]
  {
    hide Put, Holds;
    HoldsRest(img, p, y);
    var a := s.mem[7..9];
    assert a == [7, 8];
    CompareCells(img, p, y, a, s.w);
  }

  lemma CompareCells(img: Image, p: Plan, y: Layout, a: seq<int>, w: World)
    requires Holds(img, p, y) && a == [7, 8]
    ensures img.alu(IntCmp(Eq), a, w) == Some(([0], w))
  {
    hide LineOf, MovedInstr;
    var fpu :| img.alu == Unit(y, fpu);
    assert DataPops(IntCmp(Eq)) == 2 && OnNumbers(IntCmp(Eq));
    assert img.alu(IntCmp(Eq), a, w) == EvalNumber(IntCmp(Eq), a, w, fpu);
  }

  lemma Falls(img: Image, a: seq<int>, w: World, to: int)
    requires a == [0]
    ensures Perform(img, Line(JumpIf(false, to), to), a, w) == Go([], to, w)
  {
  }

  lemma CleanAnswers(y: Layout, fpu: (int, seq<int>) -> seq<int>, mem: seq<int>, w: World)
    requires SmallStack(y) && |mem| == 20
    ensures var o := V.Call(Clean(y, Quiet(fpu)), mem, 0, w, Moves(y).meth(0), [], 12); o.Halt? && o.value == 0
  {
    hide F.Enter, F.Run, F.Step, Perform, CodeCell, Holds, Clean, Moves;
    var img, p := Clean(y, Quiet(fpu)), Moves(y);
    CleanHolds(y, fpu);
    CleanCompare(y, fpu);
    HoldsRest(img, p, y);
    Begins(img, p, y, mem, w);
    var s := F.Enter(img, mem, 0, w, F.Outside, p.meth(0), []).s;
    var s1 := F.Run(img, s, 5).s;
    CleanCompares(img, p, y, s1, s1.mode.r);
    var s2 := F.Step(img, s1).s;
    Falls(img, s2.mem[7..8], s2.w, p.place(11));
    Drops(img, s2, s2.mode.r, Line(JumpIf(false, p.place(11)), p.place(11)), p.place(11));
    var s3 := F.Step(img, s2).s;
    RunSplit(img, s, 5, 7);
    OneMore(img, s1, 6);
    OneMore(img, s2, 5);
    Tail(img, p, y, s3, s3.mode.r);
  }

  lemma NotDefinite(y: Layout, h: Host, da: S.Stored)
    requires y.blockSize == 4
    ensures !S.Definite(FusedImage(y, h), DirtyTyping(), da)
  {
    hide ImageOf, FusedImage;
    var img, ty := FusedImage(y, h), DirtyTyping();
    FusedLine(y, h, 18);
    assert 18 in ty.at;
    if 18 in da && S.Within(da, 18, {}) {
      NothingStored(img, da, 18);
    } else {
      assert 16 in ty.kind;
    }
  }

  lemma NothingStored(img: Image, da: S.Stored, pc: int)
    requires S.Within(da, pc, {}) && pc in img.lines && img.lines[pc].instr == LoadVar(true, 0, 1)
    ensures !S.LineStored(img, da, pc)
  {
    assert 0 in S.Cells(0, 1) && 0 !in da[pc];
  }

  /** Everything that Assembler.AssembledCall asks of a segment holds but definite assignment, and the two calls differ,
      whatever their arrays hold. */
  lemma StaleLocalDiffers(y: Layout, fpu: (int, seq<int>) -> seq<int>, mem: seq<int>, mem': seq<int>, w: World)
    requires SmallStack(y) && |mem| == |mem'| == 20
    ensures var h := Quiet(fpu);
            && Assemblable(Source(y)) && HostsAlike(h, h, Moves(y)) && WellFormed(FusedImage(y, h), DirtyTyping())
            && S.DeafNatives(FusedImage(y, h), DirtyTyping()) && S.DeafNatives(Clean(y, h), CleanTyping(y, h))
            && forall da :: !S.Definite(FusedImage(y, h), DirtyTyping(), da)
    ensures var o := V.Call(FusedImage(y, Quiet(fpu)), mem, 0, w, 0, [], 11); o.Halt? && o.value == 7
    ensures var o' := V.Call(Clean(y, Quiet(fpu)), mem', 0, w, Moves(y).meth(0), [], 12); o'.Halt? && o'.value == 0
  {
    hide WellFormed, S.DeafNatives, V.Call, S.Definite, Clean, FusedImage, Moves, Assemblable, HostsAlike, CleanTyping;
    var h := Quiet(fpu);
    DirtyAssemblable(y);
    QuietAlike(fpu, Moves(y));
    DirtyWellFormed(y, h);
    QuietNatives(y, fpu);
    FusedAnswers(y, h, mem, w);
    CleanAnswers(y, fpu, mem', w);
    forall da
      ensures !S.Definite(FusedImage(y, h), DirtyTyping(), da)
    {
      NotDefinite(y, h, da);
    }
  }

  lemma QuietNatives(y: Layout, fpu: (int, seq<int>) -> seq<int>)
    requires y.blockSize == 4
    ensures var h := Quiet(fpu);
            S.DeafNatives(FusedImage(y, h), DirtyTyping()) && S.DeafNatives(Clean(y, h), CleanTyping(y, h))
  {
    hide S.DeafNatives, Assemble, Inside, CleanTyping, ImageOf;
    var h := Quiet(fpu);
    DirtyInside(y);
    LoadedRest(y, Dirty(), h);
    LoadedRest(y, Assemble(Source(y)), h);
    QuietDeaf(FusedImage(y, h), DirtyTyping(), fpu);
    QuietDeaf(Clean(y, h), CleanTyping(y, h), fpu);
  }
}
