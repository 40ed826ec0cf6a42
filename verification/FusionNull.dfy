/** The null test that a fused inline-field load leaves out: a code segment and its assembled expansion whose vmCalls
    differ exactly for a null argument. */
module FusionNull {
  import opened Alu
  import opened Bytes
  import opened Options
  import opened Image
  import opened FrameMachine
  import opened Evaluator
  import opened Scode
  import opened Fusion
  import opened Relocation
  import opened Assembler
  import L = FusionLayout
  import V = VmCall

  /** One method with one parameter: LoadParam0InlineField 4, ReturnPop. */
  function Getter(): (code: seq<Byte>)
    ensures |code| == 5
  {
    [1, 0, 215, 4, 227]
  }

  function GetterTyping(): Typing { Typing(map[2 := Spot(0, 0), 4 := Spot(0, 1)], map[0 := 1]) }

  function Source(y: Layout): Program { Program(y, Getter(), GetterTyping(), {}) }

  predicate SmallStack(y: Layout) { y.blockSize == 4 && y.stackMax == 10 && y.codeBase > 0 }

  function FusedImage(y: Layout, h: Host): Image { ImageOf(y, Getter(), h) }

  lemma GetterDecodes(y: Layout)
    ensures Decode(y, Getter(), 2) == Line(InlineParam0(4), 4) && Decode(y, Getter(), 4) == Line(Return(1), 5)
  {
    hide Arithmetic, Storage, Variable;
    OneOperand(Getter(), 3);
  }

  lemma FusedLines(y: Layout, h: Host)
    ensures var img := FusedImage(y, h);
            && 2 in img.lines && img.lines[2] == Line(InlineParam0(4), 4)
            && 4 in img.lines && img.lines[4] == Line(Return(1), 5)
            && 0 in img.heads && img.heads[0] == Head(1, 0)
  {
    hide Decode, ImageOf;
    GetterDecodes(y);
    LoadedLine(y, Getter(), h, 2);
    LoadedLine(y, Getter(), h, 4);
    LoadedHead(y, Getter(), h, 0);
  }

  lemma FusedWellFormed(y: Layout, h: Host)
    requires SmallStack(y)
    ensures WellFormed(FusedImage(y, h), GetterTyping())
  {
    hide ImageOf;
    LoadedRest(y, Getter(), h);
    FusedLines(y, h);
    assert At(GetterTyping(), 4, 0, 1) && At(GetterTyping(), 2, 0, 0);
  }

  lemma GetterLengths(y: Layout)
    ensures Length(y, Getter(), 2) == 2 && Length(y, Getter(), 4) == 1
  {
    hide Decode;
    GetterDecodes(y);
  }

  lemma GetterInside(y: Layout)
    requires y.blockSize == 4
    ensures Inside(Source(y)) && Disjoint(Source(y)) && TablesApart(Source(y)) && InlinedFields(Source(y)) == map[]
  {
    hide Length, Operand;
    GetterLengths(y);
  }

  lemma GetterAssemblable(y: Layout)
    requires y.blockSize == 4
    ensures Assemblable(Source(y))
  {
    hide Inside, Disjoint, FitsAll, TablesApart, Width;
    GetterInside(y);
    forall z, at
      ensures Width(Source(y), z, at) <= 8
    {
      NarrowPiece(y, z, at);
    }
    NarrowFits(Source(y), 8);
  }

  lemma NarrowPiece(y: Layout, x: int, at: int)
    requires y.blockSize == 4 && Inside(Source(y))
    ensures Width(Source(y), x, at) <= 8
  {
    hide Inside, Length;
    GetterLengths(y);
  }

  // ----- the assembled segment

  function Clean(y: Layout, h: Host): Image
    requires y.blockSize == 4
  {
    GetterInside(y);
    ImageOf(y, Assemble(Source(y)), h)
  }

  function Moves(y: Layout): Plan
    requires y.blockSize == 4
  {
    GetterInside(y);
    PlanOf(Source(y))
  }

  function CleanTyping(y: Layout, h: Host): Typing
    requires y.blockSize == 4
  {
    GetterInside(y);
    ProgramApart(Source(y), h);
    L.MovedTyping(FusedImage(y, h), GetterTyping(), Moves(y))
  }

  lemma CleanExpands(y: Layout, fpu: (int, seq<int>) -> seq<int>)
    requires y.blockSize == 4
    ensures var h := Quiet(fpu);
            && L.Apart(FusedImage(y, h), GetterTyping(), Moves(y))
            && Expands(FusedImage(y, h), GetterTyping(), Clean(y, h), CleanTyping(y, h), Moves(y))
  {
    hide Expands, Assemble, PlanOf, Inside, Assemblable, L.MovedTyping, HostsAlike, L.Apart;
    GetterAssemblable(y);
    GetterInside(y);
    QuietAlike(fpu, Moves(y));
    AssembledExpands(Source(y), Quiet(fpu), Quiet(fpu));
  }

  lemma CleanWellFormed(y: Layout, fpu: (int, seq<int>) -> seq<int>)
    requires SmallStack(y)
    ensures WellFormed(Clean(y, Quiet(fpu)), CleanTyping(y, Quiet(fpu)))
  {
    hide Expands, Assemble, PlanOf, Inside, WellFormed, L.MovedTyping, L.Apart, SmallHeads, ImageOf;
    var h := Quiet(fpu);
    CleanExpands(y, fpu);
    FusedWellFormed(y, h);
    GetterInside(y);
    LoadedRest(y, Assemble(Source(y)), h);
    L.ExpansionWellFormed(FusedImage(y, h), GetterTyping(), Clean(y, h), Moves(y));
  }

  lemma MovesInline(y: Layout)
    requires y.blockSize == 4
    ensures Moves(y).inlined == map[]
  {
    hide Inside, InlinedFields;
    GetterInside(y);
  }

  lemma CleanHalves(y: Layout, fpu: (int, seq<int>) -> seq<int>)
    requires y.blockSize == 4
    ensures var img, p := Clean(y, Quiet(fpu)), Moves(y);
            && p.place(2) in img.lines && img.lines[p.place(2)] == Line(LoadVar(false, 0, 1), p.middle(2))
            && p.middle(2) in img.lines && img.lines[p.middle(2)] == Line(Operate(Inline(4)), p.place(4))
            && p.place(4) in img.lines && img.lines[p.place(4)] == Line(Return(1), p.place(5))
  {
    hide Clean, FusedImage, Expands, CleanTyping, Moves, L.Apart;
    var h, p := Quiet(fpu), Moves(y);
    CleanExpands(y, fpu);
    FusedLines(y, h);
    MovesInline(y);
    LineAt(FusedImage(y, h), GetterTyping(), Clean(y, h), CleanTyping(y, h), p, 2);
    LineAt(FusedImage(y, h), GetterTyping(), Clean(y, h), CleanTyping(y, h), p, 4);
  }

  lemma CleanHead(y: Layout, fpu: (int, seq<int>) -> seq<int>)
    requires y.blockSize == 4
    ensures var img, p, ty := Clean(y, Quiet(fpu)), Moves(y), CleanTyping(y, Quiet(fpu));
            && p.meth(0) in img.heads && img.heads[p.meth(0)] == Head(1, 0) && p.place(2) == p.meth(0) + 2
            && p.meth(0) in ty.kind
  {
    hide Clean, FusedImage, Expands, CleanTyping, Moves, L.Apart;
    var h := Quiet(fpu);
    CleanExpands(y, fpu);
    FusedLines(y, h);
    HeadMoves(FusedImage(y, h), GetterTyping(), Clean(y, h), CleanTyping(y, h), Moves(y), 0);
  }

  // ----- both calls

  lemma FusedEval(y: Layout, h: Host, v: int, w: World, stale: seq<int>, ticks: seq<Tick>)
    requires SmallStack(y) && |ticks| == 2
    ensures EvalMethod(FusedImage(y, h), GetterTyping(), 0, [v], w, 0, stale, ticks)
            == Returned([Wrap32(v + 4)], w, 0, [])
  {
    hide ImageOf, Eval, Wrap32;
    LoadedRest(y, Getter(), h);
    FusedLines(y, h);
    var b := NewBody(0, 1, [v], Head(1, 0), Fit(stale, 1)[1..]);
    assert b == Body(0, 2, 1, [v], [], []);
    FusedBody(FusedImage(y, h), GetterTyping(), b, v, w, ticks);
  }

  lemma FusedBody(img: Image, ty: Typing, b: Body, v: int, w: World, ticks: seq<Tick>)
    requires b == Body(0, 2, 1, [v], [], []) && img.stackMax == 10 && |ticks| == 2
    requires 2 in img.lines && img.lines[2] == Line(InlineParam0(4), 4)
    requires 4 in img.lines && img.lines[4] == Line(Return(1), 5)
    ensures Eval(img, ty, b, w, 0, ticks) == Returned([Wrap32(v + 4)], w, 0, [])
  {
    hide EvalCall, EvalAct, Wrap32;
    var b' := b.(ops := [Wrap32(v + 4)], pc := 4);
    assert Eval(img, ty, b, w, 0, ticks) == Eval(img, ty, b', w, 0, ticks[1..]);
    assert ticks[1..][1..] == [];
    assert b'.ops[0..] == b'.ops;
  }

  lemma InlineCells(y: Layout, fpu: (int, seq<int>) -> seq<int>, a: seq<int>, w: World)
    requires |a| == 1
    ensures Unit(y, fpu)(Inline(4), a, w) == Some(([Wrap32(a[0] + 4)], w))
  {
    assert !OnNumbers(Inline(4)) && DataPops(Inline(4)) == 1;
  }

  lemma CleanEval(y: Layout, fpu: (int, seq<int>) -> seq<int>, v: int, w: World, stale: seq<int>, ticks: seq<Tick>)
    requires SmallStack(y) && |ticks| == 3
    ensures var r := EvalMethod(Clean(y, Quiet(fpu)), CleanTyping(y, Quiet(fpu)), Moves(y).meth(0), [v], w, 0, stale,
                                ticks);
            if v == 0 then r.Failed? && r.code == ERR_NULL_POINTER && r.w == w && r.vmsp == 0
            else r == Returned([Wrap32(v + 4)], w, 0, [])
  {
    hide EvalCall, EvalAct, Wrap32, Unit, CleanTyping, Moves, Eval, Clean;
    var img, ty, p := Clean(y, Quiet(fpu)), CleanTyping(y, Quiet(fpu)), Moves(y);
    CleanHalves(y, fpu);
    CleanHead(y, fpu);
    CleanRest(y, fpu);
    var cells := Fit(stale, 1);
    var b := NewBody(p.meth(0), 1, [v], Head(1, 0), cells[1..]);
    assert b == Body(p.meth(0), p.place(2), 1, [v], [], []);
    FirstHalf(img, ty, p, b, v, w, ticks);
    SecondHalf(y, img, ty, p, fpu, b.(ops := [v], pc := p.middle(2)), v, w, ticks[1..]);
  }

  lemma CleanRest(y: Layout, fpu: (int, seq<int>) -> seq<int>)
    requires SmallStack(y)
    ensures Clean(y, Quiet(fpu)).stackMax == 10 && Clean(y, Quiet(fpu)).alu == Unit(y, fpu)
  {
    hide ImageOf, Inside, Assemble;
    GetterInside(y);
    LoadedRest(y, Assemble(Source(y)), Quiet(fpu));
  }

  lemma FirstHalf(img: Image, ty: Typing, p: Plan, b: Body, v: int, w: World, ticks: seq<Tick>)
    requires b.pc == p.place(2) && b.start == 1 && b.params == [v] && b.locals == [] && b.ops == []
    requires p.place(2) in img.lines && img.lines[p.place(2)] == Line(LoadVar(false, 0, 1), p.middle(2))
    requires img.stackMax == 10 && ticks != []
    ensures Eval(img, ty, b, w, 0, ticks) == Eval(img, ty, b.(ops := [v], pc := p.middle(2)), w, 0, ticks[1..])
  {
    hide EvalCall, EvalAct, Perform;
    assert b.params[0..1] == [v] && [] + [v] == [v];
  }

  lemma SecondHalf(y: Layout, img: Image, ty: Typing, p: Plan, fpu: (int, seq<int>) -> seq<int>, b: Body, v: int,
                   w: World, ticks: seq<Tick>)
    requires b.pc == p.middle(2) && b.start == 1 && b.params == [v] && b.locals == [] && b.ops == [v]
    requires p.middle(2) in img.lines && img.lines[p.middle(2)] == Line(Operate(Inline(4)), p.place(4))
    requires p.place(4) in img.lines && img.lines[p.place(4)] == Line(Return(1), p.place(5))
    requires img.stackMax == 10 && img.alu == Unit(y, fpu) && |ticks| == 2
    ensures Eval(img, ty, b, w, 0, ticks)
            == if v == 0 then Failed(ERR_NULL_POINTER, w, 0, ticks[1..]) else Returned([Wrap32(v + 4)], w, 0, [])
  {
    hide EvalCall, EvalAct, Wrap32, Unit, GoodTarget;
    InlineCells(y, fpu, [v], w);
    assert [v][0..] == [v] && [v][..0] + [Wrap32(v + 4)] == [Wrap32(v + 4)];
    assert [Wrap32(v + 4)][0..] == [Wrap32(v + 4)] && ticks[1..][1..] == [];
  }

  /** For every argument and whatever the arrays hold, the fused call answers the field's address; its expansion does
      too, exactly if the argument is not null, and otherwise ends with the null error. */
  lemma NullArgumentDiffers(y: Layout, fpu: (int, seq<int>) -> seq<int>, mem: seq<int>, mem': seq<int>, v: int,
                            w: World)
    requires SmallStack(y) && |mem| == |mem'| == 10
    ensures var o := V.Call(FusedImage(y, Quiet(fpu)), mem, 0, w, 0, [v], 2);
            o.Halt? && o.value == Wrap32(v + 4) && o.w == w
    ensures var o' := V.Call(Clean(y, Quiet(fpu)), mem', 0, w, Moves(y).meth(0), [v], 3);
            o'.Halt? && o'.value == (if v == 0 then ERR_NULL_POINTER else Wrap32(v + 4)) && o'.w == w
  {
    hide V.Call, EvalMethod, WellFormed, V.EntryCells, V.Oracle, Clean, CleanTyping, Moves, Wrap32, ImageOf;
    var h := Quiet(fpu);
    var img, img', m := FusedImage(y, h), Clean(y, h), Moves(y).meth(0);
    LoadedRest(y, Getter(), h);
    FusedWellFormed(y, h);
    V.CallOnCells(img, GetterTyping(), mem, 0, w, 0, [v], 2);
    FusedEval(y, h, v, w, V.EntryCells(mem, 0, [v]), V.Oracle(img, mem, 0, w, 0, [v], 2));
    CleanWellFormed(y, fpu);
    CleanHead(y, fpu);
    CleanRest(y, fpu);
    V.CallOnCells(img', CleanTyping(y, h), mem', 0, w, m, [v], 3);
    CleanEval(y, fpu, v, w, V.EntryCells(mem', 0, [v]), V.Oracle(img', mem', 0, w, m, [v], 3));
  }
}
