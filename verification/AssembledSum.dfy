/** The array sum again, from its assembled bytes: short forms spelled out, branches far and rewritten, the method on a
    block boundary behind the old segment. */
module AssembledSum {
  import opened Image
  import opened FrameMachine
  import opened Scode
  import opened Relocation
  import opened Assembler
  import opened ArraySum
  import C = FusionCalls
  import L = FusionLayout
  import O = Opcodes
  import S = Staleness
  import U = Fusion
  import V = VmCall

  function Source(y: Layout): Program { Program(y, Code(), SumTyping(), {}) }

  lemma SumLength(y: Layout, pc: int)
    requires Occurs(pc)
    ensures Length(y, Code(), pc) == LineOf(pc).next - pc
  {
    hide Decode, LineOf;
    CodeDecodes(y, pc);
  }

  /** An instruction ends where the next one begins at the latest. */
  lemma NoOverlap(pc: int, q: int)
    requires Occurs(pc) && pc < q < LineOf(pc).next
    ensures !Occurs(q) && q != 0
  {
  }

  lemma InsideAll(y: Layout)
    requires y.blockSize == 4
    ensures Inside(Source(y))
  {
    hide Length, Operand, LineOf;
    forall pc | Occurs(pc)
      ensures pc + Length(y, Code(), pc) <= 18
    {
      SumLength(y, pc);
      EndsInside(pc);
    }
  }

  lemma EndsInside(pc: int)
    requires Occurs(pc)
    ensures LineOf(pc).next <= 18
  {
  }

  lemma SumDisjoint(y: Layout)
    requires y.blockSize == 4 && Inside(Source(y))
    ensures Disjoint(Source(y))
  {
    hide Length, Operand, LineOf, Inside;
    forall pc, q | Occurs(pc) && pc < q < pc + Length(y, Code(), pc)
      ensures !Occurs(q) && q != 0
    {
      SumLength(y, pc);
      NoOverlap(pc, q);
    }
  }

  lemma SumInside(y: Layout)
    requires y.blockSize == 4
    ensures Inside(Source(y)) && Disjoint(Source(y)) && TablesApart(Source(y)) && InlinedFields(Source(y)) == map[]
  {
    hide Length, Operand, LineOf, Inside, Disjoint;
    InsideAll(y);
    SumDisjoint(y);
    OwnOpcodes(y);
  }

  /** No literal out of the code segment and no fused inline address. */
  lemma OwnOpcodes(y: Layout)
    requires Inside(Source(y))
    ensures TablesApart(Source(y)) && InlinedFields(Source(y)) == map[]
  {
    hide Length, Operand, Inside;
    assert forall pc | Occurs(pc) :: Code()[pc] !in {20, 21, 22, 23, 218, 219, 220};
  }

  lemma NarrowPiece(y: Layout, x: int, at: int)
    requires y.blockSize == 4 && Inside(Source(y))
    ensures Width(Source(y), x, at) <= 8
  {
    hide Inside, Length;
    if Occurs(x) { SumLength(y, x); }
  }

  lemma SumAssemblable(y: Layout)
    requires y.blockSize == 4
    ensures Assemblable(Source(y))
  {
    hide Inside, Disjoint, FitsAll, TablesApart, Width;
    SumInside(y);
    forall z, at
      ensures Width(Source(y), z, at) <= 8
    {
      NarrowPiece(y, z, at);
    }
    NarrowFits(Source(y), 8);
  }

  lemma SumHarmless(y: Layout, h: Host)
    ensures U.Harmless(Img(y, h), SumTyping())
  {
    hide Img;
    forall pc | pc in SumTyping().at && pc in Img(y, h).lines
      ensures !Img(y, h).lines[pc].instr.InlineParam0? && !Img(y, h).lines[pc].instr.CallVirtual?
    {
      LineAt(y, h, pc);
    }
  }

  /** The image of the assembled bytes. */
  function Moved(g: ArraySum.Site): Image
    requires g.y.blockSize == 4
  {
    SumInside(g.y);
    ImageOf(g.y, Assemble(Source(g.y)), Quiet(g.fpu))
  }

  function MovedMethod(g: ArraySum.Site): int
    requires g.y.blockSize == 4
  {
    SumInside(g.y);
    MethodPos(Source(g.y), 0)
  }

  lemma SumSound(g: ArraySum.Site)
    requires ArraySum.Fits(g)
    ensures C.Sound(ImgOf(g), SumTyping(), SumStored())
  {
    hide WellFormed, S.Definite, S.DeafNatives, Img;
    SumWellFormed(g.y, Quiet(g.fpu));
    SumDefinite(g.y, Quiet(g.fpu));
    Rest(g);
    QuietDeaf(ImgOf(g), SumTyping(), g.fpu);
  }

  /** What is known of the run of the original. */
  lemma SumStart(g: ArraySum.Site, mem: seq<int>, p: U.Plan, fuel: nat)
    requires ArraySum.Fits(g) && |mem| == g.y.stackMax && (g.array_ != 0 || g.len <= 0)
    requires fuel >= 9 + 6 * (if g.len > 0 then g.len else 0)
    ensures 0 in SumTyping().kind && SumTyping().kind[0] == 1
    ensures var o := C.Start(ImgOf(g), SumTyping(), mem, g.vmsp, g.w, 0, [g.array_, g.len]);
            && U.EntryFair(ImgOf(g), SumTyping(), p, o, V.Blank(fuel))
            && !Continue(ImgOf(g), SumTyping(), o, V.Blank(fuel)).BadTarget?
  {
    hide ImgOf, Cfg, Run, WellFormed, U.Harmless, Typed, Begin, V.Blank, U.Fair, Sum, O.Int32;
    Begins(g, mem);
    SumRuns(g, V.Blank(fuel));
    ImgIs(g);
    SumWellFormed(g.y, Quiet(g.fpu));
    SumHarmless(g.y, Quiet(g.fpu));
    EntryTyped(ImgOf(g), SumTyping(), g.w, g.vmsp, 0, [g.array_, g.len], V.Below(SumTyping(), mem, g.vmsp, 0));
    U.HarmlessFair(ImgOf(g), SumTyping(), p, Cfg(g, 2, 0, []), V.Blank(fuel));
  }

  /** vmCall of the assembled method answers the sum too, after some number of steps. */
  lemma MovedSumAnswers(g: ArraySum.Site, mem: seq<int>) returns (steps: nat)
    requires ArraySum.Fits(g) && g.y.blockSize == 4 && |mem| == g.y.stackMax && (g.array_ != 0 || g.len <= 0)
    ensures var n: nat := if g.len > 0 then g.len else 0;
            var o := V.Call(Moved(g), mem, g.vmsp, g.w, MovedMethod(g), [g.array_, g.len], steps);
            o.Halt? && o.value == O.Int32(Sum(g, n)) && o.w == g.w && o.vmsp == g.vmsp
  {
    hide ImgOf, Img, Inside, Assemblable, C.Sound, C.Start, U.EntryFair, V.Blank, Continue, V.Call, C.Steps, PlanOf,
      Assemble, L.Apart, L.MovedTyping, S.DeafNatives, Sum, O.Int32, MethodPos, SumTyping, HostsAlike;
    var fuel: nat := 9 + 6 * (if g.len > 0 then g.len else 0);
    var h, src := Quiet(g.fpu), Source(g.y);
    SumInside(g.y);
    SumAssemblable(g.y);
    var p, args := PlanOf(src), [g.array_, g.len];
    QuietAlike(g.fpu, p);
    AssembledExpands(src, h, h);
    SumSound(g);
    SumStart(g, mem, p, fuel);
    ImgIs(g);
    IsImage(g);
    LoadedRest(g.y, Assemble(src), h);
    QuietDeaf(Moved(g), L.MovedTyping(ImageOf(g.y, Code(), h), SumTyping(), p), g.fpu);
    steps := C.Steps(ImgOf(g), SumTyping(), p, C.Start(ImgOf(g), SumTyping(), mem, g.vmsp, g.w, 0, args), fuel);
    AssembledCall(src, h, h, SumStored(), mem, mem, g.vmsp, g.w, 0, args, fuel);
    SumAnswers(g, mem, fuel);
  }

  lemma IsImage(g: ArraySum.Site)
    ensures ImgOf(g) == ImageOf(g.y, Code(), Quiet(g.fpu))
  {
  }
}
