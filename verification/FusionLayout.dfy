/** What an expansion keeps: the moved typing makes it well-formed and definite in its locals. */
module FusionLayout {
  import opened Alu
  import opened Image
  import opened FrameMachine
  import opened Fusion
  import S = Staleness

  predicate IsFused(img: Image, p: Plan, pc: int) { pc in img.lines && Fused(p, pc, img.lines[pc].instr) }

  /** No two instructions, halves or methods are put at one place. */
  predicate Apart(img: Image, ty: Typing, p: Plan) {
    && (forall a, b | a in ty.at && b in ty.at :: p.place(a) == p.place(b) ==> a == b)
    && (forall a, b | a in ty.at && b in ty.at && IsFused(img, p, a) :: p.middle(a) != p.place(b))
    && (forall a, b | a in ty.at && b in ty.at && IsFused(img, p, a) && IsFused(img, p, b) ::
          p.middle(a) == p.middle(b) ==> a == b)
    && (forall m, n | m in ty.kind && n in ty.kind :: p.meth(m) == p.meth(n) ==> m == n)
    && (forall a | a in ty.at :: p.place(a) >= 0 && (IsFused(img, p, a) ==> p.middle(a) >= 0))
    && forall m | m in ty.kind :: p.meth(m) >= 0
  }

  /** The operand height between the halves of a fused instruction. */
  function MiddleHeight(i: Instr, h: nat): nat { if i.JumpCmp? then if h >= 1 then h - 1 else 0 else h + 1 }

  function PlaceSpot(ty: Typing, p: Plan, pc: int): Spot
    requires pc in ty.at
  {
    Spot(p.meth(ty.at[pc].meth), ty.at[pc].height)
  }

  function MiddleSpot(img: Image, ty: Typing, p: Plan, pc: int): Spot
    requires pc in ty.at && pc in img.lines
  {
    Spot(p.meth(ty.at[pc].meth), MiddleHeight(img.lines[pc].instr, ty.at[pc].height))
  }

  function Spots(img: Image, ty: Typing, p: Plan): map<int, Spot>
    requires Apart(img, ty, p)
  {
    (map pc | pc in ty.at && IsFused(img, p, pc) :: p.middle(pc) := MiddleSpot(img, ty, p, pc))
    + (map pc | pc in ty.at :: p.place(pc) := PlaceSpot(ty, p, pc))
  }

  function Kinds(img: Image, ty: Typing, p: Plan): map<int, nat>
    requires Apart(img, ty, p)
  {
    map m | m in ty.kind :: p.meth(m) := ty.kind[m]
  }

  /** The typing moved with the code. */
  function MovedTyping(img: Image, ty: Typing, p: Plan): Typing
    requires Apart(img, ty, p)
  {
    Typing(Spots(img, ty, p), Kinds(img, ty, p))
  }

  lemma SpotsAt(img: Image, ty: Typing, p: Plan, pc: int)
    requires Apart(img, ty, p) && pc in ty.at
    ensures p.place(pc) in Spots(img, ty, p) && Spots(img, ty, p)[p.place(pc)] == PlaceSpot(ty, p, pc)
    ensures IsFused(img, p, pc) ==>
              p.middle(pc) in Spots(img, ty, p) && Spots(img, ty, p)[p.middle(pc)] == MiddleSpot(img, ty, p, pc)
  {
    hide MiddleSpot, PlaceSpot, IsFused;
  }

  lemma SpotFrom(img: Image, ty: Typing, p: Plan, q: int) returns (pc: int)
    requires Apart(img, ty, p) && q in Spots(img, ty, p)
    ensures pc in ty.at && (q == p.place(pc) || (IsFused(img, p, pc) && q == p.middle(pc)))
  {
    hide MiddleSpot, PlaceSpot, IsFused, Apart;
    if a :| a in ty.at && q == p.place(a) {
      pc := a;
    } else {
      pc :| pc in ty.at && IsFused(img, p, pc) && q == p.middle(pc);
    }
  }

  lemma KindFrom(img: Image, ty: Typing, p: Plan, q: int) returns (m: int)
    requires Apart(img, ty, p) && q in Kinds(img, ty, p)
    ensures m in ty.kind && q == p.meth(m) && Kinds(img, ty, p)[q] == ty.kind[m]
  {
    hide IsFused;
    m :| m in ty.kind && q == p.meth(m);
  }

  lemma SpotsMoved(img: Image, ty: Typing, p: Plan)
    requires Apart(img, ty, p)
    ensures SpotsMove(ty, MovedTyping(img, ty, p), p)
  {
    hide Spots, Apart;
    forall pc | pc in ty.at
      ensures p.place(pc) in Spots(img, ty, p) && Spots(img, ty, p)[p.place(pc)] == PlaceSpot(ty, p, pc)
    {
      SpotsAt(img, ty, p, pc);
    }
  }

  lemma KindsAt(img: Image, ty: Typing, p: Plan, m: int)
    requires Apart(img, ty, p) && m in ty.kind
    ensures p.meth(m) in Kinds(img, ty, p) && Kinds(img, ty, p)[p.meth(m)] == ty.kind[m]
  {
    hide IsFused;
  }

  // ----- an expansion of a well-formed image is well-formed

  lemma FlowsMove(p: Plan, l: Line, g: (int, nat))
    requires Simple(l.instr) && g in Flows(Line(MovedInstr(p, l.instr), p.place(l.next)))
    ensures exists f | f in Flows(l) :: g == (p.place(f.0), f.1)
  {
    var i := l.instr;
    if i.Switch? && g != (p.place(l.next), 0) {
      var tos := MovedInstr(p, i).tos;
      var k :| 0 <= k < |tos| && g == (tos[k], 0);
      assert (i.tos[k], 0) in Flows(l);
    } else if (i.Jump? || i.JumpIf? || i.JumpCmp?) && g == (p.place(i.to), 0) {
      assert (i.to, 0) in Flows(l);
    } else if i.Foreach? && g == (p.place(i.to), 3) {
      assert (i.to, 3) in Flows(l);
    } else if i.Foreach? {
      assert (l.next, 5) in Flows(l);
    } else {
      assert (l.next, g.1) in Flows(l);
    }
  }

  /** What the checks of one line use of the expansion. */
  predicate Moved(img: Image, ty: Typing, img': Image, ty': Typing, p: Plan) {
    MethodsMove(img, ty, img', ty', p) && SpotsMove(ty, ty', p)
  }

  lemma MethodAt(img: Image, ty: Typing, img': Image, ty': Typing, p: Plan, m: int)
    requires Moved(img, ty, img', ty', p) && m in ty.kind
    ensures MethodMoves(img, ty, img', ty', p, m)
  {
    hide MethodMoves, SpotsMove;
  }

  lemma SpotOf(img: Image, ty: Typing, img': Image, ty': Typing, p: Plan, pc: int, m: int, h: int)
    requires Moved(img, ty, img', ty', p) && At(ty, pc, m, h)
    ensures At(ty', p.place(pc), p.meth(m), h)
  {
    hide MethodsMove;
  }

  lemma MovedShape(p: Plan, i: Instr)
    ensures PointerDepthOf(MovedInstr(p, i)) == PointerDepthOf(i) && (Simple(MovedInstr(p, i)) <==> Simple(i))
    ensures Simple(i) ==> Pops(MovedInstr(p, i)) == Pops(i)
  {
  }

  lemma PlainSimpleOk(img: Image, ty: Typing, img': Image, ty': Typing, p: Plan, pc: int)
    requires Moved(img, ty, img', ty', p) && pc in ty.at && LineOk(img, ty, pc) && Simple(img.lines[pc].instr)
    requires !Fused(p, pc, img.lines[pc].instr) && LineExpands(img, img', p, pc)
    ensures p.place(pc) in ty'.at && LineOk(img', ty', p.place(pc))
  {
    hide Moved, Flows, MovedInstr;
    var l, m, h := img.lines[pc], ty.at[pc].meth, ty.at[pc].height;
    assert At(ty, pc, m, h);
    SpotOf(img, ty, img', ty', p, pc, m, h);
    MethodAt(img, ty, img', ty', p, m);
    MovedShape(p, l.instr);
    forall g | g in Flows(img'.lines[p.place(pc)])
      ensures g.1 <= MAX_PUSH && At(ty', g.0, p.meth(m), h - Pops(l.instr) + g.1)
    {
      FlowsMove(p, l, g);
      var f :| f in Flows(l) && g == (p.place(f.0), f.1);
      SpotOf(img, ty, img', ty', p, f.0, m, h - Pops(l.instr) + f.1);
    }
  }

  lemma PlainOtherOk(img: Image, ty: Typing, img': Image, ty': Typing, p: Plan, pc: int)
    requires Moved(img, ty, img', ty', p) && pc in ty.at && LineOk(img, ty, pc) && !Simple(img.lines[pc].instr)
    requires !Fused(p, pc, img.lines[pc].instr) && LineExpands(img, img', p, pc) && img'.hasNative == img.hasNative
    ensures p.place(pc) in ty'.at && LineOk(img', ty', p.place(pc))
  {
    hide Moved;
    var l, m, h := img.lines[pc], ty.at[pc].meth, ty.at[pc].height;
    SpotOf(img, ty, img', ty', p, pc, m, h);
    MethodAt(img, ty, img', ty', p, m);
    if l.next in ty.at {
      SpotOf(img, ty, img', ty', p, l.next, ty.at[l.next].meth, ty.at[l.next].height);
    }
    if l.instr.Call? {
      MethodAt(img, ty, img', ty', p, l.instr.target);
    }
  }

  lemma InlinedAt(img: Image, p: Plan, pc: int)
    requires InlinedOk(img, p) && pc in p.inlined
    ensures pc in img.lines && img.lines[pc].instr == Const([Wrap32(p.inlined[pc].0 + p.inlined[pc].1)])
  {
  }

  /** The first half pushes what the second half needs. */
  lemma FirstOk(img: Image, ty: Typing, img': Image, ty': Typing, p: Plan, pc: int)
    requires Moved(img, ty, img', ty', p) && pc in ty.at && LineOk(img, ty, pc) && InlinedOk(img, p)
    requires Fused(p, pc, img.lines[pc].instr) && LineExpands(img, img', p, pc)
    requires At(ty', p.middle(pc), p.meth(ty.at[pc].meth), MiddleHeight(img.lines[pc].instr, ty.at[pc].height))
    ensures p.place(pc) in ty'.at && LineOk(img', ty', p.place(pc))
  {
    hide Moved, InlinedOk;
    SpotOf(img, ty, img', ty', p, pc, ty.at[pc].meth, ty.at[pc].height);
    MethodAt(img, ty, img', ty', p, ty.at[pc].meth);
    if pc in p.inlined {
      InlinedAt(img, p, pc);
    }
  }

  /** Where a fused instruction leads. */
  lemma FusedFlows(img: Image, ty: Typing, p: Plan, pc: int)
    requires pc in ty.at && LineOk(img, ty, pc) && InlinedOk(img, p) && Fused(p, pc, img.lines[pc].instr)
    ensures var l, m, h := img.lines[pc], ty.at[pc].meth, ty.at[pc].height;
            if pc in p.inlined || l.instr.InlineParam0? then At(ty, l.next, m, h + 1)
            else if l.instr.JumpCmp? then h >= 2 && At(ty, l.next, m, h - 2) && At(ty, l.instr.to, m, h - 2)
            else
              var t := l.instr.target;
              && t in ty.kind && t in img.heads && img.heads[t].params <= h + 1
              && At(ty, l.next, m, h + 1 - img.heads[t].params + ty.kind[t])
  {
    hide InlinedOk;
    var l := img.lines[pc];
    if pc in p.inlined {
      InlinedAt(img, p, pc);
      assert (l.next, 1) in Flows(l);
    } else if l.instr.JumpCmp? {
      assert (l.next, 0) in Flows(l) && (l.instr.to, 0) in Flows(l);
    }
  }

  /** And the second half ends where the fused instruction does. */
  lemma SecondOk(img: Image, ty: Typing, img': Image, ty': Typing, p: Plan, pc: int)
    requires Moved(img, ty, img', ty', p) && pc in ty.at && LineOk(img, ty, pc) && InlinedOk(img, p)
    requires Fused(p, pc, img.lines[pc].instr) && LineExpands(img, img', p, pc)
    requires At(ty', p.middle(pc), p.meth(ty.at[pc].meth), MiddleHeight(img.lines[pc].instr, ty.at[pc].height))
    ensures LineOk(img', ty', p.middle(pc))
  {
    hide Moved, InlinedOk, Flows;
    var l, m, h := img.lines[pc], ty.at[pc].meth, ty.at[pc].height;
    FusedFlows(img, ty, p, pc);
    MethodAt(img, ty, img', ty', p, m);
    if pc in p.inlined || l.instr.InlineParam0? {
      if pc in p.inlined { InlinedAt(img, p, pc); }
      SpotOf(img, ty, img', ty', p, l.next, m, h + 1);
      InlineFlows(p, pc, l.instr, p.place(l.next));
    } else if l.instr.JumpCmp? {
      SpotOf(img, ty, img', ty', p, l.next, m, h - 2);
      SpotOf(img, ty, img', ty', p, l.instr.to, m, h - 2);
      JumpFlows(p.place(l.instr.to), p.place(l.next));
    } else {
      MethodAt(img, ty, img', ty', p, l.instr.target);
      SpotOf(img, ty, img', ty', p, l.next, m, h + 1 - img.heads[l.instr.target].params + ty.kind[l.instr.target]);
    }
  }

  lemma InlineFlows(p: Plan, pc: int, i: Instr, next: int)
    requires Fused(p, pc, i) && (pc in p.inlined || i.InlineParam0?) && !(pc !in p.inlined && i.JumpCmp?)
    ensures var s := Second(p, pc, i);
            Simple(s) && Pops(s) == 1 && PointerDepthOf(s) == 0 && Flows(Line(s, next)) == {(next, 1)}
  {
  }

  lemma JumpFlows(to: int, next: int)
    ensures Flows(Line(JumpIf(false, to), next)) == {(to, 0), (next, 0)}
  {
  }

  predicate LinesOk(img: Image, ty: Typing) { forall pc | pc in ty.at :: LineOk(img, ty, pc) }

  lemma LineAtOk(img: Image, ty: Typing, img': Image, p: Plan, pc: int)
    requires Apart(img, ty, p) && LinesOk(img, ty) && CodeExpands(img, ty, img', p) && pc in ty.at
    ensures LineOk(img, ty, pc) && pc in img.lines && LineExpands(img, img', p, pc)
  {
    hide LineExpands, Apart;
    LineThere(img, ty, pc);
  }

  lemma LineThere(img: Image, ty: Typing, pc: int)
    requires pc in ty.at && LineOk(img, ty, pc)
    ensures pc in img.lines
  {
  }

  lemma SpotOk(img: Image, ty: Typing, img': Image, p: Plan, q: int)
    requires Apart(img, ty, p) && Moved(img, ty, img', MovedTyping(img, ty, p), p) && LinesOk(img, ty)
    requires CodeExpands(img, ty, img', p) && InlinedOk(img, p) && img'.hasNative == img.hasNative
    requires q in Spots(img, ty, p)
    ensures q >= 0 && LineOk(img', MovedTyping(img, ty, p), q)
  {
    hide LineOk, Fused, First, Second, MiddleHeight, InlinedOk, Spots, Kinds, Moved, CodeExpands, LinesOk, LineExpands;
    var ty' := MovedTyping(img, ty, p);
    var pc := SpotFrom(img, ty, p, q);
    LineAtOk(img, ty, img', p, pc);
    SpotsAt(img, ty, p, pc);
    if q != p.place(pc) {
      SecondOk(img, ty, img', ty', p, pc);
    } else if IsFused(img, p, pc) {
      FirstOk(img, ty, img', ty', p, pc);
    } else if Simple(img.lines[pc].instr) {
      PlainSimpleOk(img, ty, img', ty', p, pc);
    } else {
      PlainOtherOk(img, ty, img', ty', p, pc);
    }
  }

  lemma KindOk(img: Image, ty: Typing, img': Image, p: Plan, q: int)
    requires Apart(img, ty, p) && Moved(img, ty, img', MovedTyping(img, ty, p), p) && WellFormed(img, ty)
    requires q in Kinds(img, ty, p)
    ensures q >= 0 && q in img'.heads && Kinds(img, ty, p)[q] <= 2 && At(MovedTyping(img, ty, p), q + 2, q, 0)
  {
    hide Spots, Kinds, Moved, WellFormed;
    var m := KindFrom(img, ty, p, q);
    EntryHeight(img, ty, m);
    MethodAt(img, ty, img', MovedTyping(img, ty, p), p, m);
    SpotOf(img, ty, img', MovedTyping(img, ty, p), p, m + 2, m, 0);
  }

  lemma WellFormedParts(img: Image, ty: Typing)
    requires WellFormed(img, ty)
    ensures LinesOk(img, ty) && img.stackMax > 0
  {
  }

  lemma ExpandsParts(img: Image, ty: Typing, img': Image, ty': Typing, p: Plan)
    requires Expands(img, ty, img', ty', p)
    ensures Moved(img, ty, img', ty', p) && CodeExpands(img, ty, img', p) && InlinedOk(img, p)
    ensures img'.hasNative == img.hasNative && img'.stackMax == img.stackMax
  {
    hide MethodsMove, SpotsMove, CodeExpands, InlinedOk, BaseOpcodes, TablesMove, NativesAlike;
  }

  lemma ExpansionWellFormed(img: Image, ty: Typing, img': Image, p: Plan)
    requires WellFormed(img, ty) && Apart(img, ty, p) && Expands(img, ty, img', MovedTyping(img, ty, p), p)
    requires img'.codeBase > 0 && SmallHeads(img')
    ensures WellFormed(img', MovedTyping(img, ty, p))
  {
    hide LineOk, Spots, Kinds, Apart, Moved, Expands, SmallHeads, CodeExpands, InlinedOk, LinesOk, At;
    var ty' := MovedTyping(img, ty, p);
    WellFormedParts(img, ty);
    ExpandsParts(img, ty, img', ty', p);
    forall q | q in ty'.at
      ensures q >= 0 && LineOk(img', ty', q)
    {
      SpotOk(img, ty, img', p, q);
    }
    forall q | q in ty'.kind
      ensures q >= 0 && q in img'.heads && ty'.kind[q] <= 2 && At(ty', q + 2, q, 0)
    {
      KindOk(img, ty, img', p, q);
    }
  }

  // ----- and as definite in its locals

  /** Between its halves a fused instruction has stored nothing more. */
  function MovedStored(img: Image, ty: Typing, da: S.Stored, p: Plan): S.Stored
    requires Apart(img, ty, p) && forall pc | pc in ty.at :: pc in da
  {
    (map pc | pc in ty.at && IsFused(img, p, pc) :: p.middle(pc) := da[pc])
    + (map pc | pc in ty.at :: p.place(pc) := da[pc])
  }

  lemma StoredAt(img: Image, ty: Typing, da: S.Stored, p: Plan, pc: int)
    requires Apart(img, ty, p) && (forall k | k in ty.at :: k in da) && pc in ty.at
    ensures var da' := MovedStored(img, ty, da, p);
            && p.place(pc) in da' && da'[p.place(pc)] == da[pc]
            && (IsFused(img, p, pc) ==> p.middle(pc) in da' && da'[p.middle(pc)] == da[pc])
  {
    hide IsFused;
  }

  lemma WithinMoves(img: Image, ty: Typing, da: S.Stored, p: Plan, pc: int, js: set<int>)
    requires Apart(img, ty, p) && (forall k | k in ty.at :: k in da) && pc in ty.at && S.Within(da, pc, js)
    ensures S.Within(MovedStored(img, ty, da, p), p.place(pc), js)
  {
    hide MovedStored, Apart;
    StoredAt(img, ty, da, p, pc);
  }

  /** Every way on from a line is typed. */
  predicate Onward(ty: Typing, l: Line) {
    if Simple(l.instr) then forall f | f in Flows(l) :: f.0 in ty.at
    else l.instr.Return? || l.instr.Unknown? || l.next in ty.at
  }

  lemma LineOnward(img: Image, ty: Typing, pc: int)
    requires pc in ty.at && LineOk(img, ty, pc)
    ensures pc in img.lines && Onward(ty, img.lines[pc])
  {
    hide Flows;
  }

  lemma PlainStored(img: Image, ty: Typing, da: S.Stored, img': Image, p: Plan, pc: int)
    requires Apart(img, ty, p) && (forall k | k in ty.at :: k in da) && pc in ty.at && pc in img.lines
    requires S.LineStored(img, da, pc) && Onward(ty, img.lines[pc])
    requires !Fused(p, pc, img.lines[pc].instr) && LineExpands(img, img', p, pc)
    ensures p.place(pc) in MovedStored(img, ty, da, p)
    ensures S.LineStored(img', MovedStored(img, ty, da, p), p.place(pc))
  {
    hide MovedStored, Flows, S.Cells, S.Within, Apart, MovedInstr;
    var l, da' := img.lines[pc], MovedStored(img, ty, da, p);
    StoredAt(img, ty, da, p, pc);
    MovedShape(p, l.instr);
    if Simple(l.instr) {
      forall g | g in Flows(img'.lines[p.place(pc)])
        ensures S.Within(da', g.0, da[pc])
      {
        FlowsMove(p, l, g);
        var f :| f in Flows(l) && g == (p.place(f.0), f.1);
        WithinMoves(img, ty, da, p, f.0, da[pc]);
      }
    } else {
      StaysKind(p, l.instr);
      if !l.instr.Return? && !l.instr.Unknown? {
        var js := if l.instr.StoreVar? && l.instr.isLocal then da[pc] + S.Cells(l.instr.index, l.instr.width)
                  else da[pc];
        WithinMoves(img, ty, da, p, l.next, js);
      }
    }
  }

  lemma StaysKind(p: Plan, i: Instr)
    requires !Simple(i)
    ensures i.Call? ==> MovedInstr(p, i).Call?
    ensures !i.Call? ==> MovedInstr(p, i) == i
  {
  }

  /** Neither half of a fused instruction loads or stores a local. */
  lemma FirstStored(img: Image, p: Plan, img': Image, da: S.Stored, pc: int)
    requires IsFused(img, p, pc) && LineExpands(img, img', p, pc)
    requires p.place(pc) in da && S.Within(da, p.middle(pc), da[p.place(pc)])
    ensures S.LineStored(img', da, p.place(pc))
  {
    hide Fused, S.Cells;
    FirstFlow(p, pc, img.lines[pc].instr, p.middle(pc));
  }

  lemma FirstFlow(p: Plan, pc: int, i: Instr, next: int)
    requires Fused(p, pc, i)
    ensures var f := First(p, pc, i);
            if pc in p.inlined || i.JumpCmp? then Simple(f) && Flows(Line(f, next)) == {(next, 1)}
            else f == LoadVar(false, 0, 1)
  {
  }

  lemma SecondStored(img: Image, p: Plan, img': Image, da: S.Stored, pc: int)
    requires IsFused(img, p, pc) && LineExpands(img, img', p, pc) && p.middle(pc) in da
    requires S.Within(da, p.place(img.lines[pc].next), da[p.middle(pc)])
    requires img.lines[pc].instr.JumpCmp? ==> S.Within(da, p.place(img.lines[pc].instr.to), da[p.middle(pc)])
    ensures S.LineStored(img', da, p.middle(pc))
  {
    hide S.Cells, S.Within;
  }

  lemma FusedOnward(img: Image, ty: Typing, da: S.Stored, p: Plan, pc: int)
    requires IsFused(img, p, pc) && InlinedOk(img, p) && pc in da && S.LineStored(img, da, pc)
    requires Onward(ty, img.lines[pc])
    ensures var l := img.lines[pc];
            && l.next in ty.at && S.Within(da, l.next, da[pc])
            && (l.instr.JumpCmp? ==> l.instr.to in ty.at && S.Within(da, l.instr.to, da[pc]))
  {
    hide S.Cells, S.Within, InlinedOk;
    var l := img.lines[pc];
    if pc in p.inlined {
      InlinedAt(img, p, pc);
      assert (l.next, 1) in Flows(l);
    } else if l.instr.JumpCmp? {
      assert (l.next, 0) in Flows(l) && (l.instr.to, 0) in Flows(l);
    }
  }

  lemma SpotStored(img: Image, ty: Typing, da: S.Stored, img': Image, p: Plan, q: int)
    requires Apart(img, ty, p) && LinesOk(img, ty) && CodeExpands(img, ty, img', p) && InlinedOk(img, p)
    requires (forall k | k in ty.at :: k in da) && StoredLines(img, ty, da) && q in Spots(img, ty, p)
    ensures var da' := MovedStored(img, ty, da, p);
            q in img'.lines && q in da' && S.LineStored(img', da', q)
  {
    hide LineOk, Fused, InlinedOk, Spots, CodeExpands, LinesOk, MovedStored, S.LineStored, Onward, Apart, First, Second,
      MovedInstr;
    var pc := SpotFrom(img, ty, p, q);
    LineAtOk(img, ty, img', p, pc);
    LineOnward(img, ty, pc);
    StoredAt(img, ty, da, p, pc);
    var da', l := MovedStored(img, ty, da, p), img.lines[pc];
    if IsFused(img, p, pc) {
      FusedOnward(img, ty, da, p, pc);
      WithinMoves(img, ty, da, p, l.next, da[pc]);
      if l.instr.JumpCmp? { WithinMoves(img, ty, da, p, l.instr.to, da[pc]); }
      FirstStored(img, p, img', da', pc);
      SecondStored(img, p, img', da', pc);
    } else {
      PlainStored(img, ty, da, img', p, pc);
    }
  }

  predicate StoredLines(img: Image, ty: Typing, da: S.Stored) {
    forall pc | pc in ty.at :: pc in img.lines && pc in da && S.LineStored(img, da, pc)
  }

  lemma ExpansionDefinite(img: Image, ty: Typing, da: S.Stored, img': Image, p: Plan)
    requires WellFormed(img, ty) && Apart(img, ty, p) && Expands(img, ty, img', MovedTyping(img, ty, p), p)
    requires S.Definite(img, ty, da)
    ensures forall pc | pc in ty.at :: pc in da
    ensures S.Definite(img', MovedTyping(img, ty, p), MovedStored(img, ty, da, p))
  {
    hide WellFormed, LineOk, Spots, Kinds, Apart, Moved, Expands, CodeExpands, InlinedOk, LinesOk, MovedStored,
      S.LineStored;
    var ty', da' := MovedTyping(img, ty, p), MovedStored(img, ty, da, p);
    WellFormedParts(img, ty);
    ExpandsParts(img, ty, img', ty', p);
    forall q | q in ty'.at
      ensures q in img'.lines && q in da' && S.LineStored(img', da', q)
    {
      SpotStored(img, ty, da, img', p, q);
    }
    forall q | q in ty'.kind
      ensures S.Within(da', q + 2, {})
    {
      var m := KindFrom(img, ty, p, q);
      EntryHeight(img, ty, m);
      MethodAt(img, ty, img', ty', p, m);
      WithinMoves(img, ty, da, p, m + 2, {});
    }
  }
}
