/** An assembler for expansions: the typed instructions of a code segment are laid out anew behind it, methods on block
    boundaries, short forms spelled out and fused instructions split, and the vtable entries are rewritten. */
module Assembler {
  import opened Alu
  import opened Bytes
  import opened Image
  import opened FrameMachine
  import opened Scode
  import opened Fusion
  import opened Relocation
  import C = FusionCalls
  import L = FusionLayout
  import O = FusionOpcodes
  import S = Staleness
  import Slots
  import V = VmCall

  /** A code segment with its typing and the offsets of its vtable entries. */
  datatype Program = Program(y: Layout, code: seq<Byte>, ty: Typing, tables: set<int>)

  /** Instructions and headers lie in the segment. */
  predicate Inside(g: Program) {
    && g.y.blockSize > 0
    && (forall pc | pc in g.ty.at :: InCode(g.code, pc) && pc + Length(g.y, g.code, pc) <= |g.code|)
    && forall m | m in g.ty.kind :: 0 <= m && m + 1 < |g.code|
  }

  /** They do not overlap. */
  predicate Disjoint(g: Program)
    requires Inside(g)
  {
    && (forall pc, q | pc in g.ty.at && pc < q < pc + Length(g.y, g.code, pc) :: q !in g.ty.at && q !in g.ty.kind)
    && forall m | m in g.ty.kind :: m !in g.ty.at && m + 1 !in g.ty.at && m + 1 !in g.ty.kind
  }

  // ----- where everything goes

  /** Bytes up to the next block. */
  function Pad(y: Layout, at: int): nat
    requires y.blockSize > 0
  {
    (-at) % y.blockSize
  }

  lemma PadOnBlock(y: Layout, at: int)
    requires y.blockSize > 0
    ensures (at + Pad(y, at)) % y.blockSize == 0
  {
    var d := y.blockSize;
    var q := (-at) / d;
    assert -at == q * d + Pad(y, at);
    assert at + Pad(y, at) == (-q) * d;
    Slots.Unique((-q) * d, d, -q, 0);
  }

  function ItemLength(y: Layout, code: seq<Byte>, pc: int): nat
    requires InCode(code, pc)
  {
    var op := code[pc];
    if 29 <= op <= 32 || 37 <= op <= 44 || 47 <= op <= 54 then 2
    else if IsBranch(op) || op == 221 then 3
    else if 150 <= op <= 161 || op == 229 then 4
    else if 215 <= op <= 220 then Length(y, code, pc) + 1
    else Length(y, code, pc)
  }

  lemma ItemHasLength(y: Layout, code: seq<Byte>, p: Plan, pc: int)
    requires InCode(code, pc) && pc + Length(y, code, pc) <= |code| && y.blockSize > 0
    ensures |Item(y, code, p, pc)| == ItemLength(y, code, pc) > 0
  {
    hide Half;
    DecodedIsSmall(y, code, pc);
    var op := code[pc];
    if op == 235 { OldSwitch(y, code, pc); }
  }

  function Width(g: Program, x: int, at: int): nat
    requires Inside(g)
  {
    if x in g.ty.kind then Pad(g.y, at) + 2 else if x in g.ty.at then ItemLength(g.y, g.code, x) else 0
  }

  /** Where what lies at x or later begins; the new code starts behind the old segment. */
  function Pos(g: Program, x: int): int
    requires Inside(g)
    decreases x
  {
    if x <= 0 then |g.code| else Pos(g, x - 1) + Width(g, x - 1, Pos(g, x - 1))
  }

  function MethodPos(g: Program, m: int): int
    requires Inside(g)
  {
    Pos(g, m) + Pad(g.y, Pos(g, m))
  }

  function InlinedFields(g: Program): map<int, (int, int)>
    requires Inside(g)
  {
    map pc | pc in g.ty.at && 218 <= g.code[pc] <= 220 ::
      (Wrap32(g.y.dataBase), Operand(g.code, pc + 1, OffsetBytes(g.code[pc] - 218)))
  }

  function PlanOf(g: Program): Plan
    requires Inside(g)
  {
    Plan(x => if Inside(g) then Pos(g, x) else 0, x => if Inside(g) then Pos(g, x) + 1 else 0,
         m => if Inside(g) then MethodPos(g, m) else 0, g.ty.kind.Keys,
         (w: World, o: int, slot: int) => EntryOf(g.y, w, o, slot) in g.tables, InlinedFields(g))
  }

  // ----- the bytes

  function Zeros(n: nat): (s: seq<Byte>)
    ensures |s| == n
  {
    seq(n, _ => 0)
  }

  function Piece(g: Program, x: int): (s: seq<Byte>)
    requires Inside(g)
    ensures |s| == Width(g, x, Pos(g, x))
  {
    if x in g.ty.kind then Zeros(Pad(g.y, Pos(g, x))) + [g.code[x], g.code[x + 1]]
    else if x in g.ty.at then
      ItemHasLength(g.y, g.code, PlanOf(g), x);
      Item(g.y, g.code, PlanOf(g), x)
    else []
  }

  /** The new code up to the pieces before x. */
  function Out(g: Program, x: nat): (s: seq<Byte>)
    requires Inside(g)
    ensures |s| == Pos(g, x) - |g.code|
    decreases x
  {
    if x == 0 then [] else Out(g, x - 1) + Piece(g, x - 1)
  }

  function NewBlock(g: Program, e: int): int
    requires Inside(g)
  {
    var b := Operand(g.code, e, 2);
    if g.y.blockSize * b in g.ty.kind then MethodPos(g, g.y.blockSize * b) / g.y.blockSize else b
  }

  /** The old segment with its vtable entries rewritten. */
  function DataByte(g: Program, i: int): Byte
    requires Inside(g) && 0 <= i < |g.code|
  {
    if i in g.tables then Half(NewBlock(g, i))[0]
    else if i - 1 in g.tables then Half(NewBlock(g, i - 1))[1]
    else g.code[i]
  }

  function Data(g: Program): (s: seq<Byte>)
    requires Inside(g)
    ensures |s| == |g.code|
  {
    seq(|g.code|, i requires 0 <= i < |g.code| => DataByte(g, i))
  }

  function Assemble(g: Program): seq<Byte>
    requires Inside(g)
  {
    Data(g) + Out(g, |g.code|)
  }

  // ----- pieces are where they belong

  lemma {:induction false} OutGrows(g: Program, x: nat, n: nat)
    requires Inside(g) && x <= n
    ensures |Out(g, x)| <= |Out(g, n)| && Out(g, n)[..|Out(g, x)|] == Out(g, x)
    decreases n
  {
    hide Piece, Inside, Pos;
    if x < n {
      OutGrows(g, x, n - 1);
      assert Out(g, n) == Out(g, n - 1) + Piece(g, n - 1);
    }
  }

  lemma PosOut(g: Program, x: nat)
    requires Inside(g)
    ensures Pos(g, x) == |g.code| + |Out(g, x)|
  {
  }

  /** The piece of x lies at Pos(x). */
  lemma PieceSits(g: Program, x: nat)
    requires Inside(g) && x < |g.code|
    ensures Sits(Assemble(g), Pos(g, x), Piece(g, x))
  {
    hide Piece, Inside, Pos, Data, Out, Sits;
    var a, all := Out(g, x), Out(g, |g.code|);
    OutGrows(g, x + 1, |g.code|);
    PosOut(g, x);
    OutNext(g, x);
    MiddlePart(Data(g), a, Piece(g, x), all);
  }

  lemma OutNext(g: Program, x: nat)
    requires Inside(g)
    ensures Out(g, x + 1) == Out(g, x) + Piece(g, x)
  {
    hide Piece, Inside;
  }

  lemma MiddlePart(front: seq<Byte>, a: seq<Byte>, b: seq<Byte>, all: seq<Byte>)
    requires |a + b| <= |all| && all[..|a + b|] == a + b
    ensures Sits(front + all, |front| + |a|, b)
  {
    assert all[|a|..|a| + |b|] == all[..|a + b|][|a|..] == b;
    assert (front + all)[|front| + |a|..|front| + |a| + |b|] == all[|a|..|a| + |b|];
  }

  lemma {:induction false} PosMonotone(g: Program, a: int, b: int)
    requires Inside(g) && a <= b
    ensures Pos(g, a) <= Pos(g, b) && Pos(g, a) >= |g.code|
    decreases b
  {
    hide Inside, Width;
    if b > 0 && a < b {
      PosMonotone(g, a, b - 1);
    } else if b > 0 {
      PosMonotone(g, a - 1, b - 1);
    }
  }

  /** Nothing is put between. */
  lemma {:induction false} PosFlat(g: Program, a: int, b: int)
    requires Inside(g) && 0 <= a <= b && forall x | a <= x < b :: x !in g.ty.at && x !in g.ty.kind
    ensures Pos(g, b) == Pos(g, a)
    decreases b
  {
    hide Inside;
    if a < b { PosFlat(g, a, b - 1); }
  }

  lemma PosAfter(g: Program, x: int)
    requires Inside(g) && 0 <= x
    ensures Pos(g, x + 1) == Pos(g, x) + Width(g, x, Pos(g, x))
  {
  }

  /** What the new positions need: offsets and blocks fit their operands. */
  predicate FitsAll(g: Program)
    requires Inside(g)
  {
    && (forall pc | pc in g.ty.at :: Fits(g.y, g.code, PlanOf(g), pc))
    && forall e | e in g.tables && g.y.blockSize * Operand(g.code, e, 2) in g.ty.kind ::
         OnBlock(g.y, MethodPos(g, g.y.blockSize * Operand(g.code, e, 2)))
  }

  /** Vtable entries lie in the segment, do not overlap, and are not constants that a literal reads. */
  predicate TablesApart(g: Program)
    requires Inside(g)
  {
    && (forall e | e in g.tables :: 0 <= e && e + 1 < |g.code| && e + 1 !in g.tables)
    && forall pc | pc in g.ty.at && 20 <= g.code[pc] <= 23 ::
         var block := g.y.blockSize * Operand(g.code, pc + 1, 2);
         block + 8 <= |g.code| && forall i | block - 1 <= i < block + 8 :: i !in g.tables
  }

  predicate Assemblable(g: Program) {
    && Inside(g) && Disjoint(g) && FitsAll(g) && TablesApart(g)
    && (InlinedFields(g) != map[] ==> Wrap32(g.y.dataBase) != 0)
  }

  lemma InsideAt(g: Program, pc: int)
    requires Inside(g) && pc in g.ty.at
    ensures g.y.blockSize > 0 && InCode(g.code, pc) && pc + Length(g.y, g.code, pc) <= |g.code|
    ensures Length(g.y, g.code, pc) >= 1
  {
    hide Decode;
    DecodedIsSmall(g.y, g.code, pc);
  }

  lemma DisjointAt(g: Program, pc: int)
    requires Inside(g) && Disjoint(g) && pc in g.ty.at
    ensures pc !in g.ty.kind && InCode(g.code, pc)
    ensures forall q | pc < q < pc + Length(g.y, g.code, pc) :: q !in g.ty.at && q !in g.ty.kind
  {
    hide Decode, Length;
  }

  // ----- data

  lemma DataAt(g: Program, i: int)
    requires Inside(g) && 0 <= i < |g.code|
    ensures Assemble(g)[i] == DataByte(g, i)
  {
    hide DataByte, Out, Inside;
  }

  /** Constants stay. */
  lemma {:induction false} OperandStays(g: Program, i: int, width: nat)
    requires Inside(g) && 0 <= i && i + width <= |g.code| && forall k | i - 1 <= k < i + width :: k !in g.tables
    ensures Operand(Assemble(g), i, width) == Operand(g.code, i, width)
    decreases width
  {
    hide Inside, Assemble;
    if width > 0 {
      DataAt(g, i);
      DataKept(g, i);
      OperandStays(g, i + 1, width - 1);
      AssembleLonger(g);
    }
  }

  lemma DataKept(g: Program, i: int)
    requires Inside(g) && 0 <= i < |g.code| && i !in g.tables && i - 1 !in g.tables
    ensures DataByte(g, i) == g.code[i]
  {
  }

  lemma AssembleLonger(g: Program)
    requires Inside(g)
    ensures |Assemble(g)| >= |g.code|
  {
    hide Inside;
  }

  lemma EntryRewritten(g: Program, e: int)
    requires Assemblable(g) && e in g.tables
    ensures EntryMoves(g.y, g.code, g.ty, Assemble(g), PlanOf(g), e)
  {
    hide Assemble, Disjoint, InlinedFields, Operand;
    EntryBytes(g, e);
    var m := g.y.blockSize * Operand(g.code, e, 2);
    if m in g.ty.kind {
      assert OnBlock(g.y, MethodPos(g, m));
      Divides(MethodPos(g, m), g.y.blockSize);
    }
  }

  lemma EntryBytes(g: Program, e: int)
    requires Inside(g) && TablesApart(g) && e in g.tables
    ensures Operand(Assemble(g), e, 2) == NewBlock(g, e) % 0x1_0000
  {
    hide Inside, Assemble, Half, NewBlock;
    assert 0 <= e && e + 1 < |g.code| && e + 1 !in g.tables;
    var v := Half(NewBlock(g, e));
    DataAt(g, e);
    DataAt(g, e + 1);
    AssembleLonger(g);
    assert e + 1 - 1 == e;
    assert Assemble(g)[e..e + 2] == v;
    HalfOperand(Assemble(g), e, NewBlock(g, e));
  }

  // ----- headers and instructions

  lemma MethodHeader(g: Program, m: int)
    requires Inside(g) && Disjoint(g) && m in g.ty.kind
    ensures HeaderMoves(g.code, Assemble(g), PlanOf(g), m)
  {
    hide Assemble, Pos, Decode, Length;
    assert 0 <= m && m + 1 < |g.code|;
    var pad := Zeros(Pad(g.y, Pos(g, m)));
    PieceSits(g, m);
    SitsPart(Assemble(g), Pos(g, m), Piece(g, m), |pad|, [g.code[m], g.code[m + 1]]);
    SitsAt(Assemble(g), MethodPos(g, m), [g.code[m], g.code[m + 1]], 0);
    SitsAt(Assemble(g), MethodPos(g, m), [g.code[m], g.code[m + 1]], 1);
    PosAfter(g, m);
    PosAfter(g, m + 1);
    PosMonotone(g, m, m);
  }

  lemma ConstantsAt(g: Program, pc: int)
    requires Assemblable(g) && pc in g.ty.at
    ensures InCode(g.code, pc) && ConstantsStay(g.y, g.code, Assemble(g), pc)
  {
    hide Assemble, Disjoint, FitsAll, InlinedFields, Operand, Decode, Length;
    var op := g.code[pc];
    if 20 <= op <= 23 {
      var at := g.y.blockSize * Operand(g.code, pc + 1, 2);
      ConstantRange(g, pc);
      OperandStays(g, at, 4);
      OperandStays(g, at + 4, 4);
    }
  }

  lemma ConstantRange(g: Program, pc: int)
    requires Inside(g) && TablesApart(g) && pc in g.ty.at && 20 <= g.code[pc] <= 23
    ensures var at := g.y.blockSize * Operand(g.code, pc + 1, 2);
            0 <= at && at + 8 <= |g.code| && forall i | at - 1 <= i < at + 8 :: i !in g.tables
  {
    hide Operand, Decode, Length;
    NotNegative(g.y.blockSize, Operand(g.code, pc + 1, 2));
  }

  lemma NotNegative(a: nat, b: nat)
    ensures 0 <= a * b
  {
  }

  lemma InstructionRewritten(g: Program, pc: int)
    requires Assemblable(g) && pc in g.ty.at
    ensures Rewritten(g.y, g.code, Assemble(g), PlanOf(g), pc)
  {
    hide Assemble, Disjoint, FitsAll, TablesApart, Operand, Decode, Length, Pos, Item, Fits, ConstantsStay, Sits;
    InsideAt(g, pc);
    DisjointAt(g, pc);
    FitsAt(g, pc);
    ConstantsAt(g, pc);
    PieceSits(g, pc);
    PosAfter(g, pc);
    ItemHasLength(g.y, g.code, PlanOf(g), pc);
    PosFlat(g, pc + 1, pc + Length(g.y, g.code, pc));
    NextIs(g.y, g.code, pc);
  }

  lemma NextIs(y: Layout, code: seq<Byte>, pc: int)
    requires InCode(code, pc)
    ensures Decode(y, code, pc).next == pc + Length(y, code, pc)
  {
    hide Decode;
    DecodedIsSmall(y, code, pc);
  }

  lemma FitsAt(g: Program, pc: int)
    requires Inside(g) && FitsAll(g) && pc in g.ty.at
    ensures InCode(g.code, pc) && g.y.blockSize > 0 && Fits(g.y, g.code, PlanOf(g), pc)
  {
    hide Decode, Length, Operand;
  }

  lemma ProgramRelocated(g: Program)
    requires Assemblable(g)
    ensures Relocated(g.y, g.code, g.ty, Assemble(g), PlanOf(g), g.tables)
  {
    hide Assemble, Disjoint, FitsAll, TablesApart, Rewritten, HeaderMoves, EntryMoves, Operand, Decode, Length, Pos,
      Wrap32;
    forall pc | pc in g.ty.at
      ensures Rewritten(g.y, g.code, Assemble(g), PlanOf(g), pc)
    {
      InstructionRewritten(g, pc);
    }
    forall m | m in g.ty.kind
      ensures HeaderMoves(g.code, Assemble(g), PlanOf(g), m)
    {
      MethodHeader(g, m);
    }
    forall e | e in g.tables
      ensures EntryMoves(g.y, g.code, g.ty, Assemble(g), PlanOf(g), e)
    {
      EntryRewritten(g, e);
    }
  }

  // ----- nothing collides

  /** An instruction's place is before everything that comes later, by the length of its bytes. */
  lemma Before(g: Program, a: int, b: int)
    requires Inside(g) && Disjoint(g) && a in g.ty.at && a < b
    ensures InCode(g.code, a) && Pos(g, a) + ItemLength(g.y, g.code, a) <= Pos(g, b) && ItemLength(g.y, g.code, a) > 0
  {
    hide Decode, Length, ItemLength, Pos;
    InsideAt(g, a);
    DisjointAt(g, a);
    PosAfter(g, a);
    PosMonotone(g, a + 1, b);
    ItemHasLength(g.y, g.code, PlanOf(g), a);
  }

  lemma MethodBefore(g: Program, m: int, n: int)
    requires Inside(g) && m in g.ty.kind && m < n
    ensures MethodPos(g, m) + 2 <= Pos(g, n) <= MethodPos(g, n)
  {
    hide Decode, Length, Pos;
    assert 0 <= m;
    PosAfter(g, m);
    PosMonotone(g, m + 1, n);
  }

  lemma FusedIsLong(g: Program, h: Host, pc: int)
    requires Inside(g) && pc in g.ty.at && L.IsFused(ImageOf(g.y, g.code, h), PlanOf(g), pc)
    ensures InCode(g.code, pc) && ItemLength(g.y, g.code, pc) >= 2
  {
    hide Decode, ImageOf, Length;
    InsideAt(g, pc);
    LoadedLine(g.y, g.code, h, pc);
    var op := g.code[pc];
    if !(215 <= op <= 220) { NotFused(g.y, g.code, pc); }
  }

  /** Only these opcodes are fused. */
  lemma NotFused(y: Layout, code: seq<Byte>, pc: int)
    requires InCode(code, pc) && !(215 <= code[pc] <= 220)
    ensures var i := Decode(y, code, pc).instr;
            i.JumpCmp? || i.InlineParam0? || (i.Call? && i.withParam0) ==> 150 <= code[pc] <= 161 || code[pc] == 229
  {
    hide Operand, BlockWord, BlockCell, Arithmetic, Signed8, Signed16;
  }

  lemma PlacesApart(g: Program, h: Host, a: int, b: int)
    requires Inside(g) && Disjoint(g) && a in g.ty.at && b in g.ty.at
    ensures var p, img := PlanOf(g), ImageOf(g.y, g.code, h);
            && (p.place(a) == p.place(b) ==> a == b)
            && (L.IsFused(img, p, a) ==> p.middle(a) != p.place(b) && (p.middle(a) == p.middle(b) ==> a == b))
            && p.place(a) >= 0
  {
    hide Decode, Length, ItemLength, Pos, ImageOf, L.IsFused;
    if a < b { Before(g, a, b); }
    if b < a { Before(g, b, a); }
    if L.IsFused(ImageOf(g.y, g.code, h), PlanOf(g), a) { FusedIsLong(g, h, a); }
    PosMonotone(g, a, a);
  }

  lemma ProgramApart(g: Program, h: Host)
    requires Inside(g) && Disjoint(g)
    ensures L.Apart(ImageOf(g.y, g.code, h), g.ty, PlanOf(g))
  {
    hide Inside, Disjoint, ImageOf, L.IsFused, PlanOf;
    var p, img := PlanOf(g), ImageOf(g.y, g.code, h);
    forall a, b | a in g.ty.at && b in g.ty.at
      ensures p.place(a) == p.place(b) ==> a == b
      ensures L.IsFused(img, p, a) ==> p.middle(a) != p.place(b) && (p.middle(a) == p.middle(b) ==> a == b)
    {
      PlacesApart(g, h, a, b);
    }
    forall a | a in g.ty.at
      ensures p.place(a) >= 0 && p.middle(a) >= 0
    {
      PlacesApart(g, h, a, a);
      MiddleIs(g, a);
    }
    forall m, n | m in g.ty.kind && n in g.ty.kind
      ensures (p.meth(m) == p.meth(n) ==> m == n) && p.meth(m) >= 0
    {
      MethodsApart(g, m, n);
    }
  }

  lemma MiddleIs(g: Program, a: int)
    requires Inside(g)
    ensures PlanOf(g).middle(a) == PlanOf(g).place(a) + 1
  {
  }

  lemma MethodsApart(g: Program, m: int, n: int)
    requires Inside(g) && m in g.ty.kind && n in g.ty.kind
    ensures PlanOf(g).meth(m) == PlanOf(g).meth(n) ==> m == n
    ensures PlanOf(g).meth(m) >= 0
  {
    hide Decode, Length, Pos;
    if m < n { MethodBefore(g, m, n); }
    if n < m { MethodBefore(g, n, m); }
    PosMonotone(g, m, m);
  }

  // ----- when it fits

  lemma PosAtMost(g: Program, x: int)
    requires Inside(g)
    ensures |g.code| <= Pos(g, x) <= |Assemble(g)|
  {
    hide Inside, Pos;
    PosOut(g, |g.code|);
    if x <= |g.code| {
      PosMonotone(g, x, |g.code|);
    } else {
      PosBehind(g, x);
      PosMonotone(g, 0, x);
    }
  }

  lemma PosBehind(g: Program, x: int)
    requires Inside(g) && x >= |g.code|
    ensures Pos(g, x) == Pos(g, |g.code|)
  {
    hide Decode, Length;
    forall k | |g.code| <= k < x
      ensures k !in g.ty.at && k !in g.ty.kind
    {
    }
    PosFlat(g, |g.code|, x);
  }

  lemma BlockFits(y: Layout, at: int)
    requires y.blockSize > 0 && 0 <= at <= 0x8000
    ensures OnBlock(y, at + Pad(y, at))
  {
    PadOnBlock(y, at);
    var d, v := y.blockSize, at + Pad(y, at);
    var q := v / d;
    assert v == q * d + v % d;
    if q > 0x8001 {
      assert (q - 0x8001) * d >= 1 * d;
      assert q * d == (q - 0x8001) * d + 0x8001 * d;
    }
  }

  /** Up to 32 KB every offset and every method block fits. */
  lemma ShortFits(g: Program)
    requires Inside(g) && |Assemble(g)| <= 0x8000
    ensures FitsAll(g)
  {
    hide Assemble, Pos, Decode, Length, Operand, OnBlock, Pad;
    forall m
      ensures OnBlock(g.y, MethodPos(g, m))
    {
      PosAtMost(g, m);
      BlockFits(g.y, Pos(g, m));
    }
    forall pc | pc in g.ty.at
      ensures Fits(g.y, g.code, PlanOf(g), pc)
    {
      forall to
        ensures Near(Pos(g, to) - Pos(g, pc)) && Near(Pos(g, to) - (Pos(g, pc) + 1))
      {
        PosAtMost(g, to);
        PosAtMost(g, pc);
        InsideAt(g, pc);
      }
    }
  }

  lemma {:induction false} PosBound(g: Program, k: nat, x: nat)
    requires Inside(g) && forall z, at :: Width(g, z, at) <= k
    ensures Pos(g, x) <= |g.code| + k * x
    decreases x
  {
    hide Inside, Width;
    if x > 0 { PosBound(g, k, x - 1); }
  }

  /** So it is when every piece has at most k bytes and the segment at most 0x8000 / (k + 1). */
  lemma NarrowFits(g: Program, k: nat)
    requires Inside(g) && (forall z, at :: Width(g, z, at) <= k) && |g.code| + k * |g.code| <= 0x8000
    ensures FitsAll(g)
  {
    hide Inside, Width, Pos, FitsAll;
    PosBound(g, k, |g.code|);
    PosOut(g, |g.code|);
    ShortFits(g);
  }

  // ----- the assembled image is an expansion

  lemma PlanRetypes(g: Program, h: Host)
    requires Inside(g) && L.Apart(ImageOf(g.y, g.code, h), g.ty, PlanOf(g))
    ensures Retyped(g.ty, L.MovedTyping(ImageOf(g.y, g.code, h), g.ty, PlanOf(g)), PlanOf(g))
  {
    hide Inside, ImageOf, PlanOf, L.Apart, L.Spots, L.Kinds, SpotsMove;
    var img, p := ImageOf(g.y, g.code, h), PlanOf(g);
    L.SpotsMoved(img, g.ty, p);
    forall m | m in g.ty.kind
      ensures p.meth(m) in L.Kinds(img, g.ty, p) && L.Kinds(img, g.ty, p)[p.meth(m)] == g.ty.kind[m]
    {
      L.KindsAt(img, g.ty, p, m);
    }
  }

  /** Both segments load to images of which the second is an expansion of the first. */
  lemma AssembledExpands(g: Program, h: Host, h': Host)
    requires Assemblable(g) && HostsAlike(h, h', PlanOf(g))
    ensures var img, p := ImageOf(g.y, g.code, h), PlanOf(g);
            && L.Apart(img, g.ty, p)
            && Expands(img, g.ty, ImageOf(g.y, Assemble(g), h'), L.MovedTyping(img, g.ty, p), p)
  {
    hide Inside, Disjoint, FitsAll, TablesApart, ImageOf, PlanOf, L.Apart, L.MovedTyping, HostsAlike, Relocated,
      Assemble, Retyped, InlinedFields;
    ProgramApart(g, h);
    PlanRetypes(g, h);
    ProgramRelocated(g);
    HostBase(g.y, g.code, h);
    RelocatedExpands(g.y, g.code, g.ty, Assemble(g), L.MovedTyping(ImageOf(g.y, g.code, h), g.ty, PlanOf(g)), PlanOf(g),
                     g.tables, h, h');
  }

  lemma HostBase(y: Layout, code: seq<Byte>, h: Host)
    ensures BaseOpcodes(ImageOf(y, code, h))
  {
    O.LoadedBaseOpcodes(y, code, h.fpu, h.hasNative, h.native);
  }

  /** vmCall of a method of a loaded code segment and of the assembled one, on two cell arrays with any contents, end
      alike: value, world and vm->sp, fault or overrun, as long as no fused inline-field load meets a null parameter and
      virtual calls go through the rewritten vtable entries. */
  lemma AssembledCall(g: Program, h: Host, h': Host, da: S.Stored, mem: seq<int>, mem': seq<int>, vmsp: int, w: World,
                      target: int, args: seq<int>, fuel: nat)
    requires Assemblable(g) && HostsAlike(h, h', PlanOf(g)) && C.Sound(ImageOf(g.y, g.code, h), g.ty, da)
    requires L.Apart(ImageOf(g.y, g.code, h), g.ty, PlanOf(g))
    requires S.DeafNatives(ImageOf(g.y, Assemble(g), h'), L.MovedTyping(ImageOf(g.y, g.code, h), g.ty, PlanOf(g)))
    requires target in g.ty.kind && |mem| == |mem'| == g.y.stackMax && 0 <= vmsp < g.y.stackMax
    requires g.ty.kind[target] == 0 ==> mem'[vmsp] == mem[vmsp]
    requires var img, p := ImageOf(g.y, g.code, h), PlanOf(g);
             var o := C.Start(img, g.ty, mem, vmsp, w, target, args);
             EntryFair(img, g.ty, p, o, V.Blank(fuel)) && !Continue(img, g.ty, o, V.Blank(fuel)).BadTarget?
    ensures var img, p := ImageOf(g.y, g.code, h), PlanOf(g);
            var steps := C.Steps(img, g.ty, p, C.Start(img, g.ty, mem, vmsp, w, target, args), fuel);
            C.SameEnd(V.Call(img, mem, vmsp, w, target, args, fuel),
                      V.Call(ImageOf(g.y, Assemble(g), h'), mem', vmsp, w, MethodPos(g, target), args, steps))
  {
    hide Inside, Disjoint, FitsAll, TablesApart, ImageOf, PlanOf, L.Apart, L.MovedTyping, HostsAlike, Assemble,
      InlinedFields, WellFormed, S.Definite, S.DeafNatives, V.Call, C.Start, C.Steps, EntryFair, V.Blank, Continue,
      Expands, C.SameEnd, MethodPos, SmallHeads;
    var img, img', p := ImageOf(g.y, g.code, h), ImageOf(g.y, Assemble(g), h'), PlanOf(g);
    AssembledExpands(g, h, h');
    LoadedRest(g.y, g.code, h);
    LoadedRest(g.y, Assemble(g), h');
    BaseIsPositive(img, g.ty);
    PlanMethod(g, target);
    C.VmCallMoved(img, g.ty, da, img', p, mem, mem', vmsp, w, target, args, fuel);
  }

  lemma BaseIsPositive(img: Image, ty: Typing)
    requires WellFormed(img, ty)
    ensures img.codeBase > 0
  {
  }

  lemma PlanMethod(g: Program, m: int)
    requires Inside(g)
    ensures PlanOf(g).meth(m) == MethodPos(g, m)
  {
  }

  // ----- hosts without natives

  /** Natives that do nothing and are never called. */
  function Quiet(fpu: (int, seq<int>) -> seq<int>): Host {
    Host(fpu, (kit: int, id: int) => false, (kit: int, id: int, a: seq<int>, w: World) => Finish(0, 0, w))
  }

  lemma QuietAlike(fpu: (int, seq<int>) -> seq<int>, p: Plan)
    ensures HostsAlike(Quiet(fpu), Quiet(fpu), p)
  {
    forall kit: int, id: int, a: seq<int>, w: World, k: nat
      ensures ActAlike(p, k, Quiet(fpu).native(kit, id, a, w), Quiet(fpu).native(kit, id, a, w))
    {
    }
  }

  lemma QuietDeaf(img: Image, ty: Typing, fpu: (int, seq<int>) -> seq<int>)
    requires img.native == Quiet(fpu).native
    ensures S.DeafNatives(img, ty)
  {
    forall kit: int, id: int, a: seq<int>, w: World, k: nat
      ensures S.DeafFor(ty, k, img.native(kit, id, a, w))
    {
    }
  }
}
