/** The opcodes on object memory by their numbers: addresses, widths and the heap bytes they read and write. */
module MemoryOpcodes {
  import opened Alu
  import opened Image
  import opened Options
  import opened Scode
  import opened Opcodes
  import F = FlatMachine
  import R = Relocation

  type Heap = map<int, int>

  // ----- heap bytes, low one first

  function HeapByte(h: Heap, a: int): int { if a in h then h[a] % 0x100 else 0 }

  function Fetch(h: Heap, a: int, n: nat): int
    decreases n
  {
    if n == 0 then 0 else HeapByte(h, Int32(a)) + 0x100 * Fetch(h, a + 1, n - 1)
  }

  function Poke(h: Heap, a: int, n: nat, v: int): Heap
    decreases n
  {
    if n == 0 then h else Poke(h[Int32(a) := v % 0x100], a + 1, n - 1, v / 0x100)
  }

  /** The cells read from `width` bytes: one word, zero-extended, or two words. */
  function Fetched(h: Heap, a: int, width: nat): seq<int> {
    if width == 8 then [Int32(Fetch(h, a, 4)), Int32(Fetch(h, a + 4, 4))] else [Int32(Fetch(h, a, width))]
  }

  function Poked(h: Heap, a: int, width: nat, ws: seq<int>): Heap
    requires |ws| == if width == 8 then 2 else 1
  {
    if width == 8 then Poke(Poke(h, a, 4, ws[0]), a + 4, 4, ws[1]) else Poke(h, a, width, ws[0])
  }

  lemma NextAddress(a: int)
    ensures Wrap32(Wrap32(a) + 1) == Wrap32(a + 1) && Wrap32(Wrap32(a) + 4) == Wrap32(a + 4)
  {
    WrapSum(a, 1);
    WrapSum(a, 4);
  }

  lemma {:induction false} FetchIs(h: Heap, a: int, n: nat)
    ensures Fetch(h, a, n) == GetUnsigned(h, Wrap32(a), n)
    decreases n
  {
    hide Int32, Wrap32;
    if n > 0 {
      Cut(a);
      NextAddress(a);
      FetchIs(h, a + 1, n - 1);
    }
  }

  lemma {:induction false} PokeIs(h: Heap, a: int, n: nat, v: int)
    ensures Poke(h, a, n, v) == SetUnsigned(h, Wrap32(a), n, v)
    decreases n
  {
    hide Int32, Wrap32;
    if n > 0 {
      Cut(a);
      NextAddress(a);
      PokeIs(h[Wrap32(a) := v % 256], a + 1, n - 1, v / 256);
    }
  }

  lemma FetchedIs(w: World, a: int, width: nat)
    ensures Fetched(w.heap, a, width) == Load(w, Wrap32(a), width)
  {
    hide Int32, Wrap32, Fetch, GetUnsigned;
    NextAddress(a);
    FetchIs(w.heap, a, width);
    FetchIs(w.heap, a, 4);
    FetchIs(w.heap, a + 4, 4);
    Cut(Fetch(w.heap, a, width));
    Cut(Fetch(w.heap, a, 4));
    Cut(Fetch(w.heap, a + 4, 4));
  }

  lemma PokedIs(w: World, a: int, width: nat, ws: seq<int>)
    requires |ws| == Cells(width)
    ensures Store(w, Wrap32(a), width, ws) == w.(heap := Poked(w.heap, a, width, ws))
  {
    hide Int32, Wrap32, Poke, SetUnsigned;
    NextAddress(a);
    PokeIs(w.heap, a, width, ws[0]);
    PokeIs(w.heap, a, 4, ws[0]);
    if width == 8 { PokeIs(Poke(w.heap, a, 4, ws[0]), a + 4, 4, ws[1]); }
  }

  // ----- steps that change the heap

  /** The top n cells go and the heap becomes h. */
  ghost predicate GoesHeap(p: Point, n: nat, h: Heap, next: int) {
    && n <= p.r.sp + 1 <= |p.s.mem|
    && F.Step(ImageAt(p), p.s)
       == F.Next(p.s.(w := p.s.w.(heap := h), mode := F.Running(p.r.(sp := p.r.sp - n, cp := next))))
  }

  ghost predicate DoesHeap(p: Point, op: int, len: int, n: nat, h: Heap) {
    U1(p, 0) == op ==> GoesHeap(p, n, h, p.r.cp + len)
  }

  lemma LoadGoes(p: Point, d: Data, len: int, ws: seq<int>)
    requires Ready(p) && Decode(p.y, p.code, p.r.cp) == Line(Operate(d), p.r.cp + len) && !OnNumbers(d)
    requires DataPops(d) <= 4 && |ws| == DataPushes(d) <= DataPops(d) + 2
    requires PointerDepth(d) < 4 && (PointerDepth(d) >= 0 ==> Top(p, PointerDepth(d)) != 0)
    requires EvalMemory(d, Args(p, DataPops(d)), p.s.w, b => BlockCell(p.y, b)) == Some((ws, p.s.w))
    ensures Goes(p, DataPops(d), ws, p.r.cp + len)
  {
    hide Decode, Int32, EvalMemory, Goes, Ready, DataPops, DataPushes, PointerDepth;
    assert DataPops(d) <= p.r.sp + 1 <= |p.s.mem| by { Room(p); }
    OperateDoes(p, d, len, ws);
  }

  lemma NothingWritten(mem: seq<int>, at: int)
    requires 0 <= at <= |mem|
    ensures Written(mem, at, []) == mem
  {
  }

  lemma StoreGoes(p: Point, d: Data, len: int, w: World)
    requires Ready(p) && Decode(p.y, p.code, p.r.cp) == Line(Operate(d), p.r.cp + len) && !OnNumbers(d)
    requires DataPops(d) <= 4 && DataPushes(d) == 0
    requires PointerDepth(d) < 4 && (PointerDepth(d) >= 0 ==> Top(p, PointerDepth(d)) != 0)
    requires DataPops(d) <= p.r.sp + 1 <= |p.s.mem|
    requires EvalMemory(d, Args(p, DataPops(d)), p.s.w, b => BlockCell(p.y, b)) == Some(([], w))
    requires w == p.s.w.(heap := w.heap)
    ensures GoesHeap(p, DataPops(d), w.heap, p.r.cp + len)
  {
    hide Decode, Int32, EvalMemory, R.ImageOf, F.Step, Written, PointerDepth, DataPops, DataPushes, Ready;
    assert 0 <= p.r.cp < |p.code| by { InCode(p); }
    Loaded(p);
    SimpleGoes(p, Line(Operate(d), p.r.cp + len), [], p.r.cp + len, w);
    NothingWritten(p.s.mem, p.r.sp + 1 - DataPops(d));
  }

  // ----- 163 to 207: fields and arrays

  /** The first opcode of each width. */
  predicate Group(first: int, width: nat) {
    (first == 163 && width == 1) || (first == 172 && width == 2) || (first == 181 && width == 4)
    || (first == 190 && width == 8) || (first == 199 && width == 4)
  }

  /** The forms with one, two and four offset bytes follow each other. */
  predicate Form(k: int, n: nat) { (k == 0 && n == 1) || (k == 1 && n == 2) || (k == 2 && n == 4) }

  lemma FieldDecodes(p: Point, first: int, width: nat, k: int, n: nat)
    requires Ready(p) && Group(first, width) && Form(k, n)
    ensures U1(p, 0) == first + k ==>
              Decode(p.y, p.code, p.r.cp) == Line(Operate(LoadField(width, Wide(p, n))), p.r.cp + 1 + n)
    ensures U1(p, 0) == first + 4 + k ==>
              Decode(p.y, p.code, p.r.cp) == Line(Operate(StoreField(width, Wide(p, n))), p.r.cp + 1 + n)
  {
    hide Ready, Operand, Storage, Operate, Wide;
    InCode(p);
    if U1(p, 0) == first + k { StorageLoad(p, first, width, k, n); }
    if U1(p, 0) == first + 4 + k { StorageStore(p, first, width, k, n); }
  }

  lemma StorageLoad(p: Point, first: int, width: nat, k: int, n: nat)
    requires 0 <= p.r.cp && Group(first, width) && Form(k, n)
    ensures Storage(p.code, p.r.cp, first + k) == Line(Operate(LoadField(width, Wide(p, n))), p.r.cp + 1 + n)
  {
    hide Operand, Operate;
    BytesAt(p.code, p.r.cp + 1);
  }

  lemma StorageStore(p: Point, first: int, width: nat, k: int, n: nat)
    requires 0 <= p.r.cp && Group(first, width) && Form(k, n)
    ensures Storage(p.code, p.r.cp, first + 4 + k) == Line(Operate(StoreField(width, Wide(p, n))), p.r.cp + 1 + n)
  {
    hide Operand, Operate;
    BytesAt(p.code, p.r.cp + 1);
  }

  lemma ElementDecodes(p: Point, first: int, width: nat)
    requires Ready(p) && Group(first, width)
    ensures U1(p, 0) == first + 3 ==> Decode(p.y, p.code, p.r.cp) == Line(Operate(LoadElem(width)), p.r.cp + 1)
    ensures U1(p, 0) == first + 7 ==> Decode(p.y, p.code, p.r.cp) == Line(Operate(StoreElem(width)), p.r.cp + 1)
    ensures U1(p, 0) == first + 8 ==> Decode(p.y, p.code, p.r.cp) == Line(Operate(AddElem(width)), p.r.cp + 1)
  {
    hide Ready, Operand;
    InCode(p);
  }

  /** A field load replaces the object's address by the field. */
  lemma FieldLoads(p: Point, first: int, width: nat, k: int, n: nat)
    requires Ready(p) && Group(first, width) && Form(k, n)
    ensures Top(p, 0) != 0 ==> Does(p, first + k, 1 + n, 1, Fetched(p.s.w.heap, Top(p, 0) + Wide(p, n), width))
  {
    hide Goes, Ready, Decode, Int32, Wrap32, Fetched, Load, Wide;
    ArgCells(p);
    FieldDecodes(p, first, width, k, n);
    FetchedIs(p.s.w, Top(p, 0) + Wide(p, n), width);
    if Top(p, 0) != 0 && U1(p, 0) == first + k {
      LoadGoes(p, LoadField(width, Wide(p, n)), 1 + n, Fetched(p.s.w.heap, Top(p, 0) + Wide(p, n), width));
    }
  }

  /** An element load replaces the array's address and the index by the element. */
  lemma ElementLoads(p: Point, first: int, width: nat)
    requires Ready(p) && Group(first, width)
    ensures Top(p, 1) != 0 ==>
              && Does(p, first + 3, 1, 2, Fetched(p.s.w.heap, Top(p, 1) + width * Top(p, 0), width))
              && Does(p, first + 8, 1, 2, [Int32(Top(p, 1) + width * Top(p, 0))])
  {
    hide Goes, Ready, Decode, Int32, Wrap32, Fetched, Load;
    ArgCells(p);
    ElementDecodes(p, first, width);
    var a := Top(p, 1) + width * Top(p, 0);
    FetchedIs(p.s.w, a, width);
    Cut(a);
    if Top(p, 1) != 0 {
      if U1(p, 0) == first + 3 { LoadGoes(p, LoadElem(width), 1, Fetched(p.s.w.heap, a, width)); }
      if U1(p, 0) == first + 8 { LoadGoes(p, AddElem(width), 1, [Int32(a)]); }
    }
  }

  /** The value on top: one cell or two. */
  function Stored(p: Point, width: nat): seq<int> {
    if width == 8 then [Top(p, 1), Top(p, 0)] else [Top(p, 0)]
  }

  lemma StoreArgs(p: Point, width: nat)
    requires Ready(p)
    ensures var c := |Stored(p, width)|;
            && 3 + c <= 5 && 1 + c <= p.r.sp + 1 <= |p.s.mem| && 2 + c <= p.r.sp + 1
            && Args(p, 1 + c)[0] == Top(p, c) && Args(p, 1 + c)[1..] == Stored(p, width)
            && Args(p, 2 + c)[0] == Top(p, c + 1) && Args(p, 2 + c)[1] == Top(p, c)
            && Args(p, 2 + c)[2..] == Stored(p, width)
  {
    hide Ready;
    Room(p);
    ArgCells(p);
  }

  /** A field store takes the value, and the object's address below it, off the stack. */
  lemma FieldStores(p: Point, first: int, width: nat, k: int, n: nat)
    requires Ready(p) && Group(first, width) && Form(k, n)
    ensures var c := |Stored(p, width)|;
            Top(p, c) != 0 ==>
              DoesHeap(p, first + 4 + k, 1 + n, 1 + c,
                       Poked(p.s.w.heap, Top(p, c) + Wide(p, n), width, Stored(p, width)))
  {
    hide GoesHeap, Ready, Decode, Int32, Wrap32, Poked, Store, Wide;
    var c, w := |Stored(p, width)|, p.s.w;
    StoreArgs(p, width);
    FieldDecodes(p, first, width, k, n);
    PokedIs(w, Top(p, c) + Wide(p, n), width, Stored(p, width));
    if Top(p, c) != 0 && U1(p, 0) == first + 4 + k {
      StoreGoes(p, StoreField(width, Wide(p, n)), 1 + n,
                Store(w, Wrap32(Top(p, c) + Wide(p, n)), width, Stored(p, width)));
    }
  }

  /** An element store takes value, index and address. */
  lemma ElementStores(p: Point, first: int, width: nat)
    requires Ready(p) && Group(first, width)
    ensures var c := |Stored(p, width)|;
            Top(p, c + 1) != 0 ==>
              DoesHeap(p, first + 7, 1, 2 + c,
                       Poked(p.s.w.heap, Top(p, c + 1) + width * Top(p, c), width, Stored(p, width)))
  {
    hide GoesHeap, Ready, Decode, Int32, Wrap32, Poked, Store;
    var c, w := |Stored(p, width)|, p.s.w;
    var a := Top(p, c + 1) + width * Top(p, c);
    StoreArgs(p, width);
    ElementDecodes(p, first, width);
    PokedIs(w, a, width, Stored(p, width));
    if Top(p, c + 1) != 0 && U1(p, 0) == first + 7 {
      StoreGoes(p, StoreElem(width), 1, Store(w, Wrap32(a), width, Stored(p, width)));
    }
  }

  // ----- 208 to 214, 230 to 232: constant and inline fields, initialisation

  /** The address of a block, null for block 0. */
  function BlockAddress(p: Point, block: int): int {
    if block == 0 then 0 else Int32(p.y.codeBase + p.y.blockSize * block)
  }

  lemma ConstDecodes(p: Point)
    requires Ready(p)
    ensures var l := Decode(p.y, p.code, p.r.cp);
            && (U1(p, 0) == 208 ==> l == Line(Operate(ConstField(Wide(p, 1))), p.r.cp + 2))
            && (U1(p, 0) == 209 ==> l == Line(Operate(ConstField(Wide(p, 2))), p.r.cp + 3))
            && (U1(p, 0) == 211 ==> l == Line(Operate(ConstElem), p.r.cp + 1))
            && (U1(p, 0) == 212 ==> l == Line(Operate(Inline(Wide(p, 1))), p.r.cp + 2))
            && (U1(p, 0) == 213 ==> l == Line(Operate(Inline(Wide(p, 2))), p.r.cp + 3))
            && (U1(p, 0) == 214 ==> l == Line(Operate(Inline(Wide(p, 4))), p.r.cp + 5))
  {
    hide Ready, Operand, BlockCell;
    InCode(p);
    BytesAt(p.code, p.r.cp + 1);
  }

  lemma BlockIs(p: Point, block: int, f: int -> int)
    requires forall b :: f(b) == BlockCell(p.y, b)
    ensures BlockOrNull(block, f) == BlockAddress(p, block)
  {
    Cut(p.y.codeBase + p.y.blockSize * block);
  }

  lemma ConstEval(p: Point, d: Data, a: seq<int>, at: int, f: int -> int)
    requires forall b :: f(b) == BlockCell(p.y, b)
    requires (d.ConstField? && |a| == 1 && at == a[0] + d.off) || (d == ConstElem && |a| == 2 && at == a[0] + 2 * a[1])
    ensures EvalMemory(d, a, p.s.w, f) == Some(([BlockAddress(p, Fetch(p.s.w.heap, at, 2))], p.s.w))
  {
    hide BlockCell, BlockAddress, Fetch, GetUnsigned, Wrap32, BlockOrNull;
    FetchIs(p.s.w.heap, at, 2);
    BlockIs(p, Fetch(p.s.w.heap, at, 2), f);
  }

  lemma ConstGoes(p: Point, d: Data, len: int, at: int)
    requires Ready(p) && Decode(p.y, p.code, p.r.cp) == Line(Operate(d), p.r.cp + len)
    requires if d.ConstField? then at == Top(p, 0) + d.off && Top(p, 0) != 0
             else d == ConstElem && at == Top(p, 1) + 2 * Top(p, 0) && Top(p, 1) != 0
    ensures Goes(p, DataPops(d), [BlockAddress(p, Fetch(p.s.w.heap, at, 2))], p.r.cp + len)
  {
    hide Goes, Ready, Decode, Fetch, BlockCell, BlockAddress, EvalMemory;
    Room(p);
    ArgCells(p);
    ConstEval(p, d, Args(p, DataPops(d)), at, b => BlockCell(p.y, b));
    LoadGoes(p, d, len, [BlockAddress(p, Fetch(p.s.w.heap, at, 2))]);
  }

  /** Constants are stored as block numbers. */
  lemma ConstLoads(p: Point)
    requires Ready(p)
    ensures Top(p, 0) != 0 ==>
              && Does(p, 208, 2, 1, [BlockAddress(p, Fetch(p.s.w.heap, Top(p, 0) + Wide(p, 1), 2))])
              && Does(p, 209, 3, 1, [BlockAddress(p, Fetch(p.s.w.heap, Top(p, 0) + Wide(p, 2), 2))])
    ensures Top(p, 1) != 0 ==>
              Does(p, 211, 1, 2, [BlockAddress(p, Fetch(p.s.w.heap, Top(p, 1) + 2 * Top(p, 0), 2))])
  {
    hide Goes, Ready, Decode, Wide, Fetch, BlockAddress;
    ConstDecodes(p);
    var op, a, b := U1(p, 0), Top(p, 0), Top(p, 1);
    if op == 208 && a != 0 { ConstGoes(p, ConstField(Wide(p, 1)), 2, a + Wide(p, 1)); }
    if op == 209 && a != 0 { ConstGoes(p, ConstField(Wide(p, 2)), 3, a + Wide(p, 2)); }
    if op == 211 && b != 0 { ConstGoes(p, ConstElem, 1, b + 2 * a); }
  }

  /** An inline field is its address. */
  lemma InlineLoads(p: Point)
    requires Ready(p)
    ensures Top(p, 0) != 0 ==>
              && Does(p, 212, 2, 1, [Int32(Top(p, 0) + Wide(p, 1))])
              && Does(p, 213, 3, 1, [Int32(Top(p, 0) + Wide(p, 2))])
              && Does(p, 214, 5, 1, [Int32(Top(p, 0) + Wide(p, 4))])
  {
    hide Goes, Ready, Decode, Wide, Int32, Wrap32;
    ArgCells(p);
    ConstDecodes(p);
    Cut(Top(p, 0) + Wide(p, 1));
    Cut(Top(p, 0) + Wide(p, 2));
    Cut(Top(p, 0) + Wide(p, 4));
    var op, a := U1(p, 0), Top(p, 0);
    if a != 0 {
      if op == 212 { LoadGoes(p, Inline(Wide(p, 1)), 2, [Int32(a + Wide(p, 1))]); }
      if op == 213 { LoadGoes(p, Inline(Wide(p, 2)), 3, [Int32(a + Wide(p, 2))]); }
      if op == 214 { LoadGoes(p, Inline(Wide(p, 4)), 5, [Int32(a + Wide(p, 4))]); }
    }
  }

  lemma InitDecodes(p: Point)
    requires Ready(p)
    ensures var l := Decode(p.y, p.code, p.r.cp);
            && (U1(p, 0) == 230 ==> l == Line(Operate(InitRefs), p.r.cp + 1))
            && (U1(p, 0) == 231 ==> l == Line(Operate(InitHalf(0, U2(p, 1))), p.r.cp + 3))
            && (U1(p, 0) == 232 ==> l == Line(Operate(InitHalf(2, U2(p, 1))), p.r.cp + 3))
  {
    hide Ready, Operand, Switches;
    InCode(p);
    BytesAt(p.code, p.r.cp + 1);
  }

  /** The vtable block goes into the first half-word of an object, the type block of a component into the second; an
      inline array gets its reference table from address, length and object size. */
  lemma Initialisers(p: Point)
    requires Ready(p)
    ensures DoesHeap(p, 231, 3, 1, Poke(p.s.w.heap, Top(p, 0), 2, U2(p, 1)))
    ensures DoesHeap(p, 232, 3, 1, Poke(p.s.w.heap, Top(p, 0) + 2, 2, U2(p, 1)))
    ensures DoesHeap(p, 230, 1, 3, InitArray(p.s.w.heap, Top(p, 2), Top(p, 1), Top(p, 0), 0))
  {
    hide GoesHeap, Ready, Decode, U2, Int32, Wrap32, Poke, SetUnsigned, InitArray;
    ArgCells(p);
    Room(p);
    InitDecodes(p);
    PokeIs(p.s.w.heap, Top(p, 0), 2, U2(p, 1));
    PokeIs(p.s.w.heap, Top(p, 0) + 2, 2, U2(p, 1));
    var op, w, a := U1(p, 0), p.s.w, Top(p, 0);
    if op == 231 {
      assert a + 0 == a;
      StoreGoes(p, InitHalf(0, U2(p, 1)), 3, w.(heap := SetUnsigned(w.heap, Wrap32(a), 2, U2(p, 1))));
    }
    if op == 232 {
      StoreGoes(p, InitHalf(2, U2(p, 1)), 3, w.(heap := SetUnsigned(w.heap, Wrap32(a + 2), 2, U2(p, 1))));
    }
    if op == 230 { StoreGoes(p, InitRefs, 1, w.(heap := InitArray(w.heap, Top(p, 2), Top(p, 1), a, 0))); }
  }
}
