/** The fused, short and wide opcodes in the bytes of an image. */
module FusionOpcodes {
  import opened Alu
  import opened Bytes
  import opened Image
  import opened Options
  import opened Scode
  import Fusion

  /** In every loaded image comparison and inline address are the base opcodes' own. */
  lemma LoadedBaseOpcodes(y: Layout, code: seq<Byte>, fpu: (int, seq<int>) -> seq<int>, hasNative: (int, int) -> bool,
                          native: (int, int, seq<int>, World) -> Act)
    ensures Fusion.BaseOpcodes(LoadImage(y, code, fpu, hasNative, native))
  {
    hide Decode, HeadAt, Resolve;
    var img := LoadImage(y, code, fpu, hasNative, native);
    forall c: Cmp, a: seq<int>, w: World | |a| == 2
      ensures img.alu(IntCmp(c), a, w) == Some(([Bool(Compare(c, a[0], a[1]))], w))
    {
      assert OnNumbers(IntCmp(c)) && DataPops(IntCmp(c)) == 2;
      assert img.alu(IntCmp(c), a, w) == EvalNumber(IntCmp(c), a, w, fpu);
    }
    forall off: int, a: seq<int>, w: World | |a| == 1
      ensures img.alu(Inline(off), a, w) == Some(([Wrap32(a[0] + off)], w))
    {
      assert !OnNumbers(Inline(off)) && DataPops(Inline(off)) == 1;
      assert img.alu(Inline(off), a, w) == EvalMemory(Inline(off), a, w, b => BlockCell(y, b));
    }
  }

  /** LoadLocal0-7, StoreLocal0-7 and LoadParam0-3 are the indexed forms with their operand built in. */
  lemma ShortForms(y: Layout, short: seq<Byte>, at: int, long: seq<Byte>, at': int, k: nat)
    requires 0 <= at < |short| && 0 <= at' < |long| - 1 && long[at' + 1] == k
    ensures k < 4 && short[at] == 29 + k && long[at'] == 33 ==> Decode(y, short, at).instr == Decode(y, long, at').instr
    ensures k < 8 && short[at] == 37 + k && long[at'] == 45 ==> Decode(y, short, at).instr == Decode(y, long, at').instr
    ensures k < 8 && short[at] == 47 + k && long[at'] == 55 ==> Decode(y, short, at).instr == Decode(y, long, at').instr
  {
    hide Literal, Branch, Storage, Inlined, Transfer, Arithmetic;
    assert Operand(long, at' + 2, 0) == 0;
    assert Operand(long, at' + 1, 1) == k;
  }

  /** LoadDataInlineFieldU1-U4 are LoadDataAddr followed by the inline offset. */
  lemma DataInline(y: Layout, code: seq<Byte>, pc: int)
    requires 0 <= pc < |code| && 218 <= code[pc] <= 220
    ensures var off := Operand(code, pc + 1, OffsetBytes(code[pc] - 218));
            Decode(y, code, pc).instr == Const([Wrap32(Wrap32(y.dataBase) + off)])
  {
    hide Literal, Variable, Branch, Storage, Transfer, Arithmetic, Operand, Wrap32;
    WrapSum(y.dataBase, Operand(code, pc + 1, OffsetBytes(code[pc] - 218)));
  }

  /** A near and a far branch to the same place decode alike. */
  lemma NearFar(y: Layout, near: seq<Byte>, at: int, far: seq<Byte>, at': int)
    requires 0 <= at < |near| && 0 <= at' < |far|
    requires at + Signed8(near, at + 1) == at' + Signed16(far, at' + 1)
    requires (142 <= near[at] <= 145 && far[at'] == near[at] + 4)
             || (150 <= near[at] <= 155 && far[at'] == near[at] + 6)
    ensures Decode(y, near, at).instr == Decode(y, far, at').instr
  {
    hide Literal, Variable, Storage, Inlined, Transfer, Arithmetic, Signed8, Signed16;
  }

  /** The one-, two- and four-byte forms of a field access decode alike when they hold the same offset; k and k' are
      the forms, from 0 for loads and from 4 for stores. */
  lemma FieldForms(y: Layout, code: seq<Byte>, at: int, code': seq<Byte>, at': int, k: nat, k': nat)
    requires 0 <= at < |code| && 0 <= at' < |code'|
    requires 163 <= code[at] <= 207 && 163 <= code'[at'] <= 207
    requires (code[at] - 163) % 9 == k && (code'[at'] - 163) % 9 == k' && (code[at] - 163) / 9 == (code'[at'] - 163) / 9
    requires (k <= 2 && k' <= 2) || (4 <= k <= 6 && 4 <= k' <= 6)
    requires Operand(code, at + 1, OffsetBytes(k % 4)) == Operand(code', at' + 1, OffsetBytes(k' % 4))
    ensures Decode(y, code, at).instr == Decode(y, code', at').instr
  {
    hide Literal, Variable, Branch, Inlined, Transfer, Arithmetic, Operand;
  }
}
