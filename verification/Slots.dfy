/** Typed slots of a component (natives/sys_Component.c): reading and writing object memory in place. */
module Slots {
  import opened Alu
  import opened Bytes
  import opened Options

  /** A slot's type id and handle (a field offset, or a vtable index for an action). */
  datatype Slot = Slot(typeId: int, handle: nat)

  const BYTE := 2
  const SHORT := 3
  const INT := 4

  function Power256(width: nat): (p: int)
    ensures p > 0
  {
    if width == 0 then 1 else 256 * Power256(width - 1)
  }

  /** The addresses of `width` bytes from `a` on. */
  predicate InSlot(a: int, width: nat, b: int)
    decreases width
  {
    width > 0 && (b == a || InSlot(Wrap32(a + 1), width - 1, b))
  }

  ghost predicate SameOutside(h: map<int, int>, h': map<int, int>, a: int, width: nat) {
    forall b | !InSlot(a, width, b) :: GetByte(h', b) == GetByte(h, b)
  }

  lemma {:induction false} SetOutside(h: map<int, int>, a: int, width: nat, v: int)
    ensures SameOutside(h, SetUnsigned(h, a, width, v), a, width)
    decreases width
  {
    if width > 0 {
      SetOutside(h[a := v % 256], Wrap32(a + 1), width - 1, v / 256);
    }
  }

  lemma {:induction false} SameWord(h: map<int, int>, h': map<int, int>, a: int, width: nat)
    requires forall b | InSlot(a, width, b) :: GetByte(h', b) == GetByte(h, b)
    ensures GetUnsigned(h', a, width) == GetUnsigned(h, a, width)
    decreases width
  {
    if width > 0 {
      SameWord(h, h', Wrap32(a + 1), width - 1);
    }
  }

  /** A short run of addresses does not come back to an address before it. */
  lemma {:induction false} NotBefore(a: int, k: nat, width: nat)
    requires Wrap32(a) == a && k > 0 && k + width < TWO32
    ensures !InSlot(Wrap32(a + k), width, a)
    decreases width
  {
    if width > 0 {
      NotBefore(a, k + 1, width - 1);
      Again(a, k);
    }
  }

  lemma Again(a: int, k: nat)
    requires Wrap32(a) == a && 0 < k < TWO32
    ensures Wrap32(a + k) != a && Wrap32(Wrap32(a + k) + 1) == Wrap32(a + k + 1)
  {
  }

  /** A stored value reads back modulo the slot's width, and no other byte changes. */
  lemma {:induction false} SetGet(h: map<int, int>, a: int, width: nat, v: int)
    requires Wrap32(a) == a && width <= 8
    ensures GetUnsigned(SetUnsigned(h, a, width, v), a, width) == v % Power256(width)
    decreases width
  {
    if width > 0 {
      var next := Wrap32(a + 1);
      var h1 := h[a := v % 256];
      SetGet(h1, next, width - 1, v / 256);
      SetOutside(h1, next, width - 1, v / 256);
      NotBefore(a, 1, width - 1);
      assert GetByte(SetUnsigned(h1, next, width - 1, v / 256), a) == GetByte(h1, a) == v % 256;
      Digits(v, Power256(width - 1));
    }
  }

  lemma Digits(v: int, p: int)
    requires p > 0
    ensures v % 256 + 256 * (v / 256 % p) == v % (256 * p)
  {
    var q, d := v / 256 % p, v / 256 / p;
    assert v / 256 == d * p + q;
    assert v == 256 * (d * p + q) + v % 256 == d * (256 * p) + (256 * q + v % 256);
    assert 256 * q + v % 256 < 256 * p by {
      assert q + 1 <= p;
    }
    Unique(v, 256 * p, d, 256 * q + v % 256);
  }

  lemma Unique(v: int, m: int, d: int, r: int)
    requires m > 0 && v == d * m + r && 0 <= r < m
    ensures v % m == r
  {
    var e, s := v / m, v % m;
    var x := d - e;
    assert x * m == d * m - e * m == s - r;
    Multiple(x, m);
  }

  lemma Multiple(x: int, m: int)
    requires m > 0
    ensures x == 0 || x * m >= m || x * m <= -m
  {
    if x >= 1 {
      assert x * m == m + (x - 1) * m >= m;
    } else if x <= -1 {
      assert x * m == -m + (x + 1) * m <= -m;
    }
  }

  /** Bytes of an integer slot. */
  function IntWidth(typeId: int): Option<nat> {
    if typeId == BYTE then Some(1) else if typeId == SHORT then Some(2) else if typeId == INT then Some(4) else None
  }

  /** What getByte, getShort and getInt make of the stored bytes: only an int is signed. */
  function AsInt(u: int, width: nat): int { if width == 4 then Wrap32(u) else u }

  /** The values a slot of this width can hold. */
  predicate FitsInt(v: int, width: nat) {
    if width == 4 then -0x8000_0000 <= v < 0x8000_0000 else 0 <= v < Power256(width)
  }

  lemma StoredInt(v: int, width: nat)
    requires width == 1 || width == 2 || width == 4
    ensures FitsInt(v, width) <==> AsInt(v % Power256(width), width) == v
    ensures FitsInt(AsInt(v % Power256(width), width), width)
  {
    assert Power256(1) == 256 && Power256(2) == 256 * Power256(1);
    assert Power256(3) == 256 * Power256(2) && Power256(4) == 256 * Power256(3) == TWO32;
  }

  lemma CutValues(val: int)
    requires -0x8000_0000 <= val < 0x8000_0000
    ensures AsInt(val % Power256(1), 1) == val % 0x100 && AsInt(val % Power256(2), 2) == val % 0x1_0000
            && AsInt(val % Power256(4), 4) == val
  {
    assert Power256(1) == 256 && Power256(2) == 256 * Power256(1);
    assert Power256(3) == 256 * Power256(2) && Power256(4) == 256 * Power256(3) == TWO32;
  }

  /** A byte slot set to 256 reads back 0. */
  lemma ByteCut()
    ensures AsInt(256 % Power256(1), 1) == 0 && !FitsInt(256, 1)
  {
    assert Power256(1) == 256 * Power256(0);
  }

  class Memory {
    var heap: map<int, int>

    function At(self: int, s: Slot): int { Wrap32(self + s.handle) }

    /** sys_Component_getInt; 0 for a slot that holds no integer. */
    function GetInt(self: int, s: Slot): int
      reads this
    {
      match IntWidth(s.typeId)
      case Some(width) => AsInt(GetUnsigned(heap, At(self, s), width), width)
      case None => 0
    }

    /** sys_Component_doSetInt. The comparison is made before the value is cut to the slot's width, so a value that
        does not fit is always reported as a change. */
    method DoSetInt(self: int, s: Slot, val: int) returns (changed: bool)
      requires -0x8000_0000 <= val < 0x8000_0000
      modifies this
      ensures changed <==> IntWidth(s.typeId).Some? && old(GetInt(self, s)) != val
      ensures if IntWidth(s.typeId).None? then heap == old(heap)
              else var width := IntWidth(s.typeId).value;
                   && SameOutside(old(heap), heap, At(self, s), width)
                   && GetInt(self, s) == AsInt(val % Power256(width), width)
                   && (GetInt(self, s) == val <==> FitsInt(val, width))
      ensures s.typeId == 2 ==> GetInt(self, s) == val % 0x100
      ensures s.typeId == 3 ==> GetInt(self, s) == val % 0x1_0000
      ensures s.typeId == 4 ==> GetInt(self, s) == val
      ensures s.typeId != 2 && s.typeId != 3 && s.typeId != 4 ==> heap == old(heap) && !changed && GetInt(self, s) == 0
    {
      hide GetUnsigned, SetUnsigned, SameOutside, Power256, Wrap32;
      CutValues(val);
      if s.typeId != BYTE && s.typeId != SHORT && s.typeId != INT {
        return false;
      }
      var a, width := At(self, s), if s.typeId == BYTE then 1 else if s.typeId == SHORT then 2 else 4;
      ghost var h := heap;
      StoredInt(val, width);
      WrapTwice(self + s.handle);
      var u := GetUnsigned(heap, a, width);
      if AsInt(u, width) == val {
        Unchanged(heap, a, width);
        Held(heap, a, width);
        return false;
      }
      heap := SetUnsigned(heap, a, width, val);
      SetGet(h, a, width, val);
      SetOutside(h, a, width, val);
      changed := true;
    }
  }

  lemma WrapTwice(a: int)
    ensures Wrap32(Wrap32(a)) == Wrap32(a)
  {
  }

  lemma Unchanged(h: map<int, int>, a: int, width: nat)
    ensures SameOutside(h, h, a, width)
  {
  }

  lemma {:induction false} Bounded(h: map<int, int>, a: int, width: nat)
    ensures 0 <= GetUnsigned(h, a, width) < Power256(width)
    decreases width
  {
    if width > 0 {
      Bounded(h, Wrap32(a + 1), width - 1);
    }
  }

  lemma SmallRest(u: int, p: int)
    requires 0 <= u < p
    ensures u % p == u
  {
  }

  /** A value that was read from a slot fits it. */
  lemma Held(h: map<int, int>, a: int, width: nat)
    requires width == 1 || width == 2 || width == 4
    ensures FitsInt(AsInt(GetUnsigned(h, a, width), width), width)
  {
    hide GetUnsigned, Power256, AsInt, FitsInt;
    var u := GetUnsigned(h, a, width);
    Bounded(h, a, width);
    StoredInt(u, width);
    SmallRest(u, Power256(width));
  }
}
