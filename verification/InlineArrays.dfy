/** The reference table that initArray lays in front of an inline object array (svm/vm.c:332-353). */
module InlineArrays {
  import opened Alu
  import opened Bytes
  import opened Slots

  /** No address of these bytes wraps around. */
  predicate Straight(a: int, width: nat) { -0x8000_0000 <= a && a + width <= 0x8000_0000 }

  lemma {:induction false} InSlotRange(a: int, width: nat, b: int)
    requires Straight(a, width) && width > 0
    ensures InSlot(a, width, b) <==> a <= b < a + width
    decreases width
  {
    if width > 1 {
      InSlotRange(a + 1, width - 1, b);
    }
  }

  /** The table from slot k on changes only its own bytes. */
  lemma {:induction false} TableFrame(h: map<int, int>, base: int, length: nat, size: int, k: nat, b: int)
    requires Straight(base, 4 * length) && k <= length
    requires b < base + 4 * k || base + 4 * length <= b
    ensures GetByte(InitArray(h, base, length, size, k), b) == GetByte(h, b)
    decreases length - k
  {
    hide GetByte, SetUnsigned;
    if k < length {
      var a := base + 4 * k;
      assert Wrap32(a) == a;
      var h1 := SetUnsigned(h, a, 4, Wrap32(base + 4 * length + size * k));
      TableFrame(h1, base, length, size, k + 1, b);
      SetOutside(h, a, 4, Wrap32(base + 4 * length + size * k));
      InSlotRange(a, 4, b);
    }
  }

  /** Slot j of the table holds the address of object j: the objects lie behind the table, `size` bytes apart. */
  lemma {:induction false} TableFilled(h: map<int, int>, base: int, length: nat, size: int, k: nat, j: nat)
    requires Straight(base, 4 * length) && k <= j < length
    ensures Wrap32(GetUnsigned(InitArray(h, base, length, size, k), base + 4 * j, 4))
            == Wrap32(base + 4 * length + size * j)
    decreases j - k
  {
    hide GetByte, GetUnsigned, SetUnsigned, Wrap32;
    var v := Wrap32(base + 4 * length + size * k);
    var a := base + 4 * k;
    AsItIs(a);
    var h1 := SetUnsigned(h, a, 4, v);
    if j == k {
      var h2 := InitArray(h1, base, length, size, k + 1);
      forall b | InSlot(a, 4, b)
        ensures GetByte(h2, b) == GetByte(h1, b)
      {
        InSlotRange(a, 4, b);
        TableFrame(h1, base, length, size, k + 1, b);
      }
      SameWord(h1, h2, a, 4);
      SetGet(h, a, 4, v);
      FourBytes(base + 4 * length + size * k);
    } else {
      TableFilled(h1, base, length, size, k + 1, j);
    }
  }

  lemma AsItIs(a: int)
    requires -0x8000_0000 <= a < 0x8000_0000
    ensures Wrap32(a) == a
  {
  }

  lemma FourBytes(v: int)
    ensures Wrap32(Wrap32(v) % Power256(4)) == Wrap32(v)
  {
    assert Power256(2) == 0x1_0000;
    assert Power256(4) == TWO32;
  }
}
