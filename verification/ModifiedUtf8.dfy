/** Modified UTF-8 (section 4.4.7 of the Java Virtual Machine Specification):
    the encoder, a decoder driven by the lead byte, and the loop of read_utf.
    The source's shifts and masks appear as division and remainder. */
module ModifiedUtf8 {
  import opened Bytes
  import opened Options

  /** A code unit of a NUL-terminated u2 string. */
  type Unit = c: int | 1 <= c <= 0xFFFF witness 1

  function EncodeUnit(c: Unit): (s: seq<Byte>)
    ensures |s| == if c <= 0x7F then 1 else if c <= 0x7FF then 2 else 3
  {
    if c <= 0x7F then [c]
    else if c <= 0x7FF then [0xC0 + (c / 0x40) % 0x20, 0x80 + c % 0x40]
    else [0xE0 + (c / 0x1000) % 0x10, 0x80 + (c / 0x40) % 0x40, 0x80 + c % 0x40]
  }

  function Encode(s: seq<Unit>): seq<Byte> {
    if s == [] then [] else EncodeUnit(s[0]) + Encode(s[1..])
  }

  /** internalUtf_size: the byte count, without encoding. */
  method EncodedSize(s: seq<Unit>) returns (n: nat)
    ensures n == |Encode(s)|
  {
    n := 0;
    var i := 0;
    while i < |s|
      invariant 0 <= i <= |s| && n + |Encode(s[i..])| == |Encode(s)|
    {
      assert s[i..][1..] == s[i + 1..];
      if s[i] <= 127 { n := n + 1; }
      else if s[i] <= 2047 { n := n + 2; }
      else { n := n + 3; }
      i := i + 1;
    }
  }

  // ----- the decoder the specification describes -----

  /** The bytes a lead byte announces: one, two or three. */
  function Announced(lead: Byte): nat {
    if lead < 0x80 then 1 else if 0xC0 <= lead < 0xE0 then 2 else if 0xE0 <= lead < 0xF0 then 3 else 0
  }

  /** Lead bytes are 0xxxxxxx, 110xxxxx and 1110xxxx. */
  lemma LeadBits(lead: Byte)
    ensures Announced(lead) == 1 <==> lead / 0x80 == 0
    ensures Announced(lead) == 2 <==> lead / 0x20 == 6
    ensures Announced(lead) == 3 <==> lead / 0x10 == 14
    ensures Announced(lead) == 0 <==> lead / 0x40 == 2 || lead / 0x10 == 15
  {
  }

  function Value2(a: Byte, b: Byte): int { (a % 0x20) * 0x40 + b % 0x40 }

  function Value3(a: Byte, b: Byte, c: Byte): int { (a % 0x10) * 0x1000 + (b % 0x40) * 0x40 + c % 0x40 }

  function Decode(s: seq<Byte>): Option<seq<int>>
    decreases |s|
  {
    if s == [] then Some([])
    else
      var n := Announced(s[0]);
      if n == 0 || |s| < n then None
      else
        var c := if n == 1 then s[0] as int
                 else if n == 2 then Value2(s[0], s[1])
                 else Value3(s[0], s[1], s[2]);
        match Decode(s[n..])
        case Some(t) => Some([c] + t)
        case None => None
  }

  /** Encoding loses nothing: the lead-byte decoder inverts it on every NUL-free string. */
  lemma {:induction false} DecodeInverts(s: seq<Unit>)
    ensures Decode(Encode(s)) == Some(s)
    decreases |s|
  {
    if s != [] {
      var u, rest := EncodeUnit(s[0]), Encode(s[1..]);
      DecodeInverts(s[1..]);
      assert (u + rest)[|u|..] == rest;
      UnitValue(s[0]);
      assert [s[0]] + s[1..] == s;
    }
  }

  lemma UnitValue(c: Unit)
    ensures var u := EncodeUnit(c);
            && Announced(u[0]) == |u|
            && (|u| == 2 ==> Value2(u[0], u[1]) == c)
            && (|u| == 3 ==> Value3(u[0], u[1], u[2]) == c)
  {
    hide Value2, Value3;
    if c > 0x7FF {
      ThreeBytes(c);
    } else if c > 0x7F {
      TwoBytes(c);
    }
  }

  lemma TwoBytes(c: Unit)
    requires 0x7F < c <= 0x7FF
    ensures Value2(0xC0 + (c / 0x40) % 0x20, 0x80 + c % 0x40) == c
  {
  }

  lemma ThreeBytes(c: Unit)
    requires 0x7FF < c
    ensures Value3(0xE0 + (c / 0x1000) % 0x10, 0x80 + (c / 0x40) % 0x40, 0x80 + c % 0x40) == c
  {
    var q := c / 0x40;
    var r := q / 0x40;
    assert c / 0x1000 == r && r < 0x10;
    assert c == (r * 0x40 + q % 0x40) * 0x40 + c % 0x40;
    assert (0xE0 + r % 0x10) % 0x10 == r;
    assert (0x80 + q % 0x40) % 0x40 == q % 0x40 && (0x80 + c % 0x40) % 0x40 == c % 0x40;
  }

  // ----- read_utf -----

  /** One round of read_utf: the unit and the bytes it took. The branch taken after a lead byte of 0xC0 or more
      depends on the second byte. None where the source calls error_exit or would read past the last byte. */
  function ReadOne(s: seq<Byte>): (r: Option<(int, nat)>)
    ensures r.Some? ==> 1 <= r.value.1 <= |s| && r.value.1 <= 3
  {
    if s == [] then None
    else if s[0] < 0xC0 then Some((s[0], 1))
    else if |s| < 2 then None
    else if s[1] < 0xE0 then
      if s[1] == 0 || s[1] == 0x40 then None else Some((Value2(s[0], s[1]), 2))
    else if |s| < 3 || s[2] == 0 || s[2] == 0x10 || s[2] == 0x40 then None
    else Some((Value3(s[0], s[1], s[2]), 3))
  }

  /** What read_utf's loop makes of the bytes after the count field, with `left` of the count still to read:
      the units and the bytes it leaves. */
  function ReadLoop(s: seq<Byte>, left: int): Option<(seq<int>, seq<Byte>)>
    decreases left
  {
    if left <= 0 then Some(([], s))
    else
      match ReadOne(s)
      case Some((c, width)) => Cons(c, ReadLoop(s[width..], left - width))
      case None => None
  }

  function Cons(c: int, t: Option<(seq<int>, seq<Byte>)>): Option<(seq<int>, seq<Byte>)> {
    match t
    case Some(r) => Some(([c] + r.0, r.1))
    case None => None
  }

  function Prepend(front: seq<int>, t: Option<(seq<int>, seq<Byte>)>): Option<(seq<int>, seq<Byte>)> {
    match t
    case Some(r) => Some((front + r.0, r.1))
    case None => None
  }

  lemma PrependNothing(t: Option<(seq<int>, seq<Byte>)>)
    ensures Prepend([], t) == t
  {
    if t.Some? {
      assert [] + t.value.0 == t.value.0;
    }
  }

  lemma PrependCons(front: seq<int>, c: int, t: Option<(seq<int>, seq<Byte>)>)
    ensures Prepend(front, Cons(c, t)) == Prepend(front + [c], t)
  {
    if t.Some? {
      assert front + ([c] + t.value.0) == (front + [c]) + t.value.0;
    }
  }

  predicate Narrow(s: seq<Unit>) { forall i | 0 <= i < |s| :: s[i] <= 0x7FF }

  lemma NarrowFirst(s: seq<Unit>)
    requires s != []
    ensures Narrow(s) <==> s[0] <= 0x7FF && Narrow(s[1..])
  {
    assert forall i | 0 < i < |s| :: s[i] == s[1..][i - 1];
  }

  /** How many units read_utf makes of a string. */
  function Pieces(s: seq<Unit>): nat {
    if s == [] then 0 else (if s[0] <= 0x7FF then 1 else 2) + Pieces(s[1..])
  }

  lemma {:induction false} PiecesExact(s: seq<Unit>)
    ensures |s| <= Pieces(s) && (Pieces(s) == |s| <==> Narrow(s))
    decreases |s|
  {
    if s != [] {
      PiecesExact(s[1..]);
      NarrowFirst(s);
    }
  }

  /** One encoded unit: read back as itself, or as two units when it took three bytes. */
  lemma ReadUnit(c: Unit, rest: seq<Byte>, left: nat)
    ensures var u, t := EncodeUnit(c), ReadLoop(rest, left);
            ReadLoop(u + rest, |u| + left) ==
            if |u| <= 2 then Cons(c, t) else Cons(Value2(u[0], u[1]), Cons(u[2], t))
  {
    hide Value2, Value3;
    var u := EncodeUnit(c);
    var s := u + rest;
    UnitValue(c);
    assert s[|u|..] == rest;
    if |u| == 3 {
      assert s[2..] == [u[2]] + rest && s[2..][1..] == rest;
    }
  }

  /** What read_utf makes of an encoded string: always an answer, one unit for a one- or two-byte unit,
      two for a three-byte one, and no byte beyond the string is touched. */
  lemma {:induction false} ReadAnswers(s: seq<Unit>, after: seq<Byte>)
    ensures var r := ReadLoop(Encode(s) + after, |Encode(s)|);
            && r.Some? && r.value.1 == after && |r.value.0| == Pieces(s)
            && (Narrow(s) ==> r.value.0 == s)
    decreases |s|
  {
    hide ReadLoop, Value2, Value3, EncodeUnit;
    if s == [] {
      ReadNothing(Encode(s) + after);
      assert Encode(s) + after == after;
    } else {
      var u, rest := EncodeUnit(s[0]), Encode(s[1..]) + after;
      assert Encode(s) + after == u + rest;
      ReadAnswers(s[1..], after);
      ReadUnit(s[0], rest, |Encode(s[1..])|);
      NarrowFirst(s);
      assert [s[0]] + s[1..] == s;
    }
  }

  lemma ReadNothing(s: seq<Byte>)
    ensures ReadLoop(s, 0) == Some(([], s))
  {
  }

  /** read_utf inverts write_utf exactly on the strings whose units all fit in two bytes (up to 0x7FF). */
  lemma ReadInvertsExactly(s: seq<Unit>, after: seq<Byte>)
    ensures ReadLoop(Encode(s) + after, |Encode(s)|) == Some((s, after)) <==> Narrow(s)
  {
    hide Encode, ReadLoop, Narrow;
    ReadAnswers(s, after);
    PiecesExact(s);
  }

  /** The euro sign, three bytes, comes back as two units. */
  lemma ReadBreaksEuro()
    ensures ReadLoop(Encode([0x20AC]), 3) == Some(([0x82, 0xAC], []))
  {
    hide ReadLoop;
    var u := EncodeUnit(0x20AC);
    assert u == [0xE2, 0x82, 0xAC];
    assert Encode([0x20AC]) == u + Encode([]) == u + [];
    ReadNothing([]);
    ReadUnit(0x20AC, [], 0);
    var left := |u| + 0;
    assert left == 3 && Value2(u[0], u[1]) == 0x82 && u[2] == 0xAC;
    assert Cons(0x82, Cons(0xAC, Some(([], [])))) == Some(([0x82] + ([0xAC] + []), []));
    assert [0x82] + ([0xAC] + []) == [0x82, 0xAC];
  }
}
