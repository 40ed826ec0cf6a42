/** The class registry (jdwp/refTypHandler.c) and the AllClasses reply built from it
    (jdwp/mainHandler.c:254-264). */
module RefTypes {
  import opened Bytes
  import opened Options
  import opened Packets
  import Utf = ModifiedUtf8

  type Word = w: int | 0 <= w < TWO32

  /** What a debugger is told about one class. */
  datatype ClassInfo = ClassInfo(tag: Byte, id: Word, signature: seq<Utf.Unit>, status: Word) {
    /** The signature's byte count fits its u4 field. */
    predicate Fits() { |Utf.Encode(signature)| < TWO32 }
  }

  function EncodeClass(c: ClassInfo): (s: seq<Byte>)
    ensures |s| == 13 + |Utf.Encode(c.signature)|
  {
    [c.tag] + Big32(c.id) + UtfField(c.signature) + Big32(c.status)
  }

  function EncodeClasses(cs: seq<ClassInfo>): seq<seq<Byte>> {
    seq(|cs|, i requires 0 <= i < |cs| => EncodeClass(cs[i]))
  }

  predicate AllUnits(units: seq<int>) { forall i | 0 <= i < |units| :: 1 <= units[i] <= 0xFFFF }

  /** One class from the front of the bytes, and the bytes after it. */
  function DecodeClass(s: seq<Byte>): Option<(ClassInfo, seq<Byte>)> {
    if |s| < 13 then None
    else
      var n := Value32(s[5..9]);
      if |s| < 13 + n then None
      else
        match Utf.Decode(s[9..9 + n])
        case Some(units) =>
          if AllUnits(units) then
            Some((ClassInfo(s[0], Value32(s[1..5]), units, Value32(s[9 + n..13 + n])), s[13 + n..]))
          else None
        case None => None
  }

  /** Exactly `count` classes and nothing behind them. */
  function DecodeClasses(count: nat, s: seq<Byte>): Option<seq<ClassInfo>> {
    if count == 0 then if s == [] then Some([]) else None
    else
      match DecodeClass(s)
      case Some((c, rest)) =>
        (match DecodeClasses(count - 1, rest)
         case Some(cs) => Some([c] + cs)
         case None => None)
      case None => None
  }

  lemma ClassRoundTrip(c: ClassInfo, after: seq<Byte>)
    requires c.Fits()
    ensures DecodeClass(EncodeClass(c) + after) == Some((c, after))
  {
    hide Big32, Value32, Utf.Encode, Utf.Decode;
    var e := Utf.Encode(c.signature);
    var s := EncodeClass(c) + after;
    Big32Value(|e|);
    Big32Value(c.id);
    Big32Value(c.status);
    Utf.DecodeInverts(c.signature);
    var n := |e|;
    assert s[0] == c.tag && s[1..5] == Big32(c.id) && s[5..9] == Big32(n);
    assert s[9..9 + n] == e && s[9 + n..13 + n] == Big32(c.status) && s[13 + n..] == after;
  }

  lemma {:induction false} ClassesRoundTrip(cs: seq<ClassInfo>)
    requires forall c | c in cs :: c.Fits()
    ensures DecodeClasses(|cs|, Concat(EncodeClasses(cs))) == Some(cs)
  {
    hide EncodeClass, DecodeClass;
    if cs != [] {
      var rest := Concat(EncodeClasses(cs[1..]));
      ClassesRoundTrip(cs[1..]);
      ClassRoundTrip(cs[0], rest);
      assert EncodeClasses(cs)[0] == EncodeClass(cs[0]) && EncodeClasses(cs)[1..] == EncodeClasses(cs[1..]);
      assert [cs[0]] + cs[1..] == cs;
    }
  }

  // ----- the two list reversals -----

  function Reversed(cs: seq<ClassInfo>): (r: seq<ClassInfo>)
    ensures |r| == |cs|
  {
    if cs == [] then [] else [cs[|cs| - 1]] + Reversed(cs[..|cs| - 1])
  }

  lemma ReversedEmpty(cs: seq<ClassInfo>)
    requires cs == []
    ensures Reversed(cs) == [] && EncodeClasses([]) == []
  {
  }

  lemma ReversedNext(cs: seq<ClassInfo>, k: nat)
    requires k < |cs|
    ensures Reversed(cs[..k + 1]) == [cs[k]] + Reversed(cs[..k])
  {
    assert cs[..k + 1][..k] == cs[..k];
  }

  lemma {:induction false} ReversedPrepend(c: ClassInfo, cs: seq<ClassInfo>)
    ensures Reversed([c] + cs) == Reversed(cs) + [c]
    decreases |cs|
  {
    var s := [c] + cs;
    if cs == [] {
      assert s[..0] == [];
    } else {
      assert s[..|s| - 1] == [c] + cs[..|cs| - 1];
      ReversedPrepend(c, cs[..|cs| - 1]);
    }
  }

  lemma EncodePrepend(c: ClassInfo, cs: seq<ClassInfo>)
    ensures EncodeClasses([c] + cs) == [EncodeClass(c)] + EncodeClasses(cs)
  {
  }

  class RefType {
    var typeTag: Byte
    var id: Word
    var signature: seq<Utf.Unit>
    var status: Word

    ghost function Info(): ClassInfo
      reads this
    {
      ClassInfo(typeTag, id, signature, status)
    }

    constructor (typeTag: Byte, signature: seq<Utf.Unit>, status: Word)
      ensures Info() == ClassInfo(typeTag, 0, signature, status)
    {
      this.typeTag, this.id, this.signature, this.status := typeTag, 0, signature, status;
    }

    /** The size of the packet the class is written to, computed before any byte is written. */
    method PacketSize() returns (bytes: nat)
      ensures bytes == |EncodeClass(Info())|
    {
      var n := Utf.EncodedSize(signature);
      bytes := 1 + 4 + 4 + (4 + n);
    }

    /** One entry of the reply. The cursor ends exactly at the size computed beforehand. */
    method ToPacket() returns (p: Packet, bytes: nat)
      ensures fresh(p) && fresh(p.data) && p.Valid() && p.Written() == EncodeClass(Info()) && p.offset == bytes
    {
      hide Packet.Written, Packet.Valid, Big32, UtfField;
      bytes := PacketSize();
      p := new Packet(bytes);
      p.WriteU1(typeTag);
      assert p.Written() == [typeTag];
      p.WriteU4(id);
      p.WriteUtf(signature);
      p.WriteU4(status);
    }
  }

  class Registry {
    /** The linked list, newest class first. */
    var refs: seq<RefType>
    var size: nat
    var nextId: Word

    /** The class registered as number k (from 1) has id k, until the 32-bit counter wraps. */
    ghost predicate Valid()
      reads this, refs
    {
      && size == |refs| && nextId == (size + 1) % TWO32
      && forall j | 0 <= j < size :: refs[j].id == (size - j) % TWO32
    }

    ghost function NewestFirst(): (cs: seq<ClassInfo>)
      reads this, refs
      ensures |cs| == |refs| && forall j | 0 <= j < |refs| :: cs[j] == refs[j].Info()
    {
      seq(|refs|, j requires 0 <= j < |refs| reads this, refs => refs[j].Info())
    }

    /** The registered classes, oldest first. */
    ghost function Registered(): seq<ClassInfo>
      reads this, refs
    {
      Reversed(NewestFirst())
    }

    constructor ()
      ensures Valid() && Registered() == []
    {
      refs, size, nextId := [], 0, 1;
    }

    /** add_RefTypeID: the next id, and a place at the head of the list. */
    method Add(t: RefType)
      requires Valid() && t !in refs
      modifies this, t`id
      ensures Valid() && refs == [t] + old(refs)
      ensures Registered() == old(Registered()) + [old(t.Info()).(id := (old(size) + 1) % TWO32)]
    {
      hide Reversed;
      ghost var before := NewestFirst();
      t.id := nextId;
      nextId := (nextId + 1) % TWO32;
      refs, size := [t] + refs, size + 1;
      assert NewestFirst() == [t.Info()] + before;
      ReversedPrepend(t.Info(), before);
    }

    /** allClassesRefs_to_PacketList: the walk is newest first and every packet is put at the head, so the list
        comes out oldest first. */
    method ToPacketList() returns (list: PacketList)
      requires Valid()
      ensures fresh(list) && list.Valid() && list.contents == EncodeClasses(Registered()) && list.size == size
      ensures fresh(list.packets) && forall q | q in list.packets :: fresh(q.data)
    {
      hide EncodeClass, Reversed, EncodeClasses, PacketList.Valid;
      ghost var infos := NewestFirst();
      list := new PacketList();
      var start := 0;
      ReversedEmpty(infos[..0]);
      while start < size
        invariant start == list.size <= size && fresh(list) && list.Valid() && fresh(list.packets)
        invariant forall q | q in list.packets :: fresh(q.data)
        invariant list.contents == EncodeClasses(Reversed(infos[..start]))
      {
        var p, _ := refs[start].ToPacket();
        list.Add(p);
        ReversedNext(infos, start);
        EncodePrepend(infos[start], Reversed(infos[..start]));
        start := start + 1;
      }
      assert infos[..start] == infos;
    }

    /** The reply to AllClasses: its cursor ends exactly at the size computed before writing, and its payload is the
        class count and the classes in registration order. */
    method AllClasses(requestId: Word) returns (p: Packet)
      requires Valid() && size < TWO32
      ensures fresh(p) && fresh(p.data) && p.Valid()
      ensures p.offset == HEADER + 4 + |Concat(EncodeClasses(Registered()))|
      ensures p.Written()[4..] == ReplyTail(requestId) + Big32(size) + Concat(EncodeClasses(Registered()))
    {
      hide Packet.Written, PacketList.Valid, Registered, EncodeClasses, Big32, ReplyTail;
      var list := ToPacketList();
      var bytes := list.ByteSize();
      p := NewReply(requestId, bytes + 4);
      p.WriteU4(list.size);
      p.WriteList(list);
    }

    lemma Count()
      requires Valid()
      ensures |Registered()| == size
    {
    }

    /** onSend_CS_VM_AllClasses, as the debugger sees it: the length field is the length, the id is the request's,
        and the payload decodes to the registered classes, each once and oldest first. */
    method SendAllClasses(requestId: Word) returns (wire: seq<Byte>)
      requires Valid() && size < TWO32 && forall c | c in Registered() :: c.Fits()
      requires HEADER + 4 + |Concat(EncodeClasses(Registered()))| < TWO32
      ensures |wire| == HEADER + 4 + |Concat(EncodeClasses(Registered()))| == Value32(wire[..4])
      ensures wire[4..HEADER] == ReplyTail(requestId)
      ensures Value32(wire[HEADER..HEADER + 4]) == size
      ensures DecodeClasses(size, wire[HEADER + 4..]) == Some(Registered())
    {
      hide Valid, Registered, EncodeClasses, Big32, Value32, DecodeClasses, Concat, Reversed;
      ghost var cs := Registered();
      ghost var tail := ReplyTail(requestId) + Big32(size) + Concat(EncodeClasses(cs));
      assert |cs| == size by { Count(); }
      var p := AllClasses(requestId);
      ghost var n := p.offset;
      wire := Send(p);
      assert wire == Big32(n) + tail;
      assert n % TWO32 == n;
      Big32Value(n);
      Big32Value(size);
      ClassesRoundTrip(cs);
      assert wire[..4] == Big32(n) && wire[4..HEADER] == ReplyTail(requestId);
      assert wire[HEADER..HEADER + 4] == Big32(size) && wire[HEADER + 4..] == Concat(EncodeClasses(cs));
    }
  }

  // ----- fields and methods of a class -----

  type Half = h: int | 0 <= h < 0x1_0000

  /** What a debugger is told about one field or method. */
  datatype MemberInfo = MemberInfo(id: Half, name: seq<Byte>, signature: seq<Utf.Unit>, mods: Word) {
    predicate Fits() { 2 * |name| < TWO32 && |Utf.Encode(signature)| < TWO32 }
  }

  function EncodeMember(m: MemberInfo): (s: seq<Byte>)
    ensures |s| == 2 + (4 + 2 * |m.name|) + |UtfField(m.signature)| + 4
  {
    Big16(m.id) + StrField(m.name) + UtfField(m.signature) + Big32(m.mods)
  }

  function Unchars(s: seq<Byte>): Option<seq<Byte>> {
    if s == [] then Some([])
    else if |s| == 1 || s[0] != 0 then None
    else
      var rest :- Unchars(s[2..]);
      Some([s[1]] + rest)
  }

  lemma {:induction false} UncharsInverts(s: seq<Byte>)
    ensures Unchars(Chars(s)) == Some(s)
  {
    if s != [] {
      UncharsInverts(s[1..]);
      assert Chars(s)[..2] == Big16(s[0]) && Chars(s)[2..] == Chars(s[1..]);
      assert [s[0]] + s[1..] == s;
    }
  }

  function DecodeMember(s: seq<Byte>): Option<(MemberInfo, seq<Byte>)> {
    if |s| < 6 then None
    else
      var n := Value32(s[2..6]);
      if |s| < 10 + n then None
      else
        var u := Value32(s[6 + n..10 + n]);
        if |s| < 14 + n + u then None
        else
          var name :- Unchars(s[6..6 + n]);
          var units :- Utf.Decode(s[10 + n..10 + n + u]);
          if AllUnits(units) then
            Some((MemberInfo(Value16(s[..2]), name, units, Value32(s[10 + n + u..14 + n + u])), s[14 + n + u..]))
          else None
  }

  /** Every field and method can be read back from its bytes. */
  lemma MemberRoundTrip(m: MemberInfo, after: seq<Byte>)
    requires m.Fits()
    ensures DecodeMember(EncodeMember(m) + after) == Some((m, after))
  {
    hide Big16, Big32, Value16, Value32, Utf.Encode, Utf.Decode, Chars, Unchars;
    var e, c := Utf.Encode(m.signature), Chars(m.name);
    var s := EncodeMember(m) + after;
    var n, u := |c|, |e|;
    Big16Value(m.id);
    Big32Value(n);
    Big32Value(u);
    Big32Value(m.mods);
    Utf.DecodeInverts(m.signature);
    UncharsInverts(m.name);
    assert s == Big16(m.id) + (Big32(n) + (c + (Big32(u) + (e + (Big32(m.mods) + after)))));
    assert s[..2] == Big16(m.id) && s[2..6] == Big32(n);
    assert s[6..6 + n] == c && s[6 + n..10 + n] == Big32(u);
    assert s[10 + n..10 + n + u] == e && s[10 + n + u..14 + n + u] == Big32(m.mods) && s[14 + n + u..] == after;
  }

  /** field_bytes and method_bytes: the packet's size is computed before any byte is written, and the cursor ends
      exactly there. */
  method MemberBytes(m: MemberInfo) returns (p: Packet, bytes: nat)
    ensures fresh(p) && fresh(p.data) && p.Valid() && p.Written() == EncodeMember(m)
    ensures bytes == p.offset == 2 + (4 + 2 * |m.name|) + |UtfField(m.signature)| + 4
  {
    hide Packet.Written, Packet.Valid, Big16, Big32, UtfField, StrField;
    var n := Utf.EncodedSize(m.signature);
    bytes := 2 + 4;
    bytes := bytes + (2 * |m.name| + 4);
    bytes := bytes + (4 + n);
    UtfFieldSize(m.signature);
    p := new Packet(bytes);
    p.WriteU2(m.id);
    assert p.Written() == Big16(m.id);
    p.WriteStr(m.name);
    p.WriteUtf(m.signature);
    p.WriteU4(m.mods);
    OffsetWritten(p);
  }

  lemma UtfFieldSize(s: seq<Utf.Unit>)
    ensures |UtfField(s)| == 4 + |Utf.Encode(s)|
  {
  }

  lemma OffsetWritten(p: Packet)
    requires p.Valid()
    ensures p.offset == |p.Written()|
  {
  }

  /** The counted member arrays of a class (add_field, add_method, add_interface). */
  class Members<T(0)> {
    var items: array<T>
    var count: nat
    var max: nat

    ghost predicate Valid()
      reads this
    {
      count <= max == items.Length < 0x1_0000 && OnLadder(max)
    }

    ghost function Contents(): seq<T>
      reads this, items
      requires Valid()
    {
      items[..count]
    }

    constructor ()
      ensures Valid() && fresh(items) && Contents() == [] && max == 0
    {
      LadderStart();
      items, count, max := new T[0], 0, 0;
    }

    /** Appends and grows a full array. `stored` is false where the source would store behind the array: the new
        capacity is a u2 and no longer grows. */
    method Add(t: T) returns (stored: bool)
      requires Valid()
      modifies this, items
      ensures Valid() && (items == old(items) || fresh(items)) && |Contents()| <= FULL
      ensures stored <==> old(count) < FULL
      ensures Contents() == if stored then old(Contents()) + [t] else old(Contents())
      ensures max == if stored && old(count) == old(max) then Grown(old(max)) else old(max)
    {
      StoresExactly(max, count);
      if max <= count {
        var newMax := Grown(max);
        if newMax <= max {
          return false;
        }
        var larger := new T[newMax];
        forall i | 0 <= i < max {
          larger[i] := items[i];
        }
        items, max := larger, newMax;
      }
      items[count] := t;
      count := count + 1;
      stored := true;
    }
  }

  /** (1 + max) << 1 in a u2. */
  function Grown(max: nat): nat { (1 + max) * 2 % 0x1_0000 }

  /** The capacity after k growths from an empty array. */
  function Capacity(k: nat): nat {
    if k == 0 then 0 else Grown(Capacity(k - 1))
  }

  /** A full array grows exactly up to 32766 members. */
  lemma GrowsExactly(max: nat)
    requires max < 0x1_0000
    ensures Grown(max) > max <==> max <= 32766
  {
  }

  /** From an empty array the capacities are 0, 2, 6, 14, ...: after k growths 2^(k + 1) - 2, and the 15th
      growth, to 65534, is the last that GrowsExactly allows. */
  lemma {:induction false} Capacities(k: nat)
    requires k <= 15
    ensures (Capacity(k) + 2) * Pow2(15 - k) == 0x1_0000
    ensures Grown(Capacity(k)) > Capacity(k) <==> k < 15
  {
    hide Grown, Pow2;
    if k == 0 {
      FirstPower();
    } else {
      Capacities(k - 1);
      Regrow(Capacity(k - 1), 15 - k);
    }
    Halve(Capacity(k), 15 - k);
  }

  lemma FirstPower()
    ensures (0 + 2) * Pow2(15) == 0x1_0000
  {
    assert Pow2(15) == 0x8000;
  }

  lemma Regrow(c: nat, j: nat)
    requires (c + 2) * Pow2(j + 1) == 0x1_0000
    ensures (Grown(c) + 2) * Pow2(j) == 0x1_0000
  {
    var p := Pow2(j);
    assert (c + 2) * (2 * p) == ((c + 2) * 2) * p;
    assert (c + 2) * 2 <= ((c + 2) * 2) * p;
  }

  lemma Halve(c: nat, j: nat)
    requires (c + 2) * Pow2(j) == 0x1_0000
    ensures c <= 32766 <==> j > 0
    ensures c < 0x1_0000
    ensures Grown(c) > c <==> j > 0
  {
    if j > 0 {
      assert Pow2(j) >= 2;
      assert (c + 2) * 2 <= (c + 2) * Pow2(j);
    }
    GrowsExactly(c);
  }

  /** Members one array can hold. */
  const FULL: nat := 65534

  /** A capacity an array grows to. */
  ghost predicate OnLadder(max: nat) { exists k: nat :: k <= 15 && max == Capacity(k) }

  lemma LadderStart()
    ensures OnLadder(0)
  {
    assert Capacity(0) == 0;
  }

  /** An array that has grown from empty takes another member exactly until it holds 65534. */
  lemma StoresExactly(max: nat, count: nat)
    requires OnLadder(max) && count <= max
    ensures max <= FULL && (count < max || Grown(max) > max <==> count < FULL)
    ensures Grown(max) > max ==> OnLadder(Grown(max))
  {
    hide Grown, Capacity;
    var k: nat :| k <= 15 && max == Capacity(k);
    Capacities(k);
    if k == 15 {
      assert Pow2(0) == 1;
    } else {
      NextCapacity(k);
      assert Pow2(15 - k) >= 2;
      assert (max + 2) * 2 <= (max + 2) * Pow2(15 - k);
    }
  }

  lemma NextCapacity(k: nat)
    ensures Capacity(k + 1) == Grown(Capacity(k))
  {
  }
}
