/** The packets of the JDWP wire (jdwp/packetHandler.c): growable byte buffers with a cursor, the typed readers
    and writers, and lists of packets. */
module Packets {
  import opened Bytes
  import opened Options
  import Utf = ModifiedUtf8

  /** The fixed-width items the typed writers put on the wire. */
  datatype Kind = U1 | U2 | U4 | Tag | MethodId | FieldId | ObjectId | ThreadId | ThreadGroupId | FrameId {
    function Width(): (w: nat)
      ensures w == 1 || w == 2 || w == 4
    {
      match this
      case U1 | Tag => 1
      case U2 | MethodId | FieldId => 2
      case _ => 4
    }

    function Bound(): int {
      if Width() == 1 then 0x100 else if Width() == 2 then 0x1_0000 else TWO32
    }
  }

  /** Tags are one byte, method and field ids two, all other ids four. */
  lemma KindWidths(k: Kind)
    ensures k.Width() == 1 <==> k.U1? || k.Tag?
    ensures k.Width() == 2 <==> k.U2? || k.MethodId? || k.FieldId?
    ensures k.Width() == 4 <==> k.U4? || k.ObjectId? || k.ThreadId? || k.ThreadGroupId? || k.FrameId?
    ensures k.Bound() == if k.Width() == 1 then 0x100 else if k.Width() == 2 then 0x1_0000 else 0x1_0000_0000
  {
  }

  type Item = i: (Kind, int) | 0 <= i.1 < i.0.Bound() witness (U1, 0)

  function EncodeItem(i: Item): (s: seq<Byte>)
    ensures |s| == i.0.Width()
  {
    if i.0.Width() == 1 then [i.1] else if i.0.Width() == 2 then Big16(i.1) else Big32(i.1)
  }

  function DecodeItem(k: Kind, s: seq<Byte>): (v: int)
    requires |s| == k.Width()
    ensures 0 <= v < k.Bound()
  {
    if k.Width() == 1 then s[0] as int else if k.Width() == 2 then Value16(s) else Value32(s)
  }

  lemma ItemRoundTrip(i: Item)
    ensures DecodeItem(i.0, EncodeItem(i)) == i.1
  {
    if i.0.Width() == 2 {
      Big16Value(i.1);
    } else if i.0.Width() == 4 {
      Big32Value(i.1);
    }
  }

  function EncodeScript(script: seq<Item>): seq<Byte> {
    if script == [] then [] else EncodeItem(script[0]) + EncodeScript(script[1..])
  }

  function TotalWidth(kinds: seq<Kind>): nat {
    if kinds == [] then 0 else kinds[0].Width() + TotalWidth(kinds[1..])
  }

  function DecodeScript(kinds: seq<Kind>, s: seq<Byte>): seq<int>
    requires TotalWidth(kinds) <= |s|
  {
    if kinds == [] then []
    else [DecodeItem(kinds[0], s[..kinds[0].Width()])] + DecodeScript(kinds[1..], s[kinds[0].Width()..])
  }

  function Kinds(script: seq<Item>): seq<Kind> { seq(|script|, i requires 0 <= i < |script| => script[i].0) }

  function Values(script: seq<Item>): seq<int> { seq(|script|, i requires 0 <= i < |script| => script[i].1) }

  /** Reading a script back with the kinds it was written with returns its values and uses up its bytes. */
  lemma {:induction false} ScriptRoundTrip(script: seq<Item>, after: seq<Byte>)
    ensures TotalWidth(Kinds(script)) == |EncodeScript(script)|
    ensures DecodeScript(Kinds(script), EncodeScript(script) + after) == Values(script)
  {
    hide EncodeItem, DecodeItem, Kinds, Values;
    First(script);
    if script != [] {
      var i, rest := script[0], EncodeScript(script[1..]);
      ScriptRoundTrip(script[1..], after);
      ItemRoundTrip(i);
      var e, t := EncodeItem(i), rest + after;
      assert EncodeScript(script) + after == e + t;
      assert (e + t)[..i.0.Width()] == e && (e + t)[i.0.Width()..] == t;
    }
  }

  lemma First(script: seq<Item>)
    ensures if script == [] then Kinds(script) == [] && Values(script) == []
            else && Kinds(script) == [script[0].0] + Kinds(script[1..])
                 && Values(script) == [script[0].1] + Values(script[1..])
  {
  }

  function Concat(parts: seq<seq<Byte>>): seq<Byte> {
    if parts == [] then [] else parts[0] + Concat(parts[1..])
  }

  lemma Regroup(a: seq<Byte>, b: seq<Byte>, c: seq<Byte>)
    ensures (a + b) + c == a + (b + c)
  {
  }

  /** Every character in two bytes. */
  function Chars(s: seq<Byte>): (r: seq<Byte>)
    ensures |r| == 2 * |s|
  {
    if s == [] then [] else Big16(s[0]) + Chars(s[1..])
  }

  /** A string as write_str lays it out: the number of bytes, two for every character. */
  function StrField(s: seq<Byte>): (r: seq<Byte>)
    ensures |r| == 4 + 2 * |s|
  {
    Big32(2 * |s| % TWO32) + Chars(s)
  }

  /** A string as write_utf lays it out. */
  function UtfField(s: seq<Utf.Unit>): (r: seq<Byte>)
    ensures |r| == 4 + |Utf.Encode(s)|
  {
    Big32(|Utf.Encode(s)| % TWO32) + Utf.Encode(s)
  }

  /** The buffer length after k doublings. */
  function Doubled(length: nat, k: nat): nat
    decreases k
  {
    if k == 0 then length else Doubled(2 * length, k - 1)
  }

  lemma {:induction false} DoubledGrows(length: nat, k: nat)
    ensures if length == 0 then Doubled(length, k) == 0 else Doubled(length, k) >= length + k
    decreases k
  {
    if k > 0 {
      DoubledGrows(2 * length, k - 1);
    }
  }

  /** write_packet's loop ends, for some number of rounds, exactly when the buffer is not empty. */
  lemma DoublingEnds(need: nat, offset: nat, length: nat)
    requires offset <= length && need > 0
    ensures (exists k :: need < Doubled(length, k) - offset) <==> length > 0
  {
    if length > 0 {
      DoubledGrows(length, need + offset);
    } else {
      forall k ensures Doubled(length, k) == 0 {
        DoubledGrows(length, k);
      }
    }
  }

  const HEADER: nat := 11

  class Packet {
    var data: array<Byte>
    var offset: nat
    var length: nat

    ghost predicate Valid()
      reads this
    {
      offset <= length == data.Length
    }

    /** The bytes before the cursor. */
    ghost function Written(): (s: seq<Byte>)
      reads this, data
      requires Valid()
      ensures |s| == offset
    {
      data[..offset]
    }

    /** newRawPacket. */
    constructor (rawbytes: nat)
      ensures Valid() && fresh(data) && offset == 0 && length == rawbytes && Written() == []
    {
      data, offset, length := new Byte[rawbytes](_ => 0), 0, rawbytes;
    }

    /** realloc: a larger buffer that starts with the old bytes. */
    method Realloc(size: nat)
      requires Valid() && length <= size
      modifies `data, `length
      ensures Valid() && length == size && fresh(data) && data[..old(length)] == old(data[..])
    {
      var larger := new Byte[size](i requires 0 <= i reads this, data => if i < data.Length then data[i] else 0);
      data, length := larger, size;
    }

    /** ensurePacketCap: grows as soon as the write would reach the end of the buffer. */
    method EnsureCap(mbytes: nat)
      requires Valid()
      modifies `data, `length
      ensures Valid() && offset + mbytes <= length && Written() == old(Written())
      ensures length == if offset + mbytes >= old(length) then mbytes + 2 * old(length) else old(length)
      ensures if offset + mbytes < old(length) then data == old(data) else fresh(data)
      ensures data[..old(length)] == old(data[..])
    {
      if offset + mbytes >= length {
        Realloc(mbytes + 2 * length);
      }
    }

    // ----- typed writers -----

    method WriteU1(v: Byte)
      requires Valid()
      modifies this, data
      ensures Valid() && (data == old(data) || fresh(data)) && length >= old(length)
      ensures Written() == old(Written()) + [v]
    {
      EnsureCap(1);
      data[offset] := v;
      offset := offset + 1;
    }

    method WriteU2(v: int)
      requires Valid() && 0 <= v < 0x1_0000
      modifies this, data
      ensures Valid() && (data == old(data) || fresh(data)) && length >= old(length)
      ensures Written() == old(Written()) + Big16(v)
    {
      EnsureCap(2);
      data[offset], data[offset + 1] := v / 0x100, v % 0x100;
      offset := offset + 2;
    }

    method WriteU4(v: int)
      requires Valid() && 0 <= v < TWO32
      modifies this, data
      ensures Valid() && (data == old(data) || fresh(data)) && length >= old(length)
      ensures Written() == old(Written()) + Big32(v)
    {
      EnsureCap(4);
      var b := Big32(v);
      data[offset], data[offset + 1], data[offset + 2], data[offset + 3] := b[0], b[1], b[2], b[3];
      offset := offset + 4;
    }

    method WriteItem(i: Item)
      requires Valid()
      modifies this, data
      ensures Valid() && (data == old(data) || fresh(data)) && length >= old(length)
      ensures Written() == old(Written()) + EncodeItem(i)
    {
      match i.0.Width() {
        case 1 => WriteU1(i.1);
        case 2 => WriteU2(i.1);
        case _ => WriteU4(i.1);
      }
    }

    method WriteScript(script: seq<Item>)
      requires Valid()
      modifies this, data
      ensures Valid() && (data == old(data) || fresh(data)) && length >= old(length)
      ensures Written() == old(Written()) + EncodeScript(script)
    {
      hide Valid, EncodeItem, Written;
      var k := 0;
      while k < |script|
        invariant 0 <= k <= |script| && Valid() && (data == old(data) || fresh(data)) && length >= old(length)
        invariant Written() + EncodeScript(script[k..]) == old(Written()) + EncodeScript(script)
      {
        ghost var before := Written();
        WriteItem(script[k]);
        Regroup(before, EncodeItem(script[k]), EncodeScript(script[k + 1..]));
        assert script[k..][1..] == script[k + 1..];
        k := k + 1;
      }
      assert EncodeScript(script[k..]) == [];
    }

    // ----- typed readers -----

    method ReadU1() returns (v: Byte)
      requires Valid() && offset + 1 <= length
      modifies `offset
      ensures Valid() && offset == old(offset) + 1 && v == data[old(offset)]
    {
      v := data[offset];
      offset := offset + 1;
    }

    method ReadItem(k: Kind) returns (v: int)
      requires Valid() && offset + k.Width() <= length
      modifies `offset
      ensures Valid() && offset == old(offset) + k.Width()
      ensures v == DecodeItem(k, data[old(offset)..offset])
    {
      var s := data[offset..offset + k.Width()];
      v := if k.Width() == 1 then s[0] as int else if k.Width() == 2 then Value16(s) else Value32(s);
      offset := offset + k.Width();
    }

    method ReadScript(kinds: seq<Kind>) returns (values: seq<int>)
      requires Valid() && offset + TotalWidth(kinds) <= length
      modifies `offset
      ensures Valid() && offset == old(offset) + TotalWidth(kinds)
      ensures values == DecodeScript(kinds, data[old(offset)..])
    {
      hide DecodeItem, Written;
      values := [];
      var k := 0;
      while k < |kinds|
        invariant 0 <= k <= |kinds| && Valid() && offset + TotalWidth(kinds[k..]) == old(offset) + TotalWidth(kinds)
        invariant values + DecodeScript(kinds[k..], data[offset..]) == DecodeScript(kinds, data[old(offset)..])
      {
        ghost var s := data[offset..];
        var v := ReadItem(kinds[k]);
        assert kinds[k..][1..] == kinds[k + 1..];
        assert s[..kinds[k].Width()] == data[offset - kinds[k].Width()..offset];
        assert s[kinds[k].Width()..] == data[offset..];
        values := values + [v];
        k := k + 1;
      }
    }

    // ----- strings -----

    method WriteUnit(c: Utf.Unit)
      requires Valid()
      modifies this, data
      ensures Valid() && (data == old(data) || fresh(data)) && length >= old(length)
      ensures Written() == old(Written()) + Utf.EncodeUnit(c)
    {
      hide Valid, Written;
      if c <= 127 {
        WriteU1(c);
      } else if c <= 2047 {
        WriteU1(0xC0 + (c / 0x40) % 0x20);
        WriteU1(0x80 + c % 0x40);
      } else {
        WriteU1(0xE0 + (c / 0x1000) % 0x10);
        WriteU1(0x80 + (c / 0x40) % 0x40);
        WriteU1(0x80 + c % 0x40);
      }
    }

    /** write_str: the number of bytes, then two bytes for every character. */
    method WriteStr(s: seq<Byte>)
      requires Valid()
      modifies this, data
      ensures Valid() && (data == old(data) || fresh(data)) && length >= old(length)
      ensures Written() == old(Written()) + StrField(s)
    {
      hide Valid, Written, Big16, Big32;
      EnsureCap((|s| + 4) % TWO32);
      WriteU4(2 * |s| % TWO32);
      ghost var counted := Written();
      var i := 0;
      while i < |s|
        invariant 0 <= i <= |s| && Valid() && (data == old(data) || fresh(data)) && length >= old(length)
        invariant Written() + Chars(s[i..]) == counted + Chars(s)
      {
        ghost var before := Written();
        WriteU2(s[i]);
        Regroup(before, Big16(s[i]), Chars(s[i + 1..]));
        assert s[i..][1..] == s[i + 1..];
        i := i + 1;
      }
      Regroup(old(Written()), Big32(2 * |s| % TWO32), Chars(s));
    }

    /** write_utf: the count in a u4, then the bytes. */
    method WriteUtf(s: seq<Utf.Unit>)
      requires Valid()
      modifies this, data
      ensures Valid() && (data == old(data) || fresh(data)) && length >= old(length)
      ensures Written() == old(Written()) + UtfField(s)
    {
      hide Valid, Written, Utf.EncodeUnit, Big32;
      var n := Utf.EncodedSize(s);
      EnsureCap((n + 4) % TWO32);
      WriteU4(n % TWO32);
      ghost var counted := Written();
      var i := 0;
      while i < |s|
        invariant 0 <= i <= |s| && Valid() && (data == old(data) || fresh(data)) && length >= old(length)
        invariant Written() + Utf.Encode(s[i..]) == counted + Utf.Encode(s)
      {
        ghost var before := Written();
        WriteUnit(s[i]);
        Regroup(before, Utf.EncodeUnit(s[i]), Utf.Encode(s[i + 1..]));
        assert s[i..][1..] == s[i + 1..];
        i := i + 1;
      }
      assert Utf.Encode(s[i..]) == [];
      Regroup(old(Written()), Big32(n % TWO32), Utf.Encode(s));
    }

    method ReadUnit() returns (r: Option<(int, nat)>)
      requires Valid()
      modifies `offset
      ensures Valid() && r == Utf.ReadOne(data[old(offset)..])
      ensures r.Some? ==> offset == old(offset) + r.value.1
    {
      if offset >= length {
        return None;
      }
      var first := ReadU1();
      if first < 0xC0 {
        return Some((first, 1));
      }
      if offset >= length {
        return None;
      }
      var second := ReadU1();
      if second < 0xE0 {
        return if second == 0 || second == 0x40 then None else Some((Utf.Value2(first, second), 2));
      }
      if offset >= length {
        return None;
      }
      var third := ReadU1();
      return if third == 0 || third == 0x10 || third == 0x40 then None
             else Some((Utf.Value3(first, second, third), 3));
    }

    /** read_utf; None where the source stops with an error or would read past the buffer. */
    method ReadUtf() returns (r: Option<seq<int>>)
      requires Valid() && offset + 4 <= length
      modifies `offset
      ensures Valid()
      ensures var count := Value32(data[old(offset)..old(offset) + 4]);
              match Utf.ReadLoop(data[old(offset) + 4..], count)
              case Some((units, rest)) => r == Some(units) && data[offset..] == rest
              case None => r == None
    {
      hide Utf.ReadOne;
      var count := ReadItem(U4);
      var units, taken := [], 0;
      ghost var all := Utf.ReadLoop(data[offset..], count);
      Utf.PrependNothing(all);
      while taken < count
        invariant Valid() && offset == old(offset) + 4 + taken
        invariant all == Utf.Prepend(units, Utf.ReadLoop(data[offset..], count - taken))
      {
        ghost var s := data[offset..];
        var one := ReadUnit();
        if one.None? {
          return None;
        }
        assert s[one.value.1..] == data[offset..];
        Utf.PrependCons(units, one.value.0, Utf.ReadLoop(data[offset..], count - taken - one.value.1));
        units, taken := units + [one.value.0], taken + one.value.1;
      }
      r := Some(units);
      assert units + [] == units;
    }

    // ----- packets into packets -----

    /** write_packet: doubles the buffer until the other packet's bytes fit with room to spare. An empty buffer
        never grows by doubling (DoublingEnds), so the source needs a positive length here. */
    method WritePacket(from: Packet)
      requires Valid() && from.Valid() && from != this && from.data != data
      requires from.offset > 0 ==> length > 0
      modifies this, data
      ensures Valid() && (data == old(data) || fresh(data)) && length >= old(length)
      ensures Written() == old(Written()) + from.Written()
    {
      if from.offset == 0 {
        assert old(Written()) + from.Written() == Written();
        return;
      }
      while from.offset >= length - offset
        invariant Valid() && (data == old(data) || fresh(data)) && length >= old(length) && data != from.data
        invariant offset == old(offset) && Written() == old(Written())
        decreases from.offset + offset - length
      {
        Realloc(2 * length);
      }
      CopyIn(from);
    }

    /** The memcpy of write_packet. */
    method CopyIn(from: Packet)
      requires Valid() && from.Valid() && from.data != data && from != this && offset + from.offset <= length
      modifies `offset, data
      ensures Valid() && Written() == old(Written()) + from.Written()
    {
      forall i | 0 <= i < from.offset {
        data[offset + i] := from.data[i];
      }
      offset := offset + from.offset;
    }

    // ----- the header -----

    /** write_length, write_id, write_flags and write_errorcode store at fixed positions below the cursor's data. */
    method WriteId(id: int)
      requires Valid() && HEADER <= length && 0 <= id < TWO32
      modifies data
      ensures data[..] == old(data[..4]) + Big32(id) + old(data[8..])
    {
      var b := Big32(id);
      data[4], data[5], data[6], data[7] := b[0], b[1], b[2], b[3];
    }

    method WriteLength(n: int)
      requires Valid() && HEADER <= length && 0 <= n < TWO32
      modifies data
      ensures data[..] == Big32(n) + old(data[4..])
    {
      var b := Big32(n);
      data[0], data[1], data[2], data[3] := b[0], b[1], b[2], b[3];
    }

    method WriteFlags(flags: Byte)
      requires Valid() && HEADER <= length
      modifies data
      ensures data[..] == old(data[..8]) + [flags] + old(data[9..])
    {
      data[8] := flags;
    }

    method WriteErrorCode(code: int)
      requires Valid() && HEADER <= length && 0 <= code < 0x1_0000
      modifies data
      ensures data[..] == old(data[..9]) + Big16(code) + old(data[11..])
    {
      data[9], data[10] := code / 0x100, code % 0x100;
    }

    /** write_list: the packets of the list one after the other. */
    method WriteList(list: PacketList)
      requires Valid() && list.Valid() && Apart(list)
      requires Concat(list.contents) != [] ==> length > 0
      modifies this, data
      ensures Valid() && (data == old(data) || fresh(data)) && length >= old(length)
      ensures Written() == old(Written()) + Concat(list.contents)
    {
      hide Written;
      var k := 0;
      while k < list.size
        invariant Valid() && (data == old(data) || fresh(data)) && length >= old(length)
        invariant k <= list.size && list.Valid() && Apart(list)
        invariant Written() + Concat(list.contents[k..]) == old(Written()) + Concat(list.contents)
        invariant Concat(list.contents[k..]) != [] ==> length > 0
      {
        ghost var before, rest := Written(), list.contents[k..];
        assert rest[1..] == list.contents[k + 1..];
        WritePacket(list.packets[k]);
        Regroup(before, list.contents[k], Concat(rest[1..]));
        k := k + 1;
      }
      assert list.contents[k..] == [] && Written() + [] == Written();
    }

    /** None of the list's packets is this one or shares its buffer. */
    ghost predicate Apart(list: PacketList)
      reads this, list, list.packets
    {
      forall q | q in list.packets :: q != this && q.data != data
    }
  }

  /** A list of packets, the last one added first. */
  class PacketList {
    var packets: seq<Packet>
    var size: nat
    /** What each packet held when it was added, head first. */
    ghost var contents: seq<seq<Byte>>

    ghost predicate Valid()
      reads this, packets, set q | q in packets :: q.data
    {
      && size == |packets| == |contents|
      && forall i | 0 <= i < |packets| :: packets[i].Valid() && packets[i].Written() == contents[i]
    }

    constructor ()
      ensures Valid() && packets == [] && contents == [] && size == 0
    {
      packets, size, contents := [], 0, [];
    }

    /** add_Packet: prepends. */
    method Add(p: Packet)
      requires Valid() && p.Valid()
      modifies this
      ensures Valid() && packets == [p] + old(packets) && contents == [p.Written()] + old(contents)
      ensures size == old(size) + 1
    {
      packets, contents, size := [p] + packets, [p.Written()] + contents, size + 1;
    }

    /** get_ByteSize */
    method ByteSize() returns (bytes: nat)
      requires Valid()
      ensures bytes == |Concat(contents)|
    {
      bytes := 0;
      var k := 0;
      while k < size
        invariant k <= size && bytes + |Concat(contents[k..])| == |Concat(contents)|
      {
        assert contents[k..][1..] == contents[k + 1..];
        bytes := bytes + packets[k].offset;
        k := k + 1;
      }
      assert contents[k..] == [];
    }
  }

  /** newReplyPacket: the id, the reply flag and error code 0, with the cursor behind the header. */
  method NewReply(id: int, bytes: nat) returns (p: Packet)
    requires 0 <= id < TWO32
    ensures fresh(p) && fresh(p.data) && p.Valid() && p.length == bytes + HEADER
    ensures p.offset == HEADER && p.Written()[4..] == ReplyTail(id)
  {
    p := new Packet(bytes + HEADER);
    p.WriteId(id);
    p.WriteFlags(128);
    p.WriteErrorCode(0);
    p.offset := HEADER;
  }

  /** Bytes 4 to 10 of a reply without error. */
  function ReplyTail(id: int): seq<Byte> { Big32(id) + [128, 0, 0] }

  /** newCommandPacket: like a reply, but with the command flag 0 and the command set and command. */
  method NewCommand(id: int, bytes: nat, command: Byte, commandSet: Byte) returns (p: Packet)
    requires 0 <= id < TWO32
    ensures fresh(p) && fresh(p.data) && p.Valid() && p.length == bytes + HEADER
    ensures p.offset == HEADER && p.Written()[4..] == Big32(id) + [0, commandSet, command]
  {
    p := new Packet(bytes + HEADER);
    p.WriteId(id);
    p.data[10] := command;
    p.data[9] := commandSet;
    p.WriteFlags(0);
    p.offset := HEADER;
  }

  /** jdwpSend: the length goes in, and the bytes up to the cursor go out. */
  method Send(p: Packet) returns (wire: seq<Byte>)
    requires p.Valid() && HEADER <= p.offset
    modifies p.data
    ensures wire == Big32(p.offset % TWO32) + old(p.Written()[4..])
  {
    hide Big32;
    ghost var tail := p.data[4..];
    assert p.Written()[4..] == tail[..p.offset - 4];
    p.WriteLength(p.offset % TWO32);
    assert p.data[..] == Big32(p.offset % TWO32) + tail;
    wire := p.data[..p.offset];
    assert wire == p.data[..][..p.offset];
  }
}
