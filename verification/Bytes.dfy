/** Bytes and their big-endian groupings, as the JDWP wire and SHA-1 use them. */
module Bytes {
  type Byte = b: int | 0 <= b < 256

  const TWO32: int := 0x1_0000_0000
  const TWO64: int := 0x1_0000_0000_0000_0000

  function Pow2(n: nat): (p: nat)
    ensures p >= 1
  {
    if n == 0 then 1 else 2 * Pow2(n - 1)
  }

  function Big16(v: int): (s: seq<Byte>)
    ensures |s| == 2
  {
    [(v / 0x100) % 0x100, v % 0x100]
  }

  function Big32(v: int): (s: seq<Byte>)
    ensures |s| == 4
  {
    [(v / 0x100_0000) % 0x100, (v / 0x1_0000) % 0x100, (v / 0x100) % 0x100, v % 0x100]
  }

  function Value16(s: seq<Byte>): (v: int)
    requires |s| == 2
    ensures 0 <= v < 0x1_0000
  {
    s[0] as int * 0x100 + s[1] as int
  }

  function Value32(s: seq<Byte>): (v: int)
    requires |s| == 4
    ensures 0 <= v < TWO32
  {
    s[0] as int * 0x100_0000 + s[1] as int * 0x1_0000 + s[2] as int * 0x100 + s[3] as int
  }

  lemma Big16Value(v: int)
    requires 0 <= v < 0x1_0000
    ensures Value16(Big16(v)) == v
  {
  }

  lemma Big32Value(v: int)
    requires 0 <= v < TWO32
    ensures Value32(Big32(v)) == v
  {
    var q := v / 0x100;
    var r := q / 0x100;
    assert v / 0x1_0000 == r && v / 0x100_0000 == r / 0x100;
  }
}
