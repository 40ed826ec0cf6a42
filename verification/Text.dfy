/** The string helpers of jdwp/fileManager.c: splitting, counting and decimal numbers, on NUL-free strings. */
module Text {
  import opened Bytes

  function CountOf(s: string, c: char): nat {
    if s == "" then 0 else (if s[0] == c then 1 else 0) + CountOf(s[1..], c)
  }

  /** The index of the first c, or the length. */
  function FirstOf(s: string, c: char): (i: nat)
    ensures i <= |s| && (forall k | 0 <= k < i :: s[k] != c) && (i < |s| ==> s[i] == c)
  {
    if s == "" || s[0] == c then 0 else 1 + FirstOf(s[1..], c)
  }

  function Split(s: string, c: char): (r: seq<string>)
    ensures |r| >= 1
    decreases |s|
  {
    var i := FirstOf(s, c);
    if i == |s| then [s] else [s[..i]] + Split(s[i + 1..], c)
  }

  function Join(items: seq<string>, c: char): string
    requires items != []
  {
    if |items| == 1 then items[0] else items[0] + [c] + Join(items[1..], c)
  }

  lemma {:induction false} FirstAt(s: string, c: char, i: nat)
    requires i <= |s| && (forall k | 0 <= k < i :: s[k] != c) && (i < |s| ==> s[i] == c)
    ensures FirstOf(s, c) == i
  {
    if s != "" && i > 0 {
      FirstAt(s[1..], c, i - 1);
    }
  }

  /** Joining and splitting are inverse: split finds the items that do not contain the separator, ... */
  lemma {:induction false} SplitJoin(items: seq<string>, c: char)
    requires items != [] && forall k | 0 <= k < |items| :: c !in items[k]
    ensures Split(Join(items, c), c) == items
    decreases |items|
  {
    hide FirstOf, Split;
    var s, x := Join(items, c), items[0];
    FirstAt(s, c, |x|);
    if |items| > 1 {
      var rest := Join(items[1..], c);
      SplitJoin(items[1..], c);
      assert s == x + [c] + rest;
      assert s[..|x|] == x && s[|x| + 1..] == rest;
      SplitAt(s, c, |x|);
      assert [x] + items[1..] == items;
    } else {
      SplitAt(s, c, |x|);
      assert [x] == items;
    }
  }

  lemma SplitAt(s: string, c: char, i: nat)
    requires FirstOf(s, c) == i <= |s|
    ensures Split(s, c) == if i < |s| then [s[..i]] + Split(s[i + 1..], c) else [s]
  {
    hide FirstOf;
  }

  /** ... and the parts of a split join up to the string. */
  lemma {:induction false} JoinSplit(s: string, c: char)
    ensures Join(Split(s, c), c) == s
    decreases |s|
  {
    hide FirstOf;
    var i := FirstOf(s, c);
    if i < |s| {
      JoinSplit(s[i + 1..], c);
      assert Split(s, c)[1..] == Split(s[i + 1..], c);
    }
  }

  /** countChar */
  method CountChar(s: string, c: char) returns (count: nat)
    ensures count == CountOf(s, c)
  {
    count := 0;
    var start := 0;
    while start < |s|
      invariant 0 <= start <= |s| && count + CountOf(s[start..], c) == CountOf(s, c)
    {
      assert s[start..][1..] == s[start + 1..];
      if s[start] == c {
        count := count + 1;
      }
      start := start + 1;
    }
  }

  /** indexOf: -1 if there is none. */
  method IndexOf(s: string, c: char) returns (i: int)
    ensures if c in s then i == FirstOf(s, c) else i == -1
  {
    i := 0;
    while i < |s|
      invariant 0 <= i <= |s| && forall k | 0 <= k < i :: s[k] != c
    {
      if s[i] == c {
        FirstAt(s, c, i);
        return;
      }
      i := i + 1;
    }
    i := -1;
  }

  /** split */
  method SplitLine(s: string, c: char) returns (parts: seq<string>)
    ensures parts == Split(s, c)
  {
    hide Split, CountOf, FirstOf;
    var count := CountChar(s, c);
    parts := [];
    var start, from := 0, 0;
    assert s[0..] == s && [] + Split(s, c) == Split(s, c);
    while start < count + 1
      invariant start <= count + 1 && (start <= count ==> from <= |s|)
      invariant parts + (if start <= count then Split(s[from..], c) else []) == Split(s, c)
      invariant start <= count ==> CountOf(s[from..], c) == count - start
    {
      ghost var rest := s[from..];
      CountSplit(rest, c);
      var to := IndexOf(s[from..], c);
      if to < 0 {
        to := |s| - from;
      }
      assert s[from..from + to] == rest[..to];
      Regroup(parts, rest[..to], if start < count then Split(rest[to + 1..], c) else []);
      parts := parts + [s[from..from + to]];
      from := from + to + 1;
      start := start + 1;
      if start <= count {
        assert s[from..] == rest[to + 1..];
      } else {
        assert rest[..to] == rest;
      }
    }
  }

  lemma Regroup(a: seq<string>, x: string, b: seq<string>)
    ensures (a + [x]) + b == a + ([x] + b)
  {
  }

  /** A string without the separator is its only part; otherwise one separator goes with the first part. */
  lemma {:induction false} CountSplit(s: string, c: char)
    ensures if c !in s then CountOf(s, c) == 0 && Split(s, c) == [s]
            else var i := FirstOf(s, c);
                 && i < |s| && CountOf(s, c) == 1 + CountOf(s[i + 1..], c)
                 && Split(s, c) == [s[..i]] + Split(s[i + 1..], c)
    decreases |s|
  {
    if s != "" && s[0] != c {
      var i := FirstOf(s, c);
      CountSplit(s[1..], c);
      assert c in s <==> c in s[1..];
      if c in s {
        assert s[1..][i..] == s[i + 1..];
      }
    }
  }

  // ----- decimal numbers -----

  /** castToInt's accumulator, in 32 bits. */
  function Accumulate(acc: nat, s: string): nat
    decreases |s|
  {
    if s == "" then acc else Accumulate((acc * 10 + (s[0] as int - '0' as int)) % TWO32, s[1..])
  }

  method CastToInt(s: string) returns (result: nat)
    ensures result == Accumulate(0, s)
  {
    result := 0;
    var i := 0;
    while i < |s|
      invariant 0 <= i <= |s| && Accumulate(result, s[i..]) == Accumulate(0, s)
    {
      assert s[i..][1..] == s[i + 1..];
      result := (result * 10 + (s[i] as int - '0' as int)) % TWO32;
      i := i + 1;
    }
  }

  function Digit(d: nat): char
    requires d < 10
  {
    '0' + d as char
  }

  function Decimal(n: nat): (s: string)
    ensures forall k | 0 <= k < |s| :: '0' <= s[k] <= '9'
  {
    if n < 10 then [Digit(n)] else Decimal(n / 10) + [Digit(n % 10)]
  }

  lemma {:induction false} AccumulateSum(acc: nat, s: string, d: char)
    ensures Accumulate(acc, s + [d]) == (Accumulate(acc, s) * 10 + (d as int - '0' as int)) % TWO32
    decreases |s|
  {
    if s == "" {
      assert s + [d] == [d];
      assert [d][1..] == "";
    } else {
      assert (s + [d])[1..] == s[1..] + [d];
      AccumulateSum((acc * 10 + (s[0] as int - '0' as int)) % TWO32, s[1..], d);
    }
  }

  /** castToInt reads a printed number back modulo 2^32, so exactly the numbers below 2^32 as they were. */
  lemma {:induction false} DecimalExact(n: nat)
    ensures Accumulate(0, Decimal(n)) == n % TWO32
  {
    if n >= 10 {
      DecimalExact(n / 10);
      AccumulateSum(0, Decimal(n / 10), Digit(n % 10));
      Shift(n / 10, n % 10);
    }
  }

  lemma Shift(q: nat, d: nat)
    ensures (q % TWO32 * 10 + d) % TWO32 == (q * 10 + d) % TWO32
  {
    var k := q / TWO32;
    assert q * 10 + d == (q % TWO32 * 10 + d) + (10 * k) * TWO32;
  }
}
