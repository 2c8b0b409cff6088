/** Octets and big-endian fields. */
module Bytes {
  type byte = bv8

  function Value(b: byte): (n: nat)
    ensures n < 0x100
  {
    b as int
  }

  /** The octet with a given value. */
  ghost function ToByte(n: int): (b: byte)
    requires 0 <= n < 0x100
    ensures Value(b) == n
  {
    ByteExists(n);
    var b: byte :| Value(b) == n;
    b
  }

  lemma ByteExists(n: int)
    requires 0 <= n < 0x100
    ensures exists b: byte :: Value(b) == n
  {
    var hi, lo := n / 0x10, n % 0x10;
    Nibble(hi);
    Nibble(lo);
    TwoNibbles(hi as bv8, lo as bv8);
    assert Value((hi as bv8) * 0x10 + lo as bv8) == n;
  }

  lemma Nibble(n: int)
    requires 0 <= n < 0x10
    ensures (n as bv8) as int == n && (n as bv8) < 0x10
  {}

  lemma TwoNibbles(a: byte, b: byte)
    requires a < 0x10 && b < 0x10
    ensures (a * 0x10 + b) as int == (a as int) * 0x10 + b as int
  {}

  lemma SameValue(a: byte, b: byte)
    requires Value(a) == Value(b)
    ensures a == b
  {}

  lemma ToByteInverse(b: byte)
    ensures ToByte(Value(b)) == b
  {
    SameValue(ToByte(Value(b)), b);
  }

  ghost function Be16(n: nat): (s: seq<byte>)
    requires n < 0x1_0000
    ensures |s| == 2
  {
    [ToByte(n / 0x100), ToByte(n % 0x100)]
  }

  function FromBe16(s: seq<byte>): (n: nat)
    requires |s| == 2
    ensures n < 0x1_0000
  {
    Value(s[0]) * 0x100 + Value(s[1])
  }

  ghost function Be32(n: nat): (s: seq<byte>)
    requires n < 0x1_0000_0000
    ensures |s| == 4
  {
    Be16(n / 0x1_0000) + Be16(n % 0x1_0000)
  }

  function FromBe32(s: seq<byte>): (n: nat)
    requires |s| == 4
    ensures n < 0x1_0000_0000
  {
    FromBe16(s[..2]) * 0x1_0000 + FromBe16(s[2..])
  }

  lemma Be16RoundTrip(n: nat)
    requires n < 0x1_0000
    ensures FromBe16(Be16(n)) == n
  {}

  lemma Be16Inverse(s: seq<byte>)
    requires |s| == 2
    ensures Be16(FromBe16(s)) == s
  {
    Be16Pair(s[0], s[1]);
    assert s == [s[0], s[1]];
  }

  lemma Be16Pair(a: byte, b: byte)
    ensures Be16(Value(a) * 0x100 + Value(b)) == [a, b]
  {
    ToByteInverse(a);
    ToByteInverse(b);
    Be16Of(Value(a), Value(b));
  }

  lemma Be16Of(q: nat, r: nat)
    requires q < 0x100 && r < 0x100
    ensures Be16(q * 0x100 + r) == [ToByte(q), ToByte(r)]
  {
    Split16(q, r);
  }

  lemma Split16(q: int, r: int)
    requires 0 <= r < 0x100
    ensures (q * 0x100 + r) / 0x100 == q && (q * 0x100 + r) % 0x100 == r
  {}

  lemma Be32Of(q: nat, r: nat)
    requires q < 0x1_0000 && r < 0x1_0000
    ensures Be32(q * 0x1_0000 + r) == Be16(q) + Be16(r)
  {
    Split32(q, r);
  }

  lemma Split32(q: int, r: int)
    requires 0 <= r < 0x1_0000
    ensures (q * 0x1_0000 + r) / 0x1_0000 == q && (q * 0x1_0000 + r) % 0x1_0000 == r
  {}

  lemma Be32RoundTrip(n: nat)
    requires n < 0x1_0000_0000
    ensures FromBe32(Be32(n)) == n
  {
    Be16RoundTrip(n / 0x1_0000);
    Be16RoundTrip(n % 0x1_0000);
    assert Be32(n)[..2] == Be16(n / 0x1_0000) && Be32(n)[2..] == Be16(n % 0x1_0000);
  }

  lemma Be32Inverse(s: seq<byte>)
    requires |s| == 4
    ensures Be32(FromBe32(s)) == s
  {
    Be16Inverse(s[..2]);
    Be16Inverse(s[2..]);
    Be32Of(FromBe16(s[..2]), FromBe16(s[2..]));
    assert s == s[..2] + s[2..];
  }

  /** The most significant byte comes first. */
  lemma Be16Bytes(n: nat)
    requires n < 0x1_0000
    ensures var s := Be16(n); Value(s[0]) * 0x100 + Value(s[1]) == n
  {}

  lemma Be32Bytes(n: nat)
    requires n < 0x1_0000_0000
    ensures var s := Be32(n); ((Value(s[0]) * 0x100 + Value(s[1])) * 0x100 + Value(s[2])) * 0x100 + Value(s[3]) == n
  {
    Be16Bytes(n / 0x1_0000);
    Be16Bytes(n % 0x1_0000);
  }
}
