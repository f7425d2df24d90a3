/** UTF-8 as the bytes of Rust strings. */
module Utf8Text {
  import opened Text

  /** The bytes of one scalar value, section 3 of RFC 3629. */
  function Utf8Char(c: char): seq<byte> {
    var n := c as int;
    if n < 0x80 then [n]
    else if n < 0x800 then [0xc0 + n / 64, 0x80 + n % 64]
    else if n < 0x1_0000 then [0xe0 + n / 4096, 0x80 + n / 64 % 64, 0x80 + n % 64]
    else [0xf0 + n / 262144, 0x80 + n / 4096 % 64, 0x80 + n / 64 % 64, 0x80 + n % 64]
  }

  function Concat(encode: char -> seq<byte>, s: string): seq<byte> {
    if s == [] then [] else encode(s[0]) + Concat(encode, s[1..])
  }

  function Utf8(s: string): seq<byte> {
    Concat(Utf8Char, s)
  }

  /** Length announced by a lead byte. */
  function LeadLength(b: byte): nat {
    if b < 0x80 then 1 else if b < 0xe0 then 2 else if b < 0xf0 then 3 else 4
  }

  lemma Utf8CharDecodes(c: char, d: char, x: seq<byte>, y: seq<byte>)
    requires Utf8Char(c) + x == Utf8Char(d) + y
    ensures c == d && x == y
  {
    var left, right := Utf8Char(c) + x, Utf8Char(d) + y;
    assert |Utf8Char(c)| == LeadLength(left[0]) && |Utf8Char(d)| == LeadLength(right[0]);
    assert left[..|Utf8Char(c)|] == Utf8Char(c) && right[..|Utf8Char(d)|] == Utf8Char(d);
    assert left[|Utf8Char(c)|..] == x && right[|Utf8Char(d)|..] == y;
    SameBytes(c, d);
  }

  lemma SameBytes(c: char, d: char)
    requires Utf8Char(c) == Utf8Char(d)
    ensures c == d
  {
    var n, m := c as int, d as int;
    var k := |Utf8Char(c)|;
    assert |Utf8Char(d)| == k;
    assert forall i :: 0 <= i < k ==> Utf8Char(c)[i] == Utf8Char(d)[i];
    if k >= 2 {
      assert n % 64 == m % 64;
      assert k >= 3 ==> n / 64 % 64 == m / 64 % 64;
      assert k == 4 ==> n / 4096 % 64 == m / 4096 % 64;
      assert n / 4096 == n / 64 / 64 && m / 4096 == m / 64 / 64;
      assert n / 262144 == n / 4096 / 64 && m / 262144 == m / 4096 / 64;
    }
  }

  lemma Associate<T>(x: seq<T>, y: seq<T>, z: seq<T>)
    ensures x + (y + z) == (x + y) + z
  {
  }

  lemma {:induction false} ConcatAppend(encode: char -> seq<byte>, a: string, b: string)
    ensures Concat(encode, a + b) == Concat(encode, a) + Concat(encode, b)
  {
    if a == [] {
      assert a + b == b;
    } else {
      ConcatAppend(encode, a[1..], b);
      assert (a + b)[0] == a[0] && (a + b)[1..] == a[1..] + b;
      Associate(encode(a[0]), Concat(encode, a[1..]), Concat(encode, b));
    }
  }

  lemma Utf8Append(a: string, b: string)
    ensures Utf8(a + b) == Utf8(a) + Utf8(b)
  {
    ConcatAppend(Utf8Char, a, b);
  }

  lemma Utf8Ascii(c: char)
    requires c as int < 0x80
    ensures Utf8([c]) == [c as int]
  {
    assert Concat(Utf8Char, [c][1..]) == [];
  }

  /** Different texts have different bytes. */
  lemma {:induction false} Utf8Injective(a: string, b: string)
    requires Utf8(a) == Utf8(b)
    ensures a == b
  {
    if a != [] && b != [] {
      Utf8CharDecodes(a[0], b[0], Utf8(a[1..]), Utf8(b[1..]));
      Utf8Injective(a[1..], b[1..]);
      assert a == [a[0]] + a[1..] && b == [b[0]] + b[1..];
    }
  }
}
