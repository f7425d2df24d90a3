/**
 Text encodings the service writes by hand: delimiter-terminated fields, decimal
 numbers and lower-case hexadecimal. All text here is ASCII, so one character is one byte.
 */
module Text {
  import opened Wrappers

  type byte = b: int | 0 <= b < 256

  // ---------- Fields ended by a delimiter ----------

  /** A field ended by a delimiter it does not contain is recovered from what follows. */
  lemma FieldUnique<T>(a: seq<T>, b: seq<T>, d: T, x: seq<T>, y: seq<T>)
    requires d !in a && d !in b
    requires a + [d] + x == b + [d] + y
    ensures a == b && x == y
  {
    var left, right := a + [d] + x, b + [d] + y;
    assert left[|a|] == d && right[|b|] == d;
    assert left[..|a|] == a && right[..|b|] == b;
    assert left[|a| + 1..] == x && right[|b| + 1..] == y;
  }

  // ---------- Decimal numbers ----------

  function Digit(n: nat): char
    requires n < 10
  {
    "0123456789"[n]
  }

  predicate IsDigit(c: char) {
    '0' <= c <= '9'
  }

  predicate IsAlphanumeric(c: char) {
    IsDigit(c) || 'a' <= c <= 'z' || 'A' <= c <= 'Z'
  }

  function Decimal(n: nat): string {
    if n < 10 then [Digit(n)] else Decimal(n / 10) + [Digit(n % 10)]
  }

  function DigitValue(c: char): nat
    requires IsDigit(c)
  {
    c as nat - '0' as nat
  }

  predicate AllDigits(s: string) {
    forall i :: 0 <= i < |s| ==> IsDigit(s[i])
  }

  function ParseDecimal(s: string): nat
    requires AllDigits(s)
  {
    if s == [] then 0 else 10 * ParseDecimal(s[..|s| - 1]) + DigitValue(s[|s| - 1])
  }

  lemma DigitRoundTrip(n: nat)
    requires n < 10
    ensures IsDigit(Digit(n)) && DigitValue(Digit(n)) == n
  {
  }

  lemma ParseAppend(s: string, c: char)
    requires AllDigits(s) && IsDigit(c)
    ensures AllDigits(s + [c]) && ParseDecimal(s + [c]) == 10 * ParseDecimal(s) + DigitValue(c)
  {
    assert (s + [c])[..|s|] == s;
  }

  lemma {:induction false} DecimalRoundTrip(n: nat)
    ensures AllDigits(Decimal(n)) && ParseDecimal(Decimal(n)) == n
  {
    DigitRoundTrip(n % 10);
    if n < 10 {
      ParseAppend([], Digit(n));
      assert [] + [Digit(n)] == Decimal(n);
    } else {
      DecimalRoundTrip(n / 10);
      ParseAppend(Decimal(n / 10), Digit(n % 10));
    }
  }

  // ---------- Lower-case hexadecimal ----------

  const HEX := "0123456789abcdef"

  predicate IsLowerHex(c: char) {
    IsDigit(c) || 'a' <= c <= 'f'
  }

  function HexLower(bytes: seq<byte>): string {
    seq(2 * |bytes|, i requires 0 <= i < 2 * |bytes| =>
      HEX[if i % 2 == 0 then bytes[i / 2] / 16 else bytes[i / 2] % 16])
  }

  /** `decode_nibble` */
  function DecodeNibble(c: char): Option<nat> {
    if IsDigit(c) then Some(c as nat - '0' as nat)
    else if 'a' <= c <= 'f' then Some(c as nat - 'a' as nat + 10)
    else None
  }

  /** Digits and nibbles name each other. */
  lemma NibbleRoundTrip(c: char, n: nat)
    ensures n < 16 ==> DecodeNibble(HEX[n]) == Some(n) && IsLowerHex(HEX[n])
    ensures DecodeNibble(c).Some? ==> DecodeNibble(c).value < 16 && HEX[DecodeNibble(c).value] == c
  {
    assert forall k :: 0 <= k < 16 ==>
        HEX[k] == if k < 10 then ('0' as int + k) as char else ('a' as int + k - 10) as char;
  }

  /** `hex_lower`: appends the two digits of each byte in turn. */
  method HexLowerLoop(bytes: seq<byte>) returns (output: string)
    ensures output == HexLower(bytes)
  {
    output := [];
    for i := 0 to |bytes|
      invariant |output| == 2 * i
      invariant forall k :: 0 <= k < 2 * i ==> output[k] == HexLower(bytes)[k]
    {
      output := output + [HEX[bytes[i] / 16]];
      output := output + [HEX[bytes[i] % 16]];
    }
  }

  /** Text with a character that is no lower-case hex digit encodes no bytes. */
  lemma BadDigit(hex: string, k: nat, bytes: seq<byte>)
    requires k < |hex| && DecodeNibble(hex[k]).None?
    ensures hex != HexLower(bytes)
  {
    if k < 2 * |bytes| {
      NibbleRoundTrip('0', if k % 2 == 0 then bytes[k / 2] / 16 else bytes[k / 2] % 16);
    }
  }

  lemma NoBytes(hex: string, k: nat)
    requires k < |hex| && DecodeNibble(hex[k]).None?
    ensures forall bytes: seq<byte> :: hex != HexLower(bytes)
  {
    forall bytes: seq<byte> ensures hex != HexLower(bytes) {
      BadDigit(hex, k, bytes);
    }
  }

  lemma TwoDigits(high: char, low: char) returns (b: byte)
    requires DecodeNibble(high).Some? && DecodeNibble(low).Some?
    ensures b == 16 * DecodeNibble(high).value + DecodeNibble(low).value
    ensures HEX[b / 16] == high && HEX[b % 16] == low
  {
    NibbleRoundTrip(high, 0);
    NibbleRoundTrip(low, 0);
    b := 16 * DecodeNibble(high).value + DecodeNibble(low).value;
    assert b / 16 == DecodeNibble(high).value;
  }

  /** The 64 hex digits of a well-formed signature header. */
  function SignatureDigits(value: string): Option<string> {
    if "v1=" <= value && |value| == 67 then Some(value[3..]) else None
  }

  /** Byte b is written by digits 2k and 2k + 1. */
  predicate PairIs(hex: string, k: nat, b: byte) {
    2 * k + 1 < |hex| && hex[2 * k] == HEX[b / 16] && hex[2 * k + 1] == HEX[b % 16]
  }

  /** The digit loop: two nibbles a byte. */
  method DecodeDigits(hex: string) returns (r: Option<seq<byte>>)
    requires |hex| == 64
    ensures r.Some? ==> |r.value| == 32 && hex == HexLower(r.value)
    ensures r.None? ==> forall bytes: seq<byte> :: hex != HexLower(bytes)
  {
    var output: seq<byte> := [];
    for i := 0 to 32
      invariant |output| == i && forall k :: 0 <= k < i ==> PairIs(hex, k, output[k])
    {
      var high, low := DecodeNibble(hex[2 * i]), DecodeNibble(hex[2 * i + 1]);
      if high.None? || low.None? {
        NoBytes(hex, if high.None? then 2 * i else 2 * i + 1);
        return None;
      }
      var _ := TwoDigits(hex[2 * i], hex[2 * i + 1]);
      output := output + [16 * high.value + low.value];
    }
    DigitPairs(hex, output);
    r := Some(output);
  }

  /** `parse_signature`: accepts exactly `v1=` followed by the lower-case hex of 32 bytes. */
  method ParseSignature(value: string) returns (r: Option<seq<byte>>)
    ensures r.Some? ==> |r.value| == 32 && SignatureDigits(value) == Some(HexLower(r.value))
    ensures r.None? ==> forall bytes: seq<byte> :: |bytes| == 32 ==> SignatureDigits(value) != Some(HexLower(bytes))
  {
    if SignatureDigits(value).None? {
      return None;
    }
    r := DecodeDigits(SignatureDigits(value).value);
  }

  lemma DigitPairs(hex: string, bytes: seq<byte>)
    requires |hex| == 2 * |bytes| && forall k :: 0 <= k < |bytes| ==> PairIs(hex, k, bytes[k])
    ensures hex == HexLower(bytes)
  {
    forall i | 0 <= i < |hex| ensures hex[i] == HexLower(bytes)[i] {
      assert i == 2 * (i / 2) + i % 2;
      assert PairIs(hex, i / 2, bytes[i / 2]);
    }
  }

  /** Different byte strings have different hex text. */
  lemma HexInjective(a: seq<byte>, b: seq<byte>)
    requires HexLower(a) == HexLower(b)
    ensures a == b
  {
    assert |HexLower(a)| == 2 * |a| && |HexLower(b)| == 2 * |b|;
    forall i | 0 <= i < |a| ensures a[i] == b[i] {
      assert HexLower(a)[2 * i] == HexLower(b)[2 * i] && HexLower(a)[2 * i + 1] == HexLower(b)[2 * i + 1];
      NibbleRoundTrip('0', a[i] / 16);
      NibbleRoundTrip('0', b[i] / 16);
      NibbleRoundTrip('0', a[i] % 16);
      NibbleRoundTrip('0', b[i] % 16);
    }
  }
}
