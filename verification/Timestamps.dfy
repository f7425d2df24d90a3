/**
 The two texts an instant has in the service: the RFC 3339 text the server formats, whose
 fraction has no trailing zeros, and the text the database prints, which always has six
 fraction digits. Also the order of the former as text.
 */
module Timestamps {
  import opened Text

  /** The fourteen digits YYYYMMDDhhmmss of a UTC time; numeric order is order in time. */
  type Clock = n: nat | n < 100_000_000_000_000
  type Nano = n: nat | n < 1_000_000_000
  type Micro = n: nat | n < 1_000_000

  datatype Stamp = Stamp(clock: Clock, nano: Nano)

  /** What a timestamptz column holds. */
  datatype MicroStamp = MicroStamp(clock: Clock, micro: Micro)

  predicate Earlier(a: Stamp, b: Stamp) {
    a.clock < b.clock || (a.clock == b.clock && a.nano < b.nano)
  }

  // ---------- Formatting ----------

  /** `n` in exactly `width` digits. */
  function Digits(n: nat, width: nat): (s: string)
    ensures |s| == width
  {
    if width == 0 then [] else Digits(n / 10, width - 1) + [Digit(n % 10)]
  }

  function TrimZeros(s: string): (t: string)
    ensures t <= s
  {
    if s != [] && s[|s| - 1] == '0' then TrimZeros(s[..|s| - 1]) else s
  }

  /** Position of the date and time digits in the text; the other positions are separators. */
  function DigitAt(i: nat): nat {
    if i < 4 then i else if i < 7 then i - 1 else if i < 10 then i - 2
    else if i < 13 then i - 3 else if i < 16 then i - 4 else i - 5
  }

  predicate IsSeparator(i: nat) {
    i == 4 || i == 7 || i == 10 || i == 13 || i == 16
  }

  function Separator(i: nat): char {
    if i == 4 || i == 7 then '-' else if i == 10 then 'T' else ':'
  }

  function TimeChar(digits: string, i: nat): char
    requires |digits| == 14 && i < 19
  {
    if IsSeparator(i) then Separator(i) else digits[DigitAt(i)]
  }

  function Punctuate(digits: string): (s: string)
    requires |digits| == 14
    ensures |s| == 19
  {
    seq(19, i requires 0 <= i < 19 => TimeChar(digits, i))
  }

  /** YYYY-MM-DDThh:mm:ss */
  function SecondText(clock: Clock): (s: string)
    ensures |s| == 19
  {
    Punctuate(Digits(clock, 14))
  }

  /** Fraction digits without trailing zeros. */
  function Fraction(nano: Nano): string {
    TrimZeros(Digits(nano, 9))
  }

  /** What follows the seconds. */
  function Ending(fraction: string): string {
    if fraction == [] then "Z" else ['.'] + fraction + ['Z']
  }

  /** `OffsetDateTime::format(&Rfc3339)` */
  function RfcText(s: Stamp): string {
    SecondText(s.clock) + Ending(Fraction(s.nano))
  }

  /** `to_char(..., 'YYYY-MM-DD"T"HH24:MI:SS.US"Z"')` */
  function PrintedText(m: MicroStamp): string {
    SecondText(m.clock) + Ending(Digits(m.micro, 6))
  }

  // ---------- When the two texts agree ----------

  lemma TrimSpec(s: string)
    ensures var t := TrimZeros(s);
            (forall i :: |t| <= i < |s| ==> s[i] == '0') && (t != [] ==> t[|t| - 1] != '0')
  {
    if s != [] && s[|s| - 1] == '0' {
      TrimSpec(s[..|s| - 1]);
    }
  }

  /** The last four of nine digits. */
  lemma LastDigits(n: nat)
    ensures var d := Digits(n, 9);
            && d[8] == Digit(n % 10) && d[7] == Digit(n / 10 % 10)
            && d[6] == Digit(n / 100 % 10) && d[5] == Digit(n / 1000 % 10)
            && d[..6] == Digits(n / 1000, 6)
  {
    assert n / 100 == n / 10 / 10 && n / 1000 == n / 100 / 10;
    var d1, d2, d3 := Digits(n / 10, 8), Digits(n / 100, 7), Digits(n / 1000, 6);
    assert Digits(n, 9) == d1 + [Digit(n % 10)];
    assert d1 == d2 + [Digit(n / 10 % 10)];
    assert d2 == d3 + [Digit(n / 100 % 10)];
    assert d3[5] == Digit(n / 1000 % 10);
  }

  lemma ZeroDigit(n: nat)
    requires n < 10
    ensures Digit(n) == '0' <==> n == 0
  {
  }

  /** The fraction has exactly six digits: whole microseconds, the last of them not zero. */
  predicate SixDigits(nano: Nano) {
    nano % 1000 == 0 && nano / 1000 % 10 != 0
  }

  lemma TrimmedToSix(s: string)
    requires |s| == 9
    ensures |TrimZeros(s)| == 6 <==> s[5] != '0' && s[6] == '0' && s[7] == '0' && s[8] == '0'
  {
    TrimSpec(s);
    var n := |TrimZeros(s)|;
    assert forall i :: 0 <= i < n ==> TrimZeros(s)[i] == s[i];
  }

  lemma SplitThousand(n: nat)
    ensures n % 1000 == n % 10 + 10 * (n / 10 % 10) + 100 * (n / 100 % 10)
  {
    var a := n / 10;
    var b := a / 10;
    var c := b / 10;
    assert n == 10 * a + n % 10 && a == 10 * b + a % 10 && b == 10 * c + b % 10;
    assert n / 100 == b && n / 1000 == c;
    assert n == 1000 * c + n % 1000;
  }

  lemma ZeroDigits(nano: Nano)
    ensures SixDigits(nano) <==>
              Digit(nano / 1000 % 10) != '0' && Digit(nano / 100 % 10) == '0' && Digit(nano / 10 % 10) == '0'
              && Digit(nano % 10) == '0'
  {
    ZeroDigit(nano % 10);
    ZeroDigit(nano / 10 % 10);
    ZeroDigit(nano / 100 % 10);
    ZeroDigit(nano / 1000 % 10);
    SplitThousand(nano);
  }

  lemma SixDigitsSpec(nano: Nano)
    ensures |Fraction(nano)| == 6 <==> SixDigits(nano)
    ensures SixDigits(nano) ==> Fraction(nano) == Digits(nano / 1000, 6)
  {
    LastDigits(nano);
    TrimmedToSix(Digits(nano, 9));
    ZeroDigits(nano);
  }

  /** A cast that rounds to microseconds keeps whole microseconds as they are. */
  ghost predicate KeepsMicros(round: Stamp -> MicroStamp) {
    forall s: Stamp :: s.nano % 1000 == 0 ==> round(s) == MicroStamp(s.clock, s.nano / 1000)
  }

  /** The database prints back the server's text exactly when that text has six fraction digits. */
  lemma PrintedBackExactly(round: Stamp -> MicroStamp, s: Stamp)
    requires KeepsMicros(round)
    ensures PrintedText(round(s)) == RfcText(s) <==> SixDigits(s.nano)
  {
    SixDigitsSpec(s.nano);
    var m := round(s);
    assert |Ending(Digits(m.micro, 6))| == 8;
    if PrintedText(m) == RfcText(s) {
      assert PrintedText(m)[19..] == Ending(Digits(m.micro, 6));
      assert RfcText(s)[19..] == Ending(Fraction(s.nano));
    }
  }

  lemma {:induction false} ZeroDigitsOnly(w: nat)
    ensures forall i :: 0 <= i < w ==> Digits(0, w)[i] == '0'
  {
    if w > 0 {
      ZeroDigitsOnly(w - 1);
    }
  }

  /** A whole second has no fraction digits, and prints as six zeros. */
  lemma ZeroFraction()
    ensures Fraction(0) == [] && Digits(0, 6) == "000000"
  {
    ZeroDigitsOnly(9);
    ZeroDigitsOnly(6);
    TrimSpec(Digits(0, 9));
  }
}
