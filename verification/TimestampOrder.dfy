/**
 The order of RFC 3339 texts as texts. Trimmed fractions make it differ from the order in
 time exactly where one fraction is a proper prefix of another within one second, because
 the final Z sorts after every digit and after the point.
 */
module TimestampOrder {
  import opened Text
  import opened Timestamps

  /** `str` comparison; all texts here are ASCII. */
  predicate Less(a: string, b: string) {
    b != [] && (a == [] || a[0] < b[0] || (a[0] == b[0] && Less(a[1..], b[1..])))
  }

  /** k is the first position where the texts differ. */
  predicate DifferAt(a: string, b: string, k: nat) {
    k < |a| && k < |b| && a[..k] == b[..k] && a[k] != b[k]
  }

  lemma DifferInHead(s: string, t: string, e: string, f: string, k: nat)
    requires DifferAt(s, t, k)
    ensures DifferAt(s + e, t + f, k) && (s + e)[k] == s[k] && (t + f)[k] == t[k]
  {
    assert (s + e)[..k] == s[..k] && (t + f)[..k] == t[..k];
  }

  lemma DifferInTail(s: string, e: string, f: string, k: nat)
    requires DifferAt(e, f, k)
    ensures DifferAt(s + e, s + f, |s| + k) && (s + e)[|s| + k] == e[k] && (s + f)[|s| + k] == f[k]
  {
    assert (s + e)[..|s| + k] == s + e[..k] && (s + f)[..|s| + k] == s + f[..k];
  }

  lemma {:induction false} LessAt(a: string, b: string, k: nat)
    requires DifferAt(a, b, k)
    ensures Less(a, b) <==> a[k] < b[k]
  {
    if k > 0 {
      assert a[0] == a[..k][0] && b[0] == b[..k][0];
      assert a[1..][..k - 1] == a[..k][1..] && b[1..][..k - 1] == b[..k][1..];
      LessAt(a[1..], b[1..], k - 1);
    }
  }

  // ---------- Equal widths ----------

  function Pow10(w: nat): nat {
    if w == 0 then 1 else 10 * Pow10(w - 1)
  }

  /** Numbers in equally many digits differ first where the smaller has the smaller digit. */
  lemma {:induction false} DigitsOrder(n: nat, m: nat, w: nat) returns (k: nat)
    requires n < m < Pow10(w)
    ensures DifferAt(Digits(n, w), Digits(m, w), k) && Digits(n, w)[k] < Digits(m, w)[k]
  {
    var a, b := Digits(n / 10, w - 1), Digits(m / 10, w - 1);
    if n / 10 < m / 10 {
      k := DigitsOrder(n / 10, m / 10, w - 1);
      DifferInHead(a, b, [Digit(n % 10)], [Digit(m % 10)], k);
    } else {
      DigitOrder(n % 10, m % 10);
      DifferInTail(a, [Digit(n % 10)], [Digit(m % 10)], 0);
      k := w - 1;
    }
  }

  lemma DigitOrder(n: nat, m: nat)
    requires n < m < 10
    ensures Digit(n) < Digit(m)
  {
    DigitRoundTrip(n);
    DigitRoundTrip(m);
  }

  lemma Powers()
    ensures Pow10(9) == 1_000_000_000 && Pow10(14) == 100_000_000_000_000
  {
    assert Pow10(4) == 10_000;
    assert Pow10(9) == 1_000_000_000;
  }

  /** Where digit k stands in the text. */
  function PlaceOf(k: nat): nat {
    if k < 4 then k else if k < 6 then k + 1 else if k < 8 then k + 2
    else if k < 10 then k + 3 else if k < 12 then k + 4 else k + 5
  }

  lemma PunctuatedAt(x: string, y: string, k: nat, i: nat)
    requires |x| == 14 && |y| == 14 && k < 14 && x[..k] == y[..k] && i < PlaceOf(k)
    ensures TimeChar(x, i) == TimeChar(y, i)
  {
    if !IsSeparator(i) {
      assert DigitAt(i) < k;
      assert x[..k][DigitAt(i)] == y[..k][DigitAt(i)];
    }
  }

  lemma PunctuatedDiffer(x: string, y: string, k: nat)
    requires |x| == 14 && |y| == 14 && DifferAt(x, y, k)
    ensures var p := PlaceOf(k);
            && DifferAt(Punctuate(x), Punctuate(y), p)
            && Punctuate(x)[p] == x[k] && Punctuate(y)[p] == y[k]
  {
    var p := PlaceOf(k);
    assert !IsSeparator(p) && DigitAt(p) == k;
    forall i | 0 <= i < p ensures Punctuate(x)[i] == Punctuate(y)[i] {
      PunctuatedAt(x, y, k, i);
    }
  }

  lemma SecondsOrder(a: Clock, b: Clock) returns (p: nat)
    requires a < b
    ensures DifferAt(SecondText(a), SecondText(b), p) && SecondText(a)[p] < SecondText(b)[p]
  {
    Powers();
    var k := DigitsOrder(a, b, 14);
    PunctuatedDiffer(Digits(a, 14), Digits(b, 14), k);
    p := PlaceOf(k);
  }

  // ---------- Trimmed fractions ----------

  lemma DigitsAreDigits(n: nat, w: nat)
    ensures AllDigits(Digits(n, w))
  {
    if w > 0 {
      DigitsAreDigits(n / 10, w - 1);
      DigitRoundTrip(n % 10);
    }
  }

  /** The smaller fraction is a proper prefix of the other, or differs first by a smaller digit. */
  lemma FractionOrder(n: Nano, m: Nano) returns (k: nat)
    requires n < m
    ensures var a, b := Fraction(n), Fraction(m);
            a < b || (DifferAt(a, b, k) && a[k] < b[k])
  {
    Powers();
    var x, y := Digits(n, 9), Digits(m, 9);
    k := DigitsOrder(n, m, 9);
    TrimSpec(x);
    TrimSpec(y);
    DigitsAreDigits(n, 9);
    var a, b := Fraction(n), Fraction(m);
    assert IsDigit(x[k]) && y[k] != '0';
    assert k < |b|;
    if k < |a| {
      assert a[..k] == x[..k] && b[..k] == y[..k];
    } else {
      assert a == x[..k][..|a|] && b[..|a|] == y[..k][..|a|];
    }
  }

  lemma FractionIsDigits(n: Nano)
    ensures AllDigits(Fraction(n))
  {
    DigitsAreDigits(n, 9);
  }

  /** A proper prefix ends in a Z where the longer fraction goes on. */
  lemma PrefixEnding(f: string, g: string) returns (k: nat)
    requires f < g && AllDigits(g)
    ensures DifferAt(Ending(f), Ending(g), k) && Ending(g)[k] < Ending(f)[k]
  {
    var a, b := Ending(f), Ending(g);
    if f == [] {
      k := 0;
      assert a[0] == 'Z' && b[0] == '.';
    } else {
      k := |f| + 1;
      assert a[..k] == ['.'] + f && b[..k] == ['.'] + g[..|f|];
      assert a[k] == 'Z' && b[k] == g[|f|] && IsDigit(g[|f|]);
    }
  }

  lemma DigitEnding(f: string, g: string, k: nat)
    requires DifferAt(f, g, k)
    ensures DifferAt(Ending(f), Ending(g), k + 1) && Ending(f)[k + 1] == f[k] && Ending(g)[k + 1] == g[k]
  {
    DifferInHead(f, g, ['Z'], ['Z'], k);
    DifferInTail(['.'], f + ['Z'], g + ['Z'], k);
    assert Ending(f) == ['.'] + (f + ['Z']) && Ending(g) == ['.'] + (g + ['Z']);
  }

  lemma EndingOrder(n: Nano, m: Nano) returns (k: nat)
    requires n < m
    ensures var a, b := Ending(Fraction(n)), Ending(Fraction(m));
            DifferAt(a, b, k) && (a[k] < b[k] <==> !(Fraction(n) < Fraction(m)))
  {
    var f, g := Fraction(n), Fraction(m);
    FractionIsDigits(m);
    k := FractionOrder(n, m);
    if f < g {
      k := PrefixEnding(f, g);
    } else {
      DigitEnding(f, g, k);
      k := k + 1;
    }
  }

  // ---------- Text order against time order ----------

  /** Same second, and the earlier fraction is a proper prefix of the later one. */
  predicate Clash(a: Stamp, b: Stamp) {
    a.clock == b.clock && Fraction(a.nano) < Fraction(b.nano)
  }

  lemma TextsDiffer(a: Stamp, b: Stamp) returns (k: nat)
    requires Earlier(a, b)
    ensures var x, y := RfcText(a), RfcText(b);
            DifferAt(x, y, k) && (x[k] < y[k] <==> !Clash(a, b))
  {
    var e, f := Ending(Fraction(a.nano)), Ending(Fraction(b.nano));
    if a.clock < b.clock {
      k := SecondsOrder(a.clock, b.clock);
      DifferInHead(SecondText(a.clock), SecondText(b.clock), e, f, k);
    } else {
      var j := EndingOrder(a.nano, b.nano);
      DifferInTail(SecondText(a.clock), e, f, j);
      k := |SecondText(a.clock)| + j;
    }
  }

  lemma OrderAt(x: string, y: string, k: nat, swapped: bool)
    requires DifferAt(x, y, k) && (x[k] < y[k] <==> !swapped)
    ensures (Less(x, y) <==> !swapped) && (Less(y, x) <==> swapped) && x != y
  {
    LessAt(x, y, k);
    LessAt(y, x, k);
  }

  /** Texts order as times, and oppositely exactly where fractions clash. */
  lemma TextOrderExactly(a: Stamp, b: Stamp)
    requires Earlier(a, b)
    ensures Less(RfcText(a), RfcText(b)) <==> !Clash(a, b)
    ensures Less(RfcText(b), RfcText(a)) <==> Clash(a, b)
    ensures RfcText(a) != RfcText(b)
  {
    var k := TextsDiffer(a, b);
    OrderAt(RfcText(a), RfcText(b), k, Clash(a, b));
  }

  // ---------- Short fractions ----------

  lemma TenTimes(n: nat, w: nat)
    ensures TrimZeros(Digits(10 * n, w + 1)) == TrimZeros(Digits(n, w))
  {
    assert 10 * n / 10 == n && 10 * n % 10 == 0;
    var d := Digits(n, w);
    assert Digits(10 * n, w + 1) == d + ['0'];
    assert (d + ['0'])[..w] == d;
  }

  function Shifted(n: nat, zeros: nat): nat {
    if zeros == 0 then n else 10 * Shifted(n, zeros - 1)
  }

  predicate Scales(f: (nat, nat) -> string, x: nat, v: nat) {
    f(10 * x, v + 1) == f(x, v)
  }

  lemma {:induction false} Rescaled(f: (nat, nat) -> string, n: nat, w: nat, zeros: nat)
    requires forall x: nat, v: nat :: Scales(f, x, v)
    ensures f(Shifted(n, zeros), w + zeros) == f(n, w)
  {
    if zeros > 0 {
      Rescaled(f, n, w, zeros - 1);
      assert Scales(f, Shifted(n, zeros - 1), w + zeros - 1);
    }
  }

  function Kept(n: nat, w: nat): string {
    TrimZeros(Digits(n, w))
  }

  /** Zeros written after a number of w digits disappear again. */
  lemma TrailingZeros(n: nat, w: nat, zeros: nat)
    ensures Kept(Shifted(n, zeros), w + zeros) == Kept(n, w)
  {
    forall x: nat, v: nat ensures Scales(Kept, x, v) { TenTimes(x, v); }
    Rescaled(Kept, n, w, zeros);
  }

  lemma ShiftedTenths(n: nat)
    ensures Shifted(n, 7) == 10_000_000 * n && Shifted(n, 8) == 100_000_000 * n
  {
    assert Shifted(n, 1) == 10 * n;
    assert Shifted(n, 2) == 100 * n;
    assert Shifted(n, 3) == 1_000 * n;
    assert Shifted(n, 4) == 10_000 * n;
    assert Shifted(n, 5) == 100_000 * n;
    assert Shifted(n, 6) == 1_000_000 * n;
  }

  lemma OneDigit(n: nat)
    requires n < 10
    ensures Digits(n, 1) == [Digit(n)]
  {
    assert n % 10 == n;
    assert Digits(n / 10, 0) == [];
  }

  lemma TrimNothing(s: string)
    requires s != [] && s[|s| - 1] != '0'
    ensures TrimZeros(s) == s
  {
  }

  lemma KeptOne(n: nat)
    requires 0 < n < 10
    ensures Kept(n, 1) == [Digit(n)]
  {
    OneDigit(n);
    ZeroDigit(n);
    TrimNothing([Digit(n)]);
  }

  lemma KeptTwo(n: nat)
    requires 10 <= n < 100 && n % 10 != 0
    ensures Kept(n, 2) == [Digit(n / 10), Digit(n % 10)]
  {
    OneDigit(n / 10);
    ZeroDigit(n % 10);
    assert Digits(n, 2) == [Digit(n / 10), Digit(n % 10)];
    TrimNothing([Digit(n / 10), Digit(n % 10)]);
  }

  lemma OneDigitFraction(n: nat)
    requires 0 < n < 10
    ensures Fraction(100_000_000 * n) == [Digit(n)]
  {
    ShiftedTenths(n);
    TrailingZeros(n, 1, 8);
    KeptOne(n);
    assert Fraction(100_000_000 * n) == Kept(Shifted(n, 8), 9);
  }

  lemma TwoDigitFraction(n: nat)
    requires 10 <= n < 100 && n % 10 != 0
    ensures Fraction(10_000_000 * n) == [Digit(n / 10), Digit(n % 10)]
  {
    ShiftedTenths(n);
    TrailingZeros(n, 2, 7);
    KeptTwo(n);
    assert Fraction(10_000_000 * n) == Kept(Shifted(n, 7), 9);
  }

  // ---------- A number for each text ----------

  const BASE: nat := 0x11_0001

  function Power(n: nat): nat {
    if n == 0 then 1 else BASE * Power(n - 1)
  }

  /** The first n characters as digits of a number. */
  function TextRank(t: string, n: nat): nat {
    if n == 0 then 0
    else if t == [] then 0
    else (t[0] as nat + 1) * Power(n - 1) + TextRank(t[1..], n - 1)
  }

  lemma {:induction false} RankBound(t: string, n: nat)
    ensures TextRank(t, n) < Power(n)
  {
    if n > 0 && t != [] {
      RankBound(t[1..], n - 1);
      Carry(t[0] as nat + 1, BASE, TextRank(t[1..], n - 1), Power(n - 1));
    } else if n > 0 {
      RankBound([], n - 1);
      Carry(0, BASE, TextRank([], n - 1), Power(n - 1));
    }
  }

  lemma Carry(x: nat, y: nat, r: nat, p: nat)
    requires x < y && r < p
    ensures x * p + r < y * p
  {
    assert (x + 1) * p <= y * p;
  }

  /** The number orders texts of at most n characters as their comparison does. */
  lemma {:induction false} RankIsLess(a: string, b: string, n: nat)
    requires |a| <= n && |b| <= n
    ensures Less(a, b) <==> TextRank(a, n) < TextRank(b, n)
    ensures a == b <==> TextRank(a, n) == TextRank(b, n)
  {
    if n > 0 {
      var p := Power(n - 1);
      if a != [] { RankBound(a[1..], n - 1); }
      if b != [] { RankBound(b[1..], n - 1); }
      if a != [] && b != [] {
        var x, y := a[0] as nat + 1, b[0] as nat + 1;
        var r, q := TextRank(a[1..], n - 1), TextRank(b[1..], n - 1);
        RankIsLess(a[1..], b[1..], n - 1);
        assert a == [a[0]] + a[1..] && b == [b[0]] + b[1..];
        if x < y { Carry(x, y, r, p); }
        if y < x { Carry(y, x, q, p); }
      } else if a != [] {
        Positive(a, n);
      } else if b != [] {
        Positive(b, n);
      }
    }
  }

  lemma Positive(t: string, n: nat)
    requires t != [] && n > 0
    ensures TextRank(t, n) > 0
  {
    RankBound([], n - 1);
    assert (t[0] as nat + 1) * Power(n - 1) >= Power(n - 1);
  }

  lemma TextIsShort(s: Stamp)
    ensures |RfcText(s)| <= 30
  {
  }

  // ---------- What the texts say ----------

  /** Digits read back as the number they write. */
  lemma {:induction false} DigitsReadBack(n: nat, w: nat)
    requires n < Pow10(w)
    ensures AllDigits(Digits(n, w)) && ParseDecimal(Digits(n, w)) == n
  {
    if w > 0 {
      DigitsReadBack(n / 10, w - 1);
      DigitRoundTrip(n % 10);
      ParseAppend(Digits(n / 10, w - 1), Digit(n % 10));
    }
  }

  /** The date and time stand in the order year, month, day, hour, minute, second, punctuated as
      RFC 3339 wants, and read back as the clock. */
  lemma SecondsReadBack(clock: Clock)
    ensures var s := SecondText(clock);
            && s[4] == '-' && s[7] == '-' && s[10] == 'T' && s[13] == ':' && s[16] == ':'
            && var digits := s[..4] + s[5..7] + s[8..10] + s[11..13] + s[14..16] + s[17..];
               AllDigits(digits) && ParseDecimal(digits) == clock
  {
    Powers();
    DigitsReadBack(clock, 14);
    PunctuationReadsBack(Digits(clock, 14));
  }

  lemma PunctuationReadsBack(d: string)
    requires |d| == 14
    ensures var s := Punctuate(d);
            && s[4] == '-' && s[7] == '-' && s[10] == 'T' && s[13] == ':' && s[16] == ':'
            && s[..4] + s[5..7] + s[8..10] + s[11..13] + s[14..16] + s[17..] == d
  {
    var s := Punctuate(d);
    assert s[..4] == d[..4] && s[5..7] == d[4..6] && s[8..10] == d[6..8];
    assert s[11..13] == d[8..10] && s[14..16] == d[10..12] && s[17..] == d[12..];
  }

  /** The fraction, filled up with zeros to nine digits, reads back as the nanoseconds. */
  lemma FractionReadsBack(nano: Nano)
    ensures var f := Fraction(nano);
            |f| <= 9 && (f != [] ==> f[|f| - 1] != '0')
            && AllDigits(Padded(f)) && ParseDecimal(Padded(f)) == nano
  {
    Powers();
    DigitsReadBack(nano, 9);
    TrimSpec(Digits(nano, 9));
    assert Padded(Fraction(nano)) == Digits(nano, 9);
  }

  function Padded(f: string): (s: string)
    ensures AllDigits(f) ==> AllDigits(s)
  {
    f + seq(if |f| < 9 then 9 - |f| else 0, _ => '0')
  }

  /** The text is the seconds, a point and the fraction unless it is zero, and Z. */
  lemma TextSpelledOut(s: Stamp)
    ensures RfcText(s) == SecondText(s.clock) + (if s.nano == 0 then "Z" else "." + Fraction(s.nano) + "Z")
  {
    if s.nano == 0 {
      ZeroFraction();
    } else if Fraction(s.nano) == [] {
      FractionReadsBack(s.nano);
      ZeroFraction();
      FractionReadsBack(0);
      assert false;
    }
  }
}
