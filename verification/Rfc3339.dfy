/**
 The hand-written timestamp scanner (`is_rfc3339` in src/pre_interest.rs) against the
 date-time grammar of section 5.6 of RFC 3339.
 */
module Rfc3339 {
  import opened Wrappers
  import opened Text

  newtype u8 = x: int | 0 <= x < 256

  // ---------- The grammar ----------

  predicate Number(s: string, low: nat, high: nat) {
    |s| == 2 && IsDigit(s[0]) && IsDigit(s[1]) && low <= 10 * DigitValue(s[0]) + DigitValue(s[1]) <= high
  }

  /** time-secfrac, when present */
  predicate Fraction(s: string) {
    s == [] || (|s| >= 2 && s[0] == '.' && AllDigits(s[1..]))
  }

  /** time-offset, with an upper-case Z only */
  predicate Offset(s: string) {
    s == "Z"
    || (|s| == 6 && (s[0] == '+' || s[0] == '-') && Number(s[1..3], 0, 23) && s[3] == ':' && Number(s[4..6], 0, 59))
  }

  /** full-date; days run to 31 in every month. */
  predicate FullDate(s: string) {
    && |s| == 10 && AllDigits(s[..4]) && s[4] == '-' && Number(s[5..7], 1, 12) && s[7] == '-' && Number(s[8..10], 1, 31)
  }

  /** partial-time without its fraction */
  predicate ClockTime(s: string) {
    |s| == 8 && Number(s[..2], 0, 23) && s[2] == ':' && Number(s[3..5], 0, 59) && s[5] == ':' && Number(s[6..8], 0, 60)
  }

  predicate IsDateTime(s: string, date: string, time: string, fraction: string, offset: string) {
    s == date + "T" + time + (fraction + offset)
    && FullDate(date) && ClockTime(time) && Fraction(fraction) && Offset(offset)
  }

  /** date-time = full-date "T" partial-time time-offset */
  ghost predicate DateTime(s: string) {
    exists date, time, fraction, offset :: IsDateTime(s, date, time, fraction, offset)
  }

  // ---------- The scanner ----------

  /** `parse_two`: the arithmetic is on bytes and does not overflow. */
  function ParseTwo(value: string, start: nat): (r: Option<u8>)
    ensures r.Some? ==> r.value <= 99
  {
    if start + 1 >= |value| || !IsDigit(value[start]) || !IsDigit(value[start + 1]) then None
    else Some(DigitValue(value[start]) as u8 * 10 + DigitValue(value[start + 1]) as u8)
  }

  predicate InRange(n: Option<u8>, low: nat, high: nat) {
    n.Some? && low <= n.value as nat <= high
  }

  lemma ParseTwoReadsNumbers(value: string, start: nat, low: nat, high: nat)
    ensures InRange(ParseTwo(value, start), low, high) <==>
              start + 2 <= |value| && Number(value[start..start + 2], low, high)
  {
  }

  predicate At(value: string, i: nat, c: char) {
    i < |value| && value[i] == c
  }

  /** `is_rfc3339` accepts exactly the date-times of 20 to 35 characters. */
  method IsRfc3339(value: string) returns (ok: bool)
    ensures ok <==> DateTime(value) && 20 <= |value| <= 35
  {
    if !(20 <= |value| <= 35) || !At(value, 4, '-') || !At(value, 7, '-') || !At(value, 10, 'T')
       || !At(value, 13, ':') || !At(value, 16, ':') || !AllDigits(value[..4]) {
      if DateTime(value) { DateTimeIsFixed(value); }
      return false;
    }
    var month, day := ParseTwo(value, 5), ParseTwo(value, 8);
    var hour, minute, second := ParseTwo(value, 11), ParseTwo(value, 14), ParseTwo(value, 17);
    FieldsAreNumbers(value);
    if month.None? || day.None? || hour.None? || minute.None? || second.None? {
      if DateTime(value) { DateTimeIsFixed(value); }
      return false;
    }
    if !(1 <= month.value <= 12) || !(1 <= day.value <= 31)
       || hour.value > 23 || minute.value > 59 || second.value > 60 {
      if DateTime(value) { DateTimeIsFixed(value); }
      return false;
    }
    assert Fixed(value);
    var zone := 19;
    if value[zone] == '.' {
      zone := zone + 1;
      var start := zone;
      while zone < |value| && IsDigit(value[zone])
        invariant start <= zone <= |value|
        invariant forall i :: start <= i < zone ==> IsDigit(value[i])
      {
        zone := zone + 1;
      }
      if zone == start {
        if DateTime(value) { ZoneIsForced(value, zone); }
        return false;
      }
    }
    ZoneDecides(value, zone);
    ok := ZoneOk(value, zone);
  }

  /** The match on the character at `timezone_index`. */
  predicate ZoneOk(value: string, zone: nat) {
    if At(value, zone, 'Z') then zone + 1 == |value|
    else if At(value, zone, '+') || At(value, zone, '-') then
      zone + 6 == |value| && At(value, zone + 3, ':')
      && InRange(ParseTwo(value, zone + 1), 0, 23) && InRange(ParseTwo(value, zone + 4), 0, 59)
    else false
  }

  // ---------- Scanner and grammar ----------

  /** The part of the grammar at fixed positions. */
  predicate Fixed(s: string) {
    && |s| >= 20 && AllDigits(s[..4]) && s[4] == '-' && s[7] == '-' && s[10] == 'T' && s[13] == ':' && s[16] == ':'
    && Number(s[5..7], 1, 12) && Number(s[8..10], 1, 31) && Number(s[11..13], 0, 23)
    && Number(s[14..16], 0, 59) && Number(s[17..19], 0, 60)
  }

  lemma FixedFromParts(s: string)
    requires |s| >= 20 && s[10] == 'T'
    ensures Fixed(s) <==> FullDate(s[..10]) && ClockTime(s[11..19])
  {
    var date, time := s[..10], s[11..19];
    assert date[..4] == s[..4] && date[5..7] == s[5..7] && date[8..10] == s[8..10];
    assert time[..2] == s[11..13] && time[3..5] == s[14..16] && time[6..8] == s[17..19];
  }

  lemma DateTimeParts(s: string, date: string, time: string, fraction: string, offset: string)
    requires IsDateTime(s, date, time, fraction, offset)
    ensures Fixed(s) && s[19..] == fraction + offset
  {
    assert s[..10] == date && s[10] == 'T' && s[11..19] == time;
    FixedFromParts(s);
  }

  lemma DateTimeIsFixed(s: string)
    requires DateTime(s)
    ensures Fixed(s)
  {
    var date, time, fraction, offset :| IsDateTime(s, date, time, fraction, offset);
    DateTimeParts(s, date, time, fraction, offset);
  }

  lemma PartsMakeDateTime(s: string, fraction: string, offset: string)
    requires Fixed(s) && s[19..] == fraction + offset && Fraction(fraction) && Offset(offset)
    ensures DateTime(s)
  {
    FixedFromParts(s);
    assert s == s[..10] + "T" + s[11..19] + s[19..];
    assert IsDateTime(s, s[..10], s[11..19], fraction, offset);
  }

  /** What the scanner has found at `zone`: no fraction, or a fraction of all the digits. */
  predicate Scanned(s: string, zone: nat) {
    && 20 <= |s| && 19 <= zone <= |s|
    && if s[19] == '.'
       then zone >= 20 && (forall i :: 20 <= i < zone ==> IsDigit(s[i])) && (zone < |s| ==> !IsDigit(s[zone]))
       else zone == 19
  }

  lemma FieldsAreNumbers(s: string)
    requires |s| >= 20 && AllDigits(s[..4]) && s[4] == '-' && s[7] == '-' && s[10] == 'T' && s[13] == ':'
              && s[16] == ':'
    ensures Fixed(s) <==>
              InRange(ParseTwo(s, 5), 1, 12) && InRange(ParseTwo(s, 8), 1, 31) && InRange(ParseTwo(s, 11), 0, 23)
              && InRange(ParseTwo(s, 14), 0, 59) && InRange(ParseTwo(s, 17), 0, 60)
  {
    ParseTwoReadsNumbers(s, 5, 1, 12);
    ParseTwoReadsNumbers(s, 8, 1, 31);
    ParseTwoReadsNumbers(s, 11, 0, 23);
    ParseTwoReadsNumbers(s, 14, 0, 59);
    ParseTwoReadsNumbers(s, 17, 0, 60);
  }

  /** The scanner stops where the fraction of a date-time ends. */
  lemma ScanStopsAtOffset(s: string, zone: nat, fraction: string, offset: string)
    requires Scanned(s, zone) && s[19..] == fraction + offset && Fraction(fraction) && Offset(offset)
    ensures zone == 19 + |fraction|
  {
    var end := 19 + |fraction|;
    assert forall i :: 19 <= i < |s| ==> s[i] == (fraction + offset)[i - 19];
    assert s[end] == offset[0] && !IsDigit(s[end]) && s[end] != '.';
    if fraction != [] {
      assert s[19] == fraction[0];
      forall i | 20 <= i < end ensures IsDigit(s[i]) {
        assert s[i] == fraction[1..][i - 20];
      }
    }
  }

  /** A date-time has its offset exactly where the scanner looks for it. */
  lemma ZoneIsForced(s: string, zone: nat)
    requires Fixed(s) && Scanned(s, zone) && DateTime(s)
    ensures Fraction(s[19..zone]) && Offset(s[zone..])
  {
    var date, time, fraction, offset :| IsDateTime(s, date, time, fraction, offset);
    DateTimeParts(s, date, time, fraction, offset);
    ScanStopsAtOffset(s, zone, fraction, offset);
    assert s[19..zone] == s[19..][..|fraction|];
    assert s[zone..] == s[19..][|fraction|..];
  }

  lemma ZoneIsOffset(s: string, zone: nat)
    requires zone <= |s|
    ensures ZoneOk(s, zone) <==> Offset(s[zone..])
  {
    var o := s[zone..];
    ParseTwoReadsNumbers(s, zone + 1, 0, 23);
    ParseTwoReadsNumbers(s, zone + 4, 0, 59);
    if |o| == 6 {
      assert s[zone + 1..zone + 3] == o[1..3] && s[zone + 4..zone + 6] == o[4..6];
    }
    assert o == "Z" <==> |o| == 1 && o[0] == 'Z';
  }

  lemma ZoneDecides(s: string, zone: nat)
    requires Fixed(s) && Scanned(s, zone) && zone != 20
    ensures ZoneOk(s, zone) <==> DateTime(s)
  {
    ZoneIsOffset(s, zone);
    if DateTime(s) {
      ZoneIsForced(s, zone);
    } else if Offset(s[zone..]) {
      assert s[19..zone] == [] || s[19..zone][1..] == s[20..zone];
      assert s[19..] == s[19..zone] + s[zone..];
      PartsMakeDateTime(s, s[19..zone], s[zone..]);
    }
  }
}
