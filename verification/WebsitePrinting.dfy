/**
 Where resubmission of an accepted registration fails: a website whose printed form is longer
 than what was sent, because a URL parser percent-encodes what is not ASCII.
 */
module WebsitePrinting {
  import opened Wrappers
  import opened Text
  import opened Utf8Text
  import opened Registration
  import opened RegistrationTheorems
  import opened RegistrationIdempotence
  import Rfc3339

  // ---------- Percent-encoding ----------

  const UPPER_HEX := "0123456789ABCDEF"

  predicate IsAscii(s: string) {
    forall i :: 0 <= i < |s| ==> s[i] as int < 0x80
  }

  /** `%XX` for each byte. */
  function Escape(bytes: seq<byte>): string {
    if bytes == [] then []
    else ['%', UPPER_HEX[bytes[0] / 16], UPPER_HEX[bytes[0] % 16]] + Escape(bytes[1..])
  }

  function EncodeChar(c: char): string {
    if c as int < 0x80 then [c] else Escape(Utf8Char(c))
  }

  /** ASCII is kept, every other character becomes its UTF-8 bytes in percent-encoding. */
  function PercentEncode(s: string): string {
    if s == [] then [] else EncodeChar(s[0]) + PercentEncode(s[1..])
  }

  predicate Unspaced(s: string) {
    forall i :: 0 <= i < |s| ==> !IsControl(s[i]) && !IsWhitespace(s[i])
  }

  /** A URL parser that accepts https texts without whitespace and prints them percent-encoded. */
  function PercentPrinter(): string -> Option<string> {
    (s: string) => if "https://" <= s && Unspaced(s) then Some(PercentEncode(s)) else None
  }

  predicate Visible(s: string) {
    forall i :: 0 <= i < |s| ==> '!' <= s[i] <= '~'
  }

  lemma {:induction false} EscapeIsVisible(bytes: seq<byte>)
    ensures Visible(Escape(bytes)) && |Escape(bytes)| == 3 * |bytes|
  {
    if bytes != [] {
      EscapeIsVisible(bytes[1..]);
      assert forall k :: 0 <= k < 16 ==> '!' <= UPPER_HEX[k] <= '~';
    }
  }

  lemma {:induction false} EncodedIsVisible(s: string)
    requires Unspaced(s)
    ensures Visible(PercentEncode(s))
  {
    if s != [] {
      EncodedIsVisible(s[1..]);
      if s[0] as int >= 0x80 { EscapeIsVisible(Utf8Char(s[0])); }
    }
  }

  lemma {:induction false} AsciiIsKept(s: string)
    requires IsAscii(s)
    ensures PercentEncode(s) == s
  {
    if s != [] {
      AsciiIsKept(s[1..]);
    }
  }

  lemma {:induction false} EncodeAppend(a: string, b: string)
    ensures PercentEncode(a + b) == PercentEncode(a) + PercentEncode(b)
  {
    if a == [] {
      assert a + b == b;
    } else {
      EncodeAppend(a[1..], b);
      assert (a + b)[0] == a[0] && (a + b)[1..] == a[1..] + b;
      Associate(EncodeChar(a[0]), PercentEncode(a[1..]), PercentEncode(b));
    }
  }

  lemma VisibleIsPlain(s: string)
    requires Visible(s)
    ensures IsAscii(s) && Unspaced(s) && !HasControl(s)
  {
  }

  lemma KeepsPrefix(base: string, s: string)
    requires IsAscii(base) && base <= s
    ensures base <= PercentEncode(s)
  {
    var rest := s[|base|..];
    assert s == base + rest;
    EncodeAppend(base, rest);
    AsciiIsKept(base);
  }

  /** What it prints it accepts and prints again. */
  lemma PercentPrinterIsCanonical()
    ensures CanonicalUrls(PercentPrinter())
  {
    var url := PercentPrinter();
    forall s | url(s).Some? ensures CanonicalUrl(url, url(s).value) {
      var text := PercentEncode(s);
      EncodedIsVisible(s);
      VisibleIsPlain(text);
      KeepsPrefix("https://", s);
      AsciiIsKept(text);
    }
  }

  // ---------- A family of websites ----------

  const E_ACUTE: char := '\U{00E9}'

  function Accents(n: nat): (s: string)
    ensures |s| == n && forall i :: 0 <= i < n ==> s[i] == E_ACUTE
  {
    seq(n, _ => E_ACUTE)
  }

  /** A URL whose path is n letters e with an acute accent. */
  function AccentedUrl(n: nat): string {
    "https://a.co/" + Accents(n)
  }

  lemma {:induction false} AsciiBytes(s: string)
    requires IsAscii(s)
    ensures |Utf8(s)| == |s|
  {
    if s != [] {
      AsciiBytes(s[1..]);
    }
  }

  lemma {:induction false} AccentBytes(n: nat)
    ensures |Utf8(Accents(n))| == 2 * n && |PercentEncode(Accents(n))| == 6 * n
  {
    if n > 0 {
      assert Accents(n)[1..] == Accents(n - 1);
      AccentBytes(n - 1);
      EscapeIsVisible(Utf8Char(E_ACUTE));
    }
  }

  lemma LengthsAfter(base: string, n: nat)
    requires IsAscii(base)
    ensures |Utf8(base + Accents(n))| == |base| + 2 * n && |PercentEncode(base + Accents(n))| == |base| + 6 * n
  {
    Utf8Append(base, Accents(n));
    AsciiBytes(base);
    EncodeAppend(base, Accents(n));
    AsciiIsKept(base);
    AccentBytes(n);
  }

  /** Two bytes a letter go in, six come out. */
  lemma AccentedLengths(n: nat)
    ensures |Utf8(AccentedUrl(n))| == 13 + 2 * n && |PercentEncode(AccentedUrl(n))| == 13 + 6 * n
  {
    LengthsAfter("https://a.co/", n);
  }

  lemma AccentedIsUnspaced(n: nat)
    ensures Unspaced(AccentedUrl(n)) && !HasControl(AccentedUrl(n)) && "https://" <= AccentedUrl(n)
  {
    var base := "https://a.co/";
    assert Visible(base);
    assert "https://" <= base;
    assert forall i :: 0 <= i < |AccentedUrl(n)| ==> AccentedUrl(n)[i] == if i < 13 then base[i] else E_ACUTE;
  }

  /** Such a URL is accepted when it fits, and then its printed form may not. */
  lemma AccentedWebsite(n: nat)
    requires 13 + 2 * n <= 2048
    ensures NormalizeWebsite(AccentedUrl(n), PercentPrinter()) == Ok(PercentEncode(AccentedUrl(n)))
    ensures ShortUrl(PercentEncode(AccentedUrl(n))) <==> 13 + 6 * n <= 2048
  {
    AccentedLengths(n);
    AccentedIsUnspaced(n);
    TrimPlain(AccentedUrl(n));
    EncodedIsVisible(AccentedUrl(n));
    VisibleIsPlain(PercentEncode(AccentedUrl(n)));
    AsciiBytes(PercentEncode(AccentedUrl(n)));
  }

  /** Any accepted request may carry such a website, and is resubmittable exactly when the
      printed form still fits. */
  lemma AccentedResubmission(r: Request, host: string, url: string -> Option<string>, v: Registration, n: nat)
    requires Validate(r, host, url) == Ok(v) && 13 + 2 * n <= 2048
    ensures var sent := r.(websiteUrl := Some(AccentedUrl(n)));
            var kept := v.(websiteUrl := Some(PercentEncode(AccentedUrl(n))));
            && Validate(sent, host, PercentPrinter()) == Ok(kept)
            && (Validate(AsRequest(kept), host, PercentPrinter()) == Ok(kept) <==> 13 + 6 * n <= 2048)
  {
    var sent := r.(websiteUrl := Some(AccentedUrl(n)));
    var kept := v.(websiteUrl := Some(PercentEncode(AccentedUrl(n))));
    AcceptedFields(r, host, url, v);
    AccentedWebsite(n);
    WebsiteReplaced(r, host, url, v, PercentPrinter(), AccentedUrl(n), PercentEncode(AccentedUrl(n)));
    PercentPrinterIsCanonical();
    ResubmissionIsIdentity(sent, host, PercentPrinter(), kept);
  }

  lemma WebsiteReplaced(r: Request, host: string, url: string -> Option<string>, v: Registration,
                        other: string -> Option<string>, website: string, printed: string)
    requires Validate(r, host, url) == Ok(v) && NormalizeWebsite(website, other) == Ok(printed)
    ensures Validate(r.(websiteUrl := Some(website)), host, other) == Ok(v.(websiteUrl := Some(printed)))
  {
    AcceptedFields(r, host, url, v);
    FieldsAreAccepted(r.(websiteUrl := Some(website)), host, other, v.(websiteUrl := Some(printed)));
  }

  // ---------- Requests that are accepted ----------

  predicate Letters(s: string) {
    0 < |s| <= 100 && forall i :: 0 <= i < |s| ==> 'a' <= s[i] <= 'z'
  }

  lemma LettersStay(s: string)
    requires Letters(s)
    ensures Lower(s) == s && Plain(s) && ValidDomainLabel(s) && '.' !in s && '@' !in s && !HasDoubleDot(s)
  {
    assert forall i :: 0 <= i < |s| ==> s[i] != '.';
  }

  predicate LettersAndDots(s: string) {
    forall i :: 0 <= i < |s| ==> 'a' <= s[i] <= 'z' || s[i] == '.'
  }

  lemma LettersAndDotsStay(s: string)
    requires LettersAndDots(s)
    ensures Lower(s) == s && Plain(s) && '@' !in s
  {
  }

  lemma DomainOfLetters(x: string, y: string)
    requires Letters(x) && Letters(y)
    ensures Split(x + "." + y, '.') == [x, y] && '.' in x + "." + y && LettersAndDots(x + "." + y)
  {
    var domain := x + "." + y;
    assert '.' !in x && '.' !in y;
    assert domain[|x|] == '.' && domain[..|x|] == x && domain[|x| + 1..] == y;
    SplitAt(domain, '.', |x|);
    assert Split(y, '.') == [y];
  }

  /** Addresses of lower-case letters are their own normal form. */
  lemma AddressOfLetters(local: string, x: string, y: string)
    requires Letters(local) && Letters(x) && Letters(y)
    ensures NormalizeEmail(local + "@" + (x + "." + y)) == Ok(local + "@" + (x + "." + y))
  {
    LettersStay(local);
    LettersStay(x);
    LettersStay(y);
    DomainOfLetters(x, y);
    LettersAndDotsStay(x + "." + y);
    AddressNormalizes(local, x + "." + y);
  }

  /** An individual's request with one interest and a website. */
  function SimpleRequest(email: string, area: InterestArea, revision: string, at: string, website: string): Request {
    Request("id", email, Individual, None, [area], revision, at, HostName(UserHost), None, None, None, Some(website),
            true, false, None)
  }

  lemma OneInterest(area: InterestArea)
    ensures NormalizeInterests([area]).Ok?
  {
    assert (set a | a in [area]) == {area};
  }

  lemma SimpleRequestIsAccepted(email: string, area: InterestArea, revision: string, at: string, website: string,
                                url: string -> Option<string>)
    requires NormalizeEmail(email).Ok? && NormalizeWebsite(website, url).Ok?
    requires IsPortableIdentifier(Trim(revision), 64) && IsTimestamp(Trim(at))
    ensures Validate(SimpleRequest(email, area, revision, at, website), HostName(UserHost), url).Ok?
  {
    OneInterest(area);
    var r := SimpleRequest(email, area, revision, at, website);
    var v := Registration("id", NormalizeEmail(email).value, Individual, None, NormalizeInterests([area]).value,
                          Trim(revision), Trim(at), UserHost, None, None, None,
                          Some(NormalizeWebsite(website, url).value), true, false, None);
    FieldsAreAccepted(r, HostName(UserHost), url, v);
  }

  lemma SampleDate()
    ensures Rfc3339.FullDate("2026-01-01")
  {
    var date := "2026-01-01";
    assert date[..4] == "2026" && date[5..7] == "01" && date[8..10] == "01";
  }

  lemma SampleTime()
    ensures Rfc3339.ClockTime("00:00:00")
  {
    var time := "00:00:00";
    assert time[..2] == "00" && time[3..5] == "00" && time[6..8] == "00";
  }

  function SampleTimestamp(): (s: string)
    ensures |s| == 20 && forall i :: 0 <= i < |s| ==> !IsWhitespace(s[i])
  {
    "2026-01-01" + "T" + "00:00:00" + ("" + "Z")
  }

  lemma SampleTimestampIsValid()
    ensures IsTimestamp(Trim(SampleTimestamp()))
  {
    SampleDate();
    SampleTime();
    TrimPlain(SampleTimestamp());
    assert Rfc3339.IsDateTime(SampleTimestamp(), "2026-01-01", "00:00:00", "", "Z");
  }

  lemma LetterRevision(s: string)
    requires Letters(s) && |s| == 1
    ensures IsPortableIdentifier(Trim(s), 64)
  {
    TrimPlain(s);
  }

  /** A concrete accepted request whose resubmission fails: 400 accented letters, 813 bytes sent, 2413 printed. */
  lemma ResubmissionCanFail() returns (r: Request, v: Registration)
    ensures r.websiteUrl == Some(AccentedUrl(400))
    ensures Validate(r, HostName(UserHost), PercentPrinter()) == Ok(v)
    ensures Validate(AsRequest(v), HostName(UserHost), PercentPrinter()) != Ok(v)
  {
    var email := "a" + "@" + ("b" + "." + "c");
    AddressOfLetters("a", "b", "c");
    SampleTimestampIsValid();
    AccentedWebsite(400);
    LetterRevision("v");
    r := SimpleRequest(email, Soc2, "v", SampleTimestamp(), AccentedUrl(400));
    SimpleRequestIsAccepted(email, Soc2, "v", SampleTimestamp(), AccentedUrl(400), PercentPrinter());
    v := Validate(r, HostName(UserHost), PercentPrinter()).value;
    AccentedResubmission(r, HostName(UserHost), PercentPrinter(), v, 400);
    assert r == r.(websiteUrl := Some(AccentedUrl(400)));
  }
}
