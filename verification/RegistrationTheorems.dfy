/**
 What validation guarantees about every registration it accepts.
 */
module RegistrationTheorems {
  import opened Wrappers
  import opened Text
  import opened Registration
  import Rfc3339

  // ---------- Which characters survive normalisation ----------

  predicate Clean(s: string) {
    NUL !in s
  }

  predicate CleanOption(s: Option<string>) {
    s.Some? ==> Clean(s.value)
  }

  lemma {:induction false} TrimStartSuffix(s: string)
    ensures |TrimStart(s)| <= |s| && TrimStart(s) == s[|s| - |TrimStart(s)|..]
  {
    if s != [] && IsWhitespace(s[0]) {
      TrimStartSuffix(s[1..]);
    }
  }

  lemma {:induction false} TrimEndPrefix(s: string)
    ensures |TrimEnd(s)| <= |s| && TrimEnd(s) == s[..|TrimEnd(s)|]
  {
    if s != [] && IsWhitespace(s[|s| - 1]) {
      TrimEndPrefix(s[..|s| - 1]);
    }
  }

  lemma PortableIsClean(s: string, max: nat)
    requires IsPortableIdentifier(s, max)
    ensures Clean(s) && ':' !in s
  {
  }

  lemma EmailIsClean(value: string)
    requires NormalizeEmail(value).Ok?
    ensures Clean(NormalizeEmail(value).value)
  {
    var trimmed := Trim(value);
    var at := FirstIndex(trimmed, '@');
    var local, domain := trimmed[..at], trimmed[at + 1..];
    LowerIsClean(local);
    LowerIsClean(domain);
  }

  lemma LowerIsClean(s: string)
    requires Plain(s)
    ensures Clean(Lower(s))
  {
    forall i | 0 <= i < |s| ensures Lower(s)[i] != NUL {
      assert !IsControl(s[i]);
    }
  }

  lemma {:induction false} WordsAreClean(s: string)
    requires Clean(s)
    ensures Clean(JoinWords(Words(s)))
  {
    if s == [] {
    } else if IsWhitespace(s[0]) {
      WordsAreClean(s[1..]);
    } else {
      WordsAreClean(s[WordLength(s)..]);
      var rest := Words(s[WordLength(s)..]);
      assert Words(s)[1..] == rest;
    }
  }

  lemma HumanTextIsClean(value: string, max: nat, error: ValidationError)
    requires NormalizeHumanText(value, max, error).Ok?
    ensures Clean(NormalizeHumanText(value, max, error).value)
  {
    assert forall i :: 0 <= i < |value| ==> !IsControl(value[i]);
    assert Clean(value);
    WordsAreClean(value);
  }

  /** A character other than the separator lies in some segment. */
  lemma {:induction false} SplitCovers(s: string, separator: char, j: nat) returns (k: nat)
    requires j < |s| && s[j] != separator
    ensures k < |Split(s, separator)| && s[j] in Split(s, separator)[k]
  {
    if separator !in s {
      k := 0;
    } else {
      var i := FirstIndex(s, separator);
      if j < i {
        k := 0;
        assert s[..i][j] == s[j];
      } else {
        var rest := s[i + 1..];
        assert s[j] == rest[j - i - 1];
        k := SplitCovers(rest, separator, j - i - 1);
        k := k + 1;
      }
    }
  }

  lemma LocaleIsClean(value: string)
    requires IsLocale(value)
    ensures Clean(value)
  {
    forall j | 0 <= j < |value| ensures value[j] != NUL {
      if value[j] != '-' {
        var k := SplitCovers(value, '-', j);
        assert IsAlphanumeric(value[j]);
      }
    }
  }

  lemma TimestampIsClean(s: string)
    requires IsTimestamp(s)
    ensures Clean(s) && ':' in s
  {
    var date, time, fraction, offset :| Rfc3339.IsDateTime(s, date, time, fraction, offset);
    assert Clean(date) && Clean(time);
    assert forall i :: 1 <= i < |fraction| ==> fraction[i] == fraction[1..][i - 1];
    assert Clean(fraction);
    assert Clean(offset);
    assert time[2] == ':';
    assert s[13] == ':';
  }

  /** The part of an accepted registration that the fingerprint encoding rests on. */
  ghost predicate WellFormed(r: Registration) {
    && Clean(r.email)
    && CleanOption(r.organizationName)
    && r.interests == InOrder(ALL_INTERESTS, set a | a in r.interests)
    && Clean(r.consentRevision) && ':' !in r.consentRevision
    && Clean(r.consentedAt) && ':' in r.consentedAt
    && CleanOption(r.locale)
    && CleanOption(r.referralCode)
    && CleanOption(r.displayName)
    && CleanOption(r.websiteUrl)
    && r.registrationConsent
    && CleanOption(r.marketingRevision)
  }

  ghost predicate UrlsAreClean(url: string -> Option<string>) {
    forall s :: CleanOption(url(s))
  }

  lemma {:induction false} InOrderSpec(areas: seq<InterestArea>, chosen: set<InterestArea>)
    ensures forall a :: a in InOrder(areas, chosen) <==> a in areas && a in chosen
  {
    if areas != [] {
      InOrderSpec(areas[1..], chosen);
      assert forall a :: a in areas <==> a == areas[0] || a in areas[1..];
    }
  }

  lemma EveryInterestIsListed(a: InterestArea)
    ensures a in ALL_INTERESTS
  {
    assert ALL_INTERESTS[0] == ReadinessAssessment && ALL_INTERESTS[1] == Soc2 && ALL_INTERESTS[2] == Iso27001;
    assert ALL_INTERESTS[3] == Hipaa && ALL_INTERESTS[4] == PciDss4 && ALL_INTERESTS[5] == Fedramp;
    assert ALL_INTERESTS[6] == Nist && ALL_INTERESTS[7] == Gdpr && ALL_INTERESTS[8] == Cmmc;
  }

  /** Listing a set in order loses nothing. */
  lemma InOrderKeepsTheSet(chosen: set<InterestArea>)
    ensures (set a | a in InOrder(ALL_INTERESTS, chosen)) == chosen
  {
    InOrderSpec(ALL_INTERESTS, chosen);
    forall a: InterestArea ensures a in ALL_INTERESTS { EveryInterestIsListed(a); }
  }

  /** Every field of an accepted registration is its request field normalised. */
  ghost predicate Normalized(r: Request, url: string -> Option<string>, v: Registration) {
    && NormalizeEmail(r.email) == Ok(v.email)
    && NormalizeOrganization(r.partyType, r.organizationName) == Ok(v.organizationName)
    && Optional(r.displayName, v => NormalizeHumanText(v, 120, InvalidDisplayName)) == Ok(v.displayName)
    && Optional(r.websiteUrl, v => NormalizeWebsite(v, url)) == Ok(v.websiteUrl)
    && NormalizeInterests(r.interests) == Ok(v.interests)
    && v.consentRevision == Trim(r.consentRevision) && IsPortableIdentifier(v.consentRevision, 64)
    && v.consentedAt == Trim(r.consentedAt) && IsTimestamp(v.consentedAt)
    && Optional(r.locale, NormalizeLocale) == Ok(v.locale)
    && Optional(r.referralCode, NormalizeReferral) == Ok(v.referralCode)
    && NormalizeMarketing(r.marketingConsent, r.marketingRevision) == Ok(v.marketingRevision)
  }

  /** The gates outside the fields: host, party and consent. */
  ghost predicate Admissible(r: Request, host: string, v: Registration) {
    && host == r.sourceHost == HostName(v.sourceHost)
    && v.partyType == r.partyType == HostParty(v.sourceHost)
    && v.registrationConsent && r.registrationConsent
    && v.requestId == r.requestId && v.marketingConsent == r.marketingConsent
  }

  lemma AcceptedFields(r: Request, host: string, url: string -> Option<string>, v: Registration)
    requires Validate(r, host, url) == Ok(v)
    ensures Normalized(r, url, v) && Admissible(r, host, v)
  {
  }

  lemma FieldsAreAccepted(r: Request, host: string, url: string -> Option<string>, v: Registration)
    requires Normalized(r, url, v) && Admissible(r, host, v)
    ensures Validate(r, host, url) == Ok(v)
  {
    assert ParseHost(host) == Ok(v.sourceHost);
  }

  /** Acceptance, both ways: the gates hold and every field normalises. */
  lemma AcceptedExactly(r: Request, host: string, url: string -> Option<string>, v: Registration)
    ensures Validate(r, host, url) == Ok(v) <==> Normalized(r, url, v) && Admissible(r, host, v)
  {
    if Validate(r, host, url) == Ok(v) {
      AcceptedFields(r, host, url, v);
    }
    if Normalized(r, url, v) && Admissible(r, host, v) {
      FieldsAreAccepted(r, host, url, v);
    }
  }

  lemma OptionalTextIsClean(r: Request, url: string -> Option<string>, v: Registration)
    requires UrlsAreClean(url) && Normalized(r, url, v)
    ensures CleanOption(v.organizationName) && CleanOption(v.displayName) && CleanOption(v.websiteUrl)
  {
    if r.organizationName.Some? { HumanTextIsClean(r.organizationName.value, 200, InvalidOrganizationName); }
    if r.displayName.Some? { HumanTextIsClean(r.displayName.value, 120, InvalidDisplayName); }
  }

  lemma OptionalNamesAreClean(r: Request, url: string -> Option<string>, v: Registration)
    requires Normalized(r, url, v)
    ensures CleanOption(v.locale) && CleanOption(v.referralCode) && CleanOption(v.marketingRevision)
  {
    if r.locale.Some? { LocaleIsClean(Trim(r.locale.value)); }
  }

  lemma InterestsAreInOrder(interests: seq<InterestArea>)
    requires NormalizeInterests(interests).Ok?
    ensures var listed := NormalizeInterests(interests).value; listed == InOrder(ALL_INTERESTS, set a | a in listed)
  {
    InOrderKeepsTheSet(set a | a in interests);
  }

  /** Every accepted registration has the shape the fingerprint needs, whatever the request held. */
  lemma AcceptedIsWellFormed(r: Request, host: string, url: string -> Option<string>)
    requires UrlsAreClean(url)
    requires Validate(r, host, url).Ok?
    ensures WellFormed(Validate(r, host, url).value)
  {
    var v := Validate(r, host, url).value;
    AcceptedFields(r, host, url, v);
    EmailIsClean(r.email);
    OptionalTextIsClean(r, url, v);
    OptionalNamesAreClean(r, url, v);
    TimestampIsClean(v.consentedAt);
    InterestsAreInOrder(r.interests);
  }

  ghost predicate Accepted(v: Registration, url: string -> Option<string>) {
    exists r: Request, host: string :: Validate(r, host, url) == Ok(v)
  }

  lemma AcceptedAreWellFormed(v: Registration, url: string -> Option<string>)
    requires UrlsAreClean(url) && Accepted(v, url)
    ensures WellFormed(v)
  {
    var r: Request, host: string :| Validate(r, host, url) == Ok(v);
    AcceptedIsWellFormed(r, host, url);
  }

  lemma NormalizeInterestsIgnoresOrder(a: seq<InterestArea>, b: seq<InterestArea>)
    requires multiset(a) == multiset(b)
    ensures NormalizeInterests(a) == NormalizeInterests(b)
  {
    assert |multiset(a)| == |a| && |multiset(b)| == |b|;
    assert forall x :: x in a <==> x in multiset(a);
    assert forall x :: x in b <==> x in multiset(b);
    assert (set x | x in a) == (set x | x in b);
  }

  /** The order in which a request lists its interests is not observable. */
  lemma InterestOrderIsIrrelevant(r: Request, interests: seq<InterestArea>, host: string, url: string -> Option<string>)
    requires multiset(interests) == multiset(r.interests)
    ensures Validate(r.(interests := interests), host, url) == Validate(r, host, url)
  {
    NormalizeInterestsIgnoresOrder(interests, r.interests);
  }
}
