/**
 Normalisation is idempotent: sending an accepted registration again in its normalised form
 is accepted with the same result, so a client may resubmit what the service stored.
 */
module RegistrationIdempotence {
  import opened Wrappers
  import opened Text
  import opened Utf8Text
  import opened Registration
  import opened RegistrationTheorems

  // ---------- Trimming ----------

  lemma {:induction false} TrimEndIdempotent(s: string)
    ensures TrimEnd(TrimEnd(s)) == TrimEnd(s)
    ensures TrimEnd(s) != [] ==> s != [] && TrimEnd(s)[0] == s[0]
  {
    if s != [] && IsWhitespace(s[|s| - 1]) {
      TrimEndIdempotent(s[..|s| - 1]);
    }
  }

  lemma {:induction false} TrimStartIdempotent(s: string)
    ensures TrimStart(s) == [] || !IsWhitespace(TrimStart(s)[0])
  {
    if s != [] && IsWhitespace(s[0]) {
      TrimStartIdempotent(s[1..]);
    }
  }

  lemma TrimIdempotent(s: string)
    ensures Trim(Trim(s)) == Trim(s)
  {
    TrimStartIdempotent(s);
    TrimEndIdempotent(TrimStart(s));
  }

  lemma TrimPlain(s: string)
    requires forall i :: 0 <= i < |s| ==> !IsWhitespace(s[i])
    ensures Trim(s) == s
  {
  }

  // ---------- Human text ----------

  predicate Word(w: string) {
    w != [] && forall i :: 0 <= i < |w| ==> !IsWhitespace(w[i])
  }

  lemma {:induction false} WordLengthSpec(s: string)
    ensures forall i :: 0 <= i < WordLength(s) ==> !IsWhitespace(s[i])
    ensures WordLength(s) < |s| ==> IsWhitespace(s[WordLength(s)])
    ensures s != [] && !IsWhitespace(s[0]) ==> WordLength(s) > 0
  {
    if s != [] && !IsWhitespace(s[0]) {
      WordLengthSpec(s[1..]);
      assert forall i :: 1 <= i < |s| ==> s[i] == s[1..][i - 1];
    }
  }

  lemma {:induction false} WordsAreWords(s: string)
    ensures forall k :: 0 <= k < |Words(s)| ==> Word(Words(s)[k])
  {
    if s == [] {
    } else if IsWhitespace(s[0]) {
      WordsAreWords(s[1..]);
    } else {
      WordLengthSpec(s);
      WordsAreWords(s[WordLength(s)..]);
    }
  }

  /** A word followed by the end or by a space is cut off exactly. */
  lemma {:induction false} WordLengthOf(w: string, rest: string)
    requires forall i :: 0 <= i < |w| ==> !IsWhitespace(w[i])
    requires rest == [] || IsWhitespace(rest[0])
    ensures WordLength(w + rest) == |w|
  {
    if w == [] {
      assert w + rest == rest;
    } else {
      WordLengthOf(w[1..], rest);
      assert (w + rest)[1..] == w[1..] + rest;
      assert (w + rest)[0] == w[0];
    }
  }

  lemma {:induction false} JoinThenSplit(words: seq<string>)
    requires forall k :: 0 <= k < |words| ==> Word(words[k])
    ensures Words(JoinWords(words)) == words
  {
    if words != [] {
      var w, rest := words[0], if |words| == 1 then [] else " " + JoinWords(words[1..]);
      JoinThenSplit(words[1..]);
      var joined := JoinWords(words);
      assert joined == w + rest;
      assert joined[0] == w[0];
      WordLengthOf(w, rest);
      assert joined[..|w|] == w && joined[|w|..] == rest;
      RestOfWords(words[1..], rest);
      assert words == [w] + words[1..];
    }
  }

  lemma RestOfWords(words: seq<string>, rest: string)
    requires rest == if words == [] then [] else " " + JoinWords(words)
    ensures Words(rest) == Words(JoinWords(words))
  {
    if words != [] {
      assert rest[0] == ' ' && rest[1..] == JoinWords(words);
    }
  }

  lemma {:induction false} JoinHasNoControl(s: string)
    requires !HasControl(s)
    ensures !HasControl(JoinWords(Words(s)))
  {
    if s == [] {
    } else if IsWhitespace(s[0]) {
      assert forall i :: 0 <= i < |s[1..]| ==> s[1..][i] == s[i + 1];
      JoinHasNoControl(s[1..]);
    } else {
      var n := WordLength(s);
      WordLengthSpec(s);
      assert forall i :: 0 <= i < |s[n..]| ==> s[n..][i] == s[i + n];
      JoinHasNoControl(s[n..]);
      var rest := Words(s[n..]);
      assert Words(s)[1..] == rest;
      var joined := JoinWords(Words(s));
      forall i | 0 <= i < |joined| ensures !IsControl(joined[i]) {
        if i < n {
          assert joined[i] == s[i];
        } else if i > n {
          assert joined[i] == JoinWords(rest)[i - n - 1];
        }
      }
    }
  }

  lemma HumanTextIdempotent(value: string, max: nat, error: ValidationError)
    requires NormalizeHumanText(value, max, error).Ok?
    ensures var n := NormalizeHumanText(value, max, error).value; NormalizeHumanText(n, max, error) == Ok(n)
  {
    JoinHasNoControl(value);
    WordsAreWords(value);
    JoinThenSplit(Words(value));
  }

  /** Accepted names normalise alike exactly when they have the same words. */
  lemma HumanTextIdentifiesWords(a: string, b: string, max: nat, error: ValidationError)
    requires NormalizeHumanText(a, max, error).Ok? && NormalizeHumanText(b, max, error).Ok?
    ensures NormalizeHumanText(a, max, error) == NormalizeHumanText(b, max, error) <==> Words(a) == Words(b)
  {
    WordsAreWords(a);
    WordsAreWords(b);
    JoinThenSplit(Words(a));
    JoinThenSplit(Words(b));
  }

  // ---------- Email ----------

  lemma LowerKeeps(s: string)
    ensures Lower(Lower(s)) == Lower(s)
    ensures Plain(s) ==> Plain(Lower(s))
    ensures forall i :: 0 <= i < |s| ==> (Lower(s)[i] == '.' <==> s[i] == '.') && (Lower(s)[i] == '@' <==> s[i] == '@')
  {
  }

  lemma FirstIndexUnique(s: string, c: char, i: nat)
    requires i < |s| && s[i] == c && c !in s[..i]
    ensures FirstIndex(s, c) == i
  {
    var j := FirstIndex(s, c);
    assert s[..i] + [c] + s[i + 1..] == s[..j] + [c] + s[j + 1..];
    FieldUnique(s[..i], s[..j], c, s[i + 1..], s[j + 1..]);
  }

  lemma SplitAt(s: string, c: char, i: nat)
    requires i < |s| && s[i] == c && c !in s[..i]
    ensures Split(s, c) == [s[..i]] + Split(s[i + 1..], c)
  {
    assert s[i] in s;
    FirstIndexUnique(s, c, i);
  }

  /** Lowering keeps the first dot where it is and commutes with cutting there. */
  lemma LowerCut(s: string, i: nat)
    requires i < |s| && s[i] == '.' && '.' !in s[..i]
    ensures Lower(s)[i] == '.' && '.' !in Lower(s)[..i]
    ensures Lower(s)[..i] == Lower(s[..i]) && Lower(s)[i + 1..] == Lower(s[i + 1..])
  {
    forall k | 0 <= k < i ensures Lower(s)[..i][k] != '.' {
      assert s[..i][k] == s[k];
    }
  }

  lemma {:induction false} SplitLower(s: string)
    ensures |Split(Lower(s), '.')| == |Split(s, '.')|
    ensures forall k :: 0 <= k < |Split(s, '.')| ==> Split(Lower(s), '.')[k] == Lower(Split(s, '.')[k])
  {
    if '.' !in s {
      assert '.' !in Lower(s);
    } else {
      var i := FirstIndex(s, '.');
      LowerCut(s, i);
      SplitAt(s, '.', i);
      SplitAt(Lower(s), '.', i);
      SplitLower(s[i + 1..]);
    }
  }

  lemma LabelLower(part: string)
    requires ValidDomainLabel(part)
    ensures ValidDomainLabel(Lower(part))
  {
  }

  lemma AddressLower(local: string, domain: string)
    requires AddressOk(local, domain)
    ensures AddressOk(Lower(local), Lower(domain))
  {
    LowerKeeps(local);
    LowerKeeps(domain);
    SplitLower(domain);
    var dot := FirstIndex(domain, '.');
    assert Lower(domain)[dot] == '.';
    forall i | 0 <= i < |Split(domain, '.')| ensures ValidDomainLabel(Split(Lower(domain), '.')[i]) {
      LabelLower(Split(domain, '.')[i]);
    }
  }

  lemma AddressNormalizes(local: string, domain: string)
    requires AddressOk(local, domain) && Plain(local) && Plain(domain) && '@' !in local
    requires |local| + 1 + |domain| <= 320
    ensures NormalizeEmail(local + "@" + domain) == Ok(Lower(local) + "@" + Lower(domain))
  {
    var whole := local + "@" + domain;
    TrimPlain(whole);
    assert whole[|local|] == '@' && whole[..|local|] == local && whole[|local| + 1..] == domain;
    FirstIndexUnique(whole, '@', |local|);
  }

  lemma EmailIdempotent(value: string)
    requires NormalizeEmail(value).Ok?
    ensures var n := NormalizeEmail(value).value; NormalizeEmail(n) == Ok(n)
  {
    var trimmed := Trim(value);
    var at := FirstIndex(trimmed, '@');
    var local, domain := trimmed[..at], trimmed[at + 1..];
    assert AddressOk(local, domain);
    AddressLower(local, domain);
    LowerKeeps(local);
    LowerKeeps(domain);
    AddressNormalizes(Lower(local), Lower(domain));
  }

  /** An accepted address becomes itself without surrounding space and in lower case. */
  lemma EmailIsLowered(value: string)
    requires NormalizeEmail(value).Ok?
    ensures NormalizeEmail(value).value == Lower(Trim(value))
  {
    var trimmed := Trim(value);
    var at := FirstIndex(trimmed, '@');
    assert trimmed == trimmed[..at] + "@" + trimmed[at + 1..];
  }

  // ---------- Interests ----------

  lemma {:induction false} InOrderLength(areas: seq<InterestArea>, chosen: set<InterestArea>)
    requires forall i, j :: 0 <= i < j < |areas| ==> areas[i] != areas[j]
    ensures |InOrder(areas, chosen)| == |set a | a in areas && a in chosen|
    ensures |InOrder(areas, chosen)| <= |areas|
  {
    var rest := set a | a in areas && a in chosen;
    if areas == [] {
      assert rest == {};
    } else {
      InOrderLength(areas[1..], chosen);
      var fewer := set a | a in areas[1..] && a in chosen;
      assert forall a :: a in areas <==> a == areas[0] || a in areas[1..];
      assert rest == if areas[0] in chosen then fewer + {areas[0]} else fewer;
    }
  }

  lemma InterestsIdempotent(interests: seq<InterestArea>)
    requires NormalizeInterests(interests).Ok?
    ensures var n := NormalizeInterests(interests).value; NormalizeInterests(n) == Ok(n)
  {
    var chosen := set a | a in interests;
    var n := InOrder(ALL_INTERESTS, chosen);
    InOrderKeepsTheSet(chosen);
    InOrderLength(ALL_INTERESTS, chosen);
    forall a: InterestArea ensures a in ALL_INTERESTS { EveryInterestIsListed(a); }
    assert (set a | a in ALL_INTERESTS && a in chosen) == chosen;
    assert interests[0] in chosen;
  }

  // ---------- The whole registration ----------

  /** The request a client would send to register `v` again. */
  function AsRequest(v: Registration): Request {
    Request(v.requestId, v.email, v.partyType, v.organizationName, v.interests, v.consentRevision, v.consentedAt,
            HostName(v.sourceHost), v.locale, v.referralCode, v.displayName, v.websiteUrl, v.registrationConsent,
            v.marketingConsent, v.marketingRevision)
  }

  lemma NamesAreFixed(r: Request, url: string -> Option<string>, v: Registration)
    requires Normalized(r, url, v)
    ensures Optional(v.locale, NormalizeLocale) == Ok(v.locale)
    ensures Optional(v.referralCode, NormalizeReferral) == Ok(v.referralCode)
    ensures NormalizeMarketing(r.marketingConsent, v.marketingRevision) == Ok(v.marketingRevision)
    ensures Trim(v.consentRevision) == v.consentRevision && Trim(v.consentedAt) == v.consentedAt
  {
    TrimIdempotent(r.consentRevision);
    TrimIdempotent(r.consentedAt);
    if r.locale.Some? { TrimIdempotent(r.locale.value); }
    if r.referralCode.Some? { TrimIdempotent(r.referralCode.value); }
    if r.marketingRevision.Some? { TrimIdempotent(r.marketingRevision.value); }
  }

  lemma TextsAreFixed(r: Request, url: string -> Option<string>, v: Registration)
    requires Normalized(r, url, v)
    ensures NormalizeOrganization(r.partyType, v.organizationName) == Ok(v.organizationName)
    ensures Optional(v.displayName, v => NormalizeHumanText(v, 120, InvalidDisplayName)) == Ok(v.displayName)
  {
    if r.organizationName.Some? { HumanTextIdempotent(r.organizationName.value, 200, InvalidOrganizationName); }
    if r.displayName.Some? { HumanTextIdempotent(r.displayName.value, 120, InvalidDisplayName); }
  }

  /** Printed URLs are not empty, hold no whitespace or control character, and parse to themselves. */
  ghost predicate CanonicalUrls(url: string -> Option<string>) {
    forall s :: url(s).Some? ==> CanonicalUrl(url, url(s).value)
  }

  predicate CanonicalUrl(url: string -> Option<string>, text: string) {
    text != [] && !HasControl(text) && (forall i :: 0 <= i < |text| ==> !IsWhitespace(text[i]))
        && url(text) == Some(text)
  }

  /** The length check of a submitted URL, in bytes. */
  predicate ShortUrl(text: string) {
    |Utf8(text)| <= 2048
  }

  lemma PrintedWebsite(url: string -> Option<string>, text: string)
    requires CanonicalUrl(url, text)
    ensures NormalizeWebsite(text, url) == if ShortUrl(text) then Ok(text) else Err(InvalidWebsiteUrl)
  {
    TrimPlain(text);
  }

  /**
   Where printed URLs are canonical, resubmitting an accepted registration gives it back
   unchanged exactly when its printed website URL, if any, is no longer than 2048 bytes.
   */
  lemma ResubmissionIsIdentity(r: Request, host: string, url: string -> Option<string>, v: Registration)
    requires CanonicalUrls(url) && Validate(r, host, url) == Ok(v)
    ensures Validate(AsRequest(v), host, url) == Ok(v) <==> (v.websiteUrl.Some? ==> ShortUrl(v.websiteUrl.value))
  {
    AcceptedFields(r, host, url, v);
    if v.websiteUrl.Some? {
      PrintedWebsite(url, v.websiteUrl.value);
    }
    ResubmittedFields(r, host, url, v);
    AcceptedExactly(AsRequest(v), host, url, v);
  }

  /** Every field but the website normalises to itself. */
  lemma ResubmittedFields(r: Request, host: string, url: string -> Option<string>, v: Registration)
    requires Validate(r, host, url) == Ok(v)
    ensures Admissible(AsRequest(v), host, v)
    ensures Normalized(AsRequest(v), url, v) <==>
              Optional(v.websiteUrl, w => NormalizeWebsite(w, url)) == Ok(v.websiteUrl)
  {
    AcceptedFields(r, host, url, v);
    EmailIdempotent(r.email);
    TextsAreFixed(r, url, v);
    InterestsIdempotent(r.interests);
    NamesAreFixed(r, url, v);
  }
}
