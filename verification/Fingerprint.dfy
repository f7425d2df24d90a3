/**
 The keyed request fingerprint of a registration (src/pre_interest.rs): which text is fed
 to the MAC, and why two registrations that differ in any field but the request id are fed
 different text although the fields carry no length prefix.
 */
module Fingerprint {
  import opened Wrappers
  import opened Text
  import opened Utf8Text
  import opened Registration
  import opened RegistrationTheorems

  // ---------- The encoding ----------

  const CONTEXT := "canonical.pre-interest.request-fingerprint.v1\0"
  const ONE: char := 1 as char

  /** One field and what follows it. */
  function Field(value: string, rest: string): string {
    value + [NUL] + rest
  }

  function OptionalField(value: Option<string>, rest: string): string {
    match value
    case Some(v) => [ONE] + Field(v, rest)
    case None => [NUL, NUL] + rest
  }

  /** Consecutive fields with no count and no end mark. */
  function Fields(values: seq<string>, rest: string): string {
    if values == [] then rest else Field(values[0], Fields(values[1..], rest))
  }

  function InterestNames(interests: seq<InterestArea>): seq<string> {
    seq(|interests|, i requires 0 <= i < |interests| => InterestName(interests[i]))
  }

  function PartyName(p: PartyType): string {
    if p.Individual? then "individual" else "organization"
  }

  function BooleanName(b: bool): string {
    if b then "true" else "false"
  }

  /** Everything from the source host on. */
  function Tail(r: Registration): string {
    Field(HostName(r.sourceHost),
          OptionalField(r.locale,
                        OptionalField(r.referralCode,
                                      OptionalField(r.displayName,
                                                    OptionalField(r.websiteUrl, Consents(r))))))
  }

  function Consents(r: Registration): string {
    Field(BooleanName(r.registrationConsent),
          Field(BooleanName(r.marketingConsent), OptionalField(r.marketingRevision, [])))
  }

  function Body(r: Registration): string {
    Field(r.email,
          Field(PartyName(r.partyType),
                OptionalField(r.organizationName,
                              Fields(InterestNames(r.interests) + [r.consentRevision],
                                     Field(r.consentedAt, Tail(r))))))
  }

  /** The whole text fed to the MAC. */
  function Preimage(r: Registration): string {
    CONTEXT + Body(r)
  }

  // ---------- The encoding spelled out ----------

  lemma FieldIs(value: string, rest: string)
    ensures Field(value, rest) == value + "\0" + rest
  {
  }

  /** How an optional value is fed. */
  function Tagged(value: Option<string>): string {
    if value.None? then "\0\0" else "\U{01}" + value.value + "\0"
  }

  lemma OptionalIs(value: Option<string>, rest: string)
    ensures OptionalField(value, rest) == Tagged(value) + rest
  {
    if value.Some? {
      assert Tagged(value) + rest == [ONE] + (value.value + [NUL] + rest);
    }
  }

  /** The interest names, each ended by a zero byte. */
  function Listed(interests: seq<InterestArea>): string {
    if interests == [] then [] else InterestName(interests[0]) + "\0" + Listed(interests[1..])
  }

  lemma {:induction false} FieldsAre(interests: seq<InterestArea>, rest: string)
    ensures Fields(InterestNames(interests), rest) == Listed(interests) + rest
  {
    if interests != [] {
      assert InterestNames(interests)[1..] == InterestNames(interests[1..]);
      FieldsAre(interests[1..], rest);
      FieldIs(InterestName(interests[0]), Listed(interests[1..]) + rest);
      assert InterestName(interests[0]) + "\0" + (Listed(interests[1..]) + rest)
          == InterestName(interests[0]) + "\0" + Listed(interests[1..]) + rest;
    }
  }

  /** The order of the fields from the source host on. */
  lemma TailSpelledOut(r: Registration)
    ensures Tail(r) == HostName(r.sourceHost) + "\0" + (Tagged(r.locale) + (Tagged(r.referralCode)
                       + (Tagged(r.displayName) + (Tagged(r.websiteUrl) + Consents(r)))))
    ensures Consents(r) == (if r.registrationConsent then "true" else "false") + "\0"
                           + ((if r.marketingConsent then "true" else "false") + "\0"
                              + (Tagged(r.marketingRevision) + []))
  {
    var website := OptionalField(r.websiteUrl, Consents(r));
    var display := OptionalField(r.displayName, website);
    var referral := OptionalField(r.referralCode, display);
    var locale := OptionalField(r.locale, referral);
    OptionalIs(r.websiteUrl, Consents(r));
    OptionalIs(r.displayName, website);
    OptionalIs(r.referralCode, display);
    OptionalIs(r.locale, referral);
    FieldIs(HostName(r.sourceHost), locale);
    OptionalIs(r.marketingRevision, []);
  }

  /** The whole text: context, address, party, organization, interests in order, consent revision
      and time, and then the fields of `TailSpelledOut`. */
  lemma PreimageSpelledOut(r: Registration)
    ensures Preimage(r)
            == "canonical.pre-interest.request-fingerprint.v1\0"
               + (r.email + "\0" + ((if r.partyType == Individual then "individual" else "organization") + "\0"
               + (Tagged(r.organizationName) + (Listed(r.interests)
               + (r.consentRevision + "\0" + (r.consentedAt + "\0" + Tail(r)))))))
  {
    var stamped := Field(r.consentedAt, Tail(r));
    var revised := Field(r.consentRevision, stamped);
    var listed := Fields(InterestNames(r.interests) + [r.consentRevision], stamped);
    FieldsAppend(InterestNames(r.interests), r.consentRevision, stamped);
    FieldsAre(r.interests, revised);
    OptionalIs(r.organizationName, listed);
  }

  // ---------- Decoding field by field ----------

  lemma FieldDecodes(a: string, b: string, x: string, y: string)
    requires Clean(a) && Clean(b)
    requires Field(a, x) == Field(b, y)
    ensures a == b && x == y
  {
    FieldUnique(a, b, NUL, x, y);
  }

  lemma OptionalDecodes(a: Option<string>, b: Option<string>, x: string, y: string)
    requires CleanOption(a) && CleanOption(b)
    requires OptionalField(a, x) == OptionalField(b, y)
    ensures a == b && x == y
  {
    var left, right := OptionalField(a, x), OptionalField(b, y);
    assert left[0] == if a.Some? then ONE else NUL;
    assert right[0] == if b.Some? then ONE else NUL;
    if a.Some? {
      assert left[1..] == Field(a.value, x) && right[1..] == Field(b.value, y);
      FieldDecodes(a.value, b.value, x, y);
    } else {
      assert left[2..] == x && right[2..] == y;
    }
  }

  ghost predicate PlainNames(values: seq<string>) {
    forall i :: 0 <= i < |values| ==> Clean(values[i]) && ':' !in values[i]
  }

  /** The uncounted list ends exactly where the first field with a colon starts. */
  lemma {:induction false} ListDecodes(xs: seq<string>, ys: seq<string>, t: string, u: string, x: string, y: string)
    requires PlainNames(xs) && PlainNames(ys)
    requires Clean(t) && ':' in t && Clean(u) && ':' in u
    requires Fields(xs, Field(t, x)) == Fields(ys, Field(u, y))
    ensures xs == ys && t == u && x == y
  {
    var a := if xs == [] then t else xs[0];
    var b := if ys == [] then u else ys[0];
    var restA := if xs == [] then x else Fields(xs[1..], Field(t, x));
    var restB := if ys == [] then y else Fields(ys[1..], Field(u, y));
    FieldDecodes(a, b, restA, restB);
    if xs != [] && ys != [] {
      ListDecodes(xs[1..], ys[1..], t, u, x, y);
      assert xs == [xs[0]] + xs[1..] && ys == [ys[0]] + ys[1..];
    }
  }

  lemma NamesArePlain(r: Registration)
    requires WellFormed(r)
    ensures PlainNames(InterestNames(r.interests) + [r.consentRevision])
  {
    var names := InterestNames(r.interests) + [r.consentRevision];
    forall i | 0 <= i < |names| ensures Clean(names[i]) && ':' !in names[i] {
      if i < |r.interests| {
        InterestNameIsPortable(r.interests[i]);
        PortableIsClean(names[i], 20);
      }
    }
  }

  lemma InterestNameIsPortable(a: InterestArea)
    ensures IsPortableIdentifier(InterestName(a), 20)
  {
  }

  function ParseInterest(name: string): Option<InterestArea> {
    match name
    case "readiness_assessment" => Some(ReadinessAssessment)
    case "soc2" => Some(Soc2)
    case "iso_27001" => Some(Iso27001)
    case "hipaa" => Some(Hipaa)
    case "pci_dss_4" => Some(PciDss4)
    case "fedramp" => Some(Fedramp)
    case "nist" => Some(Nist)
    case "gdpr" => Some(Gdpr)
    case "cmmc" => Some(Cmmc)
    case _ => None
  }

  lemma InterestRoundTrip(a: InterestArea)
    ensures ParseInterest(InterestName(a)) == Some(a)
  {
  }

  lemma NamesDetermineInterests(a: seq<InterestArea>, b: seq<InterestArea>)
    requires InterestNames(a) == InterestNames(b)
    ensures a == b
  {
    assert |InterestNames(a)| == |InterestNames(b)|;
    forall i | 0 <= i < |a| ensures a[i] == b[i] {
      assert InterestNames(a)[i] == InterestNames(b)[i];
      InterestRoundTrip(a[i]);
      InterestRoundTrip(b[i]);
    }
  }

  lemma ConsentsDecode(a: Registration, b: Registration)
    requires WellFormed(a) && WellFormed(b) && Consents(a) == Consents(b)
    ensures a.marketingConsent == b.marketingConsent && a.marketingRevision == b.marketingRevision
  {
    var restA := Field(BooleanName(a.marketingConsent), OptionalField(a.marketingRevision, []));
    var restB := Field(BooleanName(b.marketingConsent), OptionalField(b.marketingRevision, []));
    FieldDecodes("true", "true", restA, restB);
    FieldDecodes(BooleanName(a.marketingConsent), BooleanName(b.marketingConsent),
                 OptionalField(a.marketingRevision, []), OptionalField(b.marketingRevision, []));
    OptionalDecodes(a.marketingRevision, b.marketingRevision, [], []);
  }

  lemma TailDecodes(a: Registration, b: Registration)
    requires WellFormed(a) && WellFormed(b) && Tail(a) == Tail(b)
    ensures a.sourceHost == b.sourceHost && a.locale == b.locale && a.referralCode == b.referralCode
    ensures a.displayName == b.displayName && a.websiteUrl == b.websiteUrl && Consents(a) == Consents(b)
  {
    var (w1, w2) := (OptionalField(a.websiteUrl, Consents(a)), OptionalField(b.websiteUrl, Consents(b)));
    var (d1, d2) := (OptionalField(a.displayName, w1), OptionalField(b.displayName, w2));
    var (r1, r2) := (OptionalField(a.referralCode, d1), OptionalField(b.referralCode, d2));
    var (l1, l2) := (OptionalField(a.locale, r1), OptionalField(b.locale, r2));
    HostNamesDiffer(a.sourceHost, b.sourceHost);
    FieldDecodes(HostName(a.sourceHost), HostName(b.sourceHost), l1, l2);
    OptionalDecodes(a.locale, b.locale, r1, r2);
    OptionalDecodes(a.referralCode, b.referralCode, d1, d2);
    OptionalDecodes(a.displayName, b.displayName, w1, w2);
    OptionalDecodes(a.websiteUrl, b.websiteUrl, Consents(a), Consents(b));
  }

  lemma HostNamesDiffer(a: Host, b: Host)
    ensures Clean(HostName(a)) && Clean(HostName(b))
    ensures HostName(a) == HostName(b) ==> a == b
  {
    assert HostName(UserHost)[0] == 'u' && HostName(OrganizationHost)[0] == 'o';
  }

  lemma HeadDecodes(a: Registration, b: Registration)
    requires WellFormed(a) && WellFormed(b) && Body(a) == Body(b)
    ensures a.email == b.email && a.partyType == b.partyType && a.organizationName == b.organizationName
    ensures InterestNames(a.interests) == InterestNames(b.interests)
    ensures a.consentRevision == b.consentRevision && a.consentedAt == b.consentedAt && Tail(a) == Tail(b)
  {
    var xs, ys := InterestNames(a.interests) + [a.consentRevision], InterestNames(b.interests) + [b.consentRevision];
    var (n1, n2) := (Fields(xs, Field(a.consentedAt, Tail(a))), Fields(ys, Field(b.consentedAt, Tail(b))));
    var (o1, o2) := (OptionalField(a.organizationName, n1), OptionalField(b.organizationName, n2));
    FieldDecodes(a.email, b.email, Field(PartyName(a.partyType), o1), Field(PartyName(b.partyType), o2));
    FieldDecodes(PartyName(a.partyType), PartyName(b.partyType), o1, o2);
    OptionalDecodes(a.organizationName, b.organizationName, n1, n2);
    NamesArePlain(a);
    NamesArePlain(b);
    ListDecodes(xs, ys, a.consentedAt, b.consentedAt, Tail(a), Tail(b));
    assert xs[..|xs| - 1] == InterestNames(a.interests) && ys[..|ys| - 1] == InterestNames(b.interests);
    assert xs[|xs| - 1] == a.consentRevision && ys[|ys| - 1] == b.consentRevision;
  }

  /** On accepted registrations the encoding forgets the request id and nothing else. */
  lemma PreimageInjective(a: Registration, b: Registration)
    requires WellFormed(a) && WellFormed(b)
    ensures Preimage(a) == Preimage(b) <==> a == b.(requestId := a.requestId)
  {
    if Preimage(a) == Preimage(b) {
      assert Preimage(a)[|CONTEXT|..] == Body(a) && Preimage(b)[|CONTEXT|..] == Body(b);
      HeadDecodes(a, b);
      NamesDetermineInterests(a.interests, b.interests);
      TailDecodes(a, b);
      ConsentsDecode(a, b);
    }
  }

  /** The bytes authenticated for a registration. */
  function Message(r: Registration): seq<byte> {
    Utf8(Preimage(r))
  }

  lemma MessageInjective(a: Registration, b: Registration)
    requires WellFormed(a) && WellFormed(b)
    ensures Message(a) == Message(b) <==> a == b.(requestId := a.requestId)
  {
    PreimageInjective(a, b);
    if Message(a) == Message(b) {
      Utf8Injective(Preimage(a), Preimage(b));
    }
  }

  type Hmac = (seq<byte>, seq<byte>) -> seq<byte>

  predicate Collides(hmac: Hmac, key: seq<byte>, m: seq<byte>, n: seq<byte>) {
    m != n && hmac(key, m) == hmac(key, n)
  }

  /**
   Accepted registrations get equal fingerprints when they agree outside the request id, and
   otherwise only by a collision of the MAC under that key.
   */
  lemma FingerprintIdentifies(a: Registration, b: Registration, url: string -> Option<string>, hmac: Hmac,
                              key: seq<byte>)
    requires UrlsAreClean(url) && Accepted(a, url) && Accepted(b, url)
    ensures hmac(key, Message(a)) == hmac(key, Message(b)) <==>
              a == b.(requestId := a.requestId) || Collides(hmac, key, Message(a), Message(b))
  {
    AcceptedAreWellFormed(a, url);
    AcceptedAreWellFormed(b, url);
    MessageInjective(a, b);
  }

  // ---------- Feeding the MAC ----------

  /** The MAC in progress: its key, the bytes absorbed so far and, for the proof, the text they encode. */
  class Mac {
    const key: seq<byte>
    var fed: seq<byte>
    ghost var text: string

    ghost predicate Valid()
      reads this
    {
      fed == Utf8(text)
    }

    constructor (key: seq<byte>, context: string)
      ensures this.key == key && text == context && Valid()
    {
      this.key := key;
      fed := Utf8(context);
      text := context;
    }

    method Update(bytes: seq<byte>, ghost more: string)
      requires Valid() && bytes == Utf8(more)
      modifies this
      ensures Valid() && text == old(text) + more
    {
      Utf8Append(text, more);
      fed := fed + bytes;
      text := text + more;
    }

    /** `update_field` */
    method UpdateField(value: string)
      requires Valid()
      modifies this
      ensures Valid() && text == old(text) + Field(value, [])
      ensures forall rest: string :: text + rest == old(text) + Field(value, rest)
    {
      Update(Utf8(value), value);
      Utf8Ascii(NUL);
      Update([0], [NUL]);
    }

    /** `update_optional` */
    method UpdateOptional(value: Option<string>)
      requires Valid()
      modifies this
      ensures Valid() && text == old(text) + OptionalField(value, [])
      ensures forall rest: string :: text + rest == old(text) + OptionalField(value, rest)
    {
      match value {
        case Some(v) =>
          Utf8Ascii(ONE);
          Update([1], [ONE]);
          UpdateField(v);
          assert forall rest: string :: text + rest == old(text) + ([ONE] + Field(v, rest));
        case None =>
          Utf8Ascii(NUL);
          Utf8Append([NUL], [NUL]);
          assert [NUL] + [NUL] == [NUL, NUL];
          Update([0, 0], [NUL, NUL]);
      }
    }
  }

  // ---------- The derivation ----------

  lemma {:induction false} FieldsAppend(values: seq<string>, value: string, rest: string)
    ensures Fields(values + [value], rest) == Fields(values, Field(value, rest))
  {
    if values == [] {
      assert Fields([value][1..], rest) == rest;
    } else {
      FieldsAppend(values[1..], value, rest);
      assert (values + [value])[1..] == values[1..] + [value];
    }
  }

  /** `derive_request_fingerprint`: refuses short keys, otherwise authenticates the message. */
  method DeriveRequestFingerprint(key: seq<byte>, r: Registration, hmac: Hmac) returns (digest: Option<seq<byte>>)
    ensures digest == if |key| < 32 then None else Some(hmac(key, Message(r)))
  {
    if |key| < 32 {
      return None;
    }
    var mac := new Mac(key, CONTEXT);
    FeedBody(mac, r);
    digest := Some(hmac(key, mac.fed));
  }

  method FeedBody(mac: Mac, r: Registration)
    requires mac.Valid()
    modifies mac
    ensures mac.Valid() && mac.text == old(mac.text) + Body(r)
  {
    ghost var whole := mac.text + Body(r);
    ghost var names := InterestNames(r.interests);
    ghost var stamped := Field(r.consentedAt, Tail(r));
    ghost var revised := Field(r.consentRevision, stamped);
    ghost var organized := OptionalField(r.organizationName, Fields(names, revised));
    FieldsAppend(names, r.consentRevision, stamped);
    mac.UpdateField(r.email);
    assert mac.text + Field(PartyName(r.partyType), organized) == whole;
    mac.UpdateField(PartyName(r.partyType));
    assert mac.text + organized == whole;
    mac.UpdateOptional(r.organizationName);
    assert mac.text + Fields(names, revised) == whole;
    FeedInterests(mac, r.interests, revised);
    assert mac.text + revised == whole;
    mac.UpdateField(r.consentRevision);
    assert mac.text + stamped == whole;
    mac.UpdateField(r.consentedAt);
    assert mac.text + Tail(r) == whole;
    FeedTail(mac, r);
  }

  /** The loop over the interest areas. */
  method FeedInterests(mac: Mac, interests: seq<InterestArea>, ghost rest: string)
    requires mac.Valid()
    modifies mac
    ensures mac.Valid() && mac.text + rest == old(mac.text) + Fields(InterestNames(interests), rest)
  {
    ghost var names := InterestNames(interests);
    ghost var whole := mac.text + Fields(names, rest);
    assert names[0..] == names;
    for i := 0 to |interests|
      invariant mac.Valid()
      invariant mac.text + Fields(names[i..], rest) == whole
    {
      assert names[i..][1..] == names[i + 1..];
      mac.UpdateField(InterestName(interests[i]));
    }
  }

  /** The fields from the source host on. */
  method FeedTail(mac: Mac, r: Registration)
    requires mac.Valid()
    modifies mac
    ensures mac.Valid() && mac.text == old(mac.text + Tail(r))
  {
    ghost var whole := mac.text + Tail(r);
    ghost var website := OptionalField(r.websiteUrl, Consents(r));
    ghost var display := OptionalField(r.displayName, website);
    ghost var referral := OptionalField(r.referralCode, display);
    ghost var locale := OptionalField(r.locale, referral);
    mac.UpdateField(HostName(r.sourceHost));
    assert mac.text + locale == whole;
    mac.UpdateOptional(r.locale);
    assert mac.text + referral == whole;
    mac.UpdateOptional(r.referralCode);
    assert mac.text + display == whole;
    mac.UpdateOptional(r.displayName);
    assert mac.text + website == whole;
    mac.UpdateOptional(r.websiteUrl);
    assert mac.text + Consents(r) == whole;
    FeedConsents(mac, r);
  }

  method FeedConsents(mac: Mac, r: Registration)
    requires mac.Valid()
    modifies mac
    ensures mac.Valid() && mac.text == old(mac.text + Consents(r))
  {
    ghost var whole := mac.text + Consents(r);
    ghost var revision := OptionalField(r.marketingRevision, []);
    mac.UpdateField(BooleanName(r.registrationConsent));
    assert mac.text + Field(BooleanName(r.marketingConsent), revision) == whole;
    mac.UpdateField(BooleanName(r.marketingConsent));
    assert mac.text + revision == whole;
    mac.UpdateOptional(r.marketingRevision);
  }
}
