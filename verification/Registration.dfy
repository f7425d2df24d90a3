/**
 Validation and normalisation of a pre-interest registration (src/pre_interest.rs).
 URL parsing is a parameter: `url` stands for parsing, the scheme, host and credential
 checks, and printing the parsed URL.
 */
module Registration {
  import opened Wrappers
  import opened Text
  import opened Utf8Text
  import Rfc3339

  const NUL: char := '\0'

  datatype PartyType = Individual | Organization

  datatype InterestArea =
    | ReadinessAssessment | Soc2 | Iso27001 | Hipaa | PciDss4 | Fedramp | Nist | Gdpr | Cmmc

  datatype Host = UserHost | OrganizationHost

  datatype Request = Request(
    requestId: string,
    email: string,
    partyType: PartyType,
    organizationName: Option<string>,
    interests: seq<InterestArea>,
    consentRevision: string,
    consentedAt: string,
    sourceHost: string,
    locale: Option<string>,
    referralCode: Option<string>,
    displayName: Option<string>,
    websiteUrl: Option<string>,
    registrationConsent: bool,
    marketingConsent: bool,
    marketingRevision: Option<string>)

  datatype Registration = Registration(
    requestId: string,
    email: string,
    partyType: PartyType,
    organizationName: Option<string>,
    interests: seq<InterestArea>,
    consentRevision: string,
    consentedAt: string,
    sourceHost: Host,
    locale: Option<string>,
    referralCode: Option<string>,
    displayName: Option<string>,
    websiteUrl: Option<string>,
    registrationConsent: bool,
    marketingConsent: bool,
    marketingRevision: Option<string>)

  datatype ValidationError =
    | DuplicateInterest | EmptyInterestSet | InvalidConsentRevision | InvalidConsentedAt
    | InvalidDisplayName | InvalidEmail | InvalidLocale | InvalidMarketingConsentRevision
    | InvalidOrganizationName | InvalidReferralCode | InvalidSourceHost | InvalidWebsiteUrl
    | OrganizationNameForbidden | OrganizationNameRequired | PartyHostMismatch
    | RegistrationConsentRequired | SourceHostMismatch | TooManyInterests
    | UnexpectedMarketingConsentRevision

  datatype Result<+T> = Ok(value: T) | Err(error: ValidationError) {
    predicate IsFailure() { Err? }
    function PropagateFailure<U>(): Result<U> requires Err? { Err(error) }
    function Extract(): T requires Ok? { value }
  }

  // ---------- Names ----------

  function InterestName(a: InterestArea): string {
    match a
    case ReadinessAssessment => "readiness_assessment"
    case Soc2 => "soc2"
    case Iso27001 => "iso_27001"
    case Hipaa => "hipaa"
    case PciDss4 => "pci_dss_4"
    case Fedramp => "fedramp"
    case Nist => "nist"
    case Gdpr => "gdpr"
    case Cmmc => "cmmc"
  }

  function HostName(h: Host): string {
    if h.UserHost? then "user.canonical.plus" else "org.canonical.plus"
  }

  function ParseHost(value: string): Result<Host> {
    if value == "user.canonical.plus" then Ok(UserHost)
    else if value == "org.canonical.plus" then Ok(OrganizationHost)
    else Err(InvalidSourceHost)
  }

  function HostParty(h: Host): PartyType {
    if h.UserHost? then Individual else Organization
  }

  // ---------- Characters ----------

  /** The Unicode White_Space property. */
  predicate IsWhitespace(c: char) {
    var n := c as int;
    0x9 <= n <= 0xd || n == 0x20 || n == 0x85 || n == 0xa0 || n == 0x1680 || 0x2000 <= n <= 0x200a
    || n == 0x2028 || n == 0x2029 || n == 0x202f || n == 0x205f || n == 0x3000
  }

  /** General category Cc. */
  predicate IsControl(c: char) {
    c as int <= 0x1f || 0x7f <= c as int <= 0x9f
  }

  predicate IsAlphabetic(c: char) {
    'a' <= c <= 'z' || 'A' <= c <= 'Z'
  }

  function TrimStart(s: string): string {
    if s != [] && IsWhitespace(s[0]) then TrimStart(s[1..]) else s
  }

  function Trim(s: string): string {
    TrimEnd(TrimStart(s))
  }

  function TrimEnd(s: string): string {
    if s != [] && IsWhitespace(s[|s| - 1]) then TrimEnd(s[..|s| - 1]) else s
  }

  function Split(s: string, c: char): seq<string> {
    if c !in s then [s]
    else
      var i := FirstIndex(s, c);
      [s[..i]] + Split(s[i + 1..], c)
  }

  function FirstIndex(s: string, c: char): (i: nat)
    requires c in s
    ensures i < |s| && s[i] == c && c !in s[..i]
  {
    if s[0] == c then 0 else FirstIndex(s[1..], c) + 1
  }

  function Lower(s: string): string {
    seq(|s|, i requires 0 <= i < |s| => if 'A' <= s[i] <= 'Z' then s[i] - 'A' + 'a' else s[i])
  }

  // ---------- Fields ----------

  predicate IsPortableIdentifier(value: string, max: nat) {
    0 < |value| <= max && IsAlphanumeric(value[0])
    && forall i :: 0 <= i < |value| ==>
        IsAlphanumeric(value[i]) || value[i] == '.' || value[i] == '_' || value[i] == '-'
  }

  predicate ValidDomainLabel(part: string) {
    part != [] && part[0] != '-' && part[|part| - 1] != '-'
    && forall i :: 0 <= i < |part| ==> IsAlphanumeric(part[i]) || part[i] == '-'
  }

  predicate HasDoubleDot(s: string) {
    exists i | 0 <= i < |s| - 1 :: s[i] == '.' && s[i + 1] == '.'
  }

  predicate Plain(s: string) {
    forall i :: 0 <= i < |s| ==> s[i] as int < 0x80 && !IsControl(s[i]) && !IsWhitespace(s[i])
  }

  /** The local-part and domain checks of an address. */
  predicate AddressOk(local: string, domain: string) {
    && local != [] && domain != [] && '@' !in domain && local[0] != '.' && local[|local| - 1] != '.'
    && !HasDoubleDot(local) && '.' in domain
    && forall i :: 0 <= i < |Split(domain, '.')| ==> ValidDomainLabel(Split(domain, '.')[i])
  }

  function NormalizeEmail(value: string): Result<string> {
    var trimmed := Trim(value);
    if trimmed == [] || |trimmed| > 320 || !Plain(trimmed) || '@' !in trimmed then Err(InvalidEmail)
    else
      var at := FirstIndex(trimmed, '@');
      var local, domain := trimmed[..at], trimmed[at + 1..];
      if AddressOk(local, domain) then Ok(Lower(local) + "@" + Lower(domain)) else Err(InvalidEmail)
  }

  function WordLength(s: string): (n: nat)
    ensures n <= |s|
  {
    if s == [] || IsWhitespace(s[0]) then 0 else 1 + WordLength(s[1..])
  }

  /** `split_whitespace` */
  function Words(s: string): seq<string> {
    if s == [] then []
    else if IsWhitespace(s[0]) then Words(s[1..])
    else [s[..WordLength(s)]] + Words(s[WordLength(s)..])
  }

  function JoinWords(words: seq<string>): string {
    if words == [] then []
    else if |words| == 1 then words[0]
    else words[0] + " " + JoinWords(words[1..])
  }

  predicate HasControl(s: string) {
    exists i | 0 <= i < |s| :: IsControl(s[i])
  }

  function NormalizeHumanText(value: string, max: nat, error: ValidationError): Result<string> {
    if HasControl(value) then Err(error)
    else
      var normalized := JoinWords(Words(value));
      if normalized == [] || |normalized| > max then Err(error) else Ok(normalized)
  }

  function NormalizeWebsite(value: string, url: string -> Option<string>): Result<string> {
    var normalized := Trim(value);
    if normalized == [] || |Utf8(normalized)| > 2048 || HasControl(normalized)
       || (exists i | 0 <= i < |normalized| :: IsWhitespace(normalized[i]))
    then Err(InvalidWebsiteUrl)
    else
      match url(normalized)
      case Some(text) => Ok(text)
      case None => Err(InvalidWebsiteUrl)
  }

  predicate IsLocale(value: string) {
    var segments := Split(value, '-');
    && 2 <= |segments[0]| <= 3 && (forall i :: 0 <= i < |segments[0]| ==> IsAlphabetic(segments[0][i]))
    && forall k :: 1 <= k < |segments| ==>
         2 <= |segments[k]| <= 8 && forall i :: 0 <= i < |segments[k]| ==> IsAlphanumeric(segments[k][i])
  }

  function NormalizeLocale(value: string): Result<string> {
    var normalized := Trim(value);
    if |normalized| < 2 || |normalized| > 35 || !IsLocale(normalized) then Err(InvalidLocale) else Ok(normalized)
  }

  function NormalizeReferral(value: string): Result<string> {
    if IsPortableIdentifier(Trim(value), 64) then Ok(Trim(value)) else Err(InvalidReferralCode)
  }

  function Optional(value: Option<string>, normalize: string -> Result<string>): Result<Option<string>> {
    match value
    case None => Ok(None)
    case Some(v) => var n :- normalize(v); Ok(Some(n))
  }

  function NormalizeOrganization(party: PartyType, name: Option<string>): Result<Option<string>> {
    if party.Individual? then
      if name.Some? then Err(OrganizationNameForbidden) else Ok(None)
    else if name.None? then Err(OrganizationNameRequired)
    else var n :- NormalizeHumanText(name.value, 200, InvalidOrganizationName); Ok(Some(n))
  }

  const ALL_INTERESTS := [ReadinessAssessment, Soc2, Iso27001, Hipaa, PciDss4, Fedramp, Nist, Gdpr, Cmmc]

  /** The set of chosen areas in declaration order, as a BTreeSet yields it. */
  function InOrder(areas: seq<InterestArea>, chosen: set<InterestArea>): seq<InterestArea> {
    if areas == [] then []
    else (if areas[0] in chosen then [areas[0]] else []) + InOrder(areas[1..], chosen)
  }

  function NormalizeInterests(interests: seq<InterestArea>): Result<seq<InterestArea>> {
    var chosen := set a | a in interests;
    if interests == [] then Err(EmptyInterestSet)
    else if |interests| > 9 then Err(TooManyInterests)
    else if |chosen| != |interests| then Err(DuplicateInterest)
    else Ok(InOrder(ALL_INTERESTS, chosen))
  }

  function NormalizeMarketing(consent: bool, revision: Option<string>): Result<Option<string>> {
    if consent then
      if revision.Some? && IsPortableIdentifier(Trim(revision.value), 64) then Ok(Some(Trim(revision.value)))
      else Err(InvalidMarketingConsentRevision)
    else if revision.Some? then Err(UnexpectedMarketingConsentRevision)
    else Ok(None)
  }

  ghost predicate IsTimestamp(s: string) {
    20 <= |s| <= 35 && Rfc3339.DateTime(s)
  }

  /** `validate_registration`, checks in source order, given the scanner's verdict on the timestamp. */
  function ValidateGiven(r: Request, verifiedHost: string, url: string -> Option<string>, timestampOk: bool)
    : Result<Registration>
  {
    var host :- ParseHost(verifiedHost);
    if r.sourceHost != verifiedHost then Err(SourceHostMismatch)
    else if r.partyType != HostParty(host) then Err(PartyHostMismatch)
    else if !r.registrationConsent then Err(RegistrationConsentRequired)
    else
      var email :- NormalizeEmail(r.email);
      var organization :- NormalizeOrganization(r.partyType, r.organizationName);
      var display :- Optional(r.displayName, v => NormalizeHumanText(v, 120, InvalidDisplayName));
      var website :- Optional(r.websiteUrl, v => NormalizeWebsite(v, url));
      var interests :- NormalizeInterests(r.interests);
      if !IsPortableIdentifier(Trim(r.consentRevision), 64) then Err(InvalidConsentRevision)
      else if !timestampOk then Err(InvalidConsentedAt)
      else
        var locale :- Optional(r.locale, NormalizeLocale);
        var referral :- Optional(r.referralCode, NormalizeReferral);
        var marketing :- NormalizeMarketing(r.marketingConsent, r.marketingRevision);
        Ok(Registration(r.requestId, email, r.partyType, organization, interests, Trim(r.consentRevision),
                        Trim(r.consentedAt), host, locale, referral, display, website, true, r.marketingConsent,
                            marketing))
  }

  ghost function Validate(r: Request, verifiedHost: string, url: string -> Option<string>): Result<Registration> {
    ValidateGiven(r, verifiedHost, url, IsTimestamp(Trim(r.consentedAt)))
  }

  /** `validate_registration` with the scanner loop run. */
  method ValidateRegistration(r: Request, verifiedHost: string, url: string -> Option<string>)
    returns (v: Result<Registration>)
    ensures v == Validate(r, verifiedHost, url)
  {
    var timestampOk := Rfc3339.IsRfc3339(Trim(r.consentedAt));
    v := ValidateGiven(r, verifiedHost, url, timestampOk);
  }
}
