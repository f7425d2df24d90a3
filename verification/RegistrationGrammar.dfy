/**
 What the field checks of a registration accept, said without them: grammars for addresses and
 locales, what trimming and normalising do to the characters, and which refusal comes first.
 */
module RegistrationGrammar {
  import opened Wrappers
  import opened Text
  import opened Utf8Text
  import opened Registration
  import opened RegistrationTheorems
  import opened RegistrationIdempotence

  // ---------- Characters ----------

  /** White space is 25 code points; controls are the blocks 0 to 31 and 128 to 159 and the delete character. */
  lemma CharacterClasses(c: char)
    ensures IsWhitespace(c) <==>
              c as int in [9, 10, 11, 12, 13, 32, 133, 160, 5760, 8192, 8193, 8194, 8195, 8196, 8197, 8198, 8199, 8200,
                           8201, 8202, 8232, 8233, 8239, 8287, 12288]
    ensures IsControl(c) <==> c as int / 32 == 0 || c as int / 32 == 4 || c as int == 127
  {
  }

  // ---------- Trimming ----------

  predicate Blank(s: string) {
    forall i :: 0 <= i < |s| ==> IsWhitespace(s[i])
  }

  predicate Tight(s: string) {
    s != [] ==> !IsWhitespace(s[0]) && !IsWhitespace(s[|s| - 1])
  }

  lemma {:induction false} TrimStartCuts(s: string) returns (before: string)
    ensures s == before + TrimStart(s) && Blank(before)
  {
    if s != [] && IsWhitespace(s[0]) {
      var rest := TrimStartCuts(s[1..]);
      before := [s[0]] + rest;
      assert s == [s[0]] + s[1..];
    } else {
      before := [];
    }
  }

  lemma {:induction false} TrimEndCuts(s: string) returns (after: string)
    ensures s == TrimEnd(s) + after && Blank(after)
    ensures TrimEnd(s) != [] ==> !IsWhitespace(TrimEnd(s)[|TrimEnd(s)| - 1])
  {
    if s != [] && IsWhitespace(s[|s| - 1]) {
      var rest := TrimEndCuts(s[..|s| - 1]);
      after := rest + [s[|s| - 1]];
      assert s == s[..|s| - 1] + [s[|s| - 1]];
    } else {
      after := [];
    }
  }

  /** Trimming removes whitespace at the ends, all of it, and nothing else. */
  lemma TrimExactly(s: string) returns (before: string, after: string)
    ensures s == before + Trim(s) + after && Blank(before) && Blank(after) && Tight(Trim(s))
  {
    before := TrimStartCuts(s);
    after := TrimEndCuts(TrimStart(s));
    TrimStartIdempotent(s);
    TrimEndIdempotent(TrimStart(s));
  }

  // ---------- Splitting and joining ----------

  function Joined(parts: seq<string>, c: char): string {
    if parts == [] then []
    else if |parts| == 1 then parts[0]
    else parts[0] + [c] + Joined(parts[1..], c)
  }

  lemma {:induction false} SplitIsJoin(s: string, c: char)
    ensures Split(s, c) != [] && Joined(Split(s, c), c) == s
    ensures forall k :: 0 <= k < |Split(s, c)| ==> c !in Split(s, c)[k]
    ensures c in s ==> |Split(s, c)| >= 2
  {
    if c in s {
      var i := FirstIndex(s, c);
      SplitIsJoin(s[i + 1..], c);
      assert s == s[..i] + [c] + s[i + 1..];
      assert Split(s, c)[1..] == Split(s[i + 1..], c);
    }
  }

  lemma {:induction false} JoinIsSplit(parts: seq<string>, c: char)
    requires parts != [] && forall k :: 0 <= k < |parts| ==> c !in parts[k]
    ensures Split(Joined(parts, c), c) == parts && (|parts| >= 2 ==> c in Joined(parts, c))
  {
    var s := Joined(parts, c);
    if |parts| > 1 {
      var i := |parts[0]|;
      JoinIsSplit(parts[1..], c);
      assert s[i] == c && s[..i] == parts[0] && s[i + 1..] == Joined(parts[1..], c);
      SplitAt(s, c, i);
      assert parts == [parts[0]] + parts[1..];
    }
  }

  // ---------- Addresses ----------

  predicate AsciiAlnum(c: char) {
    '0' <= c <= '9' || 'a' <= c <= 'z' || 'A' <= c <= 'Z'
  }

  predicate IsLabel(s: string) {
    s != [] && s[0] != '-' && s[|s| - 1] != '-' && forall i :: 0 <= i < |s| ==> AsciiAlnum(s[i]) || s[i] == '-'
  }

  predicate IsLocalPart(s: string) {
    && s != [] && s[0] != '.' && s[|s| - 1] != '.'
    && (forall i :: 0 <= i < |s| ==> '!' <= s[i] <= '~' && s[i] != '@')
    && (forall i :: 0 < i < |s| ==> !(s[i - 1] == '.' && s[i] == '.'))
  }

  predicate IsAddressOf(text: string, local: string, labels: seq<string>) {
    && text == local + "@" + Joined(labels, '.') && |text| <= 320
    && IsLocalPart(local) && |labels| >= 2 && forall k :: 0 <= k < |labels| ==> IsLabel(labels[k])
  }

  lemma PlainIsVisible(c: char)
    ensures c as int < 0x80 && !IsControl(c) && !IsWhitespace(c) <==> '!' <= c <= '~'
  {
  }

  lemma LabelIsLabel(s: string)
    ensures ValidDomainLabel(s) <==> IsLabel(s)
  {
  }

  lemma LocalIsLocal(s: string)
    ensures IsLocalPart(s) <==>
              s != [] && s[0] != '.' && s[|s| - 1] != '.' && !HasDoubleDot(s) && Plain(s) && '@' !in s
  {
    forall i | 0 <= i < |s|
      ensures s[i] as int < 0x80 && !IsControl(s[i]) && !IsWhitespace(s[i]) <==> '!' <= s[i] <= '~' {
      PlainIsVisible(s[i]);
    }
    if HasDoubleDot(s) {
      var i :| 0 <= i < |s| - 1 && s[i] == '.' && s[i + 1] == '.';
      assert s[(i + 1) - 1] == '.';
    }
    if i :| 0 < i < |s| && s[i - 1] == '.' && s[i] == '.' {
      var j := i - 1;
      assert s[j] == '.' && s[j + 1] == '.';
    }
  }

  lemma DomainIsLabels(domain: string)
    requires '.' in domain
    requires forall k :: 0 <= k < |Split(domain, '.')| ==> ValidDomainLabel(Split(domain, '.')[k])
    ensures var labels := Split(domain, '.');
            |labels| >= 2 && domain == Joined(labels, '.') && forall k :: 0 <= k < |labels| ==> IsLabel(labels[k])
  {
    SplitIsJoin(domain, '.');
    forall k | 0 <= k < |Split(domain, '.')| ensures IsLabel(Split(domain, '.')[k]) {
      LabelIsLabel(Split(domain, '.')[k]);
    }
  }

  lemma AddressParts(text: string, at: nat)
    requires Plain(text) && at < |text| && text[at] == '@' && '@' !in text[..at]
    ensures Plain(text[..at]) && '@' !in text[..at] && text == text[..at] + "@" + text[at + 1..]
  {
  }

  lemma AcceptedAddress(value: string) returns (local: string, labels: seq<string>)
    requires NormalizeEmail(value).Ok?
    ensures IsAddressOf(Trim(value), local, labels)
  {
    var text := Trim(value);
    var at := FirstIndex(text, '@');
    local := text[..at];
    labels := Split(text[at + 1..], '.');
    AddressParts(text, at);
    DomainIsLabels(text[at + 1..]);
    LocalIsLocal(local);
  }

  predicate DomainText(s: string) {
    forall i :: 0 <= i < |s| ==> s[i] == '.' || s[i] == '-' || AsciiAlnum(s[i])
  }

  lemma {:induction false} LabelsAreDomainText(labels: seq<string>)
    requires forall k :: 0 <= k < |labels| ==> IsLabel(labels[k])
    ensures DomainText(Joined(labels, '.'))
  {
    if |labels| > 1 {
      LabelsAreDomainText(labels[1..]);
    }
  }

  lemma DomainTextIsPlain(s: string)
    requires DomainText(s)
    ensures Plain(s) && '@' !in s
  {
  }

  lemma DomainAccepted(labels: seq<string>)
    requires |labels| >= 2 && forall k :: 0 <= k < |labels| ==> IsLabel(labels[k])
    ensures var domain := Joined(labels, '.');
            && '.' in domain && '@' !in domain && Plain(domain)
            && Split(domain, '.') == labels && forall k :: 0 <= k < |labels| ==> ValidDomainLabel(labels[k])
  {
    forall k | 0 <= k < |labels| ensures '.' !in labels[k] && ValidDomainLabel(labels[k]) {
      LabelIsLabel(labels[k]);
    }
    JoinIsSplit(labels, '.');
    LabelsAreDomainText(labels);
    DomainTextIsPlain(Joined(labels, '.'));
  }

  lemma AddressAccepted(value: string, local: string, labels: seq<string>)
    requires IsAddressOf(Trim(value), local, labels)
    ensures NormalizeEmail(value).Ok?
  {
    var domain := Joined(labels, '.');
    LocalIsLocal(local);
    DomainAccepted(labels);
    AddressNormalizes(local, domain);
    TrimIdempotent(value);
    assert NormalizeEmail(value) == NormalizeEmail(local + "@" + domain);
  }

  /** An address is accepted exactly when its trimmed text is a local part and two or more labels,
      within 320 bytes; every other is refused as an e-mail. */
  lemma EmailExactly(value: string)
    ensures NormalizeEmail(value).Ok? <==> exists local, labels :: IsAddressOf(Trim(value), local, labels)
    ensures NormalizeEmail(value).Err? ==> NormalizeEmail(value).error == InvalidEmail
  {
    if NormalizeEmail(value).Ok? {
      var local, labels := AcceptedAddress(value);
    }
    if local, labels :| IsAddressOf(Trim(value), local, labels) {
      AddressAccepted(value, local, labels);
    }
  }

  /** y is x, or the small letter of the capital x. */
  predicate LoweredTo(x: char, y: char) {
    if 'A' <= x <= 'Z' then y as int == x as int + 32 else y == x
  }

  /** An accepted address keeps its trimmed text, with every ASCII capital made small. */
  lemma EmailCharacters(value: string)
    requires NormalizeEmail(value).Ok?
    ensures var n, text := NormalizeEmail(value).value, Trim(value);
            && |n| == |text| && (forall i :: 0 <= i < |n| ==> LoweredTo(text[i], n[i]))
            && (forall i :: 0 <= i < |n| ==> !('A' <= n[i] <= 'Z'))
  {
    EmailIsLowered(value);
    var text := Trim(value);
    forall i | 0 <= i < |text| ensures LoweredTo(text[i], Lower(text)[i]) && !('A' <= Lower(text)[i] <= 'Z') {
      var x := text[i];
      if 'A' <= x <= 'Z' { assert (x - 'A' + 'a') as int == x as int + 32; }
    }
  }

  /** The characters are equal, or one letter in its two cases. */
  predicate SameButCase(x: char, y: char) {
    x == y || ('A' <= x <= 'Z' && y as int == x as int + 32) || ('A' <= y <= 'Z' && x as int == y as int + 32)
  }

  lemma LoweredAlike(x: char, y: char, u: char, v: char)
    requires LoweredTo(x, u) && LoweredTo(y, v)
    ensures u == v <==> SameButCase(x, y)
  {
  }

  lemma TextsAlike(x: string, y: string, u: string, v: string)
    requires |x| == |u| && forall i :: 0 <= i < |x| ==> LoweredTo(x[i], u[i])
    requires |y| == |v| && forall i :: 0 <= i < |y| ==> LoweredTo(y[i], v[i])
    ensures u == v <==> |x| == |y| && forall i :: 0 <= i < |x| ==> SameButCase(x[i], y[i])
  {
    if |x| == |y| {
      forall i | 0 <= i < |x| ensures u[i] == v[i] <==> SameButCase(x[i], y[i]) {
        LoweredAlike(x[i], y[i], u[i], v[i]);
      }
    }
  }

  /** Accepted addresses normalise alike exactly when their trimmed texts differ in case only. */
  lemma EmailsAlikeExactly(a: string, b: string)
    requires NormalizeEmail(a).Ok? && NormalizeEmail(b).Ok?
    ensures NormalizeEmail(a) == NormalizeEmail(b) <==>
              |Trim(a)| == |Trim(b)| && forall i :: 0 <= i < |Trim(a)| ==> SameButCase(Trim(a)[i], Trim(b)[i])
  {
    EmailCharacters(a);
    EmailCharacters(b);
    TextsAlike(Trim(a), Trim(b), NormalizeEmail(a).value, NormalizeEmail(b).value);
  }

  // ---------- Locales ----------

  predicate IsLanguageTag(text: string, parts: seq<string>) {
    && text == Joined(parts, '-') && |text| <= 35 && parts != []
    && 2 <= |parts[0]| <= 3
    && (forall i :: 0 <= i < |parts[0]| ==> AsciiAlnum(parts[0][i]) && !('0' <= parts[0][i] <= '9'))
    && forall k :: 1 <= k < |parts| ==>
         2 <= |parts[k]| <= 8 && forall i :: 0 <= i < |parts[k]| ==> AsciiAlnum(parts[k][i])
  }

  lemma LocaleIsTag(text: string)
    requires IsLocale(text) && |text| <= 35
    ensures IsLanguageTag(text, Split(text, '-'))
  {
    SplitIsJoin(text, '-');
  }

  lemma TagIsLocale(text: string, parts: seq<string>)
    requires IsLanguageTag(text, parts)
    ensures IsLocale(text) && 2 <= |text| <= 35
  {
    JoinIsSplit(parts, '-');
    JoinedLength(parts, '-');
  }

  /** A locale is accepted, as its trimmed text, exactly when that is a language of two or three
      letters and subtags of two to eight letters or digits, within 35 bytes. */
  lemma LocaleExactly(value: string)
    ensures NormalizeLocale(value).Ok? <==> exists parts :: IsLanguageTag(Trim(value), parts)
    ensures NormalizeLocale(value) == Ok(Trim(value)) || NormalizeLocale(value) == Err(InvalidLocale)
  {
    var text := Trim(value);
    if NormalizeLocale(value).Ok? {
      LocaleIsTag(text);
    }
    if parts :| IsLanguageTag(text, parts) {
      TagIsLocale(text, parts);
    }
  }

  lemma JoinedLength(parts: seq<string>, c: char)
    requires parts != []
    ensures |Joined(parts, c)| >= |parts[0]|
  {
  }

  // ---------- Names ----------

  /** The characters that are not whitespace, in order. */
  function Ink(s: string): string {
    if s == [] then [] else (if IsWhitespace(s[0]) then [] else [s[0]]) + Ink(s[1..])
  }

  /** Single spaces inside, none at the ends, and no other whitespace. */
  predicate Tidy(s: string) {
    && Tight(s)
    && (forall i :: 0 <= i < |s| && IsWhitespace(s[i]) ==> s[i] == ' ')
    && (forall i :: 0 < i < |s| ==> !(s[i - 1] == ' ' && s[i] == ' '))
  }

  lemma {:induction false} InkAppend(a: string, b: string)
    ensures Ink(a + b) == Ink(a) + Ink(b)
  {
    if a == [] {
      assert a + b == b;
    } else {
      InkAppend(a[1..], b);
      assert (a + b)[0] == a[0] && (a + b)[1..] == a[1..] + b;
      Associate(if IsWhitespace(a[0]) then [] else [a[0]], Ink(a[1..]), Ink(b));
    }
  }

  lemma {:induction false} WordInk(w: string)
    requires forall i :: 0 <= i < |w| ==> !IsWhitespace(w[i])
    ensures Ink(w) == w
  {
    if w != [] {
      WordInk(w[1..]);
    }
  }

  lemma {:induction false} WordsKeepInk(s: string)
    ensures Ink(JoinWords(Words(s))) == Ink(s)
  {
    if s == [] {
    } else if IsWhitespace(s[0]) {
      WordsKeepInk(s[1..]);
    } else {
      var n := WordLength(s);
      WordLengthSpec(s);
      WordsKeepInk(s[n..]);
      assert s == s[..n] + s[n..];
      InkAppend(s[..n], s[n..]);
      JoinedInk(s[..n], Words(s[n..]));
      assert Words(s)[1..] == Words(s[n..]);
    }
  }

  lemma JoinedInk(w: string, rest: seq<string>)
    ensures Ink(JoinWords([w] + rest)) == Ink(w) + Ink(JoinWords(rest))
  {
    assert ([w] + rest)[1..] == rest;
    if rest != [] {
      InkAppend(w, " " + JoinWords(rest));
      assert JoinWords([w] + rest) == w + (" " + JoinWords(rest));
      assert (" " + JoinWords(rest))[1..] == JoinWords(rest);
    } else {
      assert Ink(w) + [] == Ink(w);
    }
  }

  lemma {:induction false} JoinIsTidy(words: seq<string>)
    requires forall k :: 0 <= k < |words| ==> Word(words[k])
    ensures Tidy(JoinWords(words)) && (words != [] ==> JoinWords(words) != [])
  {
    if |words| > 1 {
      JoinIsTidy(words[1..]);
      TidyAppend(words[0], JoinWords(words[1..]));
    }
  }

  lemma TidyAppend(w: string, rest: string)
    requires Word(w) && Tidy(rest) && rest != []
    ensures Tidy(w + " " + rest)
  {
    var s := w + " " + rest;
    assert forall i :: 0 <= i < |s| ==> s[i] == if i < |w| then w[i] else if i == |w| then ' ' else rest[i - |w| - 1];
  }

  /** Every run of whitespace becomes one space, and a run at the end goes. */
  function Squeezed(s: string): string {
    if s == [] then []
    else if !IsWhitespace(s[0]) then [s[0]] + Squeezed(s[1..])
    else if |s| == 1 || IsWhitespace(s[1]) then Squeezed(s[1..])
    else " " + Squeezed(s[1..])
  }

  lemma {:induction false} SqueezedWord(w: string, rest: string)
    requires forall i :: 0 <= i < |w| ==> !IsWhitespace(w[i])
    ensures Squeezed(w + rest) == w + Squeezed(rest)
  {
    if w == [] {
      assert w + rest == rest;
    } else {
      SqueezedWord(w[1..], rest);
      assert (w + rest)[0] == w[0] && (w + rest)[1..] == w[1..] + rest;
      Associate([w[0]], w[1..], Squeezed(rest));
    }
  }

  lemma {:induction false} SqueezedGap(s: string)
    requires s != [] && IsWhitespace(s[0])
    ensures Squeezed(s) == if TrimStart(s) == [] then [] else " " + Squeezed(TrimStart(s))
  {
    if |s| > 1 && IsWhitespace(s[1]) {
      SqueezedGap(s[1..]);
    }
  }

  lemma {:induction false} JoinedIsSqueezed(s: string)
    ensures JoinWords(Words(s)) == Squeezed(TrimStart(s))
    ensures Words(s) == [] <==> TrimStart(s) == []
  {
    if s == [] {
    } else if IsWhitespace(s[0]) {
      JoinedIsSqueezed(s[1..]);
    } else {
      var w, rest := s[..WordLength(s)], s[WordLength(s)..];
      WordLengthSpec(s);
      JoinedIsSqueezed(rest);
      SqueezedWord(w, rest);
      assert s == w + rest && Words(s)[1..] == Words(rest);
      if rest != [] {
        SqueezedGap(rest);
      }
    }
  }

  /** A name without control characters is accepted with its whitespace squeezed, when that is not
      empty and within the limit; what is kept is tidy and has the non-blank characters sent. */
  lemma HumanTextExactly(value: string, max: nat, error: ValidationError)
    ensures var n := Squeezed(TrimStart(value));
            && Tidy(n) && Ink(n) == Ink(value)
            && NormalizeHumanText(value, max, error) ==
               if (exists i :: 0 <= i < |value| && IsControl(value[i])) || |n| == 0 || |n| > max
               then Err(error) else Ok(n)
  {
    WordsAreWords(value);
    JoinIsTidy(Words(value));
    WordsKeepInk(value);
    JoinedIsSqueezed(value);
  }

  /** A website is accepted exactly when its trimmed text is not empty, fits in 2048 bytes, has no
      control character and no whitespace, and parses; what is kept is what the parser prints. */
  lemma WebsiteExactly(value: string, url: string -> Option<string>)
    ensures NormalizeWebsite(value, url) ==
              var text := Trim(value);
              if 0 < |text| && |Utf8(text)| <= 2048
                 && (forall i :: 0 <= i < |text| ==> !IsControl(text[i]) && !IsWhitespace(text[i]))
                 && url(text).Some?
              then Ok(url(text).value) else Err(InvalidWebsiteUrl)
  {
  }

  // ---------- Interests ----------

  predicate Repeats(interests: seq<InterestArea>) {
    exists i, j :: 0 <= i < j < |interests| && interests[i] == interests[j]
  }

  lemma {:induction false} DistinctCount(interests: seq<InterestArea>)
    ensures |set a | a in interests| == |interests| <==> !Repeats(interests)
    ensures |set a | a in interests| <= |interests|
  {
    if interests != [] {
      var first, rest := interests[0], interests[1..];
      var chosen, fewer := set a | a in interests, set a | a in rest;
      DistinctCount(rest);
      assert chosen == fewer + {first};
      if first in rest {
        var j :| 0 <= j < |rest| && rest[j] == first;
        assert interests[0] == interests[j + 1];
      }
      if Repeats(rest) {
        var i, j :| 0 <= i < j < |rest| && rest[i] == rest[j];
        assert interests[i + 1] == interests[j + 1];
      }
      if !Repeats(rest) && first !in rest {
        forall i, j | 0 <= i < j < |interests| ensures interests[i] != interests[j] {
          if i == 0 { assert interests[j] == rest[j - 1]; }
          else { assert interests[i] == rest[i - 1] && interests[j] == rest[j - 1]; }
        }
      }
    }
  }

  /** One to nine interests without repetition are accepted, whatever their order, and kept as a set. */
  lemma InterestsExactly(interests: seq<InterestArea>)
    ensures NormalizeInterests(interests).Err? <==> interests == [] || |interests| > 9 || Repeats(interests)
    ensures NormalizeInterests(interests).Err? ==>
              NormalizeInterests(interests).error ==
                if interests == [] then EmptyInterestSet else if |interests| > 9 then TooManyInterests
                else DuplicateInterest
    ensures NormalizeInterests(interests).Ok? ==>
              forall a :: a in NormalizeInterests(interests).value <==> a in interests
  {
    DistinctCount(interests);
    var chosen := set a | a in interests;
    InOrderSpec(ALL_INTERESTS, chosen);
    forall a: InterestArea ensures a in ALL_INTERESTS { EveryInterestIsListed(a); }
  }

  /** Declaration order. */
  function Declared(a: InterestArea): nat {
    match a
    case ReadinessAssessment => 0
    case Soc2 => 1
    case Iso27001 => 2
    case Hipaa => 3
    case PciDss4 => 4
    case Fedramp => 5
    case Nist => 6
    case Gdpr => 7
    case Cmmc => 8
  }

  predicate Ascending(areas: seq<InterestArea>) {
    forall i, j :: 0 <= i < j < |areas| ==> Declared(areas[i]) < Declared(areas[j])
  }

  lemma {:induction false} ChosenAscend(areas: seq<InterestArea>, chosen: set<InterestArea>)
    requires Ascending(areas)
    ensures Ascending(InOrder(areas, chosen))
  {
    if areas != [] {
      var rest := InOrder(areas[1..], chosen);
      ChosenAscend(areas[1..], chosen);
      InOrderSpec(areas[1..], chosen);
      forall j | 0 <= j < |rest| ensures Declared(areas[0]) < Declared(rest[j]) {
        assert rest[j] in areas[1..];
      }
    }
  }

  /** Accepted interests are kept in declaration order. */
  lemma InterestsAscend(interests: seq<InterestArea>)
    requires NormalizeInterests(interests).Ok?
    ensures Ascending(NormalizeInterests(interests).value)
  {
    assert Ascending(ALL_INTERESTS);
    ChosenAscend(ALL_INTERESTS, set a | a in interests);
  }

  // ---------- The whole request ----------

  /** What an accepted registration says of its request, in plain terms. */
  lemma AcceptedMeans(r: Request, host: string, url: string -> Option<string>, v: Registration)
    requires Validate(r, host, url) == Ok(v)
    ensures r.sourceHost == host == HostName(v.sourceHost) && v.requestId == r.requestId
    ensures r.registrationConsent && v.registrationConsent
    ensures (host == "user.canonical.plus" && v.sourceHost == UserHost && r.partyType == v.partyType == Individual
             && r.organizationName == None && v.organizationName == None)
            || (host == "org.canonical.plus" && v.sourceHost == OrganizationHost
                && r.partyType == v.partyType == Organization
                && r.organizationName.Some? && v.organizationName.Some?)
    ensures v.consentRevision == Trim(r.consentRevision) && v.consentedAt == Trim(r.consentedAt)
    ensures v.displayName.Some? <==> r.displayName.Some?
    ensures v.websiteUrl.Some? <==> r.websiteUrl.Some?
    ensures v.locale == if r.locale.None? then None else Some(Trim(r.locale.value))
    ensures v.referralCode == if r.referralCode.None? then None else Some(Trim(r.referralCode.value))
    ensures v.marketingConsent == r.marketingConsent == r.marketingRevision.Some?
    ensures v.marketingRevision == if r.marketingRevision.None? then None else Some(Trim(r.marketingRevision.value))
  {
    AcceptedFields(r, host, url, v);
    AcceptedHost(r, host, url, v);
  }

  lemma AcceptedHost(r: Request, host: string, url: string -> Option<string>, v: Registration)
    requires Validate(r, host, url) == Ok(v)
    ensures (host == "user.canonical.plus" && v.sourceHost == UserHost && r.partyType == v.partyType == Individual)
            || (host == "org.canonical.plus" && v.sourceHost == OrganizationHost
                && r.partyType == v.partyType == Organization)
  {
  }

  /** Sixty-four bytes at most, of letters, digits, point, underscore and hyphen, a letter or digit first. */
  predicate IsCode(s: string) {
    0 < |s| <= 64 && AsciiAlnum(s[0])
    && forall i :: 0 <= i < |s| ==> AsciiAlnum(s[i]) || s[i] == '.' || s[i] == '_' || s[i] == '-'
  }

  lemma CodeIsPortable(s: string)
    ensures IsPortableIdentifier(s, 64) <==> IsCode(s)
  {
  }

  predicate RefusedName(name: Option<string>, max: nat) {
    name.Some? && NormalizeHumanText(name.value, max, InvalidDisplayName).Err?
  }

  /** The refusal of the host, party and consent gates. */
  function GateRefusal(r: Request, host: string): Option<ValidationError> {
    if host != "user.canonical.plus" && host != "org.canonical.plus" then Some(InvalidSourceHost)
    else if r.sourceHost != host then Some(SourceHostMismatch)
    else if (r.partyType == Individual) != (host == "user.canonical.plus") then Some(PartyHostMismatch)
    else if !r.registrationConsent then Some(RegistrationConsentRequired)
    else None
  }

  /** The refusal of the address, names, website and interests. */
  function FieldRefusal(r: Request, url: string -> Option<string>): Option<ValidationError> {
    if NormalizeEmail(r.email).Err? then Some(InvalidEmail)
    else if r.partyType == Individual && r.organizationName.Some? then Some(OrganizationNameForbidden)
    else if r.partyType == Organization && r.organizationName.None? then Some(OrganizationNameRequired)
    else if RefusedName(r.organizationName, 200) then Some(InvalidOrganizationName)
    else if RefusedName(r.displayName, 120) then Some(InvalidDisplayName)
    else if r.websiteUrl.Some? && NormalizeWebsite(r.websiteUrl.value, url).Err? then Some(InvalidWebsiteUrl)
    else if r.interests == [] then Some(EmptyInterestSet)
    else if |r.interests| > 9 then Some(TooManyInterests)
    else if Repeats(r.interests) then Some(DuplicateInterest)
    else None
  }

  /** The refusal of the consent record and the optional codes. */
  ghost function CodeRefusal(r: Request): Option<ValidationError> {
    if !IsCode(Trim(r.consentRevision)) then Some(InvalidConsentRevision)
    else if !IsTimestamp(Trim(r.consentedAt)) then Some(InvalidConsentedAt)
    else if r.locale.Some? && NormalizeLocale(r.locale.value).Err? then Some(InvalidLocale)
    else if r.referralCode.Some? && !IsCode(Trim(r.referralCode.value)) then Some(InvalidReferralCode)
    else if r.marketingConsent && r.marketingRevision.None? then Some(InvalidMarketingConsentRevision)
    else if !r.marketingConsent && r.marketingRevision.Some? then Some(UnexpectedMarketingConsentRevision)
    else if r.marketingRevision.Some? && !IsCode(Trim(r.marketingRevision.value)) then
      Some(InvalidMarketingConsentRevision)
    else None
  }

  ghost function Refusal(r: Request, host: string, url: string -> Option<string>): Option<ValidationError> {
    if GateRefusal(r, host).Some? then GateRefusal(r, host)
    else if FieldRefusal(r, url).Some? then FieldRefusal(r, url)
    else CodeRefusal(r)
  }

  lemma NameRefusals(value: string, max: nat, a: ValidationError, b: ValidationError)
    ensures NormalizeHumanText(value, max, a).Ok? <==> NormalizeHumanText(value, max, b).Ok?
    ensures NormalizeHumanText(value, max, a).Err? ==> NormalizeHumanText(value, max, a).error == a
  {
  }

  /** The error of a result, if it is one. */
  function ErrorOf<T>(x: Result<T>): Option<ValidationError> {
    if x.Err? then Some(x.error) else None
  }

  lemma OrganizationErrors(party: PartyType, name: Option<string>)
    ensures ErrorOf(NormalizeOrganization(party, name)) ==
              if party == Individual then (if name.Some? then Some(OrganizationNameForbidden) else None)
              else if name.None? then Some(OrganizationNameRequired)
              else if RefusedName(name, 200) then Some(InvalidOrganizationName) else None
  {
    if name.Some? { NameRefusals(name.value, 200, InvalidOrganizationName, InvalidDisplayName); }
  }

  lemma DisplayErrors(name: Option<string>)
    ensures ErrorOf(Optional(name, v => NormalizeHumanText(v, 120, InvalidDisplayName))) ==
              if RefusedName(name, 120) then Some(InvalidDisplayName) else None
  {
    if name.Some? { NameRefusals(name.value, 120, InvalidDisplayName, InvalidDisplayName); }
  }

  lemma WebsiteErrors(website: Option<string>, url: string -> Option<string>)
    ensures ErrorOf(Optional(website, v => NormalizeWebsite(v, url))) ==
              if website.Some? && NormalizeWebsite(website.value, url).Err? then Some(InvalidWebsiteUrl) else None
  {
  }

  lemma InterestErrors(interests: seq<InterestArea>)
    ensures ErrorOf(NormalizeInterests(interests)) ==
              if interests == [] then Some(EmptyInterestSet) else if |interests| > 9 then Some(TooManyInterests)
              else if Repeats(interests) then Some(DuplicateInterest) else None
  {
    InterestsExactly(interests);
  }

  lemma LocaleErrors(locale: Option<string>)
    ensures ErrorOf(Optional(locale, NormalizeLocale)) ==
              if locale.Some? && NormalizeLocale(locale.value).Err? then Some(InvalidLocale) else None
  {
  }

  lemma ReferralErrors(code: Option<string>)
    ensures ErrorOf(Optional(code, NormalizeReferral)) ==
              if code.Some? && !IsCode(Trim(code.value)) then Some(InvalidReferralCode) else None
  {
    if code.Some? { CodeIsPortable(Trim(code.value)); }
  }

  lemma MarketingErrors(consent: bool, revision: Option<string>)
    ensures ErrorOf(NormalizeMarketing(consent, revision)) ==
              if consent && revision.None? then Some(InvalidMarketingConsentRevision)
              else if !consent && revision.Some? then Some(UnexpectedMarketingConsentRevision)
              else if revision.Some? && !IsCode(Trim(revision.value)) then Some(InvalidMarketingConsentRevision)
              else None
  {
    if revision.Some? { CodeIsPortable(Trim(revision.value)); }
  }

  lemma RefusedAtGate(r: Request, host: string, url: string -> Option<string>)
    requires GateRefusal(r, host).Some?
    ensures Validate(r, host, url) == Err(GateRefusal(r, host).value)
  {
  }

  lemma RefusedAtField(r: Request, host: string, url: string -> Option<string>)
    requires GateRefusal(r, host).None? && FieldRefusal(r, url).Some?
    ensures Validate(r, host, url) == Err(FieldRefusal(r, url).value)
  {
    EmailExactly(r.email);
    OrganizationErrors(r.partyType, r.organizationName);
    DisplayErrors(r.displayName);
    WebsiteErrors(r.websiteUrl, url);
    InterestErrors(r.interests);
  }

  lemma FieldsPass(r: Request, url: string -> Option<string>)
    requires FieldRefusal(r, url).None?
    ensures NormalizeEmail(r.email).Ok? && NormalizeOrganization(r.partyType, r.organizationName).Ok?
    ensures Optional(r.displayName, v => NormalizeHumanText(v, 120, InvalidDisplayName)).Ok?
    ensures Optional(r.websiteUrl, v => NormalizeWebsite(v, url)).Ok? && NormalizeInterests(r.interests).Ok?
  {
    OrganizationErrors(r.partyType, r.organizationName);
    DisplayErrors(r.displayName);
    WebsiteErrors(r.websiteUrl, url);
    InterestErrors(r.interests);
  }

  lemma CodeErrors(r: Request)
    ensures CodeRefusal(r) ==
              if !IsPortableIdentifier(Trim(r.consentRevision), 64) then Some(InvalidConsentRevision)
              else if !IsTimestamp(Trim(r.consentedAt)) then Some(InvalidConsentedAt)
              else if Optional(r.locale, NormalizeLocale).Err? then ErrorOf(Optional(r.locale, NormalizeLocale))
              else if Optional(r.referralCode, NormalizeReferral).Err? then
                ErrorOf(Optional(r.referralCode, NormalizeReferral))
              else ErrorOf(NormalizeMarketing(r.marketingConsent, r.marketingRevision))
  {
    CodeIsPortable(Trim(r.consentRevision));
    LocaleErrors(r.locale);
    ReferralErrors(r.referralCode);
    MarketingErrors(r.marketingConsent, r.marketingRevision);
  }

  lemma RefusedAtCode(r: Request, host: string, url: string -> Option<string>)
    requires GateRefusal(r, host).None? && FieldRefusal(r, url).None?
    ensures CodeRefusal(r).Some? ==> Validate(r, host, url) == Err(CodeRefusal(r).value)
    ensures CodeRefusal(r).None? ==> Validate(r, host, url).Ok?
  {
    FieldsPass(r, url);
    CodeErrors(r);
  }

  /** Which refusal a request gets: the first that applies, and acceptance when none does. */
  lemma RefusalExactly(r: Request, host: string, url: string -> Option<string>)
    ensures match Refusal(r, host, url)
            case Some(e) => Validate(r, host, url) == Err(e)
            case None => Validate(r, host, url).Ok?
  {
    if GateRefusal(r, host).Some? {
      RefusedAtGate(r, host, url);
    } else if FieldRefusal(r, url).Some? {
      RefusedAtField(r, host, url);
    } else {
      RefusedAtCode(r, host, url);
    }
  }
}
