/**
 Validation of a delivered observation (`validate_event` in
 src/readiness_observation_ingest.rs): the loops over growing sets against a statement about
 the event as a whole. Timestamp and URL parsing are parameters.
 */
module EventValidation {
  import opened Wrappers
  import opened Utf8Text
  import opened Timestamps
  import opened ObservationLedger
  import opened ObservationChain

  type i64 = x: int | -0x8000_0000_0000_0000 <= x <= 0x7fff_ffff_ffff_ffff

  datatype Assertion = Assertion(framework: string, control: string, statement: Option<string>, evidence: seq<string>)

  datatype Evidence = Evidence(
    id: string,
    kind: string,
    sha256: string,
    collectedAt: string,
    locator: Option<string>,
    contentType: Option<string>,
    sizeBytes: Option<nat>)

  datatype Event = Event(
    specVersion: string,
    id: string,
    source: string,
    sequence: i64,
    organization: string,
    observedAt: string,
    assertions: seq<Assertion>,
    evidence: seq<Evidence>)

  /** Seconds since the epoch, and the URL rules for a locator. */
  datatype Parsers = Parsers(time: string -> Option<int>, locatorUrl: string -> bool)

  const EVENT_SPEC := "canonical.readiness.observation.v1"
  const MAX_SKEW: nat := 300

  // ---------- What a valid event is ----------

  predicate Within(s: string, max: nat) {
    0 < |Utf8(s)| <= max
  }

  predicate NoAsciiControl(s: string) {
    forall i :: 0 <= i < |s| ==> s[i] as int >= 0x20 && s[i] as int != 0x7f
  }

  predicate HeaderOk(e: Event) {
    && e.specVersion == EVENT_SPEC
    && PortableIdentifier(e.id) && PortableIdentifier(e.source) && PortableIdentifier(e.organization)
    && e.sequence > 0 && 0 < |e.assertions| <= 256 && |e.evidence| <= 256
  }

  predicate EvidenceFieldsOk(v: Evidence) {
    && PortableIdentifier(v.id) && Within(v.kind, 64) && ValidSha256(v.sha256)
    && (v.contentType.Some? ==> Within(v.contentType.value, 128) && NoAsciiControl(v.contentType.value))
    && (v.sizeBytes.Some? ==> v.sizeBytes.value <= 0x4_0000_0000_0000)
  }

  /** No later than five minutes after the server's clock. */
  predicate NotAhead(time: Option<int>, reference: int) {
    time.Some? && time.value - reference <= MAX_SKEW
  }

  predicate EvidenceTimesOk(p: Parsers, v: Evidence, now: int, observed: int) {
    NotAhead(p.time(v.collectedAt), now) && NotAhead(p.time(v.collectedAt), observed)
  }

  predicate LocatorOk(p: Parsers, v: Evidence) {
    v.locator.Some? ==> Within(v.locator.value, 2048) && p.locatorUrl(v.locator.value)
  }

  predicate EvidenceOk(p: Parsers, v: Evidence, now: int, observed: int) {
    EvidenceFieldsOk(v) && EvidenceTimesOk(p, v, now, observed) && LocatorOk(p, v)
  }

  predicate AssertionFieldsOk(a: Assertion) {
    && PortableIdentifier(a.framework) && PortableIdentifier(a.control)
    && (a.statement.Some? ==> Within(a.statement.value, 2048))
    && |a.evidence| <= 128
  }

  predicate Distinct<T(==)>(xs: seq<T>) {
    forall i, j :: 0 <= i < j < |xs| ==> xs[i] != xs[j]
  }

  function Ids(evidence: seq<Evidence>): seq<string> {
    seq(|evidence|, i requires 0 <= i < |evidence| => evidence[i].id)
  }

  function Controls(assertions: seq<Assertion>): seq<(string, string)> {
    seq(|assertions|, i requires 0 <= i < |assertions| => (assertions[i].framework, assertions[i].control))
  }

  /** Each referenced evidence item is part of the event, once per assertion. */
  predicate ReferencesOk(a: Assertion, ids: seq<string>) {
    Distinct(a.evidence) && forall i :: 0 <= i < |a.evidence| ==> a.evidence[i] in ids
  }

  ghost predicate ValidEvent(p: Parsers, e: Event, now: int) {
    && HeaderOk(e)
    && NotAhead(p.time(e.observedAt), now)
    && Distinct(Ids(e.evidence))
    && (forall i :: 0 <= i < |e.evidence| ==> EvidenceOk(p, e.evidence[i], now, p.time(e.observedAt).value))
    && Distinct(Controls(e.assertions))
    && (forall i :: 0 <= i < |e.assertions| ==>
          AssertionFieldsOk(e.assertions[i]) && ReferencesOk(e.assertions[i], Ids(e.evidence)))
  }

  // ---------- The loops ----------

  ghost function Front<T>(xs: seq<T>, k: nat): set<T>
    requires k <= |xs|
  {
    set x | x in xs[..k]
  }

  /** A growing set refuses an element exactly when the list so far repeats it. */
  lemma InsertSpec<T>(xs: seq<T>, k: nat, seen: set<T>)
    requires k < |xs| && Distinct(xs[..k]) && seen == Front(xs, k)
    ensures xs[k] !in seen <==> Distinct(xs[..k + 1])
    ensures xs[k] in seen ==> !Distinct(xs)
    ensures seen + {xs[k]} == Front(xs, k + 1)
  {
    assert xs[..k + 1] == xs[..k] + [xs[k]];
    if xs[k] in seen {
      var i :| 0 <= i < k && xs[..k][i] == xs[k];
      assert xs[i] == xs[k];
    }
  }

  method ValidateEvidence(p: Parsers, evidence: seq<Evidence>, now: int, observed: int)
    returns (ok: bool, ids: set<string>)
    ensures ok <==> Distinct(Ids(evidence))
                    && forall i :: 0 <= i < |evidence| ==> EvidenceOk(p, evidence[i], now, observed)
    ensures ok ==> ids == set x | x in Ids(evidence)
  {
    ids := {};
    ghost var all := Ids(evidence);
    for i := 0 to |evidence|
      invariant Distinct(all[..i]) && ids == Front(all, i)
      invariant forall k :: 0 <= k < i ==> EvidenceOk(p, evidence[k], now, observed)
    {
      var v := evidence[i];
      InsertSpec(all, i, ids);
      if !EvidenceFieldsOk(v) || v.id in ids {
        return false, ids;
      }
      ids := ids + {v.id};
      if !EvidenceTimesOk(p, v, now, observed) {
        return false, ids;
      }
      if !LocatorOk(p, v) {
        return false, ids;
      }
    }
    assert all[..|evidence|] == all;
    ok := true;
  }

  method ValidateReferences(a: Assertion, ids: set<string>, ghost known: seq<string>) returns (ok: bool)
    requires ids == set x | x in known
    ensures ok <==> ReferencesOk(a, known)
  {
    var references := {};
    for i := 0 to |a.evidence|
      invariant Distinct(a.evidence[..i]) && references == Front(a.evidence, i)
      invariant forall k :: 0 <= k < i ==> a.evidence[k] in known
    {
      InsertSpec(a.evidence, i, references);
      if a.evidence[i] in references || a.evidence[i] !in ids {
        return false;
      }
      references := references + {a.evidence[i]};
    }
    assert a.evidence[..|a.evidence|] == a.evidence;
    ok := true;
  }

  method ValidateAssertions(assertions: seq<Assertion>, ids: set<string>, ghost known: seq<string>) returns (ok: bool)
    requires ids == set x | x in known
    ensures ok <==> Distinct(Controls(assertions))
                    && forall i :: 0 <= i < |assertions| ==>
                        AssertionFieldsOk(assertions[i]) && ReferencesOk(assertions[i], known)
  {
    var seen := {};
    ghost var all := Controls(assertions);
    for i := 0 to |assertions|
      invariant Distinct(all[..i]) && seen == Front(all, i)
      invariant forall k :: 0 <= k < i ==> AssertionFieldsOk(assertions[k]) && ReferencesOk(assertions[k], known)
    {
      var a := assertions[i];
      InsertSpec(all, i, seen);
      if !AssertionFieldsOk(a) || (a.framework, a.control) in seen {
        return false;
      }
      seen := seen + {(a.framework, a.control)};
      var referencesOk := ValidateReferences(a, ids, known);
      if !referencesOk {
        return false;
      }
    }
    assert all[..|assertions|] == all;
    ok := true;
  }

  /** `validate_event` accepts exactly the valid events. */
  method ValidateEvent(p: Parsers, e: Event, now: int) returns (ok: bool)
    ensures ok <==> ValidEvent(p, e, now)
  {
    if !HeaderOk(e) || !NotAhead(p.time(e.observedAt), now) {
      return false;
    }
    var ids;
    ok, ids := ValidateEvidence(p, e.evidence, now, p.time(e.observedAt).value);
    if !ok {
      return false;
    }
    ok := ValidateAssertions(e.assertions, ids, Ids(e.evidence));
  }

  /** A validated event is what the ledger's theorems ask of a delivery. */
  lemma ValidEventIsAdmissible(p: Parsers, e: Event, now: int, owner: string, body: string, sha: Sha256,
                               receipt: string, at: Stamp)
    requires ValidEvent(p, e, now)
    ensures Admissible(Delivery(owner, e.source, e.id, e.sequence, Label(sha(body)), receipt, at))
  {
    LabelIsValid(sha(body));
  }

  // ---------- The rules spelled out ----------

  /** One to 128 bytes of letters, digits, hyphen, underscore, point, colon and slash. */
  predicate IsName(s: string) {
    1 <= |s| <= 128
    && forall i :: 0 <= i < |s| ==>
         '0' <= s[i] <= '9' || 'a' <= s[i] <= 'z' || 'A' <= s[i] <= 'Z' || s[i] in "-_.:/"
  }

  /** `sha256:` and 64 lower-case hex digits. */
  predicate IsDigestText(s: string) {
    |s| == 71 && s[..7] == "sha256:" && forall i :: 7 <= i < 71 ==> '0' <= s[i] <= '9' || 'a' <= s[i] <= 'f'
  }

  lemma NamesAre(s: string)
    ensures PortableIdentifier(s) <==> IsName(s)
    ensures ValidSha256(s) <==> IsDigestText(s)
  {
    assert "sha256:" <= s <==> |s| >= 7 && s[..7] == "sha256:";
  }

  predicate EvidenceSpelled(p: Parsers, v: Evidence, now: int, observed: int) {
    && IsName(v.id) && IsDigestText(v.sha256)
    && v.kind != [] && |Utf8(v.kind)| <= 64
    && (v.contentType.Some? ==>
          v.contentType.value != [] && |Utf8(v.contentType.value)| <= 128
          && forall i :: 0 <= i < |v.contentType.value| ==> ' ' <= v.contentType.value[i] != '\U{7F}')
    && (v.sizeBytes.Some? ==> v.sizeBytes.value <= 1_125_899_906_842_624)
    && p.time(v.collectedAt).Some?
    && p.time(v.collectedAt).value <= now + 300 && p.time(v.collectedAt).value <= observed + 300
    && (v.locator.Some? ==>
          v.locator.value != [] && |Utf8(v.locator.value)| <= 2048 && p.locatorUrl(v.locator.value))
  }

  predicate AssertionSpelled(a: Assertion, evidence: seq<Evidence>) {
    && IsName(a.framework) && IsName(a.control) && |a.evidence| <= 128
    && (a.statement.Some? ==> a.statement.value != [] && |Utf8(a.statement.value)| <= 2048)
    && (forall i, j :: 0 <= i < j < |a.evidence| ==> a.evidence[i] != a.evidence[j])
    && (forall i :: 0 <= i < |a.evidence| ==> Lists(evidence, a.evidence[i]))
  }

  /** The event carries an evidence item with this id. */
  predicate Lists(evidence: seq<Evidence>, id: string) {
    exists k :: 0 <= k < |evidence| && evidence[k].id == id
  }

  lemma ListsIsMembership(evidence: seq<Evidence>, id: string)
    ensures Lists(evidence, id) <==> id in Ids(evidence)
  {
    if Lists(evidence, id) {
      var k :| 0 <= k < |evidence| && evidence[k].id == id;
      assert Ids(evidence)[k] == id;
    }
  }

  lemma BytesAndCharacters(s: string)
    ensures Utf8(s) == [] <==> s == []
  {
    if s != [] { assert Utf8Char(s[0]) != []; }
  }

  lemma EvidenceIs(p: Parsers, v: Evidence, now: int, observed: int)
    ensures EvidenceOk(p, v, now, observed) <==> EvidenceSpelled(p, v, now, observed)
  {
    NamesAre(v.id);
    NamesAre(v.sha256);
    BytesAndCharacters(v.kind);
    if v.contentType.Some? { BytesAndCharacters(v.contentType.value); }
    if v.locator.Some? { BytesAndCharacters(v.locator.value); }
  }

  lemma AssertionIs(a: Assertion, evidence: seq<Evidence>)
    ensures AssertionFieldsOk(a) && ReferencesOk(a, Ids(evidence)) <==> AssertionSpelled(a, evidence)
  {
    NamesAre(a.framework);
    NamesAre(a.control);
    if a.statement.Some? { BytesAndCharacters(a.statement.value); }
    forall i | 0 <= i < |a.evidence| ensures Lists(evidence, a.evidence[i]) <==> a.evidence[i] in Ids(evidence) {
      ListsIsMembership(evidence, a.evidence[i]);
    }
  }

  lemma DistinctItems(e: Event)
    ensures Distinct(Ids(e.evidence)) <==>
              forall i, j :: 0 <= i < j < |e.evidence| ==> e.evidence[i].id != e.evidence[j].id
    ensures Distinct(Controls(e.assertions)) <==>
              forall i, j :: 0 <= i < j < |e.assertions| ==>
                !(e.assertions[i].framework == e.assertions[j].framework
                  && e.assertions[i].control == e.assertions[j].control)
  {
    if Distinct(Ids(e.evidence)) {
      forall i, j | 0 <= i < j < |e.evidence| ensures e.evidence[i].id != e.evidence[j].id {
        assert Ids(e.evidence)[i] != Ids(e.evidence)[j];
      }
    }
    if Distinct(Controls(e.assertions)) {
      forall i, j | 0 <= i < j < |e.assertions|
        ensures !(e.assertions[i].framework == e.assertions[j].framework
                  && e.assertions[i].control == e.assertions[j].control)
      {
        assert Controls(e.assertions)[i] != Controls(e.assertions)[j];
      }
    }
  }

  /** All the rules an accepted event satisfies, and no others. */
  ghost predicate EventSpelled(p: Parsers, e: Event, now: int) {
    && e.specVersion == "canonical.readiness.observation.v1"
    && IsName(e.id) && IsName(e.source) && IsName(e.organization)
    && e.sequence >= 1 && 1 <= |e.assertions| <= 256 && |e.evidence| <= 256
    && p.time(e.observedAt).Some? && p.time(e.observedAt).value <= now + 300
    && (forall i, j :: 0 <= i < j < |e.evidence| ==> e.evidence[i].id != e.evidence[j].id)
    && (forall i :: 0 <= i < |e.evidence| ==> EvidenceSpelled(p, e.evidence[i], now, p.time(e.observedAt).value))
    && (forall i, j :: 0 <= i < j < |e.assertions| ==>
          !(e.assertions[i].framework == e.assertions[j].framework
            && e.assertions[i].control == e.assertions[j].control))
    && (forall i :: 0 <= i < |e.assertions| ==> AssertionSpelled(e.assertions[i], e.evidence))
  }

  lemma ValidEventExactly(p: Parsers, e: Event, now: int)
    ensures ValidEvent(p, e, now) <==> EventSpelled(p, e, now)
  {
    NamesAre(e.id);
    NamesAre(e.source);
    NamesAre(e.organization);
    DistinctItems(e);
    forall i | 0 <= i < |e.assertions|
      ensures AssertionFieldsOk(e.assertions[i]) && ReferencesOk(e.assertions[i], Ids(e.evidence))
              <==> AssertionSpelled(e.assertions[i], e.evidence)
    {
      AssertionIs(e.assertions[i], e.evidence);
    }
    if p.time(e.observedAt).Some? {
      var observed := p.time(e.observedAt).value;
      forall i | 0 <= i < |e.evidence|
        ensures EvidenceOk(p, e.evidence[i], now, observed) <==> EvidenceSpelled(p, e.evidence[i], now, observed)
      {
        EvidenceIs(p, e.evidence[i], now, observed);
      }
    }
  }
}
