/** The head digest commits to the whole stream (src/readiness_observation_ingest.rs). */
module ObservationChain {
  import opened Text
  import opened ObservationLedger

  predicate OneLine(s: string) {
    '\n' !in s
  }

  lemma FieldsAreOneLine(digest: string, event: string, sequence: nat)
    ensures ValidSha256(digest) ==> OneLine(digest)
    ensures PortableIdentifier(event) ==> OneLine(event)
    ensures OneLine(Decimal(sequence))
  {
    DecimalRoundTrip(sequence);
    assert ValidSha256(digest) ==> forall i :: 0 <= i < 7 ==> digest[i] == "sha256:"[i];
  }

  lemma LabelIsValid(d: Digest)
    ensures ValidSha256(Label(d))
  {
    assert Label(d)[..7] == "sha256:";
    forall i | 7 <= i < 71 ensures IsLowerHex(Label(d)[i]) {
      var k := i - 7;
      NibbleRoundTrip('0', if k % 2 == 0 then d[k / 2] / 16 else d[k / 2] % 16);
    }
  }

  /** `record_digest` and the zero digest always satisfy `valid_sha256`. */
  lemma HeadIsValid(sha: Sha256, s: seq<Row>)
    requires Chain(sha, s)
    ensures ValidSha256(Head(s))
  {
    LabelIsValid(ZERO_BYTES);
    if s != [] {
      var r := s[|s| - 1];
      assert LinkOk(sha, s, |s| - 1);
      LabelIsValid(sha(Preimage(r.prior, r.payload, r.event, r.sequence)));
    }
  }

  /** The newline-joined preimage determines its four fields. */
  lemma PreimageInjective(prior1: string, payload1: string, event1: string, n1: nat,
                          prior2: string, payload2: string, event2: string, n2: nat)
    requires ValidSha256(prior1) && ValidSha256(payload1) && PortableIdentifier(event1)
    requires ValidSha256(prior2) && ValidSha256(payload2) && PortableIdentifier(event2)
    requires Preimage(prior1, payload1, event1, n1) == Preimage(prior2, payload2, event2, n2)
    ensures prior1 == prior2 && payload1 == payload2 && event1 == event2 && n1 == n2
  {
    FieldsAreOneLine(prior1, event1, n1);
    FieldsAreOneLine(prior2, event2, n2);
    FieldsAreOneLine(payload1, event1, n1);
    FieldsAreOneLine(payload2, event2, n2);
    var tail1, tail2 := Decimal(n1) + ['\n'] + [], Decimal(n2) + ['\n'] + [];
    var three1, three2 := event1 + ['\n'] + tail1, event2 + ['\n'] + tail2;
    var two1, two2 := payload1 + ['\n'] + three1, payload2 + ['\n'] + three2;
    assert prior1 + ['\n'] + two1 == Preimage(prior1, payload1, event1, n1)[|RECORD_DOMAIN|..];
    assert prior2 + ['\n'] + two2 == Preimage(prior2, payload2, event2, n2)[|RECORD_DOMAIN|..];
    FieldUnique(prior1, prior2, '\n', two1, two2);
    FieldUnique(payload1, payload2, '\n', three1, three2);
    FieldUnique(event1, event2, '\n', tail1, tail2);
    FieldUnique(Decimal(n1), Decimal(n2), '\n', [], []);
    DecimalRoundTrip(n1);
    DecimalRoundTrip(n2);
  }

  function Input(r: Row): string {
    Preimage(r.prior, r.payload, r.event, r.sequence)
  }

  /** Two different texts with one digest. */
  predicate Collision(sha: Sha256, x: string, y: string) {
    x != y && sha(x) == sha(y)
  }

  predicate SameHistory(a: seq<Row>, b: seq<Row>) {
    |a| == |b| && forall i :: 0 <= i < |a| ==> a[i].event == b[i].event && a[i].payload == b[i].payload
  }

  /** Equal heads: either the two last rows agree in everything the digest covers, or the
      hash collides on them. */
  lemma EqualHeadsAgree(sha: Sha256, a: seq<Row>, b: seq<Row>)
    requires Chain(sha, a) && Chain(sha, b) && a != [] && b != [] && Head(a) == Head(b)
    ensures var x, y := a[|a| - 1], b[|b| - 1];
            Collision(sha, Input(x), Input(y))
            || (|a| == |b| && x.prior == y.prior && x.payload == y.payload && x.event == y.event)
  {
    var x, y := a[|a| - 1], b[|b| - 1];
    assert LinkOk(sha, a, |a| - 1) && LinkOk(sha, b, |b| - 1);
    assert Label(sha(Input(x)))[7..] == HexLower(sha(Input(x)));
    assert Label(sha(Input(y)))[7..] == HexLower(sha(Input(y)));
    HexInjective(sha(Input(x)), sha(Input(y)));
    if Input(x) == Input(y) {
      ChainPrefix(sha, a, |a| - 1);
      ChainPrefix(sha, b, |b| - 1);
      HeadIsValid(sha, a[..|a| - 1]);
      HeadIsValid(sha, b[..|b| - 1]);
      PreimageInjective(x.prior, x.payload, x.event, x.sequence, y.prior, y.payload, y.event, y.sequence);
    }
  }

  /** Two non-empty streams with equal head digests have the same ordered events and
      payload digests, unless the hash collides on two inputs those streams hashed. */
  lemma {:induction false} HeadCommitsToHistory(sha: Sha256, a: seq<Row>, b: seq<Row>)
    requires Chain(sha, a) && Chain(sha, b) && a != [] && b != [] && Head(a) == Head(b)
    ensures SameHistory(a, b)
            || exists i, j :: 0 <= i < |a| && 0 <= j < |b| && Collision(sha, Input(a[i]), Input(b[j]))
    decreases |a|
  {
    EqualHeadsAgree(sha, a, b);
    var n := |a| - 1;
    if !Collision(sha, Input(a[n]), Input(b[|b| - 1])) && n > 0 {
      ChainPrefix(sha, a, n);
      ChainPrefix(sha, b, n);
      assert LinkOk(sha, a, n) && LinkOk(sha, b, n);
      HeadCommitsToHistory(sha, a[..n], b[..n]);
      if !SameHistory(a[..n], b[..n]) {
        var i, j :| 0 <= i < n && 0 <= j < n && Collision(sha, Input(a[..n][i]), Input(b[..n][j]));
        assert Collision(sha, Input(a[i]), Input(b[j]));
      } else {
        forall i | 0 <= i < |a| ensures a[i].event == b[i].event && a[i].payload == b[i].payload {
          if i < n { assert a[..n][i] == a[i] && b[..n][i] == b[i]; }
        }
      }
    }
  }

  /** Conversely, equal histories have equal heads: the head is a function of the history. */
  lemma {:induction false} HistoryDeterminesHead(sha: Sha256, a: seq<Row>, b: seq<Row>)
    requires Chain(sha, a) && Chain(sha, b) && SameHistory(a, b)
    ensures Head(a) == Head(b)
    decreases |a|
  {
    if a != [] {
      var n := |a| - 1;
      ChainPrefix(sha, a, n);
      ChainPrefix(sha, b, n);
      HistoryDeterminesHead(sha, a[..n], b[..n]);
      assert LinkOk(sha, a, n) && LinkOk(sha, b, n);
    }
  }
}
