/**
 The append-only observation ledger: its rows, the digest that chains them, and what one
 delivery does when it runs alone (src/readiness_observation_ingest.rs).
 */
module ObservationLedger {
  import opened Wrappers
  import opened Text
  import opened Timestamps

  /** SHA-256 is a parameter of the model: any function to 32 bytes. */
  type Digest = d: seq<byte> | |d| == 32 witness seq(32, _ => 0)
  type Sha256 = string -> Digest

  /**
   What the ledger needs from outside: the hash, and the text a store gives back for the
   instant a record was received at. The memory store keeps the text the server formatted; the
   database casts it to microseconds and prints it anew.
   */
  datatype World = World(sha: Sha256, stored: Stamp -> string)

  /** The database as a store: instants are cast to microseconds and printed with six digits. */
  function Database(sha: Sha256, round: Stamp -> MicroStamp): World {
    World(sha, s => PrintedText(round(s)))
  }

  const I64_MAX: nat := 0x7fff_ffff_ffff_ffff
  const MAX_IDENTIFIER_BYTES: nat := 128
  const RECORD_DOMAIN := "canonical.readiness.observation.record.v1\n"
  const ZERO_BYTES: Digest := [
    0, 0, 0, 0, 0, 0, 0, 0, 0, 0, 0, 0, 0, 0, 0, 0, 0, 0, 0, 0, 0, 0, 0, 0, 0, 0, 0, 0, 0, 0, 0, 0]
  /** `sha256:` followed by 64 zeros. */
  const ZERO_RECORD_DIGEST := Label(ZERO_BYTES)

  predicate PortableIdentifier(value: string) {
    0 < |value| <= MAX_IDENTIFIER_BYTES
    && forall i :: 0 <= i < |value| ==>
         IsAlphanumeric(value[i]) || value[i] == '-' || value[i] == '_' || value[i] == '.' || value[i] == ':'
             || value[i] == '/'
  }

  predicate ValidSha256(value: string) {
    "sha256:" <= value && |value| == 71 && forall i :: 7 <= i < 71 ==> IsLowerHex(value[i])
  }

  /** `sha256_label` applied to a finished digest. */
  function Label(d: Digest): string {
    "sha256:" + HexLower(d)
  }

  /** The text `record_digest` feeds to the hash: every field ended by a newline. */
  function Preimage(prior: string, payload: string, event: string, sequence: nat): string {
    RECORD_DOMAIN + (prior + ['\n'] + (payload + ['\n'] + (event + ['\n'] + (Decimal(sequence) + ['\n'] + []))))
  }

  function RecordDigest(sha: Sha256, prior: string, payload: string, event: string, sequence: nat): string {
    Label(sha(Preimage(prior, payload, event, sequence)))
  }

  datatype Row = Row(
    owner: string,
    source: string,
    event: string,
    sequence: nat,
    payload: string,
    prior: string,
    record: string,
    receipt: string,
    receivedAt: Stamp)

  /** A verified delivery with the receipt minted for it. */
  datatype Delivery = Delivery(
    owner: string,
    source: string,
    event: string,
    sequence: nat,
    payload: string,
    receipt: string,
    receivedAt: Stamp)

  /** What validation and signature checking establish before storage. */
  predicate Admissible(d: Delivery) {
    PortableIdentifier(d.source) && PortableIdentifier(d.event) && 0 < d.sequence <= I64_MAX && ValidSha256(d.payload)
  }

  datatype Outcome =
    | Accepted(receipt: string, receivedAt: string)
    | Duplicate(receipt: string, receivedAt: string)
    | EventConflict
    | SequenceConflict
    | StorageUnavailable

  predicate InStream(r: Row, owner: string, source: string) {
    r.owner == owner && r.source == source
  }

  /** The rows of one (owner, source) stream in commit order. */
  function StreamOf(rows: seq<Row>, owner: string, source: string): seq<Row> {
    if rows == [] then []
    else StreamOf(rows[..|rows| - 1], owner, source)
         + (if InStream(rows[|rows| - 1], owner, source) then [rows[|rows| - 1]] else [])
  }

  /** `SELECT ... WHERE event_id = $3`. */
  function FindEvent(rows: seq<Row>, owner: string, source: string, event: string): Option<Row> {
    if rows == [] then None
    else
      var last := rows[|rows| - 1];
      if InStream(last, owner, source) && last.event == event then Some(last)
      else FindEvent(rows[..|rows| - 1], owner, source, event)
  }

  /** `SELECT ... ORDER BY source_sequence DESC LIMIT 1`. */
  function Cursor(rows: seq<Row>, owner: string, source: string): Option<Row> {
    if rows == [] then None
    else
      var last, rest := rows[|rows| - 1], Cursor(rows[..|rows| - 1], owner, source);
      if !InStream(last, owner, source) then rest
      else if rest.Some? && rest.value.sequence > last.sequence then rest
      else Some(last)
  }

  function PriorSequence(cursor: Option<Row>): nat {
    if cursor.Some? then cursor.value.sequence else 0
  }

  function PriorDigest(cursor: Option<Row>): string {
    if cursor.Some? then cursor.value.record else ZERO_RECORD_DIGEST
  }

  /** `checked_add(1)` on i64, then the comparison with the announced sequence. */
  predicate IsNext(cursor: Option<Row>, sequence: nat) {
    PriorSequence(cursor) < I64_MAX && sequence == PriorSequence(cursor) + 1
  }

  predicate SameContent(r: Row, d: Delivery) {
    r.payload == d.payload && r.sequence == d.sequence
  }

  function Replayed(world: World, r: Row, d: Delivery): Outcome {
    if SameContent(r, d) then Duplicate(r.receipt, world.stored(r.receivedAt)) else EventConflict
  }

  function NewRow(sha: Sha256, prior: string, d: Delivery): Row {
    Row(d.owner, d.source, d.event, d.sequence, d.payload, prior,
        RecordDigest(sha, prior, d.payload, d.event, d.sequence), d.receipt, d.receivedAt)
  }

  /** One delivery run alone; `capacity` bounds the number of stored rows, if at all. */
  function Ingest(world: World, rows: seq<Row>, d: Delivery, capacity: Option<nat>): (seq<Row>, Outcome) {
    match FindEvent(rows, d.owner, d.source, d.event)
    case Some(r) => (rows, Replayed(world, r, d))
    case None =>
      var cursor := Cursor(rows, d.owner, d.source);
      if !IsNext(cursor, d.sequence) then (rows, SequenceConflict)
      else if capacity.Some? && |rows| >= capacity.value then (rows, StorageUnavailable)
      else (rows + [NewRow(world.sha, PriorDigest(cursor), d)], Accepted(d.receipt, RfcText(d.receivedAt)))
  }

  // ---------- The chain every stream forms ----------

  function Head(stream: seq<Row>): string {
    if stream == [] then ZERO_RECORD_DIGEST else stream[|stream| - 1].record
  }

  /** Row i of a stream: sequence i + 1, linked to row i - 1, digest recomputable. */
  predicate LinkOk(sha: Sha256, stream: seq<Row>, i: nat)
    requires i < |stream|
  {
    var r := stream[i];
    && r.sequence == i + 1
    && r.prior == Head(stream[..i])
    && r.record == RecordDigest(sha, r.prior, r.payload, r.event, r.sequence)
    && PortableIdentifier(r.event) && ValidSha256(r.payload)
  }

  ghost predicate Chain(sha: Sha256, stream: seq<Row>) {
    && |stream| <= I64_MAX
    && (forall i :: 0 <= i < |stream| ==> LinkOk(sha, stream, i))
    && (forall i, j :: 0 <= i < j < |stream| ==> stream[i].event != stream[j].event)
  }

  ghost predicate LedgerOk(sha: Sha256, rows: seq<Row>) {
    forall owner, source :: Chain(sha, StreamOf(rows, owner, source))
  }

  lemma StreamAppend(rows: seq<Row>, r: Row, owner: string, source: string)
    ensures StreamOf(rows + [r], owner, source)
         == StreamOf(rows, owner, source) + (if InStream(r, owner, source) then [r] else [])
  {
    assert (rows + [r])[..|rows|] == rows;
  }

  predicate Absent(stream: seq<Row>, event: string) {
    forall i :: 0 <= i < |stream| ==> stream[i].event != event
  }

  lemma AbsentAppend(stream: seq<Row>, r: Row, event: string)
    ensures Absent(stream + [r], event) <==> Absent(stream, event) && r.event != event
  {
    assert (stream + [r])[|stream|] == r;
    if Absent(stream + [r], event) {
      forall i | 0 <= i < |stream| ensures stream[i].event != event {
        assert (stream + [r])[i] == stream[i];
      }
    }
  }

  /** The event query reads the stream. */
  lemma {:induction false} FindEventInStream(rows: seq<Row>, owner: string, source: string, event: string)
    ensures FindEvent(rows, owner, source, event).None? <==> Absent(StreamOf(rows, owner, source), event)
    ensures FindEvent(rows, owner, source, event).Some? ==>
              FindEvent(rows, owner, source, event).value in StreamOf(rows, owner, source)
              && FindEvent(rows, owner, source, event).value.event == event
  {
    if rows != [] {
      var last := rows[|rows| - 1];
      FindEventInStream(rows[..|rows| - 1], owner, source, event);
      var s0 := StreamOf(rows[..|rows| - 1], owner, source);
      AbsentAppend(s0, last, event);
      assert s0 + [] == s0;
    }
  }

  /** The cursor query returns the end of the stream. */
  lemma {:induction false} CursorInStream(sha: Sha256, rows: seq<Row>, owner: string, source: string)
    requires Chain(sha, StreamOf(rows, owner, source))
    ensures var s := StreamOf(rows, owner, source);
            Cursor(rows, owner, source) == if s == [] then None else Some(s[|s| - 1])
  {
    if rows != [] {
      var rest, last := rows[..|rows| - 1], rows[|rows| - 1];
      var s, s0 := StreamOf(rows, owner, source), StreamOf(rest, owner, source);
      ChainPrefix(sha, s, |s0|);
      assert s[..|s0|] == s0;
      CursorInStream(sha, rest, owner, source);
      if InStream(last, owner, source) {
        assert LinkOk(sha, s, |s0|);
        if s0 != [] { assert LinkOk(sha, s, |s0| - 1); }
      }
    }
  }

  lemma ChainPrefix(sha: Sha256, s: seq<Row>, n: nat)
    requires Chain(sha, s) && n <= |s|
    ensures Chain(sha, s[..n])
  {
    forall i | 0 <= i < n ensures LinkOk(sha, s[..n], i) {
      assert LinkOk(sha, s, i);
      assert s[..n][..i] == s[..i];
    }
  }

  lemma ChainExtends(sha: Sha256, s: seq<Row>, r: Row)
    requires Chain(sha, s) && |s| < I64_MAX
    requires r.sequence == |s| + 1 && r.prior == Head(s)
    requires r.record == RecordDigest(sha, r.prior, r.payload, r.event, r.sequence)
    requires PortableIdentifier(r.event) && ValidSha256(r.payload)
    requires Absent(s, r.event)
    ensures Chain(sha, s + [r])
  {
    var s' := s + [r];
    forall i | 0 <= i < |s'| ensures LinkOk(sha, s', i) {
      if i < |s| {
        assert LinkOk(sha, s, i);
        assert s'[..i] == s[..i];
      } else {
        assert s'[..i] == s;
      }
    }
  }

  /** Appending a delivery that the two queries admit keeps every stream a chain. */
  lemma AppendKeepsLedger(sha: Sha256, rows: seq<Row>, d: Delivery)
    requires LedgerOk(sha, rows) && Admissible(d)
    requires FindEvent(rows, d.owner, d.source, d.event).None?
    requires IsNext(Cursor(rows, d.owner, d.source), d.sequence)
    ensures LedgerOk(sha, rows + [NewRow(sha, PriorDigest(Cursor(rows, d.owner, d.source)), d)])
  {
    var r := NewRow(sha, PriorDigest(Cursor(rows, d.owner, d.source)), d);
    forall owner, source ensures Chain(sha, StreamOf(rows + [r], owner, source)) {
      var s := StreamOf(rows, owner, source);
      assert Chain(sha, s);
      StreamAppend(rows, r, owner, source);
      if InStream(r, owner, source) {
        FindEventInStream(rows, owner, source, d.event);
        CursorInStream(sha, rows, owner, source);
        if s != [] { assert LinkOk(sha, s, |s| - 1); }
        ChainExtends(sha, s, r);
      } else {
        assert s + [] == s;
      }
    }
  }

  lemma IngestKeepsLedger(world: World, rows: seq<Row>, d: Delivery, capacity: Option<nat>)
    requires LedgerOk(world.sha, rows) && Admissible(d)
    ensures LedgerOk(world.sha, Ingest(world, rows, d, capacity).0)
  {
    if Ingest(world, rows, d, capacity).0 != rows {
      AppendKeepsLedger(world.sha, rows, d);
    }
  }
}
