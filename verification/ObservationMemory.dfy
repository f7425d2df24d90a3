/**
 The bounded in-memory store (`store_memory` in src/readiness_observation_ingest.rs): an
 event map, a cursor per stream and an insertion order, against the ledger scan.
 */
module ObservationMemory {
  import opened Wrappers
  import opened Timestamps
  import opened ObservationLedger

  const MEMORY_CAPACITY: nat := 10_000

  datatype EventKey = EventKey(owner: string, source: string, event: string)
  datatype StreamKey = StreamKey(owner: string, source: string)
  datatype MemoryRecord = MemoryRecord(sequence: nat, payload: string, receipt: string, receivedAt: string)
  datatype StreamCursor = StreamCursor(sequence: nat, record: string)

  datatype Memory = Memory(
    events: map<EventKey, MemoryRecord>,
    streams: map<StreamKey, StreamCursor>,
    order: seq<EventKey>)

  const EMPTY := Memory(map[], map[], [])

  function CursorOf(m: Memory, k: StreamKey): StreamCursor {
    if k in m.streams then m.streams[k] else StreamCursor(0, ZERO_RECORD_DIGEST)
  }

  /** What `store_memory` answers and leaves behind. */
  function StoreMemory(sha: Sha256, m: Memory, d: Delivery, capacity: nat): (Memory, Outcome) {
    var key, stream := EventKey(d.owner, d.source, d.event), StreamKey(d.owner, d.source);
    if key in m.events then
      (m, if m.events[key].payload == d.payload && m.events[key].sequence == d.sequence
          then Duplicate(m.events[key].receipt, m.events[key].receivedAt) else EventConflict)
    else
      var prior := CursorOf(m, stream);
      if prior.sequence >= I64_MAX || d.sequence != prior.sequence + 1 then (m, SequenceConflict)
      else if |m.order| >= capacity then (m, StorageUnavailable)
      else
        (Memory(m.events[key := MemoryRecord(d.sequence, d.payload, d.receipt, RfcText(d.receivedAt))],
                m.streams[stream := StreamCursor(d.sequence,
                    RecordDigest(sha, prior.record, d.payload, d.event, d.sequence))],
                m.order + [key]),
         Accepted(d.receipt, RfcText(d.receivedAt)))
  }

  /** The store as the code runs it. */
  class MemoryStore {
    var events: map<EventKey, MemoryRecord>
    var streams: map<StreamKey, StreamCursor>
    var order: seq<EventKey>

    ghost function Contents(): Memory
      reads this
    {
      Memory(events, streams, order)
    }

    constructor ()
      ensures Contents() == EMPTY
    {
      events, streams, order := map[], map[], [];
    }

    method Store(sha: Sha256, d: Delivery) returns (outcome: Outcome)
      modifies this
      ensures (Contents(), outcome) == StoreMemory(sha, old(Contents()), d, 10_000)
    {
      var key := EventKey(d.owner, d.source, d.event);
      if key in events {
        var existing := events[key];
        if existing.payload == d.payload && existing.sequence == d.sequence {
          return Duplicate(existing.receipt, existing.receivedAt);
        }
        return EventConflict;
      }
      var stream := StreamKey(d.owner, d.source);
      var priorSequence, priorRecord := 0, ZERO_RECORD_DIGEST;
      if stream in streams {
        priorSequence, priorRecord := streams[stream].sequence, streams[stream].record;
      }
      if priorSequence >= I64_MAX || d.sequence != priorSequence + 1 {
        return SequenceConflict;
      }
      if |order| >= MEMORY_CAPACITY {
        return StorageUnavailable;
      }
      var record := RecordDigest(sha, priorRecord, d.payload, d.event, d.sequence);
      events := events[key := MemoryRecord(d.sequence, d.payload, d.receipt, RfcText(d.receivedAt))];
      streams := streams[stream := StreamCursor(d.sequence, record)];
      order := order + [key];
      return Accepted(d.receipt, RfcText(d.receivedAt));
    }
  }

  // ---------- Agreement with the ledger scan ----------

  function KeyOf(r: Row): EventKey {
    EventKey(r.owner, r.source, r.event)
  }

  function RecordOf(r: Row): MemoryRecord {
    MemoryRecord(r.sequence, r.payload, r.receipt, RfcText(r.receivedAt))
  }

  ghost predicate EventAgrees(m: Memory, rows: seq<Row>, k: EventKey) {
    var found := FindEvent(rows, k.owner, k.source, k.event);
    && (k in m.events <==> found.Some?)
    && (k in m.events ==>
          m.events[k] == RecordOf(found.value))
  }

  ghost predicate CursorAgrees(m: Memory, rows: seq<Row>, k: StreamKey) {
    var cursor := Cursor(rows, k.owner, k.source);
    CursorOf(m, k) == StreamCursor(PriorSequence(cursor), PriorDigest(cursor))
  }

  /** The three collections answer every query as a scan of the rows would. */
  ghost predicate Represents(m: Memory, rows: seq<Row>) {
    && |m.order| == |rows|
    && (forall i :: 0 <= i < |rows| ==> m.order[i] == KeyOf(rows[i]))
    && (forall k :: EventAgrees(m, rows, k))
    && (forall k :: CursorAgrees(m, rows, k))
  }

  lemma EventAfterAppend(m: Memory, m': Memory, rows: seq<Row>, r: Row, k: EventKey)
    requires EventAgrees(m, rows, k)
    requires m'.events == m.events[KeyOf(r) := RecordOf(r)]
    ensures EventAgrees(m', rows + [r], k)
  {
    assert (rows + [r])[..|rows|] == rows;
  }

  lemma CursorAfterAppend(m: Memory, m': Memory, rows: seq<Row>, r: Row, k: StreamKey)
    requires CursorAgrees(m, rows, k)
    requires m'.streams == m.streams[StreamKey(r.owner, r.source) := StreamCursor(r.sequence, r.record)]
    requires r.sequence > PriorSequence(Cursor(rows, r.owner, r.source))
    ensures CursorAgrees(m', rows + [r], k)
  {
    assert (rows + [r])[..|rows|] == rows;
  }

  /** A store that gives back the text it was given. */
  function Verbatim(sha: Sha256): World {
    World(sha, RfcText)
  }

  /** One delivery: same answer, and the collections keep representing the rows. */
  lemma StoreAgrees(sha: Sha256, m: Memory, rows: seq<Row>, d: Delivery, capacity: nat)
    requires Represents(m, rows)
    ensures StoreMemory(sha, m, d, capacity).1 == Ingest(Verbatim(sha), rows, d, Some(capacity)).1
    ensures Represents(StoreMemory(sha, m, d, capacity).0, Ingest(Verbatim(sha), rows, d, Some(capacity)).0)
  {
    var key, stream := EventKey(d.owner, d.source, d.event), StreamKey(d.owner, d.source);
    assert EventAgrees(m, rows, key) && CursorAgrees(m, rows, stream);
    var m', rows' := StoreMemory(sha, m, d, capacity).0, Ingest(Verbatim(sha), rows, d, Some(capacity)).0;
    if rows' != rows {
      var r := NewRow(sha, PriorDigest(Cursor(rows, d.owner, d.source)), d);
      assert rows' == rows + [r];
      forall k ensures EventAgrees(m', rows', k) { EventAfterAppend(m, m', rows, r, k); }
      forall k ensures CursorAgrees(m', rows', k) { CursorAfterAppend(m, m', rows, r, k); }
    }
  }

  function RunMemory(sha: Sha256, m: Memory, ds: seq<Delivery>, capacity: nat): (Memory, seq<Outcome>)
    decreases |ds|
  {
    if ds == [] then (m, [])
    else
      var (m1, o) := StoreMemory(sha, m, ds[0], capacity);
      var (m2, os) := RunMemory(sha, m1, ds[1..], capacity);
      (m2, [o] + os)
  }

  function RunLedger(world: World, rows: seq<Row>, ds: seq<Delivery>, capacity: Option<nat>): (seq<Row>, seq<Outcome>)
    decreases |ds|
  {
    if ds == [] then (rows, [])
    else
      var (r1, o) := Ingest(world, rows, ds[0], capacity);
      var (r2, os) := RunLedger(world, r1, ds[1..], capacity);
      (r2, [o] + os)
  }

  lemma {:induction false} RunsAgreeFrom(sha: Sha256, m: Memory, rows: seq<Row>, ds: seq<Delivery>, capacity: nat)
    requires Represents(m, rows)
    ensures RunMemory(sha, m, ds, capacity).1 == RunLedger(Verbatim(sha), rows, ds, Some(capacity)).1
    ensures Represents(RunMemory(sha, m, ds, capacity).0, RunLedger(Verbatim(sha), rows, ds, Some(capacity)).0)
    decreases |ds|
  {
    if ds != [] {
      StoreAgrees(sha, m, rows, ds[0], capacity);
      var rows' := Ingest(Verbatim(sha), rows, ds[0], Some(capacity)).0;
      RunsAgreeFrom(sha, StoreMemory(sha, m, ds[0], capacity).0, rows', ds[1..], capacity);
    }
  }

  /** On every request sequence the memory store answers as the capacity-bounded ledger scan. */
  lemma MemoryAgreesWithLedger(sha: Sha256, ds: seq<Delivery>, capacity: nat)
    ensures RunMemory(sha, EMPTY, ds, capacity).1 == RunLedger(Verbatim(sha), [], ds, Some(capacity)).1
    ensures Represents(RunMemory(sha, EMPTY, ds, capacity).0, RunLedger(Verbatim(sha), [], ds, Some(capacity)).0)
  {
    assert Represents(EMPTY, []);
    RunsAgreeFrom(sha, EMPTY, [], ds, capacity);
  }

  /** While the unbounded ledger stays within the capacity the bound changes nothing. */
  lemma {:induction false} BoundIsInvisibleUntilFull(world: World, rows: seq<Row>, ds: seq<Delivery>, capacity: nat)
    requires |RunLedger(world, rows, ds, None).0| <= capacity
    ensures RunLedger(world, rows, ds, Some(capacity)) == RunLedger(world, rows, ds, None)
    decreases |ds|
  {
    if ds != [] {
      var next := Ingest(world, rows, ds[0], None).0;
      LedgerGrows(world, next, ds[1..]);
      BoundIsInvisibleUntilFull(world, next, ds[1..], capacity);
    }
  }

  lemma {:induction false} LedgerGrows(world: World, rows: seq<Row>, ds: seq<Delivery>)
    ensures rows <= RunLedger(world, rows, ds, None).0
    decreases |ds|
  {
    if ds != [] {
      LedgerGrows(world, Ingest(world, rows, ds[0], None).0, ds[1..]);
    }
  }

  // ---------- Memory against database ----------

  /** Same kind of answer and same receipt id; only the time text of a replay may differ. */
  predicate SameButText(a: Outcome, b: Outcome) {
    a == b || (a.Duplicate? && b.Duplicate? && a.receipt == b.receipt)
  }

  /** The instant of acceptance of the record that a delivery exactly replays, if any. */
  function ReplayedStamp(rows: seq<Row>, d: Delivery): seq<Stamp> {
    var found := FindEvent(rows, d.owner, d.source, d.event);
    if found.Some? && SameContent(found.value, d) then [found.value.receivedAt] else []
  }

  function ReplayedStamps(sha: Sha256, rows: seq<Row>, ds: seq<Delivery>): seq<Stamp>
    decreases |ds|
  {
    if ds == [] then []
    else ReplayedStamp(rows, ds[0]) + ReplayedStamps(sha, Ingest(Verbatim(sha), rows, ds[0], None).0, ds[1..])
  }

  /** The store gives these instants back as the server formats them. */
  ghost predicate Faithful(stored: Stamp -> string, stamps: seq<Stamp>) {
    forall t :: t in stamps ==> stored(t) == RfcText(t)
  }

  lemma FaithfulConcat(stored: Stamp -> string, a: seq<Stamp>, b: seq<Stamp>)
    ensures Faithful(stored, a + b) <==> Faithful(stored, a) && Faithful(stored, b)
  {
    assert forall t :: t in a + b <==> t in a || t in b;
  }

  lemma OneAnswerAgrees(sha: Sha256, stored: Stamp -> string, rows: seq<Row>, d: Delivery)
    ensures var a, b := Ingest(Verbatim(sha), rows, d, None), Ingest(World(sha, stored), rows, d, None);
            && a.0 == b.0 && SameButText(a.1, b.1)
            && (a.1 == b.1 <==> Faithful(stored, ReplayedStamp(rows, d)))
  {
  }

  ghost predicate AnswersAgree(a: seq<Outcome>, b: seq<Outcome>, faithful: bool) {
    && |a| == |b| && (forall i :: 0 <= i < |a| ==> SameButText(a[i], b[i]))
    && (a == b <==> faithful)
  }

  lemma AgreeCons(x: Outcome, y: Outcome, first: bool, a: seq<Outcome>, b: seq<Outcome>, rest: bool)
    requires SameButText(x, y) && (x == y <==> first) && AnswersAgree(a, b, rest)
    ensures AnswersAgree([x] + a, [y] + b, first && rest)
  {
    assert ([x] + a)[0] == x && ([y] + b)[0] == y && ([x] + a)[1..] == a && ([y] + b)[1..] == b;
  }

  /** Two stores with one hash keep the same rows and answer alike up to the text of replays. */
  lemma {:induction false} StoresAgreeFrom(sha: Sha256, stored: Stamp -> string, rows: seq<Row>, ds: seq<Delivery>)
    ensures var a, b := RunLedger(Verbatim(sha), rows, ds, None), RunLedger(World(sha, stored), rows, ds, None);
            && a.0 == b.0 && |a.1| == |ds|
            && AnswersAgree(a.1, b.1, Faithful(stored, ReplayedStamps(sha, rows, ds)))
    decreases |ds|
  {
    if ds != [] {
      var x, y := Ingest(Verbatim(sha), rows, ds[0], None), Ingest(World(sha, stored), rows, ds[0], None);
      var rest := ds[1..];
      OneAnswerAgrees(sha, stored, rows, ds[0]);
      StoresAgreeFrom(sha, stored, x.0, rest);
      var a, b := RunLedger(Verbatim(sha), x.0, rest, None).1, RunLedger(World(sha, stored), x.0, rest, None).1;
      var first, more := ReplayedStamp(rows, ds[0]), ReplayedStamps(sha, x.0, rest);
      AgreeCons(x.1, y.1, Faithful(stored, first), a, b, Faithful(stored, more));
      FaithfulConcat(stored, first, more);
    }
  }

  /**
   Until the capacity is exceeded the memory path and the database path answer every request
   sequence with the same kind of outcome and the same receipt ids; the answers are equal as a
   whole exactly when every record replayed was accepted at a time whose text has six fraction
   digits.
   */
  lemma MemoryAgreesWithDatabaseUntilFull(sha: Sha256, round: Stamp -> MicroStamp, ds: seq<Delivery>, capacity: nat)
    requires KeepsMicros(round) && |RunLedger(Verbatim(sha), [], ds, None).0| <= capacity
    ensures var a, b := RunMemory(sha, EMPTY, ds, capacity).1, RunLedger(Database(sha, round), [], ds, None).1;
            && |a| == |b| == |ds|
            && (forall i :: 0 <= i < |ds| ==> SameButText(a[i], b[i]))
            && (a == b <==> forall t :: t in ReplayedStamps(sha, [], ds) ==> SixDigits(t.nano))
  {
    MemoryAgreesWithLedger(sha, ds, capacity);
    BoundIsInvisibleUntilFull(Verbatim(sha), [], ds, capacity);
    StoresAgreeFrom(sha, Database(sha, round).stored, [], ds);
    forall t: Stamp ensures PrintedText(round(t)) == RfcText(t) <==> SixDigits(t.nano) {
      PrintedBackExactly(round, t);
    }
  }

  // ---------- Replays and conservation ----------

  /** Once accepted, an exact replay returns the original receipt after any further
      deliveries, also when the store is full. */
  lemma {:induction false} ReplayReturnsOriginalReceipt(sha: Sha256, m: Memory, d: Delivery, ds: seq<Delivery>,
                                                        again: Delivery, capacity: nat)
    requires StoreMemory(sha, m, d, capacity).1.Accepted?
    requires again.owner == d.owner && again.source == d.source && again.event == d.event
    requires again.payload == d.payload && again.sequence == d.sequence
    ensures var m' := RunMemory(sha, StoreMemory(sha, m, d, capacity).0, ds, capacity).0;
            StoreMemory(sha, m', again, capacity) == (m', Duplicate(d.receipt, RfcText(d.receivedAt)))
  {
    EventsPersist(sha, StoreMemory(sha, m, d, capacity).0, ds, capacity, EventKey(d.owner, d.source, d.event));
  }

  lemma {:induction false} EventsPersist(sha: Sha256, m: Memory, ds: seq<Delivery>, capacity: nat, k: EventKey)
    requires k in m.events
    ensures k in RunMemory(sha, m, ds, capacity).0.events && RunMemory(sha, m, ds, capacity).0.events[k] == m.events[k]
    decreases |ds|
  {
    if ds != [] {
      EventsPersist(sha, StoreMemory(sha, m, ds[0], capacity).0, ds[1..], capacity, k);
    }
  }

  /** Sum of all cursor sequences. */
  ghost function Total(streams: map<StreamKey, StreamCursor>): nat
    decreases |streams|
  {
    if streams == map[] then 0
    else
      var k :| k in streams;
      streams[k].sequence + Total(streams - {k})
  }

  lemma {:induction false} TotalSplit(streams: map<StreamKey, StreamCursor>, k: StreamKey)
    requires k in streams
    ensures Total(streams) == streams[k].sequence + Total(streams - {k})
    decreases |streams|
  {
    var j :| j in streams && Total(streams) == streams[j].sequence + Total(streams - {j});
    if j != k {
      TotalSplit(streams - {j}, k);
      TotalSplit(streams - {k}, j);
      assert streams - {j} - {k} == streams - {k} - {j};
    }
  }

  lemma CursorsCountEvents(sha: Sha256, m: Memory, d: Delivery, capacity: nat)
    requires Total(m.streams) == |m.order|
    ensures var m' := StoreMemory(sha, m, d, capacity).0; Total(m'.streams) == |m'.order|
  {
    var m', k := StoreMemory(sha, m, d, capacity).0, StreamKey(d.owner, d.source);
    if m' != m {
      TotalSplit(m'.streams, k);
      if k in m.streams {
        TotalSplit(m.streams, k);
        assert m'.streams - {k} == m.streams - {k};
      } else {
        assert m'.streams - {k} == m.streams;
      }
    }
  }

  lemma {:induction false} CountFrom(sha: Sha256, m: Memory, ds: seq<Delivery>, capacity: nat)
    requires Total(m.streams) == |m.order| && |m.order| <= capacity
    ensures var m' := RunMemory(sha, m, ds, capacity).0; Total(m'.streams) == |m'.order| <= capacity
    decreases |ds|
  {
    if ds != [] {
      CursorsCountEvents(sha, m, ds[0], capacity);
      CountFrom(sha, StoreMemory(sha, m, ds[0], capacity).0, ds[1..], capacity);
    }
  }

  /** In every reachable store the cursor sequences sum to the number of stored events,
      which never exceeds the capacity. */
  lemma CursorsSumToEvents(sha: Sha256, ds: seq<Delivery>, capacity: nat)
    ensures var m' := RunMemory(sha, EMPTY, ds, capacity).0; Total(m'.streams) == |m'.order| <= capacity
  {
    CountFrom(sha, EMPTY, ds, capacity);
  }
}
