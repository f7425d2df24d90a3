/**
 Readiness assessments (src/lib.rs): a bounded queue of intake records paired with the
 idempotency map it shares with the quote handlers. Every step below runs under the map's
 write guard. Quote handlers look the key up under an earlier read guard, so their write is
 modelled as an overwrite that may hit any key at any time.
 */
module Assessments {
  import opened Wrappers

  type Key = (string, string)

  datatype Submission = Submission(frameworkIds: seq<string>, notes: Option<string>, organization: string)

  datatype Record = Record(id: nat, subject: string, key: string, submission: Submission, receivedAt: string)

  datatype Operation =
    | Assessment(assessmentId: nat, request: Submission)
    | Create(quoteId: nat, payload: string)
    | Retry(retriedId: nat)

  datatype State = State(operations: map<Key, Operation>, records: seq<Record>)

  datatype Outcome = Created(record: Record) | Replayed(record: Record) | StorageUnavailable | KeyReused

  const CAPACITY: nat := 1024

  // ---------- One call ----------

  /** `find_assessment` */
  function Find(records: seq<Record>, id: nat, subject: string): (r: Option<Record>)
    ensures r.Some? ==> r.value in records && r.value.id == id && r.value.subject == subject
    ensures r.None? ==> forall i :: 0 <= i < |records| ==> records[i].id != id || records[i].subject != subject
  {
    if records == [] then None
    else if records[0].id == id && records[0].subject == subject then Some(records[0])
    else Find(records[1..], id, subject)
  }

  function KeyOf(r: Record): Key {
    (r.subject, r.key)
  }

  predicate OwnsEntry(operations: map<Key, Operation>, r: Record) {
    KeyOf(r) in operations && operations[KeyOf(r)].Assessment? && operations[KeyOf(r)].assessmentId == r.id
  }

  /** Make room for one record; the entry of the evicted record goes with it. */
  function Evict(s: State): State {
    if |s.records| < CAPACITY then s
    else State(if OwnsEntry(s.operations, s.records[0]) then s.operations - {KeyOf(s.records[0])} else s.operations,
               s.records[1..])
  }

  /** `create_readiness_assessment` under the write guard. */
  function Submit(s: State, subject: string, key: string, request: Submission, id: nat, now: string): (State, Outcome) {
    var k := (subject, key);
    if k in s.operations then
      match s.operations[k]
      case Assessment(existingId, existing) =>
        if existing != request then (s, KeyReused)
        else
          var found := Find(s.records, existingId, subject);
          if found.None? then (s, StorageUnavailable) else (s, Replayed(found.value))
      case _ => (s, KeyReused)
    else
      var record := Record(id, subject, key, request, now);
      var room := Evict(s.(operations := s.operations[k := Assessment(id, request)]));
      (room.(records := room.records + [record]), Created(record))
  }

  // ---------- Runs ----------

  datatype Action =
    | SubmitAction(subject: string, key: string, request: Submission, id: nat, now: string)
    | QuoteWrite(at: Key, operation: Operation)

  /** Assessment ids are fresh, and quote handlers write only quote operations. */
  predicate Enabled(s: State, a: Action) {
    match a
    case SubmitAction(_, _, _, id, _) => forall i :: 0 <= i < |s.records| ==> s.records[i].id != id
    case QuoteWrite(_, operation) => !operation.Assessment?
  }

  function Step(s: State, a: Action): State {
    match a
    case SubmitAction(subject, key, request, id, now) => Submit(s, subject, key, request, id, now).0
    case QuoteWrite(at, operation) => s.(operations := s.operations[at := operation])
  }

  const EMPTY := State(map[], [])

  ghost predicate Run(s: State, actions: seq<Action>, t: State)
    decreases |actions|
  {
    if actions == [] then s == t
    else Enabled(s, actions[0]) && Run(Step(s, actions[0]), actions[1..], t)
  }

  ghost predicate Reachable(s: State) {
    exists actions: seq<Action> :: Run(EMPTY, actions, s)
  }

  // ---------- The object ----------

  class Store {
    var operations: map<Key, Operation>
    var assessments: seq<Record>

    function Contents(): State
      reads this
    {
      State(operations, assessments)
    }

    constructor ()
      ensures Contents() == EMPTY
    {
      operations := map[];
      assessments := [];
    }

    method CreateReadinessAssessment(subject: string, key: string, request: Submission, id: nat, now: string)
      returns (outcome: Outcome)
      modifies this
      ensures (Contents(), outcome) == Submit(old(Contents()), subject, key, request, id, now)
    {
      var k := (subject, key);
      if k in operations {
        match operations[k] {
          case Assessment(existingId, existing) =>
            if existing != request {
              return KeyReused;
            }
            var found := Find(assessments, existingId, subject);
            return if found.None? then StorageUnavailable else Replayed(found.value);
          case _ =>
            return KeyReused;
        }
      }
      var record := Record(id, subject, key, request, now);
      operations := operations[k := Assessment(id, request)];
      if |assessments| >= CAPACITY {
        var evicted := assessments[0];
        assessments := assessments[1..];
        if KeyOf(evicted) in operations && operations[KeyOf(evicted)].Assessment?
           && operations[KeyOf(evicted)].assessmentId == evicted.id {
          operations := operations - {KeyOf(evicted)};
        }
      }
      assessments := assessments + [record];
      outcome := Created(record);
    }

    /** The write of a quote handler. */
    method RecordQuoteOperation(at: Key, operation: Operation)
      modifies this
      ensures Contents() == Step(old(Contents()), QuoteWrite(at, operation))
    {
      operations := operations[at := operation];
    }
  }

  // ---------- The invariant ----------

  /** An assessment entry names a live record of the same subject, key and request. */
  ghost predicate EntriesAreLive(s: State) {
    forall k :: k in s.operations && s.operations[k].Assessment? ==> EntryIsLive(s, k)
  }

  ghost predicate EntryIsLive(s: State, k: Key)
    requires k in s.operations && s.operations[k].Assessment?
  {
    exists i :: 0 <= i < |s.records| && IsRecordOf(s.records[i], k, s.operations[k])
  }

  predicate IsRecordOf(r: Record, k: Key, operation: Operation) {
    operation.Assessment? && KeyOf(r) == k && r.id == operation.assessmentId && r.submission == operation.request
  }

  /** The key of a live record stays taken, by its own entry or by a quote operation. */
  ghost predicate RecordsHoldKeys(s: State) {
    forall i :: 0 <= i < |s.records| ==>
      KeyOf(s.records[i]) in s.operations
      && (s.operations[KeyOf(s.records[i])].Assessment? ==>
          IsRecordOf(s.records[i], KeyOf(s.records[i]), s.operations[KeyOf(s.records[i])]))
  }

  predicate DistinctIds(s: State) {
    forall i, j :: 0 <= i < j < |s.records| ==> s.records[i].id != s.records[j].id
  }

  predicate DistinctKeys(s: State) {
    forall i, j :: 0 <= i < j < |s.records| ==> KeyOf(s.records[i]) != KeyOf(s.records[j])
  }

  ghost predicate Inv(s: State) {
    |s.records| <= CAPACITY && EntriesAreLive(s) && RecordsHoldKeys(s) && DistinctIds(s) && DistinctKeys(s)
  }
}
