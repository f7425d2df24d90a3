/**
 The three PostgreSQL tables of the quote service and the effect of each of its
 transactions when it runs alone (src/persistence.rs).

 `CreateTx`, `RetryTx` and `UpdateTx` are the reference semantics: the statement-level
 interleavings of `QuoteProtocol` and the imperative `QuoteStore` are both proved
 against them.
 */
module QuoteTables {
  import opened Wrappers

  type QuoteId = nat
  type Subject = string
  type Key = string
  type Json = string

  datatype Status = Queued | Analyzing | Completed | Failed

  datatype QuoteRow = QuoteRow(
    owner: Subject,
    request: Json,
    context: Json,
    status: Status,
    analysis: Option<Json>,
    error: Option<string>)

  datatype OperationKind = CreateOperation | RetryOperation

  datatype OperationRow = OperationRow(
    owner: Subject,
    key: Key,
    kind: OperationKind,
    quote: QuoteId,
    request: Option<Json>)

  datatype EventRow = EventRow(sequence: nat, quote: QuoteId, owner: Subject, status: Status)

  /** Rows appear in commit order; `sequence` is the identity column drawn at insert time. */
  datatype Tables = Tables(
    quotes: map<QuoteId, QuoteRow>,
    operations: seq<OperationRow>,
    events: seq<EventRow>)

  datatype StoreError =
    | ContextNotFound
    | IdempotencyKeyReused
    | InvalidTransition
    | QuoteNotFound

  datatype Outcome =
    | Created(quote: QuoteId, context: Json)
    | Retried(quote: QuoteId, context: Json)
    | Updated
    | Existing(quote: QuoteId)
    | Rejected(error: StoreError)

  /** The three field values a status write stores. */
  datatype Write =
    | MarkQueued
    | MarkAnalyzing
    | MarkCompleted(analysis: Json)
    | MarkFailed(code: string)

  function StatusOf(w: Write): Status {
    match w
    case MarkQueued => Queued
    case MarkAnalyzing => Analyzing
    case MarkCompleted(_) => Completed
    case MarkFailed(_) => Failed
  }

  function Overwrite(row: QuoteRow, w: Write): QuoteRow {
    row.(status := StatusOf(w),
         analysis := if w.MarkCompleted? then Some(w.analysis) else None,
         error := if w.MarkFailed? then Some(w.code) else None)
  }

  /** `find_operation`: the row of this owner and key. */
  function FindOperation(rows: seq<OperationRow>, owner: Subject, key: Key): Option<OperationRow> {
    if rows == [] then None
    else if rows[|rows| - 1].owner == owner && rows[|rows| - 1].key == key then Some(rows[|rows| - 1])
    else FindOperation(rows[..|rows| - 1], owner, key)
  }

  lemma {:induction false} FindOperationSpec(rows: seq<OperationRow>, owner: Subject, key: Key)
    ensures FindOperation(rows, owner, key).None? <==>
            forall i :: 0 <= i < |rows| ==> !(rows[i].owner == owner && rows[i].key == key)
    ensures FindOperation(rows, owner, key).Some? ==>
              var row := FindOperation(rows, owner, key).value;
              row in rows && row.owner == owner && row.key == key
  {
    if rows != [] {
      var rest := rows[..|rows| - 1];
      FindOperationSpec(rest, owner, key);
      assert rows == rest + [rows[|rows| - 1]];
    }
  }

  /** `quote_row`: the row with this id, when the owner predicate holds. */
  predicate Owns(t: Tables, owner: Subject, quote: QuoteId) {
    quote in t.quotes && t.quotes[quote].owner == owner
  }

  /** `latest_event`: greatest sequence id of the quote (ties cannot occur). */
  function LatestEvent(events: seq<EventRow>, owner: Subject, quote: QuoteId): Option<EventRow> {
    if events == [] then None
    else
      var rest := LatestEvent(events[..|events| - 1], owner, quote);
      var last := events[|events| - 1];
      if last.quote != quote || last.owner != owner then rest
      else if rest.Some? && rest.value.sequence > last.sequence then rest
      else Some(last)
  }

  // ---------- Transactions run alone ----------

  function Matches(row: OperationRow, kind: OperationKind, request: Option<Json>, quote: QuoteId): bool {
    row.kind == kind && (if kind.CreateOperation? then row.request == request else row.quote == quote)
  }

  /** What a call that finds its key already used answers; it never writes. */
  function Replayed(t: Tables, row: OperationRow, kind: OperationKind, request: Option<Json>, quote: QuoteId): Outcome {
    if !Matches(row, kind, request, quote) then Rejected(IdempotencyKeyReused)
    else if !Owns(t, row.owner, row.quote) then Rejected(QuoteNotFound)
    else Existing(row.quote)
  }

  function CreateTx(t: Tables, active: Option<Json>, owner: Subject, key: Key, request: Json,
                    id: QuoteId, sequence: nat): (Tables, Outcome)
  {
    match FindOperation(t.operations, owner, key)
    case Some(row) => (t, Replayed(t, row, CreateOperation, Some(request), id))
    case None =>
      if active.None? then (t, Rejected(ContextNotFound))
      else
        (Tables(t.quotes[id := QuoteRow(owner, request, active.value, Queued, None, None)],
                t.operations + [OperationRow(owner, key, CreateOperation, id, Some(request))],
                t.events + [EventRow(sequence, id, owner, Queued)]),
         Created(id, active.value))
  }

  function RetryTx(t: Tables, owner: Subject, key: Key, quote: QuoteId, sequence: nat): (Tables, Outcome) {
    match FindOperation(t.operations, owner, key)
    case Some(row) => (t, Replayed(t, row, RetryOperation, None, quote))
    case None =>
      if !Owns(t, owner, quote) then (t, Rejected(QuoteNotFound))
      else if !t.quotes[quote].status.Failed? then (t, Rejected(InvalidTransition))
      else
        (Tables(t.quotes[quote := Overwrite(t.quotes[quote], MarkQueued)],
                t.operations + [OperationRow(owner, key, RetryOperation, quote, None)],
                t.events + [EventRow(sequence, quote, owner, Queued)]),
         Retried(quote, t.quotes[quote].context))
  }

  /** `update_quote`: an unguarded write; nothing looks at the old status. */
  function UpdateTx(t: Tables, owner: Subject, quote: QuoteId, w: Write, sequence: nat): (Tables, Outcome) {
    if !Owns(t, owner, quote) then (t, Rejected(QuoteNotFound))
    else
      (Tables(t.quotes[quote := Overwrite(t.quotes[quote], w)],
              t.operations,
              t.events + [EventRow(sequence, quote, owner, StatusOf(w))]),
       Updated)
  }
}
