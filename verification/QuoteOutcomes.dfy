/**
 What the three quote transactions answer and store, in terms of table rows and requests alone.
 */
module QuoteOutcomes {
  import opened Wrappers
  import opened QuoteTables

  /** The key is in use. */
  ghost predicate KeyUsed(t: Tables, owner: Subject, key: Key) {
    exists row :: row in t.operations && row.owner == owner && row.key == key
  }

  lemma KeyUsedIsFound(t: Tables, owner: Subject, key: Key)
    ensures KeyUsed(t, owner, key) <==> FindOperation(t.operations, owner, key).Some?
  {
    FindOperationSpec(t.operations, owner, key);
    if KeyUsed(t, owner, key) {
      var row :| row in t.operations && row.owner == owner && row.key == key;
      var i :| 0 <= i < |t.operations| && t.operations[i] == row;
    }
  }

  // ---------- First use of a key ----------

  /** A create with a free key stores its request and the active context, queued, with one
      operation row and one event; without an active context it changes nothing. */
  lemma CreateStores(t: Tables, active: Option<Json>, owner: Subject, key: Key, request: Json, id: QuoteId, n: nat)
    requires !KeyUsed(t, owner, key)
    ensures var (t', outcome) := CreateTx(t, active, owner, key, request, id, n);
            match active
            case None => t' == t && outcome == Rejected(ContextNotFound)
            case Some(context) =>
              && outcome == Created(id, context)
              && t'.quotes == t.quotes[id := QuoteRow(owner, request, context, Queued, None, None)]
              && t'.operations == t.operations + [OperationRow(owner, key, CreateOperation, id, Some(request))]
              && t'.events == t.events + [EventRow(n, id, owner, Queued)]
  {
    KeyUsedIsFound(t, owner, key);
  }

  /** A retry with a free key requeues a failed quote of its owner, clearing the error, and keeps
      everything else of the row; any other quote is refused and nothing changes. */
  lemma RetryStores(t: Tables, owner: Subject, key: Key, quote: QuoteId, n: nat)
    requires !KeyUsed(t, owner, key)
    ensures var (t', outcome) := RetryTx(t, owner, key, quote, n);
            if quote !in t.quotes || t.quotes[quote].owner != owner then
              t' == t && outcome == Rejected(QuoteNotFound)
            else
              var row := t.quotes[quote];
              if row.status != Failed then t' == t && outcome == Rejected(InvalidTransition)
              else
                && outcome == Retried(quote, row.context)
                && t'.quotes == t.quotes[quote := QuoteRow(owner, row.request, row.context, Queued, None, None)]
                && t'.operations == t.operations + [OperationRow(owner, key, RetryOperation, quote, None)]
                && t'.events == t.events + [EventRow(n, quote, owner, Queued)]
  {
    KeyUsedIsFound(t, owner, key);
  }

  /** A worker's write stores exactly its status and its analysis or error code, and one event of
      that status; a quote the owner does not have is refused. */
  lemma UpdateStores(t: Tables, owner: Subject, quote: QuoteId, w: Write, n: nat)
    ensures var (t', outcome) := UpdateTx(t, owner, quote, w, n);
            if quote !in t.quotes || t.quotes[quote].owner != owner then
              t' == t && outcome == Rejected(QuoteNotFound)
            else
              var row := t.quotes[quote];
              && outcome == Updated && t'.operations == t.operations && quote in t'.quotes
              && t'.quotes == t.quotes[quote := t'.quotes[quote]]
              && t'.events == t.events + [EventRow(n, quote, owner, t'.quotes[quote].status)]
              && t'.quotes[quote] ==
                 match w
                 case MarkQueued => QuoteRow(owner, row.request, row.context, Queued, None, None)
                 case MarkAnalyzing => QuoteRow(owner, row.request, row.context, Analyzing, None, None)
                 case MarkCompleted(text) => QuoteRow(owner, row.request, row.context, Completed, Some(text), None)
                 case MarkFailed(code) => QuoteRow(owner, row.request, row.context, Failed, None, Some(code))
  {
  }

  // ---------- Second use of a key ----------

  lemma LastOperation(rows: seq<OperationRow>, row: OperationRow)
    ensures FindOperation(rows + [row], row.owner, row.key) == Some(row)
  {
    assert (rows + [row])[|rows|] == row;
  }

  /** After a create, a second create with its key is answered with its quote for the same
      request and refused for any other, and a retry with its key is refused. */
  lemma KeyOfCreate(t: Tables, active: Option<Json>, owner: Subject, key: Key, r1: Json, id: QuoteId, n: nat,
                    active2: Option<Json>, r2: Json, id2: QuoteId, quote: QuoteId, n2: nat)
    requires CreateTx(t, active, owner, key, r1, id, n).1.Created?
    ensures var t1 := CreateTx(t, active, owner, key, r1, id, n).0;
            && CreateTx(t1, active2, owner, key, r2, id2, n2)
               == (t1, if r2 == r1 then Existing(id) else Rejected(IdempotencyKeyReused))
            && RetryTx(t1, owner, key, quote, n2) == (t1, Rejected(IdempotencyKeyReused))
  {
    LastOperation(t.operations, OperationRow(owner, key, CreateOperation, id, Some(r1)));
  }

  /** After a retry, a second retry with its key is answered with its quote for the same quote
      and refused for any other, and a create with its key is refused. */
  lemma KeyOfRetry(t: Tables, owner: Subject, key: Key, q1: QuoteId, n: nat,
                   q2: QuoteId, active: Option<Json>, request: Json, id: QuoteId, n2: nat)
    requires RetryTx(t, owner, key, q1, n).1.Retried?
    ensures var t1 := RetryTx(t, owner, key, q1, n).0;
            && RetryTx(t1, owner, key, q2, n2)
               == (t1, if q2 == q1 then Existing(q1) else Rejected(IdempotencyKeyReused))
            && CreateTx(t1, active, owner, key, request, id, n2) == (t1, Rejected(IdempotencyKeyReused))
  {
    LastOperation(t.operations, OperationRow(owner, key, RetryOperation, q1, None));
  }
}
