/**
 The quote store as the code runs it: each method is one transaction of
 src/persistence.rs, statement by statement, on tables that are updated in place.
 */
module QuoteStore {
  import opened Wrappers
  import opened QuoteTables

  class Store {
    var quotes: map<QuoteId, QuoteRow>
    var operations: seq<OperationRow>
    var events: seq<EventRow>
    var nextSequence: nat

    ghost function Contents(): Tables
      reads this
    {
      Tables(quotes, operations, events)
    }

    constructor ()
      ensures Contents() == Tables(map[], [], []) && nextSequence == 1
    {
      quotes, operations, events, nextSequence := map[], [], [], 1;
    }

    /** `insert_event`: draws the next identity value. */
    method InsertEvent(quote: QuoteId, owner: Subject, status: Status) returns (event: EventRow)
      modifies this`events, this`nextSequence
      ensures event == EventRow(old(nextSequence), quote, owner, status)
      ensures events == old(events) + [event] && nextSequence == old(nextSequence) + 1
    {
      event := EventRow(nextSequence, quote, owner, status);
      nextSequence := nextSequence + 1;
      events := events + [event];
    }

    method CreateQuote(owner: Subject, key: Key, request: Json, active: Option<Json>, id: QuoteId)
      returns (outcome: Outcome)
      modifies this
      ensures (Contents(), outcome) == CreateTx(old(Contents()), active, owner, key, request, id, old(nextSequence))
      ensures outcome.Created? || Contents() == old(Contents())
      ensures outcome.Created? ==> nextSequence == old(nextSequence) + 1
    {
      var existing := FindOperation(operations, owner, key);
      if existing.Some? {
        var row := existing.value;
        if row.kind != CreateOperation || row.request != Some(request) {
          return Rejected(IdempotencyKeyReused);
        }
        FindOperationSpec(operations, owner, key);
        outcome := GetQuote(owner, row.quote);
        return;
      }
      if active.None? {
        return Rejected(ContextNotFound);
      }
      var context := active.value;
      quotes := quotes[id := QuoteRow(owner, request, context, Queued, None, None)];
      operations := operations + [OperationRow(owner, key, CreateOperation, id, Some(request))];
      var event := InsertEvent(id, owner, Queued);
      outcome := Created(id, context);
    }

    method RetryQuote(owner: Subject, quote: QuoteId, key: Key) returns (outcome: Outcome)
      modifies this
      ensures (Contents(), outcome) == RetryTx(old(Contents()), owner, key, quote, old(nextSequence))
      ensures outcome.Retried? || Contents() == old(Contents())
      ensures outcome.Retried? ==> nextSequence == old(nextSequence) + 1
    {
      var existing := FindOperation(operations, owner, key);
      if existing.Some? {
        var row := existing.value;
        if row.kind != RetryOperation || row.quote != quote {
          return Rejected(IdempotencyKeyReused);
        }
        FindOperationSpec(operations, owner, key);
        outcome := GetQuote(owner, quote);
        return;
      }
      if !(quote in quotes && quotes[quote].owner == owner) {
        return Rejected(QuoteNotFound);
      }
      var record := quotes[quote];
      if record.status != Failed {
        return Rejected(InvalidTransition);
      }
      quotes := quotes[quote := record.(status := Queued, analysis := None, error := None)];
      operations := operations + [OperationRow(owner, key, RetryOperation, quote, None)];
      var event := InsertEvent(quote, owner, Queued);
      outcome := Retried(quote, record.context);
    }

    method UpdateQuote(owner: Subject, quote: QuoteId, w: Write) returns (outcome: Outcome)
      modifies this
      ensures (Contents(), outcome) == UpdateTx(old(Contents()), owner, quote, w, old(nextSequence))
      ensures outcome.Updated? || Contents() == old(Contents())
      ensures outcome.Updated? ==> nextSequence == old(nextSequence) + 1
    {
      if !(quote in quotes && quotes[quote].owner == owner) {
        return Rejected(QuoteNotFound);
      }
      quotes := quotes[quote := Overwrite(quotes[quote], w)];
      var event := InsertEvent(quote, owner, StatusOf(w));
      outcome := Updated;
    }

    /** `get_quote_in_transaction` */
    method GetQuote(owner: Subject, quote: QuoteId) returns (outcome: Outcome)
      ensures outcome == if Owns(Contents(), owner, quote) then Existing(quote) else Rejected(QuoteNotFound)
    {
      if quote in quotes && quotes[quote].owner == owner {
        outcome := Existing(quote);
      } else {
        outcome := Rejected(QuoteNotFound);
      }
    }
  }
}
