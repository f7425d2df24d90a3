/** What the quote protocol guarantees in every reachable state and along every run. */
module QuoteTheorems {
  import opened Wrappers
  import opened QuoteTables
  import opened QuoteProtocol
  import opened QuoteInvariant

  // ---------- The status graph although update_quote is unguarded ----------

  /** At most one process per quote still has status writes to make, and none while the
      quote is completed or failed. */
  lemma OneWriterPerQuote(s: State, a: Pid, q: QuoteId)
    requires Reachable(s) && a in s.procs && Live(s.procs[a], q)
    ensures forall b :: b in s.procs && Live(s.procs[b], q) ==> b == a
    ensures q in s.tables.quotes && (s.tables.quotes[q].status.Queued? || s.tables.quotes[q].status.Analyzing?)
  {
    ReachableInv(s);
    assert ProcOk(s.tables, s.nextSequence, s.procs[a]);
    assert forall b :: b in s.procs && b != a ==> PairOk(s.procs[a], s.procs[b]);
  }

  /** Every committed status change follows the graph; a quote appears as queued. */
  lemma StatusChangesFollowTheGraph(s: State, a: Action, s': State, q: QuoteId)
    requires Reachable(s) && Apply(s, a) == Some(s') && q in s'.tables.quotes
    ensures q !in s.tables.quotes ==> s'.tables.quotes[q].status.Queued?
    ensures q in s.tables.quotes ==>
              s'.tables.quotes[q].status == s.tables.quotes[q].status
              || Edge(s.tables.quotes[q].status, s'.tables.quotes[q].status)
  {
    ReachableInv(s);
    QuoteRowStep(s, a, s', q);
  }

  /** What one step may do to the row of q. */
  lemma QuoteRowStep(s: State, a: Action, s': State, q: QuoteId)
    requires ProcsOk(s) && Apply(s, a) == Some(s')
    ensures SameSnapshot(s.tables, s'.tables, q)
    ensures q !in s.tables.quotes && q in s'.tables.quotes ==> s'.tables.quotes[q].status.Queued?
    ensures q in s.tables.quotes ==>
              s'.tables.quotes[q].status == s.tables.quotes[q].status
              || Edge(s.tables.quotes[q].status, s'.tables.quotes[q].status)
  {
    if a.CommitWrite? {
      CommitWorkShape(s, a.pid, s');
    } else if a.Advance? && s.procs[a.pid].stage.EventWritten? {
      CommitCallShape(s, a.pid, s');
    } else {
      StepFrame(s, a, s');
    }
  }

  /** Nothing of process o changes. */
  ghost predicate Spares(s: State, s': State, o: Pid) {
    && (o in s'.procs <==> o in s.procs)
    && (o in s.procs ==> s'.procs[o] == s.procs[o])
    && (o in s'.replies <==> o in s.replies)
    && (o in s.replies ==> s'.replies[o] == s.replies[o])
  }

  lemma AdvanceFrame(s: State, pid: Pid, call: Request, stage: Stage, s': State)
    requires AdvanceCall(s, pid, call, stage) == Some(s') && !stage.EventWritten?
    ensures s'.tables == s.tables && s'.history == s.history && s'.seen == s.seen
    ensures forall o: Pid :: o != pid ==> Spares(s, s', o)
  {
    match stage
    case KeyLocked => LookUpFrame(s, pid, call);
    case KeyFree => var _, _ := PrepareShape(s, pid, call, s');
    case Waiting =>
    case Replaying(_) =>
    case Committed(_) =>
    case _ => BufferFrame(s, pid, call, stage);
  }

  lemma PutFrame(s: State, pid: Pid, p: Proc)
    ensures forall o: Pid :: o != pid ==> Spares(s, Put(s, pid, p), o)
  {
  }

  lemma AnswerFrame(s: State, pid: Pid, call: Request, outcome: Outcome)
    ensures forall o: Pid :: o != pid ==> Spares(s, Answer(s, pid, call, outcome), o)
  {
  }

  lemma LookUpFrame(s: State, pid: Pid, call: Request)
    ensures var s' := LookUp(s, pid, call);
            && s'.tables == s.tables && s'.history == s.history && s'.seen == s.seen
            && forall o: Pid :: o != pid ==> Spares(s, s', o)
  {
    match FindOperation(s.tables.operations, call.owner, call.key)
    case None => PutFrame(s, pid, Serving(call, KeyFree));
    case Some(row) =>
      PutFrame(s, pid, Serving(call, Replaying(row)));
      AnswerFrame(s, pid, call, Rejected(IdempotencyKeyReused));
  }

  lemma DropFrame(s: State, pid: Pid)
    ensures forall o: Pid :: o != pid ==> Spares(s, Drop(s, pid), o)
  {
  }

  lemma BufferFrame(s: State, pid: Pid, call: Request, stage: Stage)
    requires stage.Prepared? || stage.RowWritten? || stage.OperationWritten?
    ensures var s' := Buffer(s, pid, call, stage);
            && s'.tables == s.tables && s'.history == s.history && s'.seen == s.seen
            && forall o: Pid :: o != pid ==> Spares(s, s', o)
  {
    DropFrame(s, pid);
    match stage
    case Prepared(context) => PutFrame(s, pid, Serving(call, RowWritten(context)));
    case RowWritten(context) => PutFrame(s, pid, Serving(call, OperationWritten(context)));
    case OperationWritten(context) => PutFrame(s, pid, Serving(call, EventWritten(context, s.nextSequence)));
  }

  lemma StepFrame(s: State, a: Action, s': State)
    requires Apply(s, a) == Some(s')
    ensures !a.CommitWrite? && !(a.Advance? && s.procs[a.pid].stage.EventWritten?) ==>
              s'.tables == s.tables && s'.history == s.history
    ensures s.seen <= s'.seen && s.tables.operations <= s'.tables.operations
    ensures forall o: Pid :: Actor(a) != Some(o) ==> Spares(s, s', o)
  {
    if a.Advance? && !s.procs[a.pid].stage.EventWritten? {
      AdvanceFrame(s, a.pid, s.procs[a.pid].call, s.procs[a.pid].stage, s');
    }
  }

  /** Each quote's status history is a path of the graph that ends in the stored status, and
      a row carries an analysis exactly when completed and an error exactly when failed. */
  lemma HistoryIsAPath(s: State, q: QuoteId)
    requires Reachable(s) && q in s.tables.quotes
    ensures q in s.history && IsPath(s.history[q])
    ensures s.history[q][|s.history[q]| - 1] == s.tables.quotes[q].status
    ensures RowShape(s.tables.quotes[q])
  {
    ReachableInv(s);
    assert QuoteOk(s, q);
  }

  // ---------- The event log ----------

  ghost predicate IsLatest(events: seq<EventRow>, owner: Subject, q: QuoteId, e: EventRow) {
    e in events && e.quote == q && e.owner == owner
    && forall i :: 0 <= i < |events| && events[i].quote == q && events[i].owner == owner ==>
        events[i].sequence <= e.sequence
  }

  lemma {:induction false} LatestEventSpec(events: seq<EventRow>, owner: Subject, q: QuoteId)
    ensures LatestEvent(events, owner, q).None? <==>
              forall i :: 0 <= i < |events| ==> !(events[i].quote == q && events[i].owner == owner)
    ensures LatestEvent(events, owner, q).Some? ==> IsLatest(events, owner, q, LatestEvent(events, owner, q).value)
  {
    if events != [] {
      var rest := events[..|events| - 1];
      LatestEventSpec(rest, owner, q);
      assert events == rest + [events[|events| - 1]];
    }
  }

  /** Position of the last event of q, whose status ends the log. */
  lemma {:induction false} LogEnd(events: seq<EventRow>, q: QuoteId) returns (k: nat)
    requires LogOf(events, q) != []
    ensures k < |events| && events[k].quote == q
    ensures events[k].status == LogOf(events, q)[|LogOf(events, q)| - 1]
    ensures forall i :: k < i < |events| ==> events[i].quote != q
  {
    if events[|events| - 1].quote == q {
      k := |events| - 1;
    } else {
      assert LogOf(events, q) == LogOf(events[..|events| - 1], q);
      k := LogEnd(events[..|events| - 1], q);
    }
  }

  /** The events of a quote, which sequence ids order strictly, spell its status history;
      so latest_event exists and agrees with the quote row. */
  lemma EventLogIsTheStatusHistory(s: State, q: QuoteId)
    requires Reachable(s) && q in s.tables.quotes
    ensures q in s.history && LogOf(s.tables.events, q) == s.history[q]
    ensures forall i, j :: 0 <= i < j < |s.tables.events| && s.tables.events[i].quote == s.tables.events[j].quote ==>
              s.tables.events[i].sequence < s.tables.events[j].sequence
    ensures LatestEvent(s.tables.events, s.tables.quotes[q].owner, q).Some?
    ensures LatestEvent(s.tables.events, s.tables.quotes[q].owner, q).value.status == s.tables.quotes[q].status
  {
    ReachableInv(s);
    assert QuoteOk(s, q);
    var events, owner := s.tables.events, s.tables.quotes[q].owner;
    var k := LogEnd(events, q);
    assert Owns(s.tables, events[k].owner, events[k].quote);
    LatestEventSpec(events, owner, q);
    var e := LatestEvent(events, owner, q).value;
    var j :| 0 <= j < |events| && events[j] == e;
    assert j == k;
  }

  // ---------- Idempotency keys ----------

  lemma OneOperationPerKey(s: State, i: nat, j: nat)
    requires Reachable(s) && i < |s.tables.operations| && j < |s.tables.operations|
    requires s.tables.operations[i].owner == s.tables.operations[j].owner
    requires s.tables.operations[i].key == s.tables.operations[j].key
    ensures i == j
  {
    ReachableInv(s);
  }

  predicate HadEffect(outcome: Outcome) {
    outcome.Created? || outcome.Retried?
  }

  lemma RowOfEffect(s: State, pid: Pid, reply: Reply) returns (i: nat)
    requires ReplyOk(s, pid, reply) && HadEffect(reply.outcome)
    ensures i < |s.authors| && i < |s.tables.operations|
    ensures s.authors[i] == pid && s.tables.operations[i] == reply.call.Row()
    ensures reply.outcome.quote == reply.call.Target()
  {
    i :| 0 <= i < |s.authors| && i < |s.tables.operations| && s.authors[i] == pid
         && s.tables.operations[i] == reply.call.Row();
  }

  lemma RowOfReplay(s: State, pid: Pid, reply: Reply) returns (i: nat)
    requires ReplyOk(s, pid, reply) && reply.outcome.Existing?
    ensures i < |s.tables.operations| && s.tables.operations[i].quote == reply.outcome.quote
    ensures s.tables.operations[i].owner == reply.call.owner && s.tables.operations[i].key == reply.call.key
  {
    var row :| row in s.tables.operations && row.owner == reply.call.owner && row.key == reply.call.key
               && row.quote == reply.outcome.quote;
    i :| 0 <= i < |s.tables.operations| && s.tables.operations[i] == row;
  }

  /** Of all calls that used one key, at most one created or retried anything, and every
      call answered with Existing names the quote of that one effect. */
  lemma EffectsHappenOncePerKey(s: State, a: Pid, b: Pid)
    requires Reachable(s) && a in s.replies && b in s.replies
    requires s.replies[a].call.owner == s.replies[b].call.owner && s.replies[a].call.key == s.replies[b].call.key
    requires HadEffect(s.replies[a].outcome)
    ensures HadEffect(s.replies[b].outcome) ==> a == b
    ensures s.replies[b].outcome.Existing? ==> s.replies[b].outcome.quote == s.replies[a].outcome.quote
  {
    ReachableInv(s);
    var x, y := s.replies[a], s.replies[b];
    var i := RowOfEffect(s, a, x);
    if HadEffect(y.outcome) {
      var j := RowOfEffect(s, b, y);
      OneOperationPerKey(s, i, j);
    } else if y.outcome.Existing? {
      var j := RowOfReplay(s, b, y);
      OneOperationPerKey(s, i, j);
    }
  }

  /** The two calls ask for the same thing: creates of one request, or retries of one quote. */
  predicate SameCall(x: Request, y: Request) {
    match (x, y)
    case (CreateRequest(_, _, r1, _), CreateRequest(_, _, r2, _)) => r1 == r2
    case (RetryRequest(_, _, q1), RetryRequest(_, _, q2)) => q1 == q2
    case _ => false
  }

  /** The row a call with an effect leaves behind is its own; a later answer compares with it. */
  lemma RowOfReuse(s: State, pid: Pid, reply: Reply) returns (i: nat)
    requires ReplyOk(s, pid, reply) && reply.outcome == Rejected(IdempotencyKeyReused)
    ensures i < |s.tables.operations| && Answered(s.tables.operations[i], reply.call) == reply.outcome
    ensures s.tables.operations[i].owner == reply.call.owner && s.tables.operations[i].key == reply.call.key
  {
    var row :| row in s.tables.operations && row.owner == reply.call.owner && row.key == reply.call.key
               && !Matches(row, reply.call.Kind(), reply.call.Payload(), reply.call.Target());
    i :| 0 <= i < |s.tables.operations| && s.tables.operations[i] == row;
  }

  lemma RowOfExisting(s: State, pid: Pid, reply: Reply) returns (i: nat)
    requires ReplyOk(s, pid, reply) && reply.outcome.Existing?
    ensures i < |s.tables.operations| && Answered(s.tables.operations[i], reply.call) == reply.outcome
    ensures s.tables.operations[i].owner == reply.call.owner && s.tables.operations[i].key == reply.call.key
  {
    var row :| row in s.tables.operations && row.owner == reply.call.owner && row.key == reply.call.key
               && Matches(row, reply.call.Kind(), reply.call.Payload(), reply.call.Target())
               && row.quote == reply.outcome.quote;
    i :| 0 <= i < |s.tables.operations| && s.tables.operations[i] == row;
  }

  /** Of two calls with one key, the first of which had an effect: the other is answered with the
      quote of that effect only if it asks for the same thing, and refused for reuse only if not. */
  lemma RepliesCompareRequests(s: State, a: Pid, b: Pid)
    requires Reachable(s) && a in s.replies && b in s.replies
    requires s.replies[a].call.owner == s.replies[b].call.owner && s.replies[a].call.key == s.replies[b].call.key
    requires HadEffect(s.replies[a].outcome)
    ensures s.replies[b].outcome.Existing? ==>
              SameCall(s.replies[a].call, s.replies[b].call)
              && s.replies[b].outcome.quote == s.replies[a].outcome.quote
    ensures s.replies[b].outcome == Rejected(IdempotencyKeyReused) ==>
              !SameCall(s.replies[a].call, s.replies[b].call)
  {
    ReachableInv(s);
    var x, y := s.replies[a], s.replies[b];
    assert ReplyOk(s, a, x) && ReplyOk(s, b, y);
    var i := RowOfEffect(s, a, x);
    if y.outcome.Existing? {
      var j := RowOfExisting(s, b, y);
      OneOperationPerKey(s, i, j);
    } else if y.outcome == Rejected(IdempotencyKeyReused) {
      var j := RowOfReuse(s, b, y);
      OneOperationPerKey(s, i, j);
    }
  }

  /** The answer a call gets once `row` holds its key. */
  function Answered(row: OperationRow, call: Request): Outcome {
    match call
    case CreateRequest(_, _, request, _) =>
      if row.kind == CreateOperation && row.request == Some(request) then Existing(row.quote)
      else Rejected(IdempotencyKeyReused)
    case RetryRequest(_, _, quote) =>
      if row.kind == RetryOperation && row.quote == quote then Existing(quote) else Rejected(IdempotencyKeyReused)
  }

  /** `pid` serves `call`, whose key `row` already holds, and has written nothing. */
  ghost predicate Settled(s: State, pid: Pid, call: Request, row: OperationRow) {
    && row in s.tables.operations && row.owner == call.owner && row.key == call.key
    && pid in s.seen
    && (pid in s.procs ==>
          && s.procs[pid].Serving? && s.procs[pid].call == call && pid !in s.replies
          && (s.procs[pid].stage.Waiting? || s.procs[pid].stage.KeyLocked? || s.procs[pid].stage == Replaying(row)))
    && (pid in s.replies ==> s.replies[pid] == Reply(call, Answered(row, call)))
  }

  lemma FoundRow(s: State, row: OperationRow)
    requires OperationsOk(s.tables) && row in s.tables.operations
    ensures FindOperation(s.tables.operations, row.owner, row.key) == Some(row)
  {
    var rows := s.tables.operations;
    FindOperationSpec(rows, row.owner, row.key);
    var i :| 0 <= i < |rows| && rows[i] == row;
    var found := FindOperation(rows, row.owner, row.key).value;
    var j :| 0 <= j < |rows| && rows[j] == found;
  }

  function Actor(a: Action): Option<Pid> {
    if a.EditContext? then None else Some(a.pid)
  }

  lemma SettledOwnStep(s: State, a: Action, s': State, call: Request, row: OperationRow)
    requires Inv(s) && Actor(a).Some? && a.pid in s.procs && Settled(s, a.pid, call, row) && Apply(s, a) == Some(s')
    ensures Settled(s', a.pid, call, row) && s'.tables == s.tables && s'.history == s.history
  {
    FoundRow(s, row);
    if a.Advance? {
      assert CallOk(s.tables, s.nextSequence, call, s.procs[a.pid].stage);
      AdvanceFrame(s, a.pid, call, s.procs[a.pid].stage, s');
      SettledAdvance(s, a.pid, call, s.procs[a.pid].stage, s', row);
    }
  }

  lemma SettledAdvance(s: State, pid: Pid, call: Request, stage: Stage, s': State, row: OperationRow)
    requires Settled(s, pid, call, row) && AdvanceCall(s, pid, call, stage) == Some(s')
    requires pid in s.procs && s.procs[pid] == Serving(call, stage) && CallOk(s.tables, s.nextSequence, call, stage)
    requires OperationsOk(s.tables) && FindOperation(s.tables.operations, call.owner, call.key) == Some(row)
    ensures Settled(s', pid, call, row)
  {
    if stage.Replaying? {
      assert Owns(s.tables, row.owner, row.quote);
    }
  }

  ghost predicate WritesNothing(s: State, actions: seq<Action>, pid: Pid)
    decreases |actions|
  {
    actions != [] && Apply(s, actions[0]).Some? ==>
      var next := Apply(s, actions[0]).value;
      && (Actor(actions[0]) == Some(pid) ==> next.tables == s.tables && next.history == s.history)
      && WritesNothing(next, actions[1..], pid)
  }

  /** Replay: once a key is held, a call that uses it writes nothing in any continuation,
      never becomes a worker, and is answered by the row alone. */
  lemma {:induction false} ReplayIsReadOnly(s: State, actions: seq<Action>, s': State, pid: Pid, call: Request,
                                            row: OperationRow)
    requires Inv(s) && Settled(s, pid, call, row) && Run(s, actions) == Some(s')
    ensures Settled(s', pid, call, row)
    ensures WritesNothing(s, actions, pid)
    ensures pid in s'.replies ==>
              s'.replies[pid].outcome ==
                if (call.CreateRequest? && row.kind == CreateOperation && row.request == Some(call.request))
                   || (call.RetryRequest? && row.kind == RetryOperation && row.quote == call.quote)
                then Existing(row.quote) else Rejected(IdempotencyKeyReused)
    decreases |actions|
  {
    if actions != [] {
      var a := actions[0];
      var next := Apply(s, a).value;
      StepInv(s, a, next);
      if Actor(a) == Some(pid) {
        assert pid in s.procs by { if a.Arrive? { assert pid in s.seen; } }
        SettledOwnStep(s, a, next, call, row);
      } else {
        StepFrame(s, a, next);
        assert Spares(s, next, pid);
        assert row in next.tables.operations;
      }
      ReplayIsReadOnly(next, actions[1..], s', pid, call, row);
    }
  }

  /** A call arriving at a state that holds its key starts out settled. */
  lemma LateCallIsSettled(s: State, pid: Pid, call: Request, s': State, row: OperationRow)
    requires Reachable(s) && Apply(s, Arrive(pid, call)) == Some(s')
    requires row in s.tables.operations && row.owner == call.owner && row.key == call.key
    ensures Inv(s') && Settled(s', pid, call, row)
  {
    ReachableInv(s);
    StepInv(s, Arrive(pid, call), s');
  }

  // ---------- Commits equal transactions run alone ----------

  /** At its commit point an interleaved transaction does exactly what it would do run alone
      on the tables of that moment; a create keeps the context it read earlier. */
  lemma CallCommitIsSerial(s: State, pid: Pid, s': State)
    requires Reachable(s) && pid in s.procs && s.procs[pid].Serving? && s.procs[pid].stage.EventWritten?
    requires Apply(s, Advance(pid)) == Some(s')
    ensures var call, stage := s.procs[pid].call, s.procs[pid].stage;
            && pid in s'.replies
            && (call.CreateRequest? ==>
                  call.id !in s.tables.quotes
                  && CreateTx(s.tables, Some(stage.context), call.owner, call.key, call.request, call.id,
                              stage.sequence)
                     == (s'.tables, s'.replies[pid].outcome))
            && (call.RetryRequest? ==>
                  RetryTx(s.tables, call.owner, call.key, call.quote, stage.sequence)
                      == (s'.tables, s'.replies[pid].outcome))
  {
    ReachableInv(s);
    CommitCallShape(s, pid, s');
  }

  lemma WorkCommitIsSerial(s: State, pid: Pid, s': State)
    requires Reachable(s) && Apply(s, CommitWrite(pid)) == Some(s')
    ensures var p := s.procs[pid];
            UpdateTx(s.tables, p.owner, p.quote, p.step.w, p.step.sequence) == (s'.tables, Updated)
  {
    ReachableInv(s);
    CommitWorkShape(s, pid, s');
  }

  /** No INSERT of a quote or operation row ever meets an existing primary key, whether
      committed or written by another open transaction. */
  lemma PrimaryKeysNeverCollide(s: State, pid: Pid)
    requires Reachable(s) && pid in s.procs && s.procs[pid].Serving? && InsideWrites(s.procs[pid].stage)
    ensures var call := s.procs[pid].call;
            && (call.CreateRequest? ==> FreshId(Drop(s, pid), call.id))
            && FindOperation(s.tables.operations, call.owner, call.key).None?
            && !KeyTaken(Drop(s, pid), call.owner, call.key)
  {
    ReachableInv(s);
    var call, others := s.procs[pid].call, Drop(s, pid);
    assert CallOk(s.tables, s.nextSequence, call, s.procs[pid].stage);
    forall p | p in others.procs
      ensures !HoldsKey(others.procs[p], call.owner, call.key)
      ensures call.CreateRequest? ==> !Reserves(others.procs[p], call.id)
    {
      ExclusiveClaims(s, pid, p);
    }
  }

  lemma ExclusiveClaims(s: State, pid: Pid, p: Pid)
    requires ProcsOk(s) && pid in s.procs && p in s.procs && p != pid
    requires s.procs[pid].Serving? && InsideWrites(s.procs[pid].stage)
    ensures !HoldsKey(s.procs[p], s.procs[pid].call.owner, s.procs[pid].call.key)
    ensures s.procs[pid].call.CreateRequest? ==> !Reserves(s.procs[p], s.procs[pid].call.id)
  {
    assert PairOk(s.procs[p], s.procs[pid]);
    assert HoldsKey(s.procs[pid], s.procs[pid].call.owner, s.procs[pid].call.key);
  }

  // ---------- Snapshots ----------

  ghost predicate SameSnapshot(t: Tables, t': Tables, q: QuoteId) {
    q in t.quotes ==>
      q in t'.quotes && t'.quotes[q].owner == t.quotes[q].owner && t'.quotes[q].request == t.quotes[q].request
      && t'.quotes[q].context == t.quotes[q].context
  }

  /** Owner, request and context snapshot of a quote survive every run, whatever happens to
      the active context; and each worker analyses with the stored snapshot. */
  lemma {:induction false} SnapshotsAreImmutable(s: State, actions: seq<Action>, s': State, q: QuoteId)
    requires Inv(s) && Run(s, actions) == Some(s')
    ensures SameSnapshot(s.tables, s'.tables, q)
    ensures forall p :: p in s'.procs && s'.procs[p].Working? ==>
              Owns(s'.tables, s'.procs[p].owner, s'.procs[p].quote)
              && s'.procs[p].context == s'.tables.quotes[s'.procs[p].quote].context
    decreases |actions|
  {
    if actions == [] {
      forall p | p in s'.procs && s'.procs[p].Working?
        ensures Owns(s'.tables, s'.procs[p].owner, s'.procs[p].quote)
                && s'.procs[p].context == s'.tables.quotes[s'.procs[p].quote].context
      {
        assert ProcOk(s'.tables, s'.nextSequence, s'.procs[p]);
      }
    } else {
      var next := Apply(s, actions[0]).value;
      StepInv(s, actions[0], next);
      QuoteRowStep(s, actions[0], next, q);
      SnapshotsAreImmutable(next, actions[1..], s', q);
    }
  }
}
