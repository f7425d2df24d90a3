/** The inductive invariant of `QuoteProtocol` and its preservation by every step. */
module QuoteInvariant {
  import opened Wrappers
  import opened QuoteTables
  import opened QuoteProtocol

  // ---------- Table invariants ----------

  /** The status graph: retry is the only way out of a terminal status. */
  predicate Edge(before: Status, after: Status) {
    (before.Queued? && after.Analyzing?)
    || (before.Analyzing? && (after.Completed? || after.Failed?))
    || (before.Failed? && after.Queued?)
  }

  ghost predicate IsPath(h: seq<Status>) {
    h != [] && h[0].Queued? && forall i :: 0 < i < |h| ==> Edge(h[i - 1], h[i])
  }

  /** Statuses of the events of q in commit order. */
  ghost function LogOf(events: seq<EventRow>, q: QuoteId): seq<Status> {
    if events == [] then []
    else
      var last := events[|events| - 1];
      LogOf(events[..|events| - 1], q) + (if last.quote == q then [last.status] else [])
  }

  /** A result is stored exactly with its status. */
  predicate RowShape(row: QuoteRow) {
    (row.analysis.Some? <==> row.status.Completed?) && (row.error.Some? <==> row.status.Failed?)
  }

  ghost predicate QuoteOk(s: State, q: QuoteId)
    requires q in s.tables.quotes
  {
    && q in s.history
    && IsPath(s.history[q])
    && s.history[q][|s.history[q]| - 1] == s.tables.quotes[q].status
    && LogOf(s.tables.events, q) == s.history[q]
    && RowShape(s.tables.quotes[q])
  }

  ghost predicate EventsOk(t: Tables, next: nat) {
    && (forall i :: 0 <= i < |t.events| ==>
          t.events[i].sequence < next && Owns(t, t.events[i].owner, t.events[i].quote))
    && (forall i, j :: 0 <= i < j < |t.events| && t.events[i].quote == t.events[j].quote ==>
          t.events[i].sequence < t.events[j].sequence)
  }

  ghost predicate KeysUnique(rows: seq<OperationRow>) {
    forall i, j :: 0 <= i < j < |rows| ==> !(rows[i].owner == rows[j].owner && rows[i].key == rows[j].key)
  }

  ghost predicate OperationsOk(t: Tables) {
    && KeysUnique(t.operations)
    && forall i :: 0 <= i < |t.operations| ==> Owns(t, t.operations[i].owner, t.operations[i].quote)
  }

  ghost predicate TablesOk(s: State) {
    && (forall q :: q in s.tables.quotes ==> QuoteOk(s, q))
    && EventsOk(s.tables, s.nextSequence)
    && OperationsOk(s.tables)
    && s.history.Keys == s.tables.quotes.Keys
  }

  // ---------- Process invariants ----------

  /** Sequence number n is past every committed event of q and already drawn. */
  ghost predicate Newest(t: Tables, next: nat, q: QuoteId, n: nat) {
    n < next && forall i :: 0 <= i < |t.events| && t.events[i].quote == q ==> t.events[i].sequence < n
  }

  predicate RowIs(t: Tables, owner: Subject, q: QuoteId, context: Json, status: Status) {
    Owns(t, owner, q) && t.quotes[q].context == context && t.quotes[q].status == status
  }

  ghost predicate CallOk(t: Tables, next: nat, call: Request, stage: Stage) {
    && (call.CreateRequest? && !stage.Committed? ==> call.id !in t.quotes)
    && (stage.KeyFree? || InsideWrites(stage) ==> FindOperation(t.operations, call.owner, call.key).None?)
    && (call.RetryRequest? && InsideWrites(stage) ==> RowIs(t, call.owner, call.quote, stage.context, Failed))
    && (stage.Replaying? ==>
          stage.row in t.operations && stage.row.owner == call.owner && stage.row.key == call.key
          && Matches(stage.row, call.Kind(), call.Payload(), call.Target()))
    && (stage.EventWritten? ==> Newest(t, next, call.Target(), stage.sequence))
    && (stage.Committed? ==> RowIs(t, call.owner, call.Target(), stage.context, Queued))
  }

  function ExpectedStatus(step: WorkStep): Status {
    match step
    case BeforeAnalyzing => Queued
    case BeforeResult => Analyzing
    case Writing(w) => if w.MarkAnalyzing? then Queued else Analyzing
    case Logged(w, _) => if w.MarkAnalyzing? then Queued else Analyzing
  }

  predicate WorkerWrite(step: WorkStep) {
    step.Writing? || step.Logged? ==> !step.w.MarkQueued?
  }

  ghost predicate ProcOk(t: Tables, next: nat, p: Proc) {
    match p
    case Serving(call, stage) => CallOk(t, next, call, stage)
    case Working(q, owner, context, step) =>
      && RowIs(t, owner, q, context, ExpectedStatus(step))
      && WorkerWrite(step)
      && (step.Logged? ==> Newest(t, next, q, step.sequence))
  }

  /** Two processes never hold one lock, one fresh id or one live quote together. */
  ghost predicate PairOk(a: Proc, b: Proc) {
    && (forall owner, key :: !(HoldsKey(a, owner, key) && HoldsKey(b, owner, key)))
    && (forall q :: !(HoldsRow(a, q) && HoldsRow(b, q)))
    && (forall q :: !(Reserves(a, q) && Reserves(b, q)))
    && (forall q :: !(Live(a, q) && Live(b, q)))
  }

  ghost predicate ProcsOk(s: State) {
    && (forall p :: p in s.procs ==> p in s.seen && ProcOk(s.tables, s.nextSequence, s.procs[p]))
    && (forall p, q :: p in s.procs && q in s.procs && p != q ==> PairOk(s.procs[p], s.procs[q]))
  }

  // ---------- Reply invariants ----------

  ghost predicate Authored(s: State, pid: Pid, call: Request) {
    exists i :: 0 <= i < |s.authors| && i < |s.tables.operations| && s.authors[i] == pid
        && s.tables.operations[i] == call.Row()
  }

  ghost predicate ReplyOk(s: State, pid: Pid, reply: Reply) {
    match reply.outcome
    case Created(q, _) => reply.call.CreateRequest? && q == reply.call.id && Authored(s, pid, reply.call)
    case Retried(q, _) => reply.call.RetryRequest? && q == reply.call.quote && Authored(s, pid, reply.call)
    case Existing(q) =>
      exists row :: row in s.tables.operations && row.owner == reply.call.owner && row.key == reply.call.key
                    && Matches(row, reply.call.Kind(), reply.call.Payload(), reply.call.Target()) && row.quote == q
    case Rejected(e) =>
      e.IdempotencyKeyReused? ==>
        exists row :: row in s.tables.operations && row.owner == reply.call.owner && row.key == reply.call.key
                      && !Matches(row, reply.call.Kind(), reply.call.Payload(), reply.call.Target())
    case Updated => false
  }

  ghost predicate RepliesOk(s: State) {
    && |s.authors| == |s.tables.operations|
    && forall pid :: pid in s.replies ==> pid in s.seen && ReplyOk(s, pid, s.replies[pid])
  }

  ghost predicate Inv(s: State) {
    TablesOk(s) && ProcsOk(s) && RepliesOk(s)
  }

  lemma InitInv(contexts: map<Subject, Json>)
    ensures Inv(Init(contexts))
  {
  }

  // ---------- Steps that leave the tables alone ----------

  lemma SameTables(s: State, s': State)
    requires TablesOk(s)
    requires s'.tables == s.tables && s'.history == s.history && s.nextSequence <= s'.nextSequence
    ensures TablesOk(s')
  {
    forall q | q in s'.tables.quotes ensures QuoteOk(s', q) {
      assert QuoteOk(s, q);
    }
  }

  lemma SameReplies(s: State, s': State)
    requires RepliesOk(s)
    requires s'.tables == s.tables && s'.authors == s.authors && s'.replies == s.replies && s.seen <= s'.seen
    ensures RepliesOk(s')
  {
    forall p | p in s'.replies ensures p in s'.seen && ReplyOk(s', p, s'.replies[p]) {
      ReplyGrows(s, s', p, s'.replies[p]);
    }
  }

  lemma ReplyGrows(s: State, s': State, pid: Pid, reply: Reply)
    requires s.tables.operations <= s'.tables.operations && s.authors <= s'.authors
    requires ReplyOk(s, pid, reply)
    ensures ReplyOk(s', pid, reply)
  {
    assert forall row :: row in s.tables.operations ==> row in s'.tables.operations;
    if Authored(s, pid, reply.call) {
      var i :| 0 <= i < |s.authors| && i < |s.tables.operations| && s.authors[i] == pid
          && s.tables.operations[i] == reply.call.Row();
      assert s'.authors[i] == pid && s'.tables.operations[i] == reply.call.Row();
    }
  }

  lemma PutProcs(s: State, s': State, pid: Pid)
    requires ProcsOk(s) && pid in s'.procs && pid in s'.seen
    requires s'.tables == s.tables && s.nextSequence <= s'.nextSequence && s.seen <= s'.seen
    requires s'.procs == s.procs[pid := s'.procs[pid]]
    requires ProcOk(s'.tables, s'.nextSequence, s'.procs[pid])
    requires forall p :: p in s.procs && p != pid ==> PairOk(s.procs[p], s'.procs[pid])
    ensures ProcsOk(s')
  {
    forall p | p in s'.procs ensures p in s'.seen && ProcOk(s'.tables, s'.nextSequence, s'.procs[p]) {
      if p != pid { assert ProcOk(s.tables, s.nextSequence, s.procs[p]); }
    }
    forall p, q | p in s'.procs && q in s'.procs && p != q ensures PairOk(s'.procs[p], s'.procs[q]) {
      if p == pid {
        assert PairOk(s.procs[q], s'.procs[pid]);
      } else if q != pid {
        assert PairOk(s.procs[p], s.procs[q]);
      }
    }
  }

  /** Replacing one process keeps the invariant when the new process is fine by itself
      and beside every other one. */
  lemma PutInv(s: State, pid: Pid, p: Proc, s': State)
    requires Inv(s) && pid in s'.seen && s.seen <= s'.seen && s.nextSequence <= s'.nextSequence
    requires s' == Put(s, pid, p).(nextSequence := s'.nextSequence, seen := s'.seen)
    requires ProcOk(s.tables, s'.nextSequence, p)
    requires forall o :: o in s.procs && o != pid ==> PairOk(s.procs[o], p)
    ensures Inv(s')
  {
    SameTables(s, s');
    PutProcs(s, s', pid);
    SameReplies(s, s');
  }

  lemma DropInv(s: State, pid: Pid)
    requires Inv(s)
    ensures Inv(Drop(s, pid))
  {
    SameTables(s, Drop(s, pid));
    SameReplies(s, Drop(s, pid));
  }

  lemma AnswerReplies(s: State, pid: Pid, call: Request, outcome: Outcome)
    requires RepliesOk(s) && pid in s.seen && ReplyOk(s, pid, Reply(call, outcome))
    ensures RepliesOk(Answer(s, pid, call, outcome))
  {
    var s' := Answer(s, pid, call, outcome);
    forall p | p in s'.replies ensures p in s'.seen && ReplyOk(s', p, s'.replies[p]) {
      ReplyGrows(s, s', p, s'.replies[p]);
    }
  }

  lemma DropProcs(s: State, s': State, pid: Pid)
    requires ProcsOk(s) && s'.procs == s.procs - {pid}
    requires s'.tables == s.tables && s'.nextSequence == s.nextSequence && s'.seen == s.seen
    ensures ProcsOk(s')
  {
  }

  lemma AnswerInv(s: State, pid: Pid, call: Request, outcome: Outcome)
    requires Inv(s) && pid in s.seen && ReplyOk(s, pid, Reply(call, outcome))
    ensures Inv(Answer(s, pid, call, outcome))
  {
    var s' := Answer(s, pid, call, outcome);
    SameTables(s, s');
    DropProcs(s, s', pid);
    AnswerReplies(s, pid, call, outcome);
  }

  lemma ArriveInv(s: State, pid: Pid, call: Request, s': State)
    requires Inv(s) && Apply(s, Arrive(pid, call)) == Some(s')
    ensures Inv(s')
  {
    forall p | p in s.procs && p != pid ensures PairOk(s.procs[p], Serving(call, Waiting)) {
      assert call.CreateRequest? ==> !Reserves(s.procs[p], call.id);
    }
    PutInv(s, pid, Serving(call, Waiting), s');
  }

  /** A call moves to a stage that claims nothing new, except a key or a row nobody holds. */
  lemma StageInv(s: State, pid: Pid, call: Request, stage: Stage, s': State)
    requires Inv(s) && pid in s.procs && s.procs[pid].Serving? && s.procs[pid].call == call
    requires s.nextSequence <= s'.nextSequence
    requires s' == Put(s, pid, Serving(call, stage)).(nextSequence := s'.nextSequence)
    requires CallOk(s.tables, s'.nextSequence, call, stage)
    requires !stage.Committed? && !s.procs[pid].stage.Committed?
    requires s.procs[pid].stage.Waiting? ==> !KeyTaken(s, call.owner, call.key)
    requires InsideWrites(stage) && !InsideWrites(s.procs[pid].stage) && call.RetryRequest? ==> !RowTaken(s, call.quote)
    ensures Inv(s')
  {
    StagePairs(s, pid, call, stage);
    PutInv(s, pid, Serving(call, stage), s');
  }

  lemma StagePairs(s: State, pid: Pid, call: Request, stage: Stage)
    requires ProcsOk(s) && pid in s.procs && s.procs[pid].Serving? && s.procs[pid].call == call
    requires !stage.Committed? && !s.procs[pid].stage.Committed?
    requires s.procs[pid].stage.Waiting? ==> !KeyTaken(s, call.owner, call.key)
    requires InsideWrites(stage) && !InsideWrites(s.procs[pid].stage) && call.RetryRequest? ==> !RowTaken(s, call.quote)
    ensures forall p :: p in s.procs && p != pid ==> PairOk(s.procs[p], Serving(call, stage))
  {
    forall p | p in s.procs && p != pid ensures PairOk(s.procs[p], Serving(call, stage)) {
      assert PairOk(s.procs[p], s.procs[pid]);
    }
  }

  lemma LookInv(s: State, pid: Pid, s': State)
    requires Inv(s) && pid in s.procs && s.procs[pid].Serving? && s.procs[pid].stage.KeyLocked?
    requires AdvanceCall(s, pid, s.procs[pid].call, s.procs[pid].stage) == Some(s')
    ensures Inv(s')
  {
    var call := s.procs[pid].call;
    var found := FindOperation(s.tables.operations, call.owner, call.key);
    assert CallOk(s.tables, s.nextSequence, call, KeyLocked);
    FindOperationSpec(s.tables.operations, call.owner, call.key);
    if found.None? {
      StageInv(s, pid, call, KeyFree, s');
    } else if Matches(found.value, call.Kind(), call.Payload(), call.Target()) {
      StageInv(s, pid, call, Replaying(found.value), s');
    } else {
      AnswerInv(s, pid, call, Rejected(IdempotencyKeyReused));
    }
  }

  lemma ReplayInv(s: State, pid: Pid, s': State)
    requires Inv(s) && pid in s.procs && s.procs[pid].Serving? && s.procs[pid].stage.Replaying?
    requires AdvanceCall(s, pid, s.procs[pid].call, s.procs[pid].stage) == Some(s')
    ensures Inv(s')
    ensures s' == Answer(s, pid, s.procs[pid].call, Existing(s.procs[pid].stage.row.quote))
  {
    var call, row := s.procs[pid].call, s.procs[pid].stage.row;
    assert CallOk(s.tables, s.nextSequence, call, s.procs[pid].stage);
    assert Owns(s.tables, row.owner, row.quote);
    AnswerInv(s, pid, call, Existing(row.quote));
  }

  lemma PrepareShape(s: State, pid: Pid, call: Request, s': State) returns (stage: Stage, error: StoreError)
    requires Prepare(s, pid, call) == Some(s')
    ensures s' == Put(s, pid, Serving(call, stage)) || s' == Answer(s, pid, call, Rejected(error))
    ensures stage.Prepared? && !error.IdempotencyKeyReused?
    ensures s' == Put(s, pid, Serving(call, stage)) && call.RetryRequest? ==>
              !RowTaken(s, call.quote) && RowIs(s.tables, call.owner, call.quote, stage.context, Failed)
  {
    if call.CreateRequest? {
      stage := Prepared(if call.owner in s.contexts then s.contexts[call.owner] else "");
      error := ContextNotFound;
    } else if !Owns(s.tables, call.owner, call.quote) {
      stage, error := Prepared(""), QuoteNotFound;
      assert pid !in s'.procs;
    } else {
      stage, error := Prepared(s.tables.quotes[call.quote].context), InvalidTransition;
      assert pid in s'.procs ==> s.tables.quotes[call.quote].status.Failed?;
    }
  }

  lemma PrepareInv(s: State, pid: Pid, s': State)
    requires Inv(s) && pid in s.procs && s.procs[pid].Serving? && s.procs[pid].stage.KeyFree?
    requires AdvanceCall(s, pid, s.procs[pid].call, s.procs[pid].stage) == Some(s')
    ensures Inv(s')
  {
    var call := s.procs[pid].call;
    var stage, error := PrepareShape(s, pid, call, s');
    assert CallOk(s.tables, s.nextSequence, call, KeyFree);
    if s' == Put(s, pid, Serving(call, stage)) {
      StageInv(s, pid, call, stage, s');
    } else {
      AnswerInv(s, pid, call, Rejected(error));
    }
  }

  /** Every INSERT succeeds: a reachable state never holds the primary key already. */
  lemma BufferInv(s: State, pid: Pid, s': State)
    requires Inv(s) && pid in s.procs && s.procs[pid].Serving?
    requires var stage := s.procs[pid].stage; stage.Prepared? || stage.RowWritten? || stage.OperationWritten?
    requires AdvanceCall(s, pid, s.procs[pid].call, s.procs[pid].stage) == Some(s')
    ensures pid in s'.procs && Inv(s')
  {
    assert CallOk(s.tables, s.nextSequence, s.procs[pid].call, s.procs[pid].stage);
    StageInv(s, pid, s.procs[pid].call, s'.procs[pid].stage, s');
  }

  lemma SpawnPairs(s: State, pid: Pid, worker: Proc)
    requires ProcsOk(s) && pid in s.procs && s.procs[pid].Serving? && s.procs[pid].stage.Committed?
    requires worker.Working? && worker.quote == s.procs[pid].call.Target() && worker.step.BeforeAnalyzing?
    ensures forall p :: p in s.procs && p != pid ==> PairOk(s.procs[p], worker)
  {
    forall p | p in s.procs && p != pid ensures PairOk(s.procs[p], worker) {
      assert PairOk(s.procs[p], s.procs[pid]);
    }
  }

  lemma SpawnInv(s: State, pid: Pid, s': State)
    requires Inv(s) && pid in s.procs && s.procs[pid].Serving? && s.procs[pid].stage.Committed?
    requires AdvanceCall(s, pid, s.procs[pid].call, s.procs[pid].stage) == Some(s')
    ensures Inv(s')
  {
    var call, context := s.procs[pid].call, s.procs[pid].stage.context;
    assert CallOk(s.tables, s.nextSequence, call, s.procs[pid].stage);
    var worker := Working(call.Target(), call.owner, context, BeforeAnalyzing);
    SpawnPairs(s, pid, worker);
    PutInv(s, pid, worker, s');
  }

  lemma WorkPairs(s: State, pid: Pid, step: WorkStep)
    requires ProcsOk(s) && pid in s.procs && s.procs[pid].Working?
    requires HoldsRow(s.procs[pid], s.procs[pid].quote) || !RowTaken(s, s.procs[pid].quote)
    ensures forall p :: p in s.procs && p != pid ==> PairOk(s.procs[p], s.procs[pid].(step := step))
  {
    forall p | p in s.procs && p != pid ensures PairOk(s.procs[p], s.procs[pid].(step := step)) {
      assert PairOk(s.procs[p], s.procs[pid]);
    }
  }

  lemma StartWriteInv(s: State, pid: Pid, w: Write, s': State)
    requires Inv(s) && Apply(s, StartWrite(pid, w)) == Some(s')
    ensures pid in s'.procs && Inv(s')
  {
    assert ProcOk(s.tables, s.nextSequence, s.procs[pid]);
    WorkPairs(s, pid, Writing(w));
    PutInv(s, pid, s.procs[pid].(step := Writing(w)), s');
  }

  lemma LogWriteInv(s: State, pid: Pid, s': State)
    requires Inv(s) && Apply(s, LogWrite(pid)) == Some(s')
    ensures Inv(s')
  {
    assert ProcOk(s.tables, s.nextSequence, s.procs[pid]);
    WorkPairs(s, pid, s'.procs[pid].step);
    PutInv(s, pid, s'.procs[pid], s');
  }

  // ---------- Commits ----------

  /** What another process may not claim while a transaction on q commits. */
  ghost predicate Detached(p: Proc, q: QuoteId, added: seq<OperationRow>) {
    && !HoldsRow(p, q) && !Live(p, q) && !Reserves(p, q)
    && forall row :: row in added ==> !HoldsKey(p, row.owner, row.key)
  }

  /** A commit on quote q: one row, one event, perhaps one operation. */
  ghost predicate Commits(t: Tables, t': Tables, q: QuoteId, owner: Subject, n: nat, added: seq<OperationRow>) {
    && q in t'.quotes && t'.quotes[q].owner == owner
    && (q in t.quotes ==> t.quotes[q].owner == owner && t.quotes[q].context == t'.quotes[q].context)
    && t'.quotes == t.quotes[q := t'.quotes[q]]
    && t'.operations == t.operations + added
    && t'.events == t.events + [EventRow(n, q, owner, t'.quotes[q].status)]
    && |added| <= 1
  }

  lemma FindAfterAppend(rows: seq<OperationRow>, added: seq<OperationRow>, owner: Subject, key: Key)
    requires |added| <= 1 && forall row :: row in added ==> !(row.owner == owner && row.key == key)
    ensures FindOperation(rows + added, owner, key) == FindOperation(rows, owner, key)
  {
    if added == [] {
      assert rows + added == rows;
    } else {
      assert (rows + added)[..|rows|] == rows;
      assert added[0] in added;
    }
  }

  lemma BystanderOk(t: Tables, t': Tables, next: nat, p: Proc, q: QuoteId, owner: Subject, n: nat,
                    added: seq<OperationRow>)
    requires ProcOk(t, next, p) && Commits(t, t', q, owner, n, added) && Detached(p, q, added)
    ensures ProcOk(t', next, p)
  {
    match p
    case Working(_, _, _, _) =>
    case Serving(call, stage) =>
      if stage.KeyFree? || InsideWrites(stage) {
        assert HoldsKey(p, call.owner, call.key);
        FindAfterAppend(t.operations, added, call.owner, call.key);
      }
      if call.CreateRequest? && !stage.Committed? {
        assert Reserves(p, call.id);
      }
      if call.RetryRequest? && InsideWrites(stage) {
        assert HoldsRow(p, call.quote);
      }
      if stage.Committed? {
        assert Live(p, call.Target());
      }
  }

  lemma LogAppend(events: seq<EventRow>, e: EventRow, q: QuoteId)
    ensures LogOf(events + [e], q) == LogOf(events, q) + (if e.quote == q then [e.status] else [])
  {
    assert (events + [e])[..|events|] == events;
  }

  lemma PathExtends(h: seq<Status>, status: Status)
    requires h == [] ==> status.Queued?
    requires h != [] ==> IsPath(h) && Edge(h[|h| - 1], status)
    ensures IsPath(h + [status])
  {
  }

  lemma LogEmpty(events: seq<EventRow>, q: QuoteId)
    requires forall i :: 0 <= i < |events| ==> events[i].quote != q
    ensures LogOf(events, q) == []
  {
    if events != [] {
      LogEmpty(events[..|events| - 1], q);
    }
  }

  lemma OtherQuoteOk(s: State, s': State, q: QuoteId, owner: Subject, n: nat, added: seq<OperationRow>, r: QuoteId)
    requires r in s.tables.quotes && r != q && QuoteOk(s, r) && Commits(s.tables, s'.tables, q, owner, n, added)
    requires s'.history == Remember(s.history, q, s'.tables.quotes[q].status)
    ensures QuoteOk(s', r)
  {
    LogAppend(s.tables.events, EventRow(n, q, owner, s'.tables.quotes[q].status), r);
  }

  lemma CommittedQuoteOk(s: State, s': State, q: QuoteId, owner: Subject, n: nat, added: seq<OperationRow>)
    requires TablesOk(s) && Commits(s.tables, s'.tables, q, owner, n, added)
    requires s'.history == Remember(s.history, q, s'.tables.quotes[q].status)
    requires if q in s.tables.quotes then Edge(s.tables.quotes[q].status, s'.tables.quotes[q].status)
             else s'.tables.quotes[q].status.Queued?
    requires RowShape(s'.tables.quotes[q])
    ensures QuoteOk(s', q)
  {
    var status := s'.tables.quotes[q].status;
    LogAppend(s.tables.events, EventRow(n, q, owner, status), q);
    if q in s.tables.quotes {
      assert QuoteOk(s, q);
      PathExtends(s.history[q], status);
    } else {
      LogEmpty(s.tables.events, q);
      PathExtends([], status);
    }
  }

  lemma QuoteCommitOk(s: State, s': State, q: QuoteId, owner: Subject, n: nat, added: seq<OperationRow>)
    requires TablesOk(s) && Commits(s.tables, s'.tables, q, owner, n, added)
    requires s'.history == Remember(s.history, q, s'.tables.quotes[q].status)
    requires if q in s.tables.quotes then Edge(s.tables.quotes[q].status, s'.tables.quotes[q].status)
             else s'.tables.quotes[q].status.Queued?
    requires RowShape(s'.tables.quotes[q])
    ensures forall r :: r in s'.tables.quotes ==> QuoteOk(s', r)
    ensures s'.history.Keys == s'.tables.quotes.Keys
  {
    CommittedQuoteOk(s, s', q, owner, n, added);
    forall r | r in s'.tables.quotes && r != q ensures QuoteOk(s', r) {
      OtherQuoteOk(s, s', q, owner, n, added, r);
    }
  }

  lemma EventsCommitOk(t: Tables, t': Tables, next: nat, q: QuoteId, owner: Subject, n: nat, added: seq<OperationRow>)
    requires EventsOk(t, next) && Commits(t, t', q, owner, n, added) && Newest(t, next, q, n)
    ensures EventsOk(t', next)
  {
  }

  lemma OperationsCommitOk(t: Tables, t': Tables, q: QuoteId, owner: Subject, n: nat, added: seq<OperationRow>)
    requires OperationsOk(t) && Commits(t, t', q, owner, n, added)
    requires forall row :: row in added ==>
              row.owner == owner && row.quote == q && FindOperation(t.operations, owner, row.key).None?
    ensures OperationsOk(t')
  {
    if added != [] {
      assert added[0] in added;
      FindOperationSpec(t.operations, owner, added[0].key);
    }
  }

  lemma RepliesCommitOk(s: State, s': State, pid: Pid, added: seq<OperationRow>)
    requires RepliesOk(s) && s'.seen == s.seen
    requires s'.tables.operations == s.tables.operations + added
    requires s'.authors == s.authors + (if added == [] then [] else [pid]) && |added| <= 1
    requires s'.replies == s.replies
             || (pid in s.seen && pid in s'.replies && s'.replies == s.replies[pid := s'.replies[pid]]
                 && added == [s'.replies[pid].call.Row()]
                     && exists context :: s'.replies[pid].outcome == Success(s'.replies[pid].call, context))
    ensures RepliesOk(s')
  {
    forall p | p in s'.replies ensures p in s'.seen && ReplyOk(s', p, s'.replies[p]) {
      var reply := s'.replies[p];
      if p == pid && s'.replies != s.replies {
        assert s'.authors[|s.authors|] == pid && s'.tables.operations[|s.authors|] == reply.call.Row();
        assert Authored(s', p, reply.call);
      } else {
        assert ReplyOk(s, p, reply);
        ReplyGrows(s, s', p, reply);
      }
    }
  }

  lemma ProcsCommitOk(s: State, s': State, pid: Pid, q: QuoteId, owner: Subject, n: nat, added: seq<OperationRow>)
    requires ProcsOk(s) && pid in s.procs && Commits(s.tables, s'.tables, q, owner, n, added)
    requires s'.nextSequence == s.nextSequence && s'.seen == s.seen
    requires s'.procs.Keys <= s.procs.Keys && forall p :: p in s'.procs && p != pid ==> s'.procs[p] == s.procs[p]
    requires forall p :: p in s.procs && p != pid ==> Detached(s.procs[p], q, added)
    requires pid in s'.procs ==>
      && ProcOk(s'.tables, s'.nextSequence, s'.procs[pid])
      && (forall owner, key :: !HoldsKey(s'.procs[pid], owner, key))
      && (forall r :: !HoldsRow(s'.procs[pid], r) && !Reserves(s'.procs[pid], r))
      && (forall r :: Live(s'.procs[pid], r) ==> r == q)
    ensures ProcsOk(s')
  {
    forall p | p in s'.procs ensures p in s'.seen && ProcOk(s'.tables, s'.nextSequence, s'.procs[p]) {
      if p != pid {
        BystanderOk(s.tables, s'.tables, s.nextSequence, s.procs[p], q, owner, n, added);
      }
    }
    forall a, b | a in s'.procs && b in s'.procs && a != b ensures PairOk(s'.procs[a], s'.procs[b]) {
      if a != pid && b != pid { assert PairOk(s.procs[a], s.procs[b]); }
    }
  }

  lemma DetachedFromCall(s: State, pid: Pid, p: Pid)
    requires ProcsOk(s) && pid in s.procs && p in s.procs && p != pid
    requires s.procs[pid].Serving? && s.procs[pid].stage.EventWritten?
    ensures Detached(s.procs[p], s.procs[pid].call.Target(), [s.procs[pid].call.Row()])
  {
    var me, other := s.procs[pid], s.procs[p];
    var call := me.call;
    assert CallOk(s.tables, s.nextSequence, call, me.stage) && ProcOk(s.tables, s.nextSequence, other);
    assert PairOk(me, other);
    assert HoldsKey(me, call.owner, call.key);
    if call.CreateRequest? {
      assert Reserves(me, call.id);
    } else {
      assert HoldsRow(me, call.quote);
    }
  }

  lemma FlushCallCommits(t: Tables, next: nat, call: Request, stage: Stage)
    requires stage.EventWritten? && CallOk(t, next, call, stage)
    ensures call.RetryRequest? ==> call.quote in t.quotes
    ensures Commits(t, FlushCall(t, call, stage.context, stage.sequence), call.Target(), call.owner,
              stage.sequence, [call.Row()])
  {
  }

  lemma CommittedProcOk(t: Tables, next: nat, call: Request, stage: Stage)
    requires stage.EventWritten? && CallOk(t, next, call, stage)
    ensures call.RetryRequest? ==> call.quote in t.quotes
    ensures CallOk(FlushCall(t, call, stage.context, stage.sequence), next, call, Committed(stage.context))
  {
  }

  lemma CommitCallProcs(s: State, pid: Pid, s': State)
    requires ProcsOk(s) && pid in s.procs && s.procs[pid].Serving? && s.procs[pid].stage.EventWritten?
    requires s.procs[pid].call.RetryRequest? ==> s.procs[pid].call.quote in s.tables.quotes
    requires s' == CommitCall(s, pid, s.procs[pid].call, s.procs[pid].stage.context, s.procs[pid].stage.sequence)
    ensures ProcsOk(s')
  {
    var call, stage := s.procs[pid].call, s.procs[pid].stage;
    assert CallOk(s.tables, s.nextSequence, call, stage);
    FlushCallCommits(s.tables, s.nextSequence, call, stage);
    CommittedProcOk(s.tables, s.nextSequence, call, stage);
    forall p | p in s.procs && p != pid ensures Detached(s.procs[p], call.Target(), [call.Row()]) {
      DetachedFromCall(s, pid, p);
    }
    ProcsCommitOk(s, s', pid, call.Target(), call.owner, stage.sequence, [call.Row()]);
  }

  lemma CommitCallTables(s: State, pid: Pid, call: Request, stage: Stage)
    requires TablesOk(s) && stage.EventWritten? && CallOk(s.tables, s.nextSequence, call, stage)
    ensures call.RetryRequest? ==> call.quote in s.tables.quotes
    ensures TablesOk(CommitCall(s, pid, call, stage.context, stage.sequence))
  {
    FlushCallCommits(s.tables, s.nextSequence, call, stage);
    CommitTablesOk(s, CommitCall(s, pid, call, stage.context, stage.sequence),
                   call.Target(), call.owner, stage.sequence, [call.Row()]);
  }

  lemma CommitCallShape(s: State, pid: Pid, s': State)
    requires ProcsOk(s) && pid in s.procs && s.procs[pid].Serving? && s.procs[pid].stage.EventWritten?
    requires AdvanceCall(s, pid, s.procs[pid].call, s.procs[pid].stage) == Some(s')
    ensures CallOk(s.tables, s.nextSequence, s.procs[pid].call, s.procs[pid].stage)
    ensures s.procs[pid].call.RetryRequest? ==> s.procs[pid].call.quote in s.tables.quotes
    ensures s' == CommitCall(s, pid, s.procs[pid].call, s.procs[pid].stage.context, s.procs[pid].stage.sequence)
  {
  }

  lemma CommitCallInv(s: State, pid: Pid, s': State)
    requires Inv(s) && pid in s.procs && s.procs[pid].Serving? && s.procs[pid].stage.EventWritten?
    requires AdvanceCall(s, pid, s.procs[pid].call, s.procs[pid].stage) == Some(s')
    ensures Inv(s')
  {
    var call, stage := s.procs[pid].call, s.procs[pid].stage;
    CommitCallShape(s, pid, s');
    CommitCallTables(s, pid, call, stage);
    CommitCallProcs(s, pid, s');
    assert s'.replies[pid].outcome == Success(call, stage.context);
    RepliesCommitOk(s, s', pid, [call.Row()]);
  }

  lemma CommitTablesOk(s: State, s': State, q: QuoteId, owner: Subject, n: nat, added: seq<OperationRow>)
    requires TablesOk(s) && Commits(s.tables, s'.tables, q, owner, n, added)
    requires s'.nextSequence == s.nextSequence
    requires s'.history == Remember(s.history, q, s'.tables.quotes[q].status)
    requires if q in s.tables.quotes then Edge(s.tables.quotes[q].status, s'.tables.quotes[q].status)
             else s'.tables.quotes[q].status.Queued?
    requires RowShape(s'.tables.quotes[q])
    requires Newest(s.tables, s.nextSequence, q, n)
    requires forall row :: row in added ==>
              row.owner == owner && row.quote == q && FindOperation(s.tables.operations, owner, row.key).None?
    ensures TablesOk(s')
  {
    QuoteCommitOk(s, s', q, owner, n, added);
    EventsCommitOk(s.tables, s'.tables, s.nextSequence, q, owner, n, added);
    OperationsCommitOk(s.tables, s'.tables, q, owner, n, added);
  }

  lemma FlushWriteCommits(t: Tables, next: nat, p: Proc)
    requires p.Working? && p.step.Logged? && ProcOk(t, next, p)
    ensures Commits(t, FlushWrite(t, p.quote, p.owner, p.step.w, p.step.sequence), p.quote, p.owner,
              p.step.sequence, [])
    ensures p.step.w.MarkAnalyzing? ==>
              ProcOk(FlushWrite(t, p.quote, p.owner, p.step.w, p.step.sequence), next, p.(step := BeforeResult))
  {
    assert t.operations + [] == t.operations;
  }

  lemma CommitWorkProcs(s: State, pid: Pid, s': State)
    requires ProcsOk(s) && pid in s.procs && s.procs[pid].Working? && s.procs[pid].step.Logged?
    requires s.procs[pid].quote in s.tables.quotes && s' == CommitWork(s, pid, s.procs[pid])
    ensures ProcsOk(s')
  {
    var me := s.procs[pid];
    FlushWriteCommits(s.tables, s.nextSequence, me);
    forall p | p in s.procs && p != pid ensures Detached(s.procs[p], me.quote, []) {
      assert PairOk(me, s.procs[p]) && ProcOk(s.tables, s.nextSequence, s.procs[p]);
      assert HoldsRow(me, me.quote) && Live(me, me.quote);
    }
    ProcsCommitOk(s, s', pid, me.quote, me.owner, me.step.sequence, []);
  }

  lemma CommitWorkTables(s: State, pid: Pid, p: Proc)
    requires TablesOk(s) && p.Working? && p.step.Logged? && ProcOk(s.tables, s.nextSequence, p)
    ensures TablesOk(CommitWork(s, pid, p))
  {
    FlushWriteCommits(s.tables, s.nextSequence, p);
    CommitTablesOk(s, CommitWork(s, pid, p), p.quote, p.owner, p.step.sequence, []);
  }

  lemma CommitWorkShape(s: State, pid: Pid, s': State)
    requires ProcsOk(s) && Apply(s, CommitWrite(pid)) == Some(s')
    ensures ProcOk(s.tables, s.nextSequence, s.procs[pid])
    ensures s.procs[pid].quote in s.tables.quotes && s' == CommitWork(s, pid, s.procs[pid])
  {
  }

  lemma CommitWorkReplies(s: State, pid: Pid, p: Proc)
    requires RepliesOk(s) && p.Working? && p.step.Logged? && p.quote in s.tables.quotes
    ensures RepliesOk(CommitWork(s, pid, p))
  {
    assert s.tables.operations + [] == s.tables.operations && s.authors + [] == s.authors;
    RepliesCommitOk(s, CommitWork(s, pid, p), pid, []);
  }

  lemma CommitWorkParts(s: State, pid: Pid, p: Proc)
    requires TablesOk(s) && RepliesOk(s) && p.Working? && p.step.Logged? && ProcOk(s.tables, s.nextSequence, p)
    ensures p.quote in s.tables.quotes && TablesOk(CommitWork(s, pid, p)) && RepliesOk(CommitWork(s, pid, p))
  {
    CommitWorkTables(s, pid, p);
    CommitWorkReplies(s, pid, p);
  }

  lemma CommittedWorkInv(s: State, pid: Pid, p: Proc)
    requires Inv(s) && pid in s.procs && s.procs[pid] == p && p.Working? && p.step.Logged?
    requires ProcOk(s.tables, s.nextSequence, p) && p.quote in s.tables.quotes
    ensures Inv(CommitWork(s, pid, p))
  {
    CommitWorkParts(s, pid, p);
    CommitWorkProcs(s, pid, CommitWork(s, pid, p));
  }

  lemma CommitWorkOf(s: State, pid: Pid, s': State) returns (p: Proc)
    requires ProcsOk(s) && Apply(s, CommitWrite(pid)) == Some(s')
    ensures pid in s.procs && s.procs[pid] == p && p.Working? && p.step.Logged?
    ensures ProcOk(s.tables, s.nextSequence, p) && p.quote in s.tables.quotes && s' == CommitWork(s, pid, p)
  {
    CommitWorkShape(s, pid, s');
    p := s.procs[pid];
  }

  lemma CommitWorkInv(s: State, pid: Pid, s': State)
    requires Inv(s) && Apply(s, CommitWrite(pid)) == Some(s')
    ensures Inv(s')
  {
    var p := CommitWorkOf(s, pid, s');
    CommittedWorkInv(s, pid, p);
  }

  // ---------- Every step ----------

  lemma AdvanceInv(s: State, pid: Pid, s': State)
    requires Inv(s) && Apply(s, Advance(pid)) == Some(s')
    ensures Inv(s')
  {
    match s.procs[pid].stage {
      case Waiting => StageInv(s, pid, s.procs[pid].call, KeyLocked, s');
      case KeyLocked => LookInv(s, pid, s');
      case Replaying(_) => ReplayInv(s, pid, s');
      case KeyFree => PrepareInv(s, pid, s');
      case EventWritten(_, _) => CommitCallInv(s, pid, s');
      case Committed(_) => SpawnInv(s, pid, s');
      case _ => BufferInv(s, pid, s');
    }
  }

  lemma EditInv(s: State, s': State)
    requires Inv(s) && s' == s.(contexts := s'.contexts)
    ensures Inv(s')
  {
    SameTables(s, s');
    SameReplies(s, s');
  }

  lemma StepInv(s: State, a: Action, s': State)
    requires Inv(s) && Apply(s, a) == Some(s')
    ensures Inv(s')
  {
    match a
    case Arrive(pid, call) => ArriveInv(s, pid, call, s');
    case Advance(pid) => AdvanceInv(s, pid, s');
    case StartWrite(pid, w) => StartWriteInv(s, pid, w, s');
    case LogWrite(pid) => LogWriteInv(s, pid, s');
    case CommitWrite(pid) => CommitWorkInv(s, pid, s');
    case Crash(pid) => DropInv(s, pid);
    case EditContext(_, _) => EditInv(s, s');
  }

  lemma {:induction false} RunInv(s: State, actions: seq<Action>, s': State)
    requires Inv(s) && Run(s, actions) == Some(s')
    ensures Inv(s')
    decreases |actions|
  {
    if actions != [] {
      var next := Apply(s, actions[0]).value;
      StepInv(s, actions[0], next);
      RunInv(next, actions[1..], s');
    }
  }

  lemma ReachableInv(s: State)
    requires Reachable(s)
    ensures Inv(s)
  {
    var contexts, actions :| Run(Init(contexts), actions) == Some(s);
    InitInv(contexts);
    RunInv(Init(contexts), actions, s);
  }
}
