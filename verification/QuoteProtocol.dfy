/**
 Create calls, retry calls and background workers interleaved statement by statement over
 the quote tables (src/persistence.rs, src/lib.rs).

 The advisory lock of an (owner, key) pair and the row lock of a quote are abstract
 mutexes: a lock is taken exactly while some process is in a stage that holds it, so
 commit, rollback and crash release it. Writes of an open transaction live in the stage
 of its process and reach the tables only at commit. Statements read the tables as
 committed at that moment (read committed). A process may crash at any stage.
 */
module QuoteProtocol {
  import opened Wrappers
  import opened QuoteTables

  type Pid = nat

  datatype Request =
    | CreateRequest(owner: Subject, key: Key, request: Json, id: QuoteId)
    | RetryRequest(owner: Subject, key: Key, quote: QuoteId)
  {
    function Target(): QuoteId { if CreateRequest? then id else quote }
    function Kind(): OperationKind { if CreateRequest? then CreateOperation else RetryOperation }
    function Payload(): Option<Json> { if CreateRequest? then Some(request) else None }
    function Row(): OperationRow { OperationRow(owner, key, Kind(), Target(), Payload()) }
  }

  /** Where a create or retry call is in its transaction. */
  datatype Stage =
    | Waiting                                        // before the advisory lock
    | KeyLocked                                      // before find_operation
    | Replaying(row: OperationRow)                   // key in use for the same operation
    | KeyFree                                        // find_operation returned nothing
    | Prepared(context: Json)                        // context read, or failed row locked
    | RowWritten(context: Json)
    | OperationWritten(context: Json)
    | EventWritten(context: Json, sequence: nat)
    | Committed(context: Json)                       // committed, worker not yet spawned

  /** Where a worker is: its two status writes are transactions of their own. */
  datatype WorkStep =
    | BeforeAnalyzing
    | BeforeResult
    | Writing(w: Write)
    | Logged(w: Write, sequence: nat)

  datatype Proc =
    | Serving(call: Request, stage: Stage)
    | Working(quote: QuoteId, owner: Subject, context: Json, step: WorkStep)

  datatype Reply = Reply(call: Request, outcome: Outcome)

  /** `authors[i]` is the process that wrote operation row i; `history` is the sequence of
      statuses each quote row has held. Neither is read by any step. */
  datatype State = State(
    tables: Tables,
    contexts: map<Subject, Json>,
    nextSequence: nat,
    procs: map<Pid, Proc>,
    seen: set<Pid>,
    replies: map<Pid, Reply>,
    authors: seq<Pid>,
    history: map<QuoteId, seq<Status>>)

  datatype Action =
    | Arrive(pid: Pid, call: Request)
    | Advance(pid: Pid)                  // next statement of a create or retry call
    | StartWrite(pid: Pid, w: Write)     // a worker's UPDATE
    | LogWrite(pid: Pid)                 // a worker's event insert
    | CommitWrite(pid: Pid)
    | Crash(pid: Pid)
    | EditContext(owner: Subject, active: Option<Json>)

  // ---------- Locks ----------

  predicate HoldsKey(p: Proc, owner: Subject, key: Key) {
    p.Serving? && p.call.owner == owner && p.call.key == key
    && !p.stage.Waiting? && !p.stage.Committed?
  }

  predicate InsideWrites(stage: Stage) {
    stage.Prepared? || stage.RowWritten? || stage.OperationWritten? || stage.EventWritten?
  }

  predicate HoldsRow(p: Proc, q: QuoteId) {
    match p
    case Serving(call, stage) => call.RetryRequest? && call.quote == q && InsideWrites(stage)
    case Working(quote, _, _, step) => quote == q && (step.Writing? || step.Logged?)
  }

  /** A create call that has not committed owns its fresh id. */
  predicate Reserves(p: Proc, id: QuoteId) {
    p.Serving? && p.call.CreateRequest? && p.call.id == id && !p.stage.Committed?
  }

  /** The process still has status writes to make to q. */
  predicate Live(p: Proc, q: QuoteId) {
    match p
    case Serving(call, stage) => stage.Committed? && call.Target() == q
    case Working(quote, _, _, _) => quote == q
  }

  predicate KeyTaken(s: State, owner: Subject, key: Key) {
    exists pid | pid in s.procs :: HoldsKey(s.procs[pid], owner, key)
  }

  predicate RowTaken(s: State, q: QuoteId) {
    exists pid | pid in s.procs :: HoldsRow(s.procs[pid], q)
  }

  predicate FreshId(s: State, id: QuoteId) {
    id !in s.tables.quotes && forall pid | pid in s.procs :: !Reserves(s.procs[pid], id)
  }

  // ---------- Steps ----------

  function Init(contexts: map<Subject, Json>): State {
    State(Tables(map[], [], []), contexts, 1, map[], {}, map[], [], map[])
  }

  function Put(s: State, pid: Pid, p: Proc): State {
    s.(procs := s.procs[pid := p])
  }

  function Drop(s: State, pid: Pid): State {
    s.(procs := s.procs - {pid})
  }

  function Answer(s: State, pid: Pid, call: Request, outcome: Outcome): State {
    Drop(s, pid).(replies := s.replies[pid := Reply(call, outcome)])
  }

  /** The buffered writes of a create or retry transaction, applied blindly. */
  function FlushCall(t: Tables, call: Request, context: Json, sequence: nat): Tables
    requires call.RetryRequest? ==> call.quote in t.quotes
  {
    var row :=
      if call.CreateRequest? then QuoteRow(call.owner, call.request, context, Queued, None, None)
      else Overwrite(t.quotes[call.quote], MarkQueued);
    Tables(t.quotes[call.Target() := row],
           t.operations + [call.Row()],
           t.events + [EventRow(sequence, call.Target(), call.owner, Queued)])
  }

  function FlushWrite(t: Tables, q: QuoteId, owner: Subject, w: Write, sequence: nat): Tables
    requires q in t.quotes
  {
    Tables(t.quotes[q := Overwrite(t.quotes[q], w)],
           t.operations,
           t.events + [EventRow(sequence, q, owner, StatusOf(w))])
  }

  function Remember(h: map<QuoteId, seq<Status>>, q: QuoteId, status: Status): map<QuoteId, seq<Status>> {
    h[q := (if q in h then h[q] else []) + [status]]
  }

  function Success(call: Request, context: Json): Outcome {
    if call.CreateRequest? then Created(call.id, context) else Retried(call.quote, context)
  }

  function CommitCall(s: State, pid: Pid, call: Request, context: Json, sequence: nat): State
    requires call.RetryRequest? ==> call.quote in s.tables.quotes
  {
    s.(tables := FlushCall(s.tables, call, context, sequence),
       procs := s.procs[pid := Serving(call, Committed(context))],
       replies := s.replies[pid := Reply(call, Success(call, context))],
       authors := s.authors + [pid],
       history := Remember(s.history, call.Target(), Queued))
  }

  /** `find_operation` and what each call does with its answer. */
  function LookUp(s: State, pid: Pid, call: Request): State {
    match FindOperation(s.tables.operations, call.owner, call.key)
    case None => Put(s, pid, Serving(call, KeyFree))
    case Some(row) =>
      if Matches(row, call.Kind(), call.Payload(), call.Target()) then Put(s, pid, Serving(call, Replaying(row)))
      else Answer(s, pid, call, Rejected(IdempotencyKeyReused))
  }

  /** Create reads the active context; retry locks the row and checks its status. */
  function Prepare(s: State, pid: Pid, call: Request): Option<State> {
    if call.CreateRequest? then
      if call.owner in s.contexts then Some(Put(s, pid, Serving(call, Prepared(s.contexts[call.owner]))))
      else Some(Answer(s, pid, call, Rejected(ContextNotFound)))
    else if !Owns(s.tables, call.owner, call.quote) then
      Some(Answer(s, pid, call, Rejected(QuoteNotFound)))
    else if RowTaken(s, call.quote) then None
    else if !s.tables.quotes[call.quote].status.Failed? then
      Some(Answer(s, pid, call, Rejected(InvalidTransition)))
    else Some(Put(s, pid, Serving(call, Prepared(s.tables.quotes[call.quote].context))))
  }

  /** The INSERTs and UPDATE of the transaction, buffered until commit. An INSERT that
      meets an existing primary key aborts the transaction. */
  function Buffer(s: State, pid: Pid, call: Request, stage: Stage): State
    requires stage.Prepared? || stage.RowWritten? || stage.OperationWritten?
  {
    match stage
    case Prepared(context) =>
      if call.CreateRequest? && call.id in s.tables.quotes then Drop(s, pid)
      else Put(s, pid, Serving(call, RowWritten(context)))
    case RowWritten(context) =>
      if FindOperation(s.tables.operations, call.owner, call.key).Some? then Drop(s, pid)
      else Put(s, pid, Serving(call, OperationWritten(context)))
    case OperationWritten(context) =>
      Put(s, pid, Serving(call, EventWritten(context, s.nextSequence))).(nextSequence := s.nextSequence + 1)
  }

  function AdvanceCall(s: State, pid: Pid, call: Request, stage: Stage): Option<State> {
    match stage
    case Waiting =>
      if KeyTaken(s, call.owner, call.key) then None
      else Some(Put(s, pid, Serving(call, KeyLocked)))
    case KeyLocked => Some(LookUp(s, pid, call))
    case Replaying(row) =>
      Some(Answer(s, pid, call, Replayed(s.tables, row, call.Kind(), call.Payload(), call.Target())))
    case KeyFree => Prepare(s, pid, call)
    case EventWritten(context, sequence) =>
      if call.RetryRequest? && call.quote !in s.tables.quotes then Some(Drop(s, pid))
      else Some(CommitCall(s, pid, call, context, sequence))
    case Committed(context) =>
      Some(Put(s, pid, Working(call.Target(), call.owner, context, BeforeAnalyzing)))
    case _ => Some(Buffer(s, pid, call, stage))
  }

  /** The first write marks the quote analyzing; the second stores the result. */
  predicate MayWrite(step: WorkStep, w: Write) {
    (step.BeforeAnalyzing? && w.MarkAnalyzing?)
    || (step.BeforeResult? && (w.MarkCompleted? || w.MarkFailed?))
  }

  function CommitWork(s: State, pid: Pid, p: Proc): State
    requires p.Working? && p.step.Logged? && p.quote in s.tables.quotes
  {
    s.(tables := FlushWrite(s.tables, p.quote, p.owner, p.step.w, p.step.sequence),
       procs := if p.step.w.MarkAnalyzing? then s.procs[pid := p.(step := BeforeResult)] else s.procs - {pid},
       history := Remember(s.history, p.quote, StatusOf(p.step.w)))
  }

  function Apply(s: State, a: Action): Option<State> {
    match a
    case Arrive(pid, call) =>
      if pid in s.seen || (call.CreateRequest? && !FreshId(s, call.id)) then None
      else Some(Put(s, pid, Serving(call, Waiting)).(seen := s.seen + {pid}))
    case Advance(pid) =>
      if pid in s.procs && s.procs[pid].Serving?
      then AdvanceCall(s, pid, s.procs[pid].call, s.procs[pid].stage)
      else None
    case StartWrite(pid, w) =>
      if pid !in s.procs || !s.procs[pid].Working? || !MayWrite(s.procs[pid].step, w) then None
      else
        var p := s.procs[pid];
        if !Owns(s.tables, p.owner, p.quote) then Some(Drop(s, pid))
        else if RowTaken(s, p.quote) then None
        else Some(Put(s, pid, p.(step := Writing(w))))
    case LogWrite(pid) =>
      if pid !in s.procs || !s.procs[pid].Working? || !s.procs[pid].step.Writing? then None
      else
        var p := s.procs[pid];
        Some(Put(s, pid, p.(step := Logged(p.step.w, s.nextSequence))).(nextSequence := s.nextSequence + 1))
    case CommitWrite(pid) =>
      if pid !in s.procs || !s.procs[pid].Working? || !s.procs[pid].step.Logged? then None
      else if s.procs[pid].quote !in s.tables.quotes then Some(Drop(s, pid))
      else Some(CommitWork(s, pid, s.procs[pid]))
    case Crash(pid) =>
      if pid in s.procs then Some(Drop(s, pid)) else None
    case EditContext(owner, active) =>
      Some(s.(contexts := if active.Some? then s.contexts[owner := active.value] else s.contexts - {owner}))
  }

  function Run(s: State, actions: seq<Action>): Option<State>
    decreases |actions|
  {
    if actions == [] then Some(s)
    else
      match Apply(s, actions[0])
      case None => None
      case Some(next) => Run(next, actions[1..])
  }

  ghost predicate Reachable(s: State) {
    exists contexts, actions :: Run(Init(contexts), actions) == Some(s)
  }
}
