/**
 Every interleaved run of the quote protocol is a serial run: taken in the order in which
 calls are answered and writes commit, the transactions run alone give the same tables and
 the same answers.
 */
module QuoteSerial {
  import opened Wrappers
  import opened QuoteTables
  import opened QuoteProtocol
  import opened QuoteInvariant
  import opened QuoteTheorems

  /** A transaction with what it read from outside the tables. */
  datatype Transaction =
    | CallTx(call: Request, active: Option<Json>, sequence: nat)
    | WriteTx(owner: Subject, quote: QuoteId, w: Write, sequence: nat)

  function Alone(t: Tables, x: Transaction): (Tables, Outcome) {
    match x
    case CallTx(CreateRequest(owner, key, request, id), active, sequence) =>
      CreateTx(t, active, owner, key, request, id, sequence)
    case CallTx(RetryRequest(owner, key, quote), _, sequence) => RetryTx(t, owner, key, quote, sequence)
    case WriteTx(owner, quote, w, sequence) => UpdateTx(t, owner, quote, w, sequence)
  }

  /** A transaction that ended, and what its caller was told. */
  datatype Done = Done(x: Transaction, outcome: Outcome)

  function ActiveContext(s: State, owner: Subject): Option<Json> {
    if owner in s.contexts then Some(s.contexts[owner]) else None
  }

  /** Stages whose step may answer without writing. */
  predicate MayRefuse(stage: Stage) {
    stage.KeyLocked? || stage.Replaying? || stage.KeyFree?
  }

  /** What the step from `s` to `next` completes: at most one transaction. */
  function Completed(s: State, a: Action, next: State): seq<Done> {
    if a.CommitWrite? && a.pid in s.procs && s.procs[a.pid].Working? && s.procs[a.pid].step.Logged? then
      var p := s.procs[a.pid];
      [Done(WriteTx(p.owner, p.quote, p.step.w, p.step.sequence), Updated)]
    else if a.Advance? && a.pid in s.procs && s.procs[a.pid].Serving? && a.pid in next.replies then
      var call, stage, outcome := s.procs[a.pid].call, s.procs[a.pid].stage, next.replies[a.pid].outcome;
      if stage.EventWritten? then [Done(CallTx(call, Some(stage.context), stage.sequence), outcome)]
      else if MayRefuse(stage) && a.pid !in next.procs then
        [Done(CallTx(call, ActiveContext(s, call.owner), s.nextSequence), outcome)]
      else []
    else []
  }

  /** The transactions of a run in the order in which they end. */
  ghost function Log(s: State, actions: seq<Action>): seq<Done>
    decreases |actions|
  {
    if actions == [] || Apply(s, actions[0]).None? then []
    else
      var next := Apply(s, actions[0]).value;
      Completed(s, actions[0], next) + Log(next, actions[1..])
  }

  /** Running the transactions of `log` alone, one after another, from `t` ends in `t'` with these outcomes. */
  ghost predicate Serial(t: Tables, log: seq<Done>, t': Tables)
    decreases |log|
  {
    if log == [] then t == t'
    else Alone(t, log[0].x).1 == log[0].outcome && Serial(Alone(t, log[0].x).0, log[1..], t')
  }

  // ---------- Answers without effect ----------

  lemma KeyUsedIsSerial(s: State, pid: Pid, s': State)
    requires OperationsOk(s.tables) && pid in s.procs && s.procs[pid].Serving?
    requires s.procs[pid].stage.KeyLocked? || s.procs[pid].stage.Replaying?
    requires CallOk(s.tables, s.nextSequence, s.procs[pid].call, s.procs[pid].stage)
    requires AdvanceCall(s, pid, s.procs[pid].call, s.procs[pid].stage) == Some(s') && pid !in s'.procs
    ensures pid in s'.replies
    ensures var call := s.procs[pid].call;
            Alone(s.tables, CallTx(call, ActiveContext(s, call.owner), s.nextSequence))
            == (s.tables, s'.replies[pid].outcome)
  {
    var call, stage := s.procs[pid].call, s.procs[pid].stage;
    if stage.Replaying? {
      FoundRow(s, stage.row);
      assert Owns(s.tables, stage.row.owner, stage.row.quote);
    }
  }

  lemma RefusalIsSerial(s: State, pid: Pid, s': State)
    requires pid in s.procs && s.procs[pid].Serving? && s.procs[pid].stage.KeyFree?
    requires CallOk(s.tables, s.nextSequence, s.procs[pid].call, KeyFree)
    requires Prepare(s, pid, s.procs[pid].call) == Some(s') && pid !in s'.procs
    ensures pid in s'.replies
    ensures var call := s.procs[pid].call;
            Alone(s.tables, CallTx(call, ActiveContext(s, call.owner), s.nextSequence))
            == (s.tables, s'.replies[pid].outcome)
  {
  }

  /** A call answered without a commit is answered as it would be run alone on the tables of that moment. */
  lemma AnswerIsSerial(s: State, pid: Pid, s': State)
    requires Inv(s) && Apply(s, Advance(pid)) == Some(s') && MayRefuse(s.procs[pid].stage) && pid !in s'.procs
    ensures s'.tables == s.tables && pid in s'.replies
    ensures var call := s.procs[pid].call;
            Alone(s.tables, CallTx(call, ActiveContext(s, call.owner), s.nextSequence))
            == (s.tables, s'.replies[pid].outcome)
  {
    var call, stage := s.procs[pid].call, s.procs[pid].stage;
    assert ProcOk(s.tables, s.nextSequence, s.procs[pid]);
    AdvanceFrame(s, pid, call, stage, s');
    if stage.KeyFree? {
      RefusalIsSerial(s, pid, s');
    } else {
      KeyUsedIsSerial(s, pid, s');
    }
  }

  // ---------- One step and whole runs ----------

  /** At most one transaction, and running it alone takes `t` to `t'` with its outcome. */
  ghost predicate OneSerial(t: Tables, log: seq<Done>, t': Tables) {
    if log == [] then t == t' else |log| == 1 && Alone(t, log[0].x) == (t', log[0].outcome)
  }

  lemma CallCommitStep(s: State, pid: Pid, s': State)
    requires ProcsOk(s) && Apply(s, Advance(pid)) == Some(s') && s.procs[pid].stage.EventWritten?
    ensures OneSerial(s.tables, Completed(s, Advance(pid), s'), s'.tables)
  {
    CommitCallShape(s, pid, s');
  }

  lemma WorkCommitStep(s: State, pid: Pid, s': State)
    requires ProcsOk(s) && Apply(s, CommitWrite(pid)) == Some(s')
    ensures OneSerial(s.tables, Completed(s, CommitWrite(pid), s'), s'.tables)
  {
    CommitWorkShape(s, pid, s');
  }

  lemma StepIsSerial(s: State, a: Action, s': State)
    requires Inv(s) && Apply(s, a) == Some(s')
    ensures OneSerial(s.tables, Completed(s, a, s'), s'.tables)
  {
    if a.CommitWrite? {
      WorkCommitStep(s, a.pid, s');
    } else if a.Advance? && s.procs[a.pid].stage.EventWritten? {
      CallCommitStep(s, a.pid, s');
    } else {
      StepFrame(s, a, s');
      if a.Advance? && MayRefuse(s.procs[a.pid].stage) && a.pid !in s'.procs {
        AnswerIsSerial(s, a.pid, s');
      }
    }
  }

  lemma SerialStep(t: Tables, log: seq<Done>, u: Tables, more: seq<Done>, v: Tables)
    requires OneSerial(t, log, u) && Serial(u, more, v)
    ensures Serial(t, log + more, v)
  {
    if log == [] {
      assert log + more == more;
    } else {
      assert (log + more)[0] == log[0] && (log + more)[1..] == more;
    }
  }

  /** Serializability: every interleaving, crashes included, has the tables and answers of a serial run. */
  lemma {:induction false} EveryRunIsSerial(s: State, actions: seq<Action>, s': State)
    requires Inv(s) && Run(s, actions) == Some(s')
    ensures Serial(s.tables, Log(s, actions), s'.tables)
    decreases |actions|
  {
    if actions != [] {
      var next := Apply(s, actions[0]).value;
      StepIsSerial(s, actions[0], next);
      StepInv(s, actions[0], next);
      EveryRunIsSerial(next, actions[1..], s');
      SerialStep(s.tables, Completed(s, actions[0], next), next.tables, Log(next, actions[1..]), s'.tables);
    }
  }

  lemma BufferAnswersNothing(s: State, pid: Pid, call: Request, stage: Stage)
    requires stage.Prepared? || stage.RowWritten? || stage.OperationWritten?
    ensures Buffer(s, pid, call, stage).replies == s.replies
  {
  }

  lemma PrepareAnswers(s: State, pid: Pid, call: Request, s': State)
    requires Prepare(s, pid, call) == Some(s') && s'.replies != s.replies
    ensures pid !in s'.procs && pid in s'.replies && s'.replies[pid].call == call
  {
    var _, _ := PrepareShape(s, pid, call, s');
  }

  lemma AnswersComeFrom(s: State, pid: Pid, call: Request, stage: Stage, s': State)
    requires AdvanceCall(s, pid, call, stage) == Some(s') && s'.replies != s.replies
    ensures (MayRefuse(stage) && pid !in s'.procs) || stage.EventWritten?
    ensures pid in s'.replies && s'.replies[pid].call == call
  {
    match stage {
      case Prepared(_) => BufferAnswersNothing(s, pid, call, stage);
      case RowWritten(_) => BufferAnswersNothing(s, pid, call, stage);
      case OperationWritten(_) => BufferAnswersNothing(s, pid, call, stage);
      case KeyFree => PrepareAnswers(s, pid, call, s');
      case _ =>
    }
  }

  /** Every answer is the outcome of a transaction in the log. */
  lemma AnswersAreLogged(s: State, a: Action, s': State)
    requires Apply(s, a) == Some(s') && s'.replies != s.replies
    ensures Actor(a).Some? && a.pid in s'.replies && |Completed(s, a, s')| == 1
    ensures var done := Completed(s, a, s')[0];
            done.x.CallTx? && s'.replies[a.pid] == Reply(done.x.call, done.outcome)
  {
    if a.Advance? {
      AnswersComeFrom(s, a.pid, s.procs[a.pid].call, s.procs[a.pid].stage, s');
    }
  }
}
