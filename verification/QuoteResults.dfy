/**
 Which analysis or error code a quote row holds: exactly what the worker of that quote wrote,
 for as long as the status says so.
 */
module QuoteResults {
  import opened Wrappers
  import opened QuoteTables
  import opened QuoteProtocol
  import opened QuoteInvariant
  import opened QuoteTheorems
  import opened QuoteContexts

  // ---------- Results last ----------

  /** A worker's commit stores what it wrote; the written quote was queued or analyzing. */
  lemma WorkCommitStores(s: State, pid: Pid, s': State)
    requires ProcsOk(s) && Apply(s, CommitWrite(pid)) == Some(s')
    ensures var p := s.procs[pid];
            && p.Working? && p.step.Logged? && p.quote in s.tables.quotes && p.quote in s'.tables.quotes
            && s'.tables.quotes == s.tables.quotes[p.quote := s'.tables.quotes[p.quote]]
            && (s.tables.quotes[p.quote].status.Queued? || s.tables.quotes[p.quote].status.Analyzing?)
            && var row := s'.tables.quotes[p.quote];
               match p.step.w
               case MarkQueued => false
               case MarkAnalyzing => row.status == Analyzing && row.analysis == None && row.error == None
               case MarkCompleted(text) => row.status == Completed && row.analysis == Some(text) && row.error == None
               case MarkFailed(code) => row.status == Failed && row.analysis == None && row.error == Some(code)
  {
    CommitWorkShape(s, pid, s');
    assert WorkerWrite(s.procs[pid].step);
  }

  /** A call's commit queues its target, which was new or failed, and writes no result. */
  lemma CallCommitStores(s: State, pid: Pid, s': State)
    requires ProcsOk(s) && Apply(s, Advance(pid)) == Some(s') && s.procs[pid].stage.EventWritten?
    ensures var call := s.procs[pid].call;
            var q := if call.CreateRequest? then call.id else call.quote;
            && q in s'.tables.quotes && s'.tables.quotes == s.tables.quotes[q := s'.tables.quotes[q]]
            && s'.tables.quotes[q].status == Queued
            && s'.tables.quotes[q].analysis == None && s'.tables.quotes[q].error == None
            && (if call.CreateRequest? then q !in s.tables.quotes && s'.tables.quotes[q].request == call.request
                else q in s.tables.quotes && s.tables.quotes[q].status == Failed)
  {
    CommitCallShape(s, pid, s');
  }

  /** The step commits a retry of q. */
  predicate RetryCommits(s: State, a: Action, q: QuoteId) {
    a.Advance? && a.pid in s.procs && s.procs[a.pid].Serving? && s.procs[a.pid].stage.EventWritten?
    && s.procs[a.pid].call.RetryRequest? && s.procs[a.pid].call.quote == q
  }

  lemma ResultStep(s: State, a: Action, s': State, q: QuoteId)
    requires ProcsOk(s) && Apply(s, a) == Some(s') && q in s.tables.quotes
    requires s.tables.quotes[q].status == Completed || (s.tables.quotes[q].status == Failed && !RetryCommits(s, a, q))
    ensures q in s'.tables.quotes && s'.tables.quotes[q] == s.tables.quotes[q]
  {
    if a.CommitWrite? {
      WorkCommitStores(s, a.pid, s');
    } else if a.Advance? && s.procs[a.pid].stage.EventWritten? {
      CallCommitStores(s, a.pid, s');
    } else {
      StepFrame(s, a, s');
    }
  }

  /** A completed quote keeps its row, and so its analysis, through every later run. */
  lemma {:induction false} CompletedIsFinal(s: State, actions: seq<Action>, t: State, q: QuoteId)
    requires Inv(s) && Run(s, actions) == Some(t) && q in s.tables.quotes && s.tables.quotes[q].status == Completed
    ensures q in t.tables.quotes && t.tables.quotes[q] == s.tables.quotes[q]
    decreases |actions|
  {
    if actions != [] {
      var next := Apply(s, actions[0]).value;
      ResultStep(s, actions[0], next, q);
      StepInv(s, actions[0], next);
      CompletedIsFinal(next, actions[1..], t, q);
    }
  }

  ghost predicate RetriedIn(s: State, actions: seq<Action>, q: QuoteId)
    decreases |actions|
  {
    actions != [] && Apply(s, actions[0]).Some?
    && (RetryCommits(s, actions[0], q) || RetriedIn(Apply(s, actions[0]).value, actions[1..], q))
  }

  /** A failed quote keeps its row, and so its code, until a retry of it commits. */
  lemma {:induction false} FailedUntilRetried(s: State, actions: seq<Action>, t: State, q: QuoteId)
    requires Inv(s) && Run(s, actions) == Some(t) && q in s.tables.quotes && s.tables.quotes[q].status == Failed
    requires !RetriedIn(s, actions, q)
    ensures q in t.tables.quotes && t.tables.quotes[q] == s.tables.quotes[q]
    decreases |actions|
  {
    if actions != [] {
      var next := Apply(s, actions[0]).value;
      ResultStep(s, actions[0], next, q);
      StepInv(s, actions[0], next);
      FailedUntilRetried(next, actions[1..], t, q);
    }
  }

  // ---------- Results come from workers ----------

  /** Process p has write w to q under way. */
  predicate Holding(s: State, p: Pid, q: QuoteId, w: Write) {
    p in s.procs && s.procs[p].Working? && s.procs[p].quote == q
    && (s.procs[p].step.Writing? || s.procs[p].step.Logged?) && s.procs[p].step.w == w
  }

  /** `a` is a worker of q starting write w. */
  predicate Starts(s: State, a: Action, q: QuoteId, w: Write) {
    a.StartWrite? && a.w == w && a.pid in s.procs && s.procs[a.pid].Working? && s.procs[a.pid].quote == q
  }

  lemma HeldStep(s: State, a: Action, s': State, p: Pid, q: QuoteId, w: Write)
    requires Apply(s, a) == Some(s') && Holding(s', p, q, w)
    ensures Holding(s, p, q, w) || Starts(s, a, q, w)
  {
    if Actor(a) != Some(p) {
      StepFrame(s, a, s');
      assert Spares(s, s', p);
    } else if a.Advance? {
      AdvanceHoldsNothing(s, p, s.procs[p].call, s.procs[p].stage, s');
    }
  }

  lemma AdvanceHoldsNothing(s: State, p: Pid, call: Request, stage: Stage, s': State)
    requires p in s.procs && s.procs[p] == Serving(call, stage) && AdvanceCall(s, p, call, stage) == Some(s')
    ensures p in s'.procs && s'.procs[p].Working? ==> s'.procs[p].step.BeforeAnalyzing?
  {
    if stage.Prepared? || stage.RowWritten? || stage.OperationWritten? {
      BufferServes(s, p, call, stage);
    } else if stage.KeyFree? {
      var _, _ := PrepareShape(s, p, call, s');
    }
  }

  lemma BufferServes(s: State, p: Pid, call: Request, stage: Stage)
    requires stage.Prepared? || stage.RowWritten? || stage.OperationWritten?
    ensures var s' := Buffer(s, p, call, stage); p in s'.procs ==> s'.procs[p].Serving?
  {
  }

  /** The row holds the result of write w. */
  predicate Shows(row: QuoteRow, w: Write) {
    (w.MarkCompleted? && row.analysis == Some(w.analysis)) || (w.MarkFailed? && row.error == Some(w.code))
  }

  lemma ShownStep(s: State, a: Action, s': State, q: QuoteId, w: Write)
    requires ProcsOk(s) && Apply(s, a) == Some(s') && q in s'.tables.quotes && Shows(s'.tables.quotes[q], w)
    ensures (q in s.tables.quotes && Shows(s.tables.quotes[q], w)) || exists p :: Holding(s, p, q, w)
  {
    if a.CommitWrite? {
      WorkCommitStores(s, a.pid, s');
      if s.procs[a.pid].quote == q { assert Holding(s, a.pid, q, w); }
    } else if a.Advance? && s.procs[a.pid].stage.EventWritten? {
      CallCommitStores(s, a.pid, s');
    } else {
      StepFrame(s, a, s');
    }
  }

  /** A write under way was started by a worker of that quote at some step of the run. */
  lemma {:induction false} HeldWasStarted(s: State, actions: seq<Action>, t: State, p: Pid, q: QuoteId, w: Write)
    returns (k: nat)
    requires Run(s, actions) == Some(t) && s.procs == map[] && Holding(t, p, q, w)
    ensures k < |actions| && Run(s, actions[..k]).Some? && Starts(Run(s, actions[..k]).value, actions[k], q, w)
  {
    var n := |actions| - 1;
    assert actions != [];
    var before := LastStep(s, actions, t);
    HeldStep(before, actions[n], t, p, q, w);
    if Starts(before, actions[n], q, w) {
      k := n;
    } else {
      k := HeldWasStarted(s, actions[..n], before, p, q, w);
      assert actions[..n][..k] == actions[..k];
    }
  }

  lemma ReachedProcs(contexts: map<Subject, Json>, actions: seq<Action>, s: State)
    requires Run(Init(contexts), actions) == Some(s)
    ensures ProcsOk(s)
  {
    InitInv(contexts);
    RunInv(Init(contexts), actions, s);
  }

  /** Every analysis and every error code a quote row ever holds was written by a worker of that
      very quote, as it stands. */
  lemma {:induction false} ResultWasWritten(contexts: map<Subject, Json>, actions: seq<Action>, t: State, q: QuoteId,
                                            w: Write)
    returns (k: nat)
    requires Run(Init(contexts), actions) == Some(t) && q in t.tables.quotes && Shows(t.tables.quotes[q], w)
    ensures k < |actions| && Run(Init(contexts), actions[..k]).Some?
    ensures Starts(Run(Init(contexts), actions[..k]).value, actions[k], q, w)
  {
    var s, n := Init(contexts), |actions| - 1;
    assert actions != [];
    var before := LastStep(s, actions, t);
    ReachedProcs(contexts, actions[..n], before);
    ShownStep(before, actions[n], t, q, w);
    if q in before.tables.quotes && Shows(before.tables.quotes[q], w) {
      k := ResultWasWritten(contexts, actions[..n], before, q, w);
    } else {
      var p :| Holding(before, p, q, w);
      k := HeldWasStarted(s, actions[..n], before, p, q, w);
    }
    assert actions[..n][..k] == actions[..k];
  }
}
