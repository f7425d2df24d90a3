/**
 Whether an unfinished quote still has somebody to finish it. Without crashes it always has,
 so a system at rest has only completed and failed quotes; once a crash has taken the last
 process, no later run moves the quote, because retry accepts failed quotes only.
 */
module QuoteSettlement {
  import opened Wrappers
  import opened QuoteTables
  import opened QuoteProtocol
  import opened QuoteInvariant
  import opened QuoteTheorems
  import opened QuoteProgress

  predicate Unfinished(t: Tables, q: QuoteId) {
    q in t.quotes && (t.quotes[q].status.Queued? || t.quotes[q].status.Analyzing?)
  }

  /** Process `o` still has status writes to make to q. */
  predicate Attends(s: State, o: Pid, q: QuoteId) {
    o in s.procs && Live(s.procs[o], q)
  }

  ghost predicate Attended(s: State, q: QuoteId) {
    exists o :: Attends(s, o, q)
  }

  predicate IsCommit(s: State, a: Action) {
    a.CommitWrite? || (a.Advance? && a.pid in s.procs && s.procs[a.pid].Serving? && s.procs[a.pid].stage.EventWritten?)
  }

  // ---------- One step ----------

  lemma AdvanceKeepsAttendance(s: State, pid: Pid, call: Request, stage: Stage, s': State, q: QuoteId)
    requires pid in s.procs && s.procs[pid] == Serving(call, stage) && !stage.EventWritten?
    requires AdvanceCall(s, pid, call, stage) == Some(s')
    ensures Attends(s', pid, q) <==> Attends(s, pid, q)
  {
    match stage {
      case KeyLocked => LookUpIsCloser(s, pid, call);
      case _ =>
    }
  }

  /** A step that commits nothing leaves every process as live as it was. */
  lemma QuietStep(s: State, a: Action, s': State, q: QuoteId, o: Pid)
    requires ProcsOk(s) && Apply(s, a) == Some(s') && !IsCommit(s, a) && !a.Crash?
    ensures Attends(s', o, q) <==> Attends(s, o, q)
  {
    StepFrame(s, a, s');
    if Actor(a) == Some(o) && o in s.procs {
      if a.Advance? {
        AdvanceKeepsAttendance(s, o, s.procs[o].call, s.procs[o].stage, s', q);
      } else {
        assert ProcOk(s.tables, s.nextSequence, s.procs[o]);
      }
    }
  }

  /** A call's commit makes exactly its own process live, on the quote it queued. */
  lemma CallCommitProcs(s: State, pid: Pid, s': State, q: QuoteId)
    requires ProcsOk(s) && Apply(s, Advance(pid)) == Some(s') && IsCommit(s, Advance(pid))
    ensures forall o :: Attends(s', o, q) <==> Attends(s, o, q) || (o == pid && q == s.procs[pid].call.Target())
  {
    CommitCallShape(s, pid, s');
  }

  /** It writes that quote alone, which was new or failed. */
  lemma CallCommitRows(s: State, pid: Pid, s': State, q: QuoteId)
    requires ProcsOk(s) && Apply(s, Advance(pid)) == Some(s') && IsCommit(s, Advance(pid))
    ensures q == s.procs[pid].call.Target() ==> !Unfinished(s.tables, q)
    ensures q != s.procs[pid].call.Target() ==>
              (q in s'.tables.quotes <==> q in s.tables.quotes)
              && (q in s.tables.quotes ==> s'.tables.quotes[q] == s.tables.quotes[q])
  {
    CommitCallShape(s, pid, s');
  }

  /** A worker's commit ends its life exactly when it stores a result. */
  lemma WorkCommitProcs(s: State, pid: Pid, s': State, q: QuoteId)
    requires ProcsOk(s) && Apply(s, CommitWrite(pid)) == Some(s')
    ensures Attends(s, pid, q) <==> q == s.procs[pid].quote
    ensures forall o :: Attends(s', o, q) <==> Attends(s, o, q) && (o != pid || s.procs[pid].step.w.MarkAnalyzing?)
  {
    CommitWorkShape(s, pid, s');
  }

  /** It writes its own quote, which stays unfinished exactly when it was marked analyzing. */
  lemma WorkCommitRows(s: State, pid: Pid, s': State, q: QuoteId)
    requires ProcsOk(s) && Apply(s, CommitWrite(pid)) == Some(s')
    ensures q == s.procs[pid].quote ==> (Unfinished(s'.tables, q) <==> s.procs[pid].step.w.MarkAnalyzing?)
    ensures q != s.procs[pid].quote ==>
              (q in s'.tables.quotes <==> q in s.tables.quotes)
              && (q in s.tables.quotes ==> s'.tables.quotes[q] == s.tables.quotes[q])
  {
    CommitWorkShape(s, pid, s');
    assert WorkerWrite(s.procs[pid].step);
  }

  lemma AttendedStep(s: State, a: Action, s': State, q: QuoteId)
    requires ProcsOk(s) && Apply(s, a) == Some(s') && !a.Crash?
    requires Unfinished(s.tables, q) ==> Attended(s, q)
    ensures Unfinished(s'.tables, q) ==> Attended(s', q)
  {
    if a.CommitWrite? {
      WorkCommitProcs(s, a.pid, s', q);
      WorkCommitRows(s, a.pid, s', q);
      assert q == s.procs[a.pid].quote && s.procs[a.pid].step.w.MarkAnalyzing? ==> Attends(s', a.pid, q);
    } else if IsCommit(s, a) {
      CallCommitProcs(s, a.pid, s', q);
      CallCommitRows(s, a.pid, s', q);
      assert q == s.procs[a.pid].call.Target() ==> Attends(s', a.pid, q);
    } else {
      StepFrame(s, a, s');
      forall o ensures Attends(s', o, q) <==> Attends(s, o, q) { QuietStep(s, a, s', q, o); }
    }
  }

  /** Unfinished with nobody left to finish it. */
  ghost predicate Stranded(s: State, q: QuoteId) {
    Unfinished(s.tables, q) && !Attended(s, q)
  }

  lemma StrandedStep(s: State, a: Action, s': State, q: QuoteId)
    requires ProcsOk(s) && Apply(s, a) == Some(s') && Stranded(s, q)
    ensures Stranded(s', q) && s'.tables.quotes[q] == s.tables.quotes[q]
  {
    if a.CommitWrite? {
      WorkCommitProcs(s, a.pid, s', q);
      WorkCommitRows(s, a.pid, s', q);
    } else if IsCommit(s, a) {
      CallCommitProcs(s, a.pid, s', q);
      CallCommitRows(s, a.pid, s', q);
    } else {
      StepFrame(s, a, s');
      if !a.Crash? {
        forall o ensures Attends(s', o, q) <==> Attends(s, o, q) { QuietStep(s, a, s', q, o); }
      } else {
        assert forall o :: Attends(s', o, q) ==> Attends(s, o, q);
      }
    }
  }

  // ---------- Whole runs ----------

  /** A stranded quote keeps its row through every later run. */
  lemma {:induction false} StrandedForever(s: State, actions: seq<Action>, s': State, q: QuoteId)
    requires Inv(s) && Run(s, actions) == Some(s') && Stranded(s, q)
    ensures Stranded(s', q) && s'.tables.quotes[q] == s.tables.quotes[q]
    decreases |actions|
  {
    if actions != [] {
      var next := Apply(s, actions[0]).value;
      StrandedStep(s, actions[0], next, q);
      StepInv(s, actions[0], next);
      StrandedForever(next, actions[1..], s', q);
    }
  }

  predicate CrashFree(actions: seq<Action>) {
    forall i :: 0 <= i < |actions| ==> !actions[i].Crash?
  }

  lemma {:induction false} AttendedRun(s: State, actions: seq<Action>, s': State, q: QuoteId)
    requires Inv(s) && Run(s, actions) == Some(s') && CrashFree(actions)
    requires Unfinished(s.tables, q) ==> Attended(s, q)
    ensures Inv(s') && (Unfinished(s'.tables, q) ==> Attended(s', q))
    decreases |actions|
  {
    if actions != [] {
      var next := Apply(s, actions[0]).value;
      AttendedStep(s, actions[0], next, q);
      StepInv(s, actions[0], next);
      AttendedRun(next, actions[1..], s', q);
    }
  }

  /** Without crashes every queued or analyzing quote has its process. */
  lemma UnfinishedIsAttended(contexts: map<Subject, Json>, actions: seq<Action>, s: State, q: QuoteId)
    requires Run(Init(contexts), actions) == Some(s) && CrashFree(actions) && Unfinished(s.tables, q)
    ensures Attended(s, q)
  {
    InitInv(contexts);
    AttendedRun(Init(contexts), actions, s, q);
  }

  lemma StepsAreCrashFree(actions: seq<Action>)
    requires OnlySteps(actions)
    ensures CrashFree(actions)
  {
  }

  /**
   Every reachable state can run to rest, and what is then unfinished is exactly what was
   stranded before: crashes cost the quotes of the processes they took and no others.
   */
  lemma RestLeavesOnlyStranded(s: State) returns (more: seq<Action>, t: State)
    requires Reachable(s)
    ensures OnlySteps(more) && Run(s, more) == Some(t) && t.procs == map[]
    ensures forall q :: Unfinished(t.tables, q) <==> Stranded(s, q)
  {
    ReachableInv(s);
    more := CanComeToRest(s);
    t := Run(s, more).value;
    StepsAreCrashFree(more);
    forall q ensures Unfinished(t.tables, q) <==> Stranded(s, q) {
      if Stranded(s, q) {
        StrandedForever(s, more, t, q);
      } else {
        AttendedRun(s, more, t, q);
        assert forall o :: !Attends(t, o, q);
      }
    }
  }

  /** Without crashes every quote is completed or failed at rest. */
  lemma CrashFreeRunsSettle(contexts: map<Subject, Json>, actions: seq<Action>, s: State)
    returns (more: seq<Action>, t: State)
    requires Run(Init(contexts), actions) == Some(s) && CrashFree(actions)
    ensures OnlySteps(more) && Run(s, more) == Some(t) && t.procs == map[]
    ensures forall q :: q in t.tables.quotes ==>
              t.tables.quotes[q].status.Completed? || t.tables.quotes[q].status.Failed?
  {
    more, t := RestLeavesOnlyStranded(s);
    forall q | q in t.tables.quotes ensures !Unfinished(t.tables, q) {
      if Stranded(s, q) { UnfinishedIsAttended(contexts, actions, s, q); }
    }
  }

  /** While a process attends it, a quote can be finished, whatever crashed before. */
  lemma AttendedCanFinish(s: State, q: QuoteId) returns (actions: seq<Action>)
    requires Inv(s) && Attended(s, q)
    ensures OnlySteps(actions) && Run(s, actions).Some? && !Unfinished(Run(s, actions).value.tables, q)
  {
    actions := CanComeToRest(s);
    var t := Run(s, actions).value;
    StepsAreCrashFree(actions);
    AttendedRun(s, actions, t, q);
    assert forall o :: !Attends(t, o, q);
  }

  /** In every reachable state an unfinished quote can still be finished exactly when a process attends it. */
  lemma FinishableExactly(s: State, q: QuoteId)
    requires Reachable(s) && Unfinished(s.tables, q)
    ensures (exists actions :: Run(s, actions).Some? && !Unfinished(Run(s, actions).value.tables, q)) <==>
              Attended(s, q)
  {
    ReachableInv(s);
    if Attended(s, q) {
      var actions := AttendedCanFinish(s, q);
      assert Run(s, actions).Some? && !Unfinished(Run(s, actions).value.tables, q);
    } else {
      forall actions | Run(s, actions).Some? ensures Unfinished(Run(s, actions).value.tables, q) {
        StrandedForever(s, actions, Run(s, actions).value, q);
      }
    }
  }

  // ---------- Stranded quotes occur ----------

  lemma Prepend(s: State, a: Action, next: State, rest: seq<Action>, t: State)
    requires Apply(s, a) == Some(next) && Run(next, rest) == Some(t)
    ensures Run(s, [a] + rest) == Some(t)
  {
    assert ([a] + rest)[1..] == rest;
  }

  /** A create call that could start at once in `s`. */
  predicate Startable(s: State, pid: Pid, call: Request) {
    && call.CreateRequest? && pid !in s.seen && FreshId(s, call.id) && call.owner in s.contexts
    && !KeyTaken(s, call.owner, call.key) && FindOperation(s.tables.operations, call.owner, call.key).None?
  }

  /** From the insert of its row a create call runs to its commit undisturbed. */
  lemma RunToCommit(s: State, pid: Pid, call: Request, context: Json) returns (actions: seq<Action>, t: State)
    requires pid in s.procs && s.procs[pid] == Serving(call, Prepared(context))
    requires call.CreateRequest? && call.id !in s.tables.quotes
    requires FindOperation(s.tables.operations, call.owner, call.key).None?
    ensures Run(s, actions) == Some(t) && t.procs == s.procs[pid := Serving(call, Committed(context))]
    ensures call.id in t.tables.quotes && t.tables.quotes[call.id].status.Queued?
  {
    var a := Advance(pid);
    var s1 := Put(s, pid, Serving(call, RowWritten(context)));
    var s2 := Put(s1, pid, Serving(call, OperationWritten(context)));
    var n := s2.nextSequence;
    var s3 := Put(s2, pid, Serving(call, EventWritten(context, n))).(nextSequence := n + 1);
    t := CommitCall(s3, pid, call, context, n);
    assert Apply(s, a) == Some(s1);
    assert Apply(s1, a) == Some(s2);
    assert Apply(s2, a) == Some(s3);
    assert Apply(s3, a) == Some(t);
    Prepend(s3, a, t, [], t);
    Prepend(s2, a, s3, [a] + [], t);
    Prepend(s1, a, s2, [a] + ([a] + []), t);
    Prepend(s, a, s1, [a] + ([a] + ([a] + [])), t);
    actions := [a] + ([a] + ([a] + ([a] + [])));
  }

  lemma RunToPrepared(s: State, pid: Pid, call: Request) returns (t: State, actions: seq<Action>)
    requires Startable(s, pid, call)
    ensures Run(s, actions) == Some(t) && t.tables == s.tables
    ensures t.procs == s.procs[pid := Serving(call, Prepared(s.contexts[call.owner]))]
  {
    var a := Advance(pid);
    var s0 := Put(s, pid, Serving(call, Waiting)).(seen := s.seen + {pid});
    var s1 := Put(s0, pid, Serving(call, KeyLocked));
    var s2 := Put(s1, pid, Serving(call, KeyFree));
    t := Put(s2, pid, Serving(call, Prepared(s.contexts[call.owner])));
    assert !KeyTaken(s0, call.owner, call.key);
    assert Apply(s, Arrive(pid, call)) == Some(s0);
    assert Apply(s0, a) == Some(s1);
    assert Apply(s1, a) == Some(s2);
    assert Apply(s2, a) == Some(t);
    Prepend(s2, a, t, [], t);
    Prepend(s1, a, s2, [a] + [], t);
    Prepend(s0, a, s1, [a] + ([a] + []), t);
    Prepend(s, Arrive(pid, call), s0, [a] + ([a] + ([a] + [])), t);
    actions := [Arrive(pid, call)] + ([a] + ([a] + ([a] + [])));
  }

  lemma {:induction false} RunConcat(s: State, first: seq<Action>, t: State, second: seq<Action>, u: State)
    requires Run(s, first) == Some(t) && Run(t, second) == Some(u)
    ensures Run(s, first + second) == Some(u)
    decreases |first|
  {
    if first == [] {
      assert first + second == second;
    } else {
      RunConcat(Apply(s, first[0]).value, first[1..], t, second, u);
      assert (first + second)[1..] == first[1..] + second;
    }
  }

  /** A create call that commits and then crashes, in any state where it can start, strands its quote. */
  lemma CrashStrands(s: State, pid: Pid, call: Request) returns (actions: seq<Action>, t: State)
    requires Inv(s) && Startable(s, pid, call)
    ensures Run(s, actions) == Some(t) && Stranded(t, call.id)
  {
    var prepared, first := RunToPrepared(s, pid, call);
    var second, committed := RunToCommit(prepared, pid, call, s.contexts[call.owner]);
    RunConcat(s, first, prepared, second, committed);
    t := Drop(committed, pid);
    assert Apply(committed, Crash(pid)) == Some(t);
    Prepend(committed, Crash(pid), t, [], t);
    RunConcat(s, first + second, committed, [Crash(pid)] + [], t);
    actions := first + second + ([Crash(pid)] + []);
    forall o ensures !Attends(t, o, call.id) {
      if o in t.procs { assert ProcOk(s.tables, s.nextSequence, s.procs[o]); }
    }
  }

  /** Some reachable state has a stranded quote. */
  lemma StrandedIsReachable() returns (s: State)
    ensures Reachable(s) && exists q :: Stranded(s, q)
  {
    var contexts := map["subject" := "{}"];
    var call := CreateRequest("subject", "key", "{}", 7);
    InitInv(contexts);
    var actions;
    actions, s := CrashStrands(Init(contexts), 0, call);
    assert Run(Init(contexts), actions) == Some(s);
    assert Stranded(s, call.id);
  }
}
