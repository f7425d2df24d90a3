/**
 Which context a create stores. It is read before the quote is inserted and an edit may come
 between, so the context stored at the commit need not be the active one any more; it was the
 active one at some moment of the call.
 */
module QuoteContexts {
  import opened Wrappers
  import opened QuoteTables
  import opened QuoteProtocol
  import opened QuoteInvariant
  import opened QuoteTheorems
  import opened QuoteSerial
  import opened QuoteProgress

  /** The last step of a run. */
  lemma {:induction false} LastStep(s: State, actions: seq<Action>, t: State) returns (before: State)
    requires actions != [] && Run(s, actions) == Some(t)
    ensures Run(s, actions[..|actions| - 1]) == Some(before)
    ensures Apply(before, actions[|actions| - 1]) == Some(t)
    decreases |actions|
  {
    if |actions| == 1 {
      before := s;
    } else {
      var next := Apply(s, actions[0]).value;
      before := LastStep(next, actions[1..], t);
      assert actions[1..][..|actions| - 2] == actions[..|actions| - 1][1..];
      assert actions[1..][|actions| - 2] == actions[|actions| - 1];
    }
  }

  /** The stages in which a create carries the context it read. */
  predicate Carries(p: Proc, call: Request, context: Json) {
    p.Serving? && p.call == call && (InsideWrites(p.stage) || p.stage.Committed?) && p.stage.context == context
  }

  /** `call` is about to read the active context, and that is `context`. */
  predicate ReadsNow(s: State, pid: Pid, call: Request, context: Json) {
    pid in s.procs && s.procs[pid] == Serving(call, KeyFree) && call.owner in s.contexts
    && s.contexts[call.owner] == context
  }

  lemma BufferCarries(s: State, pid: Pid, own: Request, stage: Stage, call: Request, context: Json)
    requires stage.Prepared? || stage.RowWritten? || stage.OperationWritten?
    requires var s' := Buffer(s, pid, own, stage); pid in s'.procs && Carries(s'.procs[pid], call, context)
    ensures own == call && stage.context == context
  {
  }

  lemma PrepareCarries(s: State, pid: Pid, own: Request, s': State, call: Request, context: Json)
    requires call.CreateRequest? && Prepare(s, pid, own) == Some(s')
    requires pid in s'.procs && Carries(s'.procs[pid], call, context)
    ensures own == call && call.owner in s.contexts && s.contexts[call.owner] == context
  {
  }

  /** A create's own step either reads the context or keeps what it has. */
  lemma AdvanceCarries(s: State, pid: Pid, own: Request, stage: Stage, s': State, call: Request, context: Json)
    requires call.CreateRequest? && pid in s.procs && s.procs[pid] == Serving(own, stage)
    requires AdvanceCall(s, pid, own, stage) == Some(s') && pid in s'.procs && Carries(s'.procs[pid], call, context)
    ensures ReadsNow(s, pid, call, context) || Carries(s.procs[pid], call, context)
  {
    match stage {
      case Prepared(_) => BufferCarries(s, pid, own, stage, call, context);
      case RowWritten(_) => BufferCarries(s, pid, own, stage, call, context);
      case OperationWritten(_) => BufferCarries(s, pid, own, stage, call, context);
      case KeyFree => PrepareCarries(s, pid, own, s', call, context);
      case KeyLocked => LookUpIsCloser(s, pid, own);
      case _ =>
    }
  }

  lemma StepCarries(s: State, a: Action, s': State, pid: Pid, call: Request, context: Json)
    requires call.CreateRequest? && pid in s.seen && Apply(s, a) == Some(s')
    requires pid in s'.procs && Carries(s'.procs[pid], call, context)
    ensures ReadsNow(s, pid, call, context) || (pid in s.procs && Carries(s.procs[pid], call, context))
  {
    if Actor(a) != Some(pid) {
      StepFrame(s, a, s');
      assert Spares(s, s', pid);
    } else if a.Advance? {
      AdvanceCarries(s, pid, s.procs[pid].call, s.procs[pid].stage, s', call, context);
    }
  }

  /** What a create carries was the active context at a moment since the call began to wait. */
  lemma {:induction false} CarriedWasActive(s: State, actions: seq<Action>, t: State, pid: Pid, call: Request,
                                            context: Json)
    returns (k: nat)
    requires call.CreateRequest? && Run(s, actions) == Some(t)
    requires pid in s.procs && s.procs[pid] == Serving(call, Waiting) && pid in s.seen
    requires pid in t.procs && Carries(t.procs[pid], call, context)
    ensures k < |actions| && Run(s, actions[..k]).Some? && ReadsNow(Run(s, actions[..k]).value, pid, call, context)
  {
    var n := |actions| - 1;
    assert actions != [];
    var before := LastStep(s, actions, t);
    SeenGrows(s, actions[..n], before);
    StepCarries(before, actions[n], t, pid, call, context);
    if ReadsNow(before, pid, call, context) {
      k := n;
    } else {
      k := CarriedWasActive(s, actions[..n], before, pid, call, context);
      assert actions[..n][..k] == actions[..k];
    }
  }

  lemma {:induction false} SeenGrows(s: State, actions: seq<Action>, t: State)
    requires Run(s, actions) == Some(t)
    ensures s.seen <= t.seen
    decreases |actions|
  {
    if actions != [] {
      var next := Apply(s, actions[0]).value;
      StepFrame(s, actions[0], next);
      SeenGrows(next, actions[1..], t);
    }
  }

  lemma RefusalCreatesNothing(s: State, pid: Pid, own: Request, stage: Stage, s': State)
    requires AdvanceCall(s, pid, own, stage) == Some(s') && !stage.EventWritten? && s'.replies != s.replies
    ensures pid in s'.replies && !HadEffect(s'.replies[pid].outcome)
  {
    AnswersComeFrom(s, pid, own, stage, s');
    if stage.KeyFree? {
      var _, _ := PrepareShape(s, pid, own, s');
    }
  }

  /** An answer that reports an effect is given at the commit, with the context carried. */
  lemma CreatedAtCommit(s: State, a: Action, s': State, pid: Pid, call: Request, q: QuoteId, context: Json)
    requires Apply(s, a) == Some(s') && pid in s'.replies && s'.replies[pid] == Reply(call, Created(q, context))
    requires pid !in s.replies || s.replies[pid] != s'.replies[pid]
    ensures pid in s.procs && Carries(s.procs[pid], call, context)
  {
    StepFrame(s, a, s');
    assert Actor(a) == Some(pid);
    if a.Advance? && !s.procs[pid].stage.EventWritten? {
      RefusalCreatesNothing(s, pid, s.procs[pid].call, s.procs[pid].stage, s');
    }
  }

  /** The context a create reports and stores was its owner's active one at a moment between its
      arrival and its answer. */
  lemma {:induction false} CreatedContextWasActive(s: State, actions: seq<Action>, t: State, pid: Pid, call: Request,
                                                   q: QuoteId, context: Json)
    returns (k: nat)
    requires call.CreateRequest? && Run(s, actions) == Some(t)
    requires pid in s.procs && s.procs[pid] == Serving(call, Waiting) && pid in s.seen && pid !in s.replies
    requires pid in t.replies && t.replies[pid] == Reply(call, Created(q, context))
    ensures k < |actions| && Run(s, actions[..k]).Some? && ReadsNow(Run(s, actions[..k]).value, pid, call, context)
  {
    var n := |actions| - 1;
    assert actions != [];
    var before := LastStep(s, actions, t);
    if pid in before.replies && before.replies[pid] == t.replies[pid] {
      k := CreatedContextWasActive(s, actions[..n], before, pid, call, q, context);
    } else {
      CreatedAtCommit(before, actions[n], t, pid, call, q, context);
      k := CarriedWasActive(s, actions[..n], before, pid, call, context);
    }
    assert actions[..n][..k] == actions[..k];
  }

  // ---------- The active context ----------

  function Lookup(contexts: map<Subject, Json>, owner: Subject): Option<Json> {
    if owner in contexts then Some(contexts[owner]) else None
  }

  /** What the last edit of an owner's context left, given what was there at first. */
  function LatestEdit(actions: seq<Action>, owner: Subject, first: Option<Json>): Option<Json> {
    if actions == [] then first
    else
      var last := actions[|actions| - 1];
      if last.EditContext? && last.owner == owner then last.active
      else LatestEdit(actions[..|actions| - 1], owner, first)
  }

  lemma AdvanceKeepsContexts(s: State, pid: Pid, call: Request, stage: Stage)
    ensures AdvanceCall(s, pid, call, stage).Some? ==> AdvanceCall(s, pid, call, stage).value.contexts == s.contexts
  {
    match stage {
      case Waiting =>
      case KeyLocked =>
      case Replaying(_) =>
      case KeyFree =>
      case EventWritten(_, _) =>
      case Committed(_) =>
      case _ => assert Buffer(s, pid, call, stage).contexts == s.contexts;
    }
  }

  lemma StepKeepsContexts(s: State, a: Action, s': State, owner: Subject)
    requires Apply(s, a) == Some(s')
    ensures Lookup(s'.contexts, owner)
         == if a.EditContext? && a.owner == owner then a.active else Lookup(s.contexts, owner)
  {
    if a.Advance? {
      AdvanceKeepsContexts(s, a.pid, s.procs[a.pid].call, s.procs[a.pid].stage);
    }
  }

  /** An edit is possible at any moment, is in force at once, and touches nothing else. */
  lemma EditIsImmediate(s: State, owner: Subject, active: Option<Json>)
    ensures var t := Apply(s, EditContext(owner, active));
            t.Some? && t.value == s.(contexts := t.value.contexts)
            && forall o :: Lookup(t.value.contexts, o) == if o == owner then active else Lookup(s.contexts, o)
  {
  }

  /** The active context changes only by edits, and each edit is in force until the next one. */
  lemma {:induction false} ActiveIsLatestEdit(s: State, actions: seq<Action>, t: State, owner: Subject)
    requires Run(s, actions) == Some(t)
    ensures Lookup(t.contexts, owner) == LatestEdit(actions, owner, Lookup(s.contexts, owner))
    decreases |actions|
  {
    if actions != [] {
      var before := LastStep(s, actions, t);
      StepKeepsContexts(before, actions[|actions| - 1], t, owner);
      ActiveIsLatestEdit(s, actions[..|actions| - 1], before, owner);
    }
  }
}
