/**
 Progress of the quote protocol: the two kinds of lock cannot deadlock, every process has
 boundedly many steps to make, and so every reachable state can run to rest.
 */
module QuoteProgress {
  import opened Wrappers
  import opened QuoteTables
  import opened QuoteProtocol

  /** A step of process `pid` itself, and not its crash. */
  predicate IsStepOf(a: Action, pid: Pid) {
    match a
    case Advance(p) => p == pid
    case StartWrite(p, _) => p == pid
    case LogWrite(p) => p == pid
    case CommitWrite(p) => p == pid
    case _ => false
  }

  ghost predicate CanStep(s: State, pid: Pid) {
    exists a :: IsStepOf(a, pid) && Apply(s, a).Some?
  }

  // ---------- No deadlock ----------

  /** A process that holds a row lock waits for nothing. */
  lemma RowHolderCanStep(s: State, pid: Pid, q: QuoteId)
    requires pid in s.procs && HoldsRow(s.procs[pid], q)
    ensures CanStep(s, pid)
  {
    var p := s.procs[pid];
    var a := if p.Serving? then Advance(pid) else if p.step.Writing? then LogWrite(pid) else CommitWrite(pid);
    assert IsStepOf(a, pid) && Apply(s, a).Some?;
  }

  /** A process blocked on a row lock points to one that can step. */
  lemma RowWaiterIsServed(s: State, q: QuoteId) returns (other: Pid)
    requires RowTaken(s, q)
    ensures other in s.procs && CanStep(s, other)
  {
    other :| other in s.procs && HoldsRow(s.procs[other], q);
    RowHolderCanStep(s, other, q);
  }

  lemma KeyHolderIsServed(s: State, pid: Pid, owner: Subject, key: Key) returns (other: Pid)
    requires pid in s.procs && HoldsKey(s.procs[pid], owner, key)
    ensures other in s.procs && CanStep(s, other)
  {
    var call := s.procs[pid].call;
    if Apply(s, Advance(pid)).Some? {
      other := pid;
      assert IsStepOf(Advance(pid), pid);
    } else {
      other := RowWaiterIsServed(s, call.quote);
    }
  }

  lemma WorkerIsServed(s: State, pid: Pid) returns (other: Pid)
    requires pid in s.procs && s.procs[pid].Working?
    ensures other in s.procs && CanStep(s, other)
  {
    var p := s.procs[pid];
    if p.step.Writing? || p.step.Logged? {
      other := pid;
      RowHolderCanStep(s, pid, p.quote);
    } else {
      var a := StartWrite(pid, if p.step.BeforeAnalyzing? then MarkAnalyzing else MarkFailed("error"));
      if Apply(s, a).Some? {
        other := pid;
        assert IsStepOf(a, pid);
      } else {
        other := RowWaiterIsServed(s, p.quote);
      }
    }
  }

  /** In every state with a process, some process can take its next step. */
  lemma NoDeadlock(s: State) returns (other: Pid)
    requires s.procs != map[]
    ensures other in s.procs && CanStep(s, other)
  {
    assert s.procs.Keys != {};
    var pid :| pid in s.procs;
    var p := s.procs[pid];
    if p.Working? {
      other := WorkerIsServed(s, pid);
    } else if Apply(s, Advance(pid)).Some? {
      other := pid;
      assert IsStepOf(Advance(pid), pid);
    } else if p.stage.Waiting? {
      var holder :| holder in s.procs && HoldsKey(s.procs[holder], p.call.owner, p.call.key);
      other := KeyHolderIsServed(s, holder, p.call.owner, p.call.key);
    } else {
      other := RowWaiterIsServed(s, p.call.quote);
    }
  }

  // ---------- What a process waits for ----------

  /** Another call with this very owner and key is past its lock and has not ended. */
  ghost predicate KeyBusy(s: State, owner: Subject, key: Key) {
    exists o :: o in s.procs && s.procs[o].Serving? && s.procs[o].call.owner == owner && s.procs[o].call.key == key
           && s.procs[o].stage != Waiting && !s.procs[o].stage.Committed?
  }

  /** Some retry of this very quote is past its row lock, or some worker has a write to it under way. */
  ghost predicate RowBusy(s: State, q: QuoteId) {
    exists o :: o in s.procs &&
           match s.procs[o]
           case Serving(RetryRequest(_, _, quote), stage) =>
             quote == q && (stage.Prepared? || stage.RowWritten? || stage.OperationWritten? || stage.EventWritten?)
           case Serving(_, _) => false
           case Working(quote, _, _, step) => quote == q && (step.Writing? || step.Logged?)
  }

  lemma BusyIsTaken(s: State, owner: Subject, key: Key, q: QuoteId)
    ensures KeyBusy(s, owner, key) <==> KeyTaken(s, owner, key)
    ensures RowBusy(s, q) <==> RowTaken(s, q)
  {
    if KeyTaken(s, owner, key) {
      var o :| o in s.procs && HoldsKey(s.procs[o], owner, key);
      assert s.procs[o].stage != Waiting;
    }
    if RowTaken(s, q) {
      var o :| o in s.procs && HoldsRow(s.procs[o], q);
      assert s.procs[o].Serving? || s.procs[o].Working?;
    }
  }

  /** A process waits for nothing but its own key and its own quote. */
  lemma BlockedExactly(s: State, pid: Pid)
    requires pid in s.procs
    ensures !CanStep(s, pid) <==>
              match s.procs[pid]
              case Serving(call, Waiting) => KeyBusy(s, call.owner, call.key)
              case Serving(RetryRequest(owner, _, q), KeyFree) =>
                q in s.tables.quotes && s.tables.quotes[q].owner == owner && RowBusy(s, q)
              case Serving(_, _) => false
              case Working(q, owner, _, step) =>
                (step.BeforeAnalyzing? || step.BeforeResult?) && q in s.tables.quotes
                && s.tables.quotes[q].owner == owner && RowBusy(s, q)
  {
    var p := s.procs[pid];
    if p.Serving? {
      BusyIsTaken(s, p.call.owner, p.call.key, p.call.Target());
      ServingCanStep(s, pid);
    } else {
      BusyIsTaken(s, p.owner, "", p.quote);
      WorkingCanStep(s, pid);
    }
  }

  lemma ServingCanStep(s: State, pid: Pid)
    requires pid in s.procs && s.procs[pid].Serving?
    ensures CanStep(s, pid) <==> AdvanceCall(s, pid, s.procs[pid].call, s.procs[pid].stage).Some?
  {
    if Apply(s, Advance(pid)).Some? {
      assert IsStepOf(Advance(pid), pid);
    }
  }

  lemma WorkingCanStep(s: State, pid: Pid)
    requires pid in s.procs && s.procs[pid].Working?
    ensures var p := s.procs[pid];
            CanStep(s, pid) <==> p.step.Writing? || p.step.Logged? || !Owns(s.tables, p.owner, p.quote)
                                 || !RowTaken(s, p.quote)
  {
    var p := s.procs[pid];
    if p.step.Writing? || p.step.Logged? {
      RowHolderCanStep(s, pid, p.quote);
    } else {
      var a := StartWrite(pid, if p.step.BeforeAnalyzing? then MarkAnalyzing else MarkFailed("error"));
      assert IsStepOf(a, pid);
    }
  }

  // ---------- Bounded work ----------

  function StageRank(stage: Stage): nat {
    match stage
    case Waiting => 16
    case KeyLocked => 15
    case KeyFree => 14
    case Prepared(_) => 13
    case RowWritten(_) => 12
    case OperationWritten(_) => 11
    case EventWritten(_, _) => 10
    case Committed(_) => 9
    case Replaying(_) => 1
  }

  function WorkRank(step: WorkStep): nat {
    match step
    case BeforeAnalyzing => 8
    case BeforeResult => 5
    case Writing(w) => if w.MarkAnalyzing? then 7 else 4
    case Logged(w, _) => if w.MarkAnalyzing? then 6 else 3
  }

  /** Steps a process may still take. */
  function Rank(p: Proc): (n: nat)
    ensures n > 0
  {
    if p.Serving? then StageRank(p.stage) else WorkRank(p.step)
  }

  /** A process's own step ends it or brings it closer to its end, and touches no other process. */
  ghost predicate Closer(s: State, t: State, pid: Pid) {
    && pid in s.procs
    && (t.procs == s.procs - {pid}
        || (pid in t.procs && t.procs == s.procs[pid := t.procs[pid]] && Rank(t.procs[pid]) < Rank(s.procs[pid])))
  }

  lemma LookUpIsCloser(s: State, pid: Pid, call: Request)
    requires pid in s.procs && s.procs[pid] == Serving(call, KeyLocked)
    ensures Closer(s, LookUp(s, pid, call), pid)
  {
  }

  lemma PrepareIsCloser(s: State, pid: Pid, call: Request)
    requires pid in s.procs && s.procs[pid] == Serving(call, KeyFree)
    ensures Prepare(s, pid, call).Some? ==> Closer(s, Prepare(s, pid, call).value, pid)
  {
  }

  lemma BufferIsCloser(s: State, pid: Pid, call: Request, stage: Stage)
    requires stage.Prepared? || stage.RowWritten? || stage.OperationWritten?
    requires pid in s.procs && s.procs[pid] == Serving(call, stage)
    ensures Closer(s, Buffer(s, pid, call, stage), pid)
  {
  }

  lemma AdvanceIsCloser(s: State, pid: Pid, call: Request, stage: Stage)
    requires pid in s.procs && s.procs[pid] == Serving(call, stage)
    ensures var next := AdvanceCall(s, pid, call, stage); next.Some? ==> Closer(s, next.value, pid)
  {
    match stage {
      case KeyLocked => LookUpIsCloser(s, pid, call);
      case KeyFree => PrepareIsCloser(s, pid, call);
      case Prepared(_) => BufferIsCloser(s, pid, call, stage);
      case RowWritten(_) => BufferIsCloser(s, pid, call, stage);
      case OperationWritten(_) => BufferIsCloser(s, pid, call, stage);
      case _ =>
    }
  }

  lemma StepIsCloser(s: State, a: Action, pid: Pid)
    requires IsStepOf(a, pid) && Apply(s, a).Some?
    ensures Closer(s, Apply(s, a).value, pid)
  {
    if a.Advance? {
      AdvanceIsCloser(s, pid, s.procs[pid].call, s.procs[pid].stage);
    }
  }

  // ---------- Every state can run to rest ----------

  ghost function Total(procs: map<Pid, Proc>): nat
    decreases |procs|
  {
    if procs == map[] then 0
    else
      assert procs.Keys != {};
      var pid :| pid in procs;
      Rank(procs[pid]) + Total(procs - {pid})
  }

  lemma {:induction false} TotalSplit(procs: map<Pid, Proc>, pid: Pid)
    requires pid in procs
    ensures Total(procs) == Rank(procs[pid]) + Total(procs - {pid})
    decreases |procs|
  {
    assert procs != map[] && procs.Keys != {};
    var first :| first in procs && Total(procs) == Rank(procs[first]) + Total(procs - {first});
    if first != pid {
      TotalSplit(procs - {first}, pid);
      TotalSplit(procs - {pid}, first);
      assert procs - {first} - {pid} == procs - {pid} - {first};
    }
  }

  lemma CloserIsSmaller(s: State, t: State, pid: Pid)
    requires Closer(s, t, pid)
    ensures Total(t.procs) < Total(s.procs)
  {
    TotalSplit(s.procs, pid);
    assert s.procs - {pid} == t.procs - {pid};
    if pid in t.procs {
      TotalSplit(t.procs, pid);
    } else {
      assert t.procs - {pid} == t.procs;
    }
  }

  predicate OnlySteps(actions: seq<Action>) {
    forall i :: 0 <= i < |actions| ==>
      actions[i].Advance? || actions[i].StartWrite? || actions[i].LogWrite? || actions[i].CommitWrite?
  }

  /** From every state the running processes can finish, with no crash and no new call. */
  lemma {:induction false} CanComeToRest(s: State) returns (actions: seq<Action>)
    ensures OnlySteps(actions) && Run(s, actions).Some? && Run(s, actions).value.procs == map[]
    ensures |actions| <= Total(s.procs)
    decreases Total(s.procs)
  {
    if s.procs == map[] {
      actions := [];
    } else {
      var pid := NoDeadlock(s);
      var a :| IsStepOf(a, pid) && Apply(s, a).Some?;
      var t := Apply(s, a).value;
      StepIsCloser(s, a, pid);
      CloserIsSmaller(s, t, pid);
      var rest := CanComeToRest(t);
      actions := [a] + rest;
      assert actions[1..] == rest;
    }
  }

  /** However the scheduler chooses, steps of the running processes use up their ranks. */
  lemma {:induction false} StepsUseUpRanks(s: State, actions: seq<Action>, t: State)
    requires OnlySteps(actions) && Run(s, actions) == Some(t)
    ensures |actions| + Total(t.procs) <= Total(s.procs)
    decreases |actions|
  {
    if actions != [] {
      var a := actions[0];
      var next := Apply(s, a).value;
      StepIsCloser(s, a, a.pid);
      CloserIsSmaller(s, next, a.pid);
      StepsUseUpRanks(next, actions[1..], t);
    }
  }

  lemma {:induction false} TotalBound(procs: map<Pid, Proc>)
    ensures Total(procs) <= 16 * |procs|
    decreases |procs|
  {
    if procs != map[] {
      assert procs.Keys != {};
      var pid :| pid in procs;
      TotalSplit(procs, pid);
      TotalBound(procs - {pid});
      assert (procs - {pid}).Keys == procs.Keys - {pid};
      assert |procs - {pid}| == |procs.Keys - {pid}| == |procs| - 1;
    }
  }

  /**
   Without new calls and crashes every schedule ends: it has at most sixteen steps for each
   process, and where no process can step none is left.
   */
  lemma RestIsInevitable(s: State, actions: seq<Action>, t: State)
    requires OnlySteps(actions) && Run(s, actions) == Some(t)
    ensures |actions| <= 16 * |s.procs|
    ensures t.procs == map[] || exists pid :: pid in t.procs && CanStep(t, pid)
  {
    StepsUseUpRanks(s, actions, t);
    TotalBound(s.procs);
    if t.procs != map[] {
      var pid := NoDeadlock(t);
    }
  }
}
