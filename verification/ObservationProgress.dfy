/**
 Progress of interleaved deliveries: what a delivery waits for, how many steps it takes, and that
 every state can run to rest with an answer for each delivery.
 */
module ObservationProgress {
  import opened Wrappers
  import opened ObservationLedger
  import opened ObservationProtocol
  import opened ObservationTheorems

  // ---------- Waiting ----------

  /** Another delivery to this very stream is past its lock and has not ended. */
  ghost predicate StreamBusy(s: State, owner: string, source: string) {
    exists o :: o in s.procs && s.procs[o].delivery.owner == owner && s.procs[o].delivery.source == source
           && s.procs[o].stage != Waiting
  }

  /** A delivery waits for nothing but its own stream, and only at its start. */
  lemma BlockedExactly(world: World, s: State, pid: Pid)
    requires pid in s.procs
    ensures var p := s.procs[pid];
            Apply(world, s, Advance(pid)).None?
            <==> p.stage == Waiting && StreamBusy(s, p.delivery.owner, p.delivery.source)
  {
    var p := s.procs[pid];
    if StreamTaken(s, p.delivery.owner, p.delivery.source) {
      var o :| o in s.procs && Holds(s.procs[o], p.delivery.owner, p.delivery.source);
      assert s.procs[o].stage != Waiting;
    }
  }

  /** In every state with a delivery under way, one of them can take its next step. */
  lemma NoDeadlock(world: World, s: State) returns (pid: Pid)
    requires s.procs != map[]
    ensures pid in s.procs && Apply(world, s, Advance(pid)).Some?
  {
    assert s.procs.Keys != {};
    pid :| pid in s.procs;
    BlockedExactly(world, s, pid);
    if Apply(world, s, Advance(pid)).None? {
      var p := s.procs[pid];
      pid :| pid in s.procs && s.procs[pid].delivery.owner == p.delivery.owner
             && s.procs[pid].delivery.source == p.delivery.source && s.procs[pid].stage != Waiting;
      BlockedExactly(world, s, pid);
    }
  }

  // ---------- Bounded work ----------

  function Rank(stage: Stage): nat {
    match stage
    case Waiting => 5
    case Locked => 4
    case EventAbsent => 3
    case Placed(_) => 2
    case Written(_) => 1
  }

  function StepsLeft(s: State, pid: Pid): nat {
    if pid in s.procs then Rank(s.procs[pid].stage) else 0
  }

  lemma OwnStep(world: World, s: State, pid: Pid, s': State)
    requires Apply(world, s, Advance(pid)) == Some(s')
    ensures StepsLeft(s', pid) < StepsLeft(s, pid) <= 5
    ensures pid in s'.procs ==> s'.procs[pid].delivery == s.procs[pid].delivery && s'.procs[pid].stage != Waiting
  {
  }

  lemma OthersKeep(world: World, s: State, a: Action, s': State, pid: Pid)
    requires Apply(world, s, a) == Some(s') && a.pid != pid
    ensures pid in s'.procs <==> pid in s.procs
    ensures pid in s.procs ==> s'.procs[pid] == s.procs[pid]
    ensures pid in s'.replies <==> pid in s.replies
    ensures pid in s.replies ==> s'.replies[pid] == s.replies[pid]
  {
    if a.Advance? {
      OtherStep(world, s, a.pid, s.procs[a.pid].delivery, s.procs[a.pid].stage, s');
      assert pid in s.procs <==> pid in s.procs - {a.pid};
      assert pid in s'.procs <==> pid in s'.procs - {a.pid};
      assert pid in s.procs ==> (s.procs - {a.pid})[pid] == s.procs[pid];
      assert pid in s'.procs ==> (s'.procs - {a.pid})[pid] == s'.procs[pid];
      assert pid in s.replies <==> pid in s.replies - {a.pid};
      assert pid in s'.replies <==> pid in s'.replies - {a.pid};
      assert pid in s.replies ==> (s.replies - {a.pid})[pid] == s.replies[pid];
      assert pid in s'.replies ==> (s'.replies - {a.pid})[pid] == s'.replies[pid];
    }
  }

  /** How often process pid steps in a schedule. */
  function Steps(actions: seq<Action>, pid: Pid): nat {
    if actions == [] then 0
    else (if actions[0] == Advance(pid) then 1 else 0) + Steps(actions[1..], pid)
  }

  /** In every schedule, crashes and new arrivals included, a delivery takes at most the steps it
      has left, which are never more than five. */
  lemma {:induction false} StepsAreBounded(world: World, s: State, actions: seq<Action>, s': State, pid: Pid)
    requires pid in s.seen && Run(world, s, actions) == Some(s')
    ensures Steps(actions, pid) + StepsLeft(s', pid) <= StepsLeft(s, pid) <= 5
    decreases |actions|
  {
    if actions != [] {
      var next := Apply(world, s, actions[0]).value;
      if actions[0].pid != pid {
        OthersKeep(world, s, actions[0], next, pid);
      } else if actions[0].Advance? {
        OwnStep(world, s, pid, next);
      }
      StepsAreBounded(world, next, actions[1..], s', pid);
    }
  }

  /** A delivery that dies leaves the table and all answers as they were and frees its stream. */
  lemma CrashFrees(world: World, s: State, pid: Pid)
    requires Inv(world, s) && pid in s.procs && s.procs[pid].stage != Waiting
    ensures var t := Apply(world, s, Crash(pid));
            && t == Some(s.(procs := s.procs - {pid}))
            && !StreamBusy(t.value, s.procs[pid].delivery.owner, s.procs[pid].delivery.source)
  {
    var d := s.procs[pid].delivery;
    forall o | o in s.procs && o != pid ensures !Holds(s.procs[o], d.owner, d.source) {
      assert Apart(s.procs[o], s.procs[pid]) && Holds(s.procs[pid], d.owner, d.source);
    }
  }

  // ---------- Rest ----------

  predicate AllAdvance(actions: seq<Action>) {
    forall i :: 0 <= i < |actions| ==> actions[i].Advance?
  }

  lemma {:induction false} RunAppend(world: World, s: State, a: seq<Action>, b: seq<Action>)
    requires Run(world, s, a).Some?
    ensures Run(world, s, a + b) == Run(world, Run(world, s, a).value, b)
    decreases |a|
  {
    if a == [] {
      assert a + b == b;
    } else {
      assert (a + b)[0] == a[0] && (a + b)[1..] == a[1..] + b;
      RunAppend(world, Apply(world, s, a[0]).value, a[1..], b);
    }
  }

  /** All deliveries but pid are as they were, and so are the answers of all but pid. */
  ghost predicate OnlyMoved(s: State, t: State, pid: Pid) {
    && t.procs - {pid} == s.procs - {pid} && t.replies - {pid} == s.replies - {pid} && t.seen == s.seen
  }

  /** One step of an unblocked delivery: it goes on unblocked, or it is answered as it would be alone. */
  lemma OneMove(world: World, s: State, pid: Pid) returns (next: State)
    requires Inv(world, s) && pid in s.procs && Apply(world, s, Advance(pid)).Some?
    ensures Apply(world, s, Advance(pid)) == Some(next) && Inv(world, next) && OnlyMoved(s, next, pid)
    ensures StepsLeft(next, pid) < StepsLeft(s, pid) && (pid in next.procs <==> StepsLeft(next, pid) > 0)
    ensures pid in next.procs ==>
              next.rows == s.rows && next.procs[pid].delivery == s.procs[pid].delivery
              && Apply(world, next, Advance(pid)).Some?
    ensures pid !in next.procs ==> AnsweredAlone(world, s, next, pid)
  {
    next := Apply(world, s, Advance(pid)).value;
    StepInv(world, s, Advance(pid), next);
    OwnStep(world, s, pid, next);
    OtherStep(world, s, pid, s.procs[pid].delivery, s.procs[pid].stage, next);
    AnswerIsSerial(world, s, pid, next);
    if pid in next.procs { BlockedExactly(world, next, pid); }
  }

  ghost predicate AnsweredAlone(world: World, s: State, t: State, pid: Pid) {
    && pid in s.procs && pid in t.replies && t.replies[pid].delivery == s.procs[pid].delivery
    && (t.rows, t.replies[pid].outcome) == Ingest(world, s.rows, s.procs[pid].delivery, None)
  }

  lemma RunFrom(world: World, s: State, pid: Pid, next: State, more: seq<Action>, t: State)
    requires Apply(world, s, Advance(pid)) == Some(next) && Run(world, next, more) == Some(t) && AllAdvance(more)
    ensures Run(world, s, [Advance(pid)] + more) == Some(t) && AllAdvance([Advance(pid)] + more)
  {
    assert ([Advance(pid)] + more)[1..] == more;
  }

  lemma MovesJoin(world: World, s: State, next: State, t: State, pid: Pid)
    requires OnlyMoved(s, next, pid) && OnlyMoved(next, t, pid) && AnsweredAlone(world, next, t, pid)
    requires pid in s.procs && next.rows == s.rows && next.procs[pid].delivery == s.procs[pid].delivery
    ensures OnlyMoved(s, t, pid) && AnsweredAlone(world, s, t, pid)
  {
  }

  /** A delivery that is not blocked can finish in its own steps alone, and is answered as it would be alone. */
  lemma {:induction false} CanFinish(world: World, s: State, pid: Pid) returns (actions: seq<Action>, t: State)
    requires Inv(world, s) && pid in s.procs && Apply(world, s, Advance(pid)).Some?
    ensures Run(world, s, actions) == Some(t) && AllAdvance(actions) && |actions| <= StepsLeft(s, pid)
    ensures OnlyMoved(s, t, pid) && pid !in t.procs && AnsweredAlone(world, s, t, pid) && Inv(world, t)
    decreases StepsLeft(s, pid)
  {
    var next := OneMove(world, s, pid);
    var more := [];
    t := next;
    assert Run(world, next, more) == Some(t);
    if pid in next.procs {
      more, t := CanFinish(world, next, pid);
      MovesJoin(world, s, next, t, pid);
    }
    actions := [Advance(pid)] + more;
    RunFrom(world, s, pid, next, more, t);
  }

  /** From every reachable state, without arrivals and crashes, all deliveries under way can finish,
      each with an answer, in at most five steps apiece. */
  lemma {:induction false} CanComeToRest(world: World, s: State) returns (actions: seq<Action>, t: State)
    requires Inv(world, s)
    ensures Run(world, s, actions) == Some(t) && AllAdvance(actions) && |actions| <= 5 * |s.procs|
    ensures t.procs == map[] && AllAnswered(s, t)
    decreases |s.procs|
  {
    if s.procs == map[] {
      return [], s;
    }
    var pid := NoDeadlock(world, s);
    var first, mid := CanFinish(world, s, pid);
    MovedCount(s, mid, pid);
    SeenProcs(world, s, pid);
    var rest;
    rest, t := CanComeToRest(world, mid);
    AnswerStays(world, mid, rest, t, pid);
    RunAppend(world, s, first, rest);
    AnswersJoin(s, mid, t, pid);
    actions := first + rest;
  }

  /** Every delivery under way in s has an answer in t. */
  ghost predicate AllAnswered(s: State, t: State) {
    forall pid :: pid in s.procs ==> pid in t.replies && t.replies[pid].delivery == s.procs[pid].delivery
  }

  lemma SeenProcs(world: World, s: State, pid: Pid)
    requires Inv(world, s) && pid in s.procs
    ensures pid in s.seen && StepsLeft(s, pid) <= 5
  {
  }

  lemma AnswersJoin(s: State, mid: State, t: State, pid: Pid)
    requires OnlyMoved(s, mid, pid) && AllAnswered(mid, t)
    requires pid in s.procs && pid in t.replies && t.replies[pid].delivery == s.procs[pid].delivery
    ensures AllAnswered(s, t)
  {
    forall o | o in s.procs ensures o in t.replies && t.replies[o].delivery == s.procs[o].delivery {
      if o != pid {
        assert o in s.procs - {pid} && o in mid.procs - {pid};
        assert (s.procs - {pid})[o] == s.procs[o] && (mid.procs - {pid})[o] == mid.procs[o];
      }
    }
  }

  lemma MovedCount(s: State, t: State, pid: Pid)
    requires OnlyMoved(s, t, pid) && pid in s.procs && pid !in t.procs
    ensures |t.procs| == |s.procs| - 1
  {
    assert t.procs - {pid} == t.procs;
    assert (s.procs - {pid}).Keys == s.procs.Keys - {pid};
    assert |(s.procs - {pid}).Keys| == |s.procs.Keys| - 1;
    assert |s.procs - {pid}| == |(s.procs - {pid}).Keys| && |s.procs| == |s.procs.Keys|;
  }

  /** An answer is given once and for all. */
  lemma {:induction false} AnswerStays(world: World, s: State, actions: seq<Action>, t: State, pid: Pid)
    requires Run(world, s, actions) == Some(t) && pid in s.seen && pid in s.replies && pid !in s.procs
    ensures pid in t.replies && t.replies[pid] == s.replies[pid] && pid !in t.procs
    decreases |actions|
  {
    if actions != [] {
      var next := Apply(world, s, actions[0]).value;
      if actions[0].pid != pid {
        OthersKeep(world, s, actions[0], next, pid);
      }
      AnswerStays(world, next, actions[1..], t, pid);
    }
  }

  /** A valid delivery with a fresh receipt may arrive at any moment. */
  lemma ArrivalIsFree(world: World, s: State, pid: Pid, d: Delivery)
    requires pid !in s.seen && Admissible(d)
    requires forall r :: r in s.rows ==> r.receipt != d.receipt
    requires forall o :: o in s.procs ==> s.procs[o].delivery.receipt != d.receipt
    ensures Apply(world, s, Arrive(pid, d))
            == Some(s.(procs := s.procs[pid := Proc(d, Waiting)], seen := s.seen + {pid}))
  {
    assert forall i :: 0 <= i < |s.rows| ==> s.rows[i] in s.rows;
  }
}
