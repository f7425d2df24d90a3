/**
 The restartable shared logger (src/telemetry.rs): emitters, initialisations and guard
 drops as threads with program counters.

 A thread in `Emitting` holds the slot's read lock; the two writers of the slot, building
 and taking, run under the write lock, which is granted only while nobody emits. A thread
 in `Retiring` or `Closing` holds the lifecycle mutex. `close` runs in `Closing`, after
 the write lock was released.
 */
module Telemetry {
  import opened Wrappers

  type LoggerId = nat
  type Tid = nat

  /** `owner` marks the emission an initialisation performs before it returns its guard. */
  datatype Pc =
    | Registering                              // init: before begin_telemetry_lifetime
    | Seeking(owner: bool)                     // with_ores_logger: at the head of its loop
    | Building(owner: bool)                    // found the slot empty
    | Emitting(owner: bool, logger: LoggerId)  // emit runs under the read lock
    | Live                                     // init returned its guard
    | Releasing                                // drop: before end_telemetry_lifetime
    | Retiring                                 // last guard left, before taking the slot
    | Closing(taken: Option<LoggerId>)         // slot taken, before close

  datatype State = State(
    slot: Option<LoggerId>,
    closed: set<LoggerId>,
    builds: nat,
    guards: nat,
    threads: map<Tid, Pc>)

  datatype Action =
    | Emit(tid: Tid)       // a new error to log
    | Init(tid: Tid)       // a new initialisation
    | Drop(tid: Tid)       // a live guard goes out of scope
    | Proceed(tid: Tid)    // the thread's next step

  predicate Reading(pc: Pc) { pc.Emitting? }

  predicate HoldsMutex(pc: Pc) { pc.Retiring? || pc.Closing? }

  predicate OwnsGuard(pc: Pc) {
    pc.Live? || pc.Releasing? || ((pc.Seeking? || pc.Building? || pc.Emitting?) && pc.owner)
  }

  predicate ReadLocked(s: State) {
    exists t | t in s.threads :: Reading(s.threads[t])
  }

  predicate MutexHeld(s: State) {
    exists t | t in s.threads :: HoldsMutex(s.threads[t])
  }

  const START := State(None, {}, 0, 0, map[])

  function Set(s: State, t: Tid, pc: Pc): State {
    s.(threads := s.threads[t := pc])
  }

  function End(s: State, t: Tid): State {
    s.(threads := s.threads - {t})
  }

  function Next(s: State, t: Tid, pc: Pc): Option<State> {
    match pc
    case Registering =>
      if MutexHeld(s) then None else Some(Set(s, t, Seeking(true)).(guards := s.guards + 1))
    case Seeking(owner) =>
      Some(Set(s, t, if s.slot.Some? then Emitting(owner, s.slot.value) else Building(owner)))
    case Building(owner) =>
      if ReadLocked(s) then None
      else if s.slot.Some? then Some(Set(s, t, Seeking(owner)))
      else Some(Set(s, t, Seeking(owner)).(slot := Some(s.builds), builds := s.builds + 1))
    case Emitting(owner, _) => Some(if owner then Set(s, t, Live) else End(s, t))
    case Live => None
    case Releasing =>
      if MutexHeld(s) then None
      else if s.guards == 0 then Some(End(s, t))     // underflow branch: logger left untouched
      else if s.guards == 1 then Some(Set(s, t, Retiring).(guards := 0))
      else Some(End(s, t).(guards := s.guards - 1))
    case Retiring =>
      if ReadLocked(s) then None else Some(Set(s, t, Closing(s.slot)).(slot := None))
    case Closing(taken) =>
      Some(End(s, t).(closed := if taken.Some? then s.closed + {taken.value} else s.closed))
  }

  function Apply(s: State, a: Action): Option<State> {
    match a
    case Emit(t) => if t in s.threads then None else Some(Set(s, t, Seeking(false)))
    case Init(t) => if t in s.threads then None else Some(Set(s, t, Registering))
    case Drop(t) => if t in s.threads && s.threads[t].Live? then Some(Set(s, t, Releasing)) else None
    case Proceed(t) => if t in s.threads then Next(s, t, s.threads[t]) else None
  }

  function Run(s: State, actions: seq<Action>): Option<State>
    decreases |actions|
  {
    if actions == [] then Some(s)
    else
      match Apply(s, actions[0])
      case None => None
      case Some(next) => Run(next, actions[1..])
  }

  ghost predicate Reachable(s: State) {
    exists actions :: Run(START, actions) == Some(s)
  }

  // ---------- Invariant ----------

  ghost function Owners(threads: map<Tid, Pc>): set<Tid> {
    set t | t in threads && OwnsGuard(threads[t])
  }

  ghost predicate ThreadOk(s: State, pc: Pc) {
    match pc
    case Emitting(_, l) => s.slot == Some(l)
    case Retiring => s.guards == 0
    case Closing(taken) => s.guards == 0 && (taken.Some? ==> taken.value < s.builds && s.slot != taken)
    case _ => true
  }

  ghost predicate Inv(s: State) {
    && (s.slot.Some? ==> s.slot.value < s.builds && s.slot.value !in s.closed)
    && (forall l :: l in s.closed ==> l < s.builds)
    && s.guards == |Owners(s.threads)|
    && (forall t :: t in s.threads ==> ThreadOk(s, s.threads[t]))
    && (forall t, u :: t in s.threads && u in s.threads && HoldsMutex(s.threads[t]) && HoldsMutex(s.threads[u]) ==>
        t == u)
  }

  lemma OwnersSet(threads: map<Tid, Pc>, t: Tid, pc: Pc)
    ensures Owners(threads[t := pc]) == if OwnsGuard(pc) then Owners(threads) + {t} else Owners(threads) - {t}
  {
  }

  lemma OwnersEnd(threads: map<Tid, Pc>, t: Tid)
    ensures Owners(threads - {t}) == Owners(threads) - {t}
  {
  }

  ghost predicate SlotOk(s: State) {
    && (s.slot.Some? ==> s.slot.value < s.builds && s.slot.value !in s.closed)
    && (forall l :: l in s.closed ==> l < s.builds)
  }

  ghost predicate OthersOk(s: State, s': State, t: Tid) {
    forall u :: u in s.threads && u != t ==> ThreadOk(s', s.threads[u])
  }

  lemma SetInv(s: State, s': State, t: Tid, pc: Pc)
    requires Inv(s) && s'.threads == s.threads[t := pc] && SlotOk(s') && OthersOk(s, s', t) && ThreadOk(s', pc)
    requires HoldsMutex(pc) ==> forall u :: u in s.threads && u != t ==> !HoldsMutex(s.threads[u])
    requires s'.guards == |Owners(s'.threads)|
    ensures Inv(s')
  {
  }

  lemma EndInv(s: State, s': State, t: Tid)
    requires Inv(s) && s'.threads == s.threads - {t} && SlotOk(s') && OthersOk(s, s', t)
    requires s'.guards == |Owners(s'.threads)|
    ensures Inv(s')
  {
  }

  lemma GuardCount(s: State, t: Tid, pc: Pc)
    requires Inv(s)
    ensures var before := t in s.threads && OwnsGuard(s.threads[t]);
            && |Owners(s.threads[t := pc])|
                == s.guards + (if OwnsGuard(pc) && !before then 1 else if !OwnsGuard(pc) && before then -1 else 0)
            && |Owners(s.threads - {t})| == s.guards + (if before then -1 else 0)
  {
    OwnersSet(s.threads, t, pc);
    OwnersEnd(s.threads, t);
    assert t in Owners(s.threads) <==> t in s.threads && OwnsGuard(s.threads[t]);
  }

  lemma RegisterInv(s: State, t: Tid, s': State)
    requires Inv(s) && t in s.threads && s.threads[t].Registering? && Next(s, t, Registering) == Some(s')
    ensures Inv(s')
  {
    GuardCount(s, t, Seeking(true));
    assert OthersOk(s, s', t);
    SetInv(s, s', t, Seeking(true));
  }

  lemma BuildInv(s: State, t: Tid, s': State)
    requires Inv(s) && t in s.threads && s.threads[t].Building? && Next(s, t, s.threads[t]) == Some(s')
    ensures Inv(s')
  {
    var pc := Seeking(s.threads[t].owner);
    GuardCount(s, t, pc);
    assert OthersOk(s, s', t) by {
      forall u | u in s.threads && u != t ensures ThreadOk(s', s.threads[u]) {
        assert ThreadOk(s, s.threads[u]) && !Reading(s.threads[u]);
      }
    }
    SetInv(s, s', t, pc);
  }

  lemma LocalInv(s: State, t: Tid, pc: Pc)
    requires Inv(s) && ThreadOk(s, pc) && !HoldsMutex(pc)
    requires OwnsGuard(pc) <==> t in s.threads && OwnsGuard(s.threads[t])
    ensures Inv(Set(s, t, pc))
  {
    GuardCount(s, t, pc);
    SetInv(s, Set(s, t, pc), t, pc);
  }

  lemma EmittedInv(s: State, t: Tid)
    requires Inv(s) && t in s.threads && !OwnsGuard(s.threads[t])
    ensures Inv(End(s, t))
  {
    GuardCount(s, t, Live);
    EndInv(s, End(s, t), t);
  }

  lemma ReleaseInv(s: State, t: Tid, s': State)
    requires Inv(s) && t in s.threads && s.threads[t].Releasing? && Next(s, t, Releasing) == Some(s')
    ensures Inv(s') && s.guards > 0
  {
    GuardCount(s, t, Retiring);
    assert t in Owners(s.threads);
    assert OthersOk(s, s', t) by {
      forall u | u in s.threads && u != t ensures ThreadOk(s', s.threads[u]) { assert ThreadOk(s, s.threads[u]); }
    }
    if s.guards == 1 { SetInv(s, s', t, Retiring); } else { EndInv(s, s', t); }
  }

  lemma TakeInv(s: State, t: Tid, s': State)
    requires Inv(s) && t in s.threads && s.threads[t].Retiring? && Next(s, t, Retiring) == Some(s')
    ensures Inv(s')
  {
    GuardCount(s, t, Closing(s.slot));
    assert ThreadOk(s, s.threads[t]);
    assert OthersOk(s, s', t) by {
      forall u | u in s.threads && u != t ensures ThreadOk(s', s.threads[u]) {
        assert ThreadOk(s, s.threads[u]) && !Reading(s.threads[u]);
      }
    }
    SetInv(s, s', t, Closing(s.slot));
  }

  lemma CloseInv(s: State, t: Tid, s': State)
    requires Inv(s) && t in s.threads && s.threads[t].Closing? && Next(s, t, s.threads[t]) == Some(s')
    ensures Inv(s')
  {
    GuardCount(s, t, Live);
    assert ThreadOk(s, s.threads[t]);
    assert OthersOk(s, s', t) by {
      forall u | u in s.threads && u != t ensures ThreadOk(s', s.threads[u]) { assert ThreadOk(s, s.threads[u]); }
    }
    EndInv(s, s', t);
  }

  lemma StepInv(s: State, a: Action, s': State)
    requires Inv(s) && Apply(s, a) == Some(s')
    ensures Inv(s')
  {
    match a
    case Emit(t) => LocalInv(s, t, Seeking(false));
    case Init(t) => LocalInv(s, t, Registering);
    case Drop(t) => LocalInv(s, t, Releasing);
    case Proceed(t) =>
      match s.threads[t] {
        case Registering => RegisterInv(s, t, s');
        case Seeking(_) => LocalInv(s, t, s'.threads[t]);
        case Building(_) => BuildInv(s, t, s');
        case Emitting(owner, _) => if owner { LocalInv(s, t, Live); } else { EmittedInv(s, t); }
        case Live => assert false;
        case Releasing => ReleaseInv(s, t, s');
        case Retiring => TakeInv(s, t, s');
        case Closing(_) => CloseInv(s, t, s');
      }
  }

  lemma {:induction false} RunInv(s: State, actions: seq<Action>, s': State)
    requires Inv(s) && Run(s, actions) == Some(s')
    ensures Inv(s')
    decreases |actions|
  {
    if actions != [] {
      var next := Apply(s, actions[0]).value;
      StepInv(s, actions[0], next);
      RunInv(next, actions[1..], s');
    }
  }

  lemma ReachableInv(s: State)
    requires Reachable(s)
    ensures Inv(s)
  {
    var actions :| Run(START, actions) == Some(s);
    RunInv(START, actions, s);
  }

  // ---------- Guarantees ----------

  /** No emission, whenever it runs, uses a logger that is closed or about to be closed. */
  lemma NoEmissionIntoAClosedLogger(s: State, t: Tid)
    requires Reachable(s) && t in s.threads && s.threads[t].Emitting?
    ensures s.threads[t].logger !in s.closed && s.slot == Some(s.threads[t].logger)
    ensures forall u :: u in s.threads ==> s.threads[u] != Closing(Some(s.threads[t].logger))
  {
    ReachableInv(s);
    assert ThreadOk(s, s.threads[t]);
    assert forall u :: u in s.threads ==> ThreadOk(s, s.threads[u]);
  }

  /** The guard count is the number of guards in existence, so the underflow branch of a
      drop is never taken. */
  lemma GuardCountNeverUnderflows(s: State, t: Tid)
    requires Reachable(s) && t in s.threads && OwnsGuard(s.threads[t])
    ensures s.guards == |Owners(s.threads)| && s.guards > 0
  {
    ReachableInv(s);
    assert t in Owners(s.threads);
  }

  /** Some guard exists in every state of the run, its ends included. */
  ghost predicate Guarded(s: State, actions: seq<Action>)
    decreases |actions|
  {
    s.guards > 0 && (actions != [] ==> Apply(s, actions[0]).Some? ==> Guarded(Apply(s, actions[0]).value, actions[1..]))
  }

  lemma GuardedStep(s: State, a: Action, s': State)
    requires Inv(s) && s.guards > 0 && Apply(s, a) == Some(s') && s'.guards > 0
    ensures s'.closed == s.closed
    ensures s.slot.Some? ==> s'.slot == s.slot && s'.builds == s.builds
    ensures s.slot.None? ==>
              (s'.slot.None? && s'.builds == s.builds) || (s'.slot == Some(s.builds) && s'.builds == s.builds + 1)
  {
    assert a.tid in s.threads ==> ThreadOk(s, s.threads[a.tid]);
  }

  /** While guards exist the logger in the slot stays there, nothing is closed, and at most
      one logger is built: none if the slot was filled at the start. */
  lemma {:induction false} OneLoggerPerLifetime(s: State, actions: seq<Action>, s': State)
    requires Inv(s) && Run(s, actions) == Some(s') && Guarded(s, actions)
    ensures s'.closed == s.closed
    ensures s.slot.Some? ==> s'.slot == s.slot && s'.builds == s.builds
    ensures s.slot.None? ==>
              (s'.slot.None? && s'.builds == s.builds) || (s'.slot == Some(s.builds) && s'.builds == s.builds + 1)
    decreases |actions|
  {
    if actions != [] {
      var next := Apply(s, actions[0]).value;
      GuardedStep(s, actions[0], next);
      StepInv(s, actions[0], next);
      OneLoggerPerLifetime(next, actions[1..], s');
    }
  }

  /** No deadlock: while any thread is under way, some thread can take its next step. */
  lemma SomeThreadCanProceed(s: State, t: Tid) returns (u: Tid)
    requires Reachable(s) && t in s.threads && !s.threads[t].Live?
    ensures u in s.threads && !s.threads[u].Live? && Apply(s, Proceed(u)).Some?
  {
    ReachableInv(s);
    if ReadLocked(s) {
      u :| u in s.threads && Reading(s.threads[u]);
    } else if MutexHeld(s) {
      u :| u in s.threads && HoldsMutex(s.threads[u]);
    } else {
      u := t;
    }
  }
}
