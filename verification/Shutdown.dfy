/**
 The shutdown reducer and serve loop (src/shutdown.rs).
 */
module Shutdown {
  import opened Wrappers

  datatype Phase = Running | Draining | Forcing | Stopped

  datatype Event = SigInt | SigTerm | Eof | Deadline | DrainFailed {
    predicate IsSignal() {
      SigInt? || SigTerm?
    }
  }

  datatype Action = NoAction | StartGraceful | Force

  datatype State = State(
    phase: Phase,
    tty: bool,
    trigger: Option<Event>,
    signalCount: nat,
    forcedBy: Option<Event>)

  function New(tty: bool): State {
    State(Running, tty, None, 0, None)
  }

  /** `reduce` */
  function Reduce(s: State, e: Event): (State, Action) {
    match s.phase
    case Stopped => (s, NoAction)
    case Forcing => (s, NoAction)
    case Running =>
      if e.Eof? then (s, NoAction)
      else if e.IsSignal() then
        (s.(phase := Draining, trigger := Some(e), signalCount := SaturatingIncrement(s.signalCount)), StartGraceful)
      else if e.DrainFailed? then
        (s.(phase := Forcing, trigger := Some(e), forcedBy := Some(e)), Force)
      else (s, NoAction)
    case Draining =>
      var force := e.Deadline? || e.DrainFailed? || e.SigInt? || e.SigTerm?
                   || (e.Eof? && s.tty && s.trigger == Some(SigInt));
      if !force then (s, NoAction)
      else
        var next := s.(phase := Forcing, forcedBy := Some(e));
        (if e.IsSignal() then next.(signalCount := SaturatingIncrement(s.signalCount)) else next, Force)
  }

  /** The state after a list of events. */
  function After(tty: bool, events: seq<Event>): State {
    if events == [] then New(tty) else Reduce(After(tty, events[..|events| - 1]), events[|events| - 1]).0
  }

  /** The action taken for event `k`. */
  function ActionAt(tty: bool, events: seq<Event>, k: nat): Action
    requires k < |events|
  {
    Reduce(After(tty, events[..k]), events[k]).1
  }

  // ---------- The timeline of an event list ----------

  predicate Wakes(e: Event) {
    e.SigInt? || e.SigTerm? || e.DrainFailed?
  }

  /** Event `i` is the first that ends normal running. */
  predicate WakesAt(events: seq<Event>, i: nat) {
    i < |events| && Wakes(events[i]) && forall k :: 0 <= k < i ==> !Wakes(events[k])
  }

  predicate DrainsAt(events: seq<Event>, i: nat) {
    WakesAt(events, i) && (events[i].SigInt? || events[i].SigTerm?)
  }

  /** What cuts short a drain begun by `trigger`: anything but an EOF, and an EOF at a terminal after Ctrl-C. */
  predicate CutsShort(tty: bool, trigger: Event, e: Event) {
    e.Eof? ==> tty && trigger.SigInt?
  }

  predicate CutsShortAt(tty: bool, events: seq<Event>, i: nat, j: nat) {
    DrainsAt(events, i) && i < j < |events| && CutsShort(tty, events[i], events[j])
    && forall k :: i < k < j ==> !CutsShort(tty, events[i], events[k])
  }

  /** Event `j` is the one that forces. */
  ghost predicate ForcesAt(tty: bool, events: seq<Event>, j: nat) {
    (WakesAt(events, j) && events[j].DrainFailed?) || exists i: nat :: CutsShortAt(tty, events, i, j)
  }

  function Signals(events: seq<Event>): nat {
    if events == [] then 0
    else
      var last := events[|events| - 1];
      Signals(events[..|events| - 1]) + (if last.SigInt? || last.SigTerm? then 1 else 0)
  }

  // ---------- State and timeline agree ----------

  /** Drain begun at `i` and not cut short. */
  predicate DrainingSince(tty: bool, events: seq<Event>, i: nat) {
    DrainsAt(events, i) && forall k :: i < k < |events| ==> !CutsShort(tty, events[i], events[k])
  }

  ghost predicate Matches(tty: bool, events: seq<Event>, s: State) {
    match s.phase
    case Running => s == New(tty) && forall k :: 0 <= k < |events| ==> !Wakes(events[k])
    case Draining =>
      exists i: nat :: DrainingSince(tty, events, i) && s == State(Draining, tty, Some(events[i]), 1, None)
    case Forcing =>
      exists j: nat :: ForcesAt(tty, events, j) && s.forcedBy == Some(events[j]) && s.tty == tty && s.trigger.Some?
                  && s.signalCount == Signals(events[..j + 1]) <= 2
    case Stopped => false
  }

  lemma {:induction false} QuietHasNoSignals(events: seq<Event>)
    requires forall k :: 0 <= k < |events| ==> !events[k].SigInt? && !events[k].SigTerm?
    ensures Signals(events) == 0
  {
    if events != [] {
      QuietHasNoSignals(events[..|events| - 1]);
    }
  }

  /** An uninterrupted drain has seen the one signal that began it. */
  lemma {:induction false} DrainHasOneSignal(tty: bool, events: seq<Event>, i: nat)
    requires DrainingSince(tty, events, i)
    ensures Signals(events) == 1
  {
    var before := events[..|events| - 1];
    if i == |events| - 1 {
      QuietHasNoSignals(before);
    } else {
      assert DrainingSince(tty, before, i);
      DrainHasOneSignal(tty, before, i);
    }
  }

  lemma ForcesAtPrefix(tty: bool, events: seq<Event>, more: seq<Event>, j: nat)
    requires ForcesAt(tty, events, j)
    ensures ForcesAt(tty, events + more, j)
  {
    if i: nat :| CutsShortAt(tty, events, i, j) {
      assert CutsShortAt(tty, events + more, i, j);
    }
  }

  ghost predicate StepOk(tty: bool, events: seq<Event>, s: State, e: Event) {
    && Matches(tty, events + [e], Reduce(s, e).0)
    && (Reduce(s, e).1.StartGraceful? <==> DrainsAt(events + [e], |events|))
    && (Reduce(s, e).1.Force? <==> ForcesAt(tty, events + [e], |events|))
  }

  lemma RunningStep(tty: bool, events: seq<Event>, s: State, e: Event)
    requires Matches(tty, events, s) && s.phase.Running?
    ensures StepOk(tty, events, s, e)
  {
    var all := events + [e];
    var n := |events|;
    assert forall k :: 0 <= k < n ==> all[k] == events[k];
    assert all[n] == e;
    forall i: nat ensures !CutsShortAt(tty, all, i, n) {
      assert i < n ==> !WakesAt(all, i);
    }
    assert Wakes(e) <==> WakesAt(all, n);
    QuietHasNoSignals(events);
    assert all[..n] == events;
    if e.IsSignal() {
      assert DrainingSince(tty, all, n);
    } else if e.DrainFailed? {
      assert ForcesAt(tty, all, n);
      assert all[..n + 1] == all;
    }
  }

  /** A drain at `i` before the last event: only a cut at `i` can force there. */
  lemma CutsAtEnd(tty: bool, events: seq<Event>, e: Event, i: nat)
    requires DrainingSince(tty, events, i)
    ensures DrainsAt(events + [e], i) && !WakesAt(events + [e], |events|)
    ensures ForcesAt(tty, events + [e], |events|) <==> CutsShort(tty, events[i], e)
    ensures !CutsShort(tty, events[i], e) ==> DrainingSince(tty, events + [e], i)
  {
    var all := events + [e];
    assert forall k :: 0 <= k < |events| ==> all[k] == events[k];
    assert Wakes(all[i]);
    if CutsShort(tty, events[i], e) {
      assert CutsShortAt(tty, all, i, |events|);
    } else {
      forall h: nat ensures !CutsShortAt(tty, all, h, |events|) {
        OneWake(all, i, h);
      }
    }
  }

  lemma DrainingStep(tty: bool, events: seq<Event>, s: State, e: Event)
    requires Matches(tty, events, s) && s.phase.Draining?
    ensures StepOk(tty, events, s, e)
  {
    var i: nat :| DrainingSince(tty, events, i) && s == State(Draining, tty, Some(events[i]), 1, None);
    var all := events + [e];
    CutsAtEnd(tty, events, e, i);
    DrainHasOneSignal(tty, events, i);
    assert all[..|events|] == events && all[..|events| + 1] == all;
    assert Signals(all) == Signals(events) + if e.IsSignal() then 1 else 0;
    assert all[i] == events[i] && all[|events|] == e;
  }

  lemma OneWake(events: seq<Event>, i: nat, h: nat)
    requires WakesAt(events, i)
    ensures WakesAt(events, h) ==> h == i
  {
  }

  /** The event that ended normal running before a force. */
  lemma WakeOf(tty: bool, events: seq<Event>, j: nat) returns (i: nat)
    requires ForcesAt(tty, events, j)
    ensures i <= j && WakesAt(events, i)
    ensures if i == j then events[j].DrainFailed? else CutsShortAt(tty, events, i, j)
  {
    if WakesAt(events, j) && events[j].DrainFailed? {
      i := j;
    } else {
      i :| CutsShortAt(tty, events, i, j);
    }
  }

  /** At most one event forces. */
  lemma OneForce(tty: bool, events: seq<Event>, j: nat, h: nat)
    requires ForcesAt(tty, events, j) && ForcesAt(tty, events, h)
    ensures j == h
  {
    var x := WakeOf(tty, events, j);
    var y := WakeOf(tty, events, h);
    OneWake(events, x, y);
  }

  lemma ForcingStep(tty: bool, events: seq<Event>, s: State, e: Event)
    requires Matches(tty, events, s) && s.phase.Forcing?
    ensures StepOk(tty, events, s, e)
  {
    var j: nat :| ForcesAt(tty, events, j) && s.forcedBy == Some(events[j]) && s.tty == tty && s.trigger.Some?
                  && s.signalCount == Signals(events[..j + 1]) <= 2;
    var all := events + [e];
    ForcesAtPrefix(tty, events, [e], j);
    assert all[..j + 1] == events[..j + 1] && all[j] == events[j];
    if ForcesAt(tty, all, |events|) {
      OneForce(tty, all, j, |events|);
    }
    var _ := WakeOf(tty, events, j);
  }

  lemma {:induction false} AfterMatches(tty: bool, events: seq<Event>)
    ensures Matches(tty, events, After(tty, events))
  {
    if events != [] {
      var before, e := events[..|events| - 1], events[|events| - 1];
      AfterMatches(tty, before);
      StepMatches(tty, before, After(tty, before), e);
      assert before + [e] == events;
    }
  }

  lemma StepMatches(tty: bool, events: seq<Event>, s: State, e: Event)
    requires Matches(tty, events, s)
    ensures StepOk(tty, events, s, e)
  {
    if s.phase.Running? {
      RunningStep(tty, events, s, e);
    } else if s.phase.Draining? {
      DrainingStep(tty, events, s, e);
    } else {
      ForcingStep(tty, events, s, e);
    }
  }

  // ---------- Theorems ----------

  lemma TimelinePrefix(tty: bool, events: seq<Event>, k: nat)
    requires k < |events|
    ensures DrainsAt(events[..k + 1], k) <==> DrainsAt(events, k)
    ensures ForcesAt(tty, events[..k + 1], k) <==> ForcesAt(tty, events, k)
  {
    var part := events[..k + 1];
    assert part + events[k + 1..] == events;
    if ForcesAt(tty, part, k) {
      ForcesAtPrefix(tty, part, events[k + 1..], k);
    }
    if i: nat :| CutsShortAt(tty, events, i, k) {
      assert CutsShortAt(tty, part, i, k);
    }
  }

  /** Over every event list the reducer starts and forces exactly where the timeline says. */
  lemma ActionsAreExact(tty: bool, events: seq<Event>, k: nat)
    requires k < |events|
    ensures ActionAt(tty, events, k).StartGraceful? <==> DrainsAt(events, k)
    ensures ActionAt(tty, events, k).Force? <==> ForcesAt(tty, events, k)
  {
    AfterMatches(tty, events[..k]);
    StepMatches(tty, events[..k], After(tty, events[..k]), events[k]);
    assert events[..k] + [events[k]] == events[..k + 1];
    TimelinePrefix(tty, events, k);
  }

  /** At most one graceful start and one force, and never a start after a force. */
  lemma ActionsAreOrdered(tty: bool, events: seq<Event>, j: nat, k: nat)
    requires j < k < |events|
    ensures !(ActionAt(tty, events, j).StartGraceful? && ActionAt(tty, events, k).StartGraceful?)
    ensures !(ActionAt(tty, events, j).Force? && ActionAt(tty, events, k).Force?)
    ensures !(ActionAt(tty, events, j).Force? && ActionAt(tty, events, k).StartGraceful?)
  {
    ActionsAreExact(tty, events, j);
    ActionsAreExact(tty, events, k);
    if ForcesAt(tty, events, j) {
      var _ := WakeOf(tty, events, j);
      if ForcesAt(tty, events, k) {
        OneForce(tty, events, j, k);
      }
    }
  }

  /**
   The final state: forced exactly when some event forces, by that event, with the signals
   received up to it; otherwise every signal received is counted. Never more than two.
   */
  lemma FinalStateIsExact(tty: bool, events: seq<Event>)
    ensures var s := After(tty, events);
            && (s.phase.Forcing? <==> s.forcedBy.Some?)
            && (s.phase.Forcing? <==> exists j: nat :: ForcesAt(tty, events, j))
            && (forall j: nat :: ForcesAt(tty, events, j) ==>
                  s.forcedBy == Some(events[j]) && s.signalCount == Signals(events[..j + 1]))
            && (!s.phase.Forcing? ==> s.signalCount == Signals(events))
            && s.signalCount <= 2 && !s.phase.Stopped?
  {
    var s := After(tty, events);
    AfterMatches(tty, events);
    forall j: nat | ForcesAt(tty, events, j)
      ensures s.phase.Forcing? && s.forcedBy == Some(events[j]) && s.signalCount == Signals(events[..j + 1])
    {
      ForcedInState(tty, events, s, j);
    }
    if s.phase.Running? {
      QuietHasNoSignals(events);
    } else if s.phase.Draining? {
      var i: nat :| DrainingSince(tty, events, i) && s == State(Draining, tty, Some(events[i]), 1, None);
      DrainHasOneSignal(tty, events, i);
    }
  }

  lemma ForcedInState(tty: bool, events: seq<Event>, s: State, j: nat)
    requires Matches(tty, events, s) && ForcesAt(tty, events, j)
    ensures s.phase.Forcing? && s.forcedBy == Some(events[j]) && s.signalCount == Signals(events[..j + 1])
  {
    var w := WakeOf(tty, events, j);
    assert Wakes(events[w]);
    if s.phase.Forcing? {
      var h: nat :| ForcesAt(tty, events, h) && s.forcedBy == Some(events[h])
          && s.signalCount == Signals(events[..h + 1]);
      OneForce(tty, events, j, h);
    }
  }

  /** An EOF forces only at a terminal whose drain a SIGINT began. */
  lemma EofForcesOnlyAfterInterrupt(tty: bool, events: seq<Event>)
    requires After(tty, events).forcedBy == Some(Eof)
    ensures tty && exists i: nat :: DrainsAt(events, i) && events[i].SigInt?
  {
    FinalStateIsExact(tty, events);
    var j: nat :| ForcesAt(tty, events, j);
    var i := WakeOf(tty, events, j);
  }

  lemma {:induction false} QuietChangesNothing(tty: bool, events: seq<Event>)
    requires forall k :: 0 <= k < |events| ==> !Wakes(events[k])
    ensures After(tty, events) == New(tty)
  {
    if events != [] {
      QuietChangesNothing(tty, events[..|events| - 1]);
    }
  }

  /** The recorded trigger is the event that ended normal running, for good. */
  lemma {:induction false} TriggerIsFirstWake(tty: bool, events: seq<Event>, i: nat)
    requires WakesAt(events, i)
    ensures var s := After(tty, events); s.trigger == Some(events[i]) && s.tty == tty && !s.phase.Running?
  {
    var before := events[..|events| - 1];
    if i == |events| - 1 {
      QuietChangesNothing(tty, before);
    } else {
      TriggerIsFirstWake(tty, before, i);
    }
  }

  // ---------- The serve loop ----------

  /** What the loop's select yields: an event, the end of the event channel, or the end of the server. */
  datatype Input = Received(event: Event) | ChannelClosed | ServerEnded(ok: bool)

  datatype Outcome = Graceful | Forced(event: Event) | Failed

  /** The events the reducer sees; a closed channel is one drain failure and then silence. */
  function Events(inputs: seq<Input>): seq<Event> {
    if inputs == [] then []
    else
      match inputs[0]
      case Received(e) => [e] + Events(inputs[1..])
      case ChannelClosed => [DrainFailed]
      case ServerEnded(_) => []
  }

  /** What the loop does to the server handle and its tasks. */
  datatype Effects = Effects(graceful: nat, forced: nat, timersStarted: nat, timersAborted: nat, eofWatchers: nat)

  function Ending(inputs: seq<Input>): Option<bool> {
    if inputs == [] then None
    else if inputs[0].ServerEnded? then Some(inputs[0].ok)
    else Ending(inputs[1..])
  }

  /** Input m is the first end of the server. */
  predicate EndsAt(inputs: seq<Input>, m: nat, ok: bool) {
    m < |inputs| && inputs[m] == ServerEnded(ok) && forall i :: 0 <= i < m ==> !inputs[i].ServerEnded?
  }

  lemma {:induction false} EndingAt(inputs: seq<Input>) returns (m: nat)
    ensures Ending(inputs).Some? ==> EndsAt(inputs, m, Ending(inputs).value)
    ensures Ending(inputs).None? ==> forall i :: 0 <= i < |inputs| ==> !inputs[i].ServerEnded?
  {
    m := 0;
    if inputs != [] && !inputs[0].ServerEnded? {
      var rest := EndingAt(inputs[1..]);
      m := rest + 1;
      assert forall i :: 1 <= i < |inputs| ==> inputs[i] == inputs[1..][i - 1];
    }
  }

  lemma {:induction false} EndsAtIsEnding(inputs: seq<Input>, m: nat, ok: bool)
    requires EndsAt(inputs, m, ok)
    ensures Ending(inputs) == Some(ok)
  {
    if m > 0 {
      assert !inputs[0].ServerEnded?;
      assert forall i :: 0 <= i < m - 1 ==> inputs[1..][i] == inputs[i + 1];
      EndsAtIsEnding(inputs[1..], m - 1, ok);
    }
  }

  predicate Drained(s: State) {
    s.trigger == Some(SigInt) || s.trigger == Some(SigTerm)
  }

  function One(b: bool): nat {
    if b then 1 else 0
  }

  /** The effects that a state accounts for. */
  function EffectsOf(s: State, watchEof: bool): Effects {
    Effects(One(Drained(s)), One(s.phase.Forcing?), One(Drained(s)), One(Drained(s) && s.phase.Forcing?),
            One(watchEof && s.tty && s.trigger == Some(SigInt)))
  }

  /** States the loop can be in, by the reducer alone. */
  predicate Sound(s: State) {
    match s.phase
    case Running => s.trigger.None? && s.forcedBy.None?
    case Draining => Drained(s) && s.forcedBy.None?
    case Forcing => s.trigger.Some?
    case Stopped => false
  }

  /** What the loop's variables say about each other. */
  predicate LoopOk(watchEof: bool, state: State, timer: bool, fx: Effects) {
    Sound(state) && timer == state.phase.Draining? && fx == EffectsOf(state, watchEof)
  }

  /** Reducing a list of events from a state. */
  function Fold(s: State, events: seq<Event>): State
    decreases |events|
  {
    if events == [] then s else Fold(Reduce(s, events[0]).0, events[1..])
  }

  lemma {:induction false} FoldAppend(s: State, events: seq<Event>, e: Event)
    ensures Fold(s, events + [e]) == Reduce(Fold(s, events), e).0
    decreases |events|
  {
    if events == [] {
      assert [e][1..] == [];
    } else {
      FoldAppend(Reduce(s, events[0]).0, events[1..], e);
      assert (events + [e])[1..] == events[1..] + [e];
    }
  }

  lemma {:induction false} FoldIsAfter(tty: bool, events: seq<Event>)
    ensures Fold(New(tty), events) == After(tty, events)
  {
    if events != [] {
      FoldIsAfter(tty, events[..|events| - 1]);
      FoldAppend(New(tty), events[..|events| - 1], events[|events| - 1]);
      assert events[..|events| - 1] + [events[|events| - 1]] == events;
    }
  }

  /** The body of the event arm. */
  method OnEvent(watchEof: bool, state: State, timer: bool, fx: Effects, e: Event)
    returns (next: State, timerNow: bool, fxNow: Effects)
    requires LoopOk(watchEof, state, timer, fx)
    ensures next == Reduce(state, e).0 && LoopOk(watchEof, next, timerNow, fxNow)
  {
    var action;
    next, action := Reduce(state, e).0, Reduce(state, e).1;
    timerNow, fxNow := timer, fx;
    match action {
      case NoAction =>
      case StartGraceful =>
        if next.tty && e.SigInt? && watchEof && fxNow.eofWatchers == 0 {
          fxNow := fxNow.(eofWatchers := fxNow.eofWatchers + 1);
        }
        fxNow := fxNow.(graceful := fxNow.graceful + 1, timersStarted := fxNow.timersStarted + 1);
        timerNow := true;
      case Force =>
        if timerNow {
          timerNow := false;
          fxNow := fxNow.(timersAborted := fxNow.timersAborted + 1);
        }
        fxNow := fxNow.(forced := fxNow.forced + 1);
    }
  }

  /** What the loop reports once the server has ended in state `s`. */
  function Verdict(s: State, ending: Option<bool>): Option<Outcome> {
    match ending
    case None => None
    case Some(false) => Some(Failed)
    case Some(true) => Some(if s.forcedBy.Some? then Forced(s.forcedBy.value) else Graceful)
  }

  /** What the verdict means: none while the server runs, failure when the server failed, and
      otherwise the forcing event of the timeline, or a graceful end when nothing forced. */
  lemma VerdictMeans(tty: bool, inputs: seq<Input>, m: nat, ok: bool)
    ensures (forall i :: 0 <= i < |inputs| ==> !inputs[i].ServerEnded?) ==>
              Verdict(After(tty, Events(inputs)), Ending(inputs)) == None
    ensures EndsAt(inputs, m, false) ==> Verdict(After(tty, Events(inputs)), Ending(inputs)) == Some(Failed)
    ensures EndsAt(inputs, m, true) ==>
              var outcome := Verdict(After(tty, Events(inputs)), Ending(inputs));
              && (forall j: nat :: ForcesAt(tty, Events(inputs), j) ==> outcome == Some(Forced(Events(inputs)[j])))
              && ((forall j: nat :: !ForcesAt(tty, Events(inputs), j)) ==> outcome == Some(Graceful))
  {
    var _ := EndingAt(inputs);
    FinalStateIsExact(tty, Events(inputs));
    if EndsAt(inputs, m, ok) { EndsAtIsEnding(inputs, m, ok); }
    if EndsAt(inputs, m, !ok) { EndsAtIsEnding(inputs, m, !ok); }
  }

  /** Only what is received before the server ends or the channel closes reaches the reducer. */
  lemma {:induction false} EventsSpec(inputs: seq<Input>, k: nat)
    requires k < |Events(inputs)|
    ensures k < |inputs| && forall i :: 0 <= i < k ==> inputs[i].Received?
    ensures inputs[k] == Received(Events(inputs)[k]) || (inputs[k].ChannelClosed? && Events(inputs)[k] == DrainFailed)
    ensures inputs[k].ChannelClosed? ==> |Events(inputs)| == k + 1
  {
    if inputs[0].Received? && k > 0 {
      EventsSpec(inputs[1..], k - 1);
      assert forall i :: 1 <= i < |inputs| ==> inputs[i] == inputs[1..][i - 1];
    }
  }

  /** And all of it does. */
  lemma {:induction false} EventsEnd(inputs: seq<Input>)
    ensures var n := |Events(inputs)|;
            && n <= |inputs|
            && (n == |inputs| || inputs[n].ServerEnded? || (n > 0 && inputs[n - 1].ChannelClosed?))
  {
    if inputs != [] && inputs[0].Received? {
      EventsEnd(inputs[1..]);
      assert forall i :: 1 <= i < |inputs| ==> inputs[i] == inputs[1..][i - 1];
    }
  }

  /** One drain with its timer when a signal began one, one force when an event or a failing server
      called for it, and no timer left once the loop has ended. */
  predicate EffectsOk(s: State, watchEof: bool, fx: Effects, ending: Option<bool>) {
    && fx.graceful == fx.timersStarted == (if s.trigger == Some(SigInt) || s.trigger == Some(SigTerm) then 1 else 0)
    && fx.eofWatchers == (if watchEof && s.tty && s.trigger == Some(SigInt) then 1 else 0)
    && fx.forced == (if s.phase.Forcing? || ending == Some(false) then 1 else 0)
    && fx.timersAborted == if ending.Some? || s.phase.Forcing? then fx.timersStarted else 0
  }

  /** The body of the server arm. */
  method OnServerEnd(watchEof: bool, state: State, timer: bool, fx: Effects, ok: bool)
    returns (outcome: Option<Outcome>, fxNow: Effects)
    requires LoopOk(watchEof, state, timer, fx)
    ensures outcome == Verdict(state, Some(ok)) && EffectsOk(state, watchEof, fxNow, Some(ok))
  {
    fxNow := fx;
    if timer {
      fxNow := fxNow.(timersAborted := fxNow.timersAborted + 1);
    }
    if ok {
      return Some(if state.forcedBy.Some? then Forced(state.forcedBy.value) else Graceful), fxNow;
    }
    if Reduce(state, DrainFailed).1.Force? {
      fxNow := fxNow.(forced := fxNow.forced + 1);
    }
    outcome := Some(Failed);
  }

  /** What is still to be seen from input `i` on. */
  function Rest(inputs: seq<Input>, i: nat, open: bool): seq<Event>
    requires i <= |inputs|
  {
    if open then Events(inputs[i..]) else []
  }

  /** One input moves the loop along the fold. */
  lemma NextInput(inputs: seq<Input>, i: nat, open: bool, s: State)
    requires i < |inputs|
    ensures inputs[i].ServerEnded? ==> Ending(inputs[i..]) == Some(inputs[i].ok) && Fold(s, Rest(inputs, i, open)) == s
    ensures !inputs[i].ServerEnded? ==> Ending(inputs[i..]) == Ending(inputs[i + 1..])
    ensures !inputs[i].ServerEnded? && open ==>
              var e := if inputs[i].Received? then inputs[i].event else DrainFailed;
              Fold(s, Rest(inputs, i, true)) == Fold(Reduce(s, e).0, Rest(inputs, i + 1, inputs[i].Received?))
  {
    assert inputs[i..][1..] == inputs[i + 1..];
    if inputs[i].Received? {
      assert Events(inputs[i..])[1..] == Events(inputs[i + 1..]);
    }
  }

  /**
   `serve_with_events` over everything its select yields. The outcome is the reducer's verdict
   on the events received; the server is asked to drain at most once and to stop at most once,
   and no deadline timer outlives the loop.
   */
  method Serve(tty: bool, watchEof: bool, inputs: seq<Input>) returns (outcome: Option<Outcome>, fx: Effects)
    ensures outcome == Verdict(After(tty, Events(inputs)), Ending(inputs))
    ensures EffectsOk(After(tty, Events(inputs)), watchEof, fx, Ending(inputs))
  {
    var state, timer, open := New(tty), false, true;
    fx := Effects(0, 0, 0, 0, 0);
    assert inputs[0..] == inputs;
    FoldIsAfter(tty, Events(inputs));
    for i := 0 to |inputs|
      invariant LoopOk(watchEof, state, timer, fx)
      invariant Ending(inputs) == Ending(inputs[i..])
      invariant Fold(state, Rest(inputs, i, open)) == After(tty, Events(inputs))
    {
      NextInput(inputs, i, open, state);
      if inputs[i].ServerEnded? {
        outcome, fx := OnServerEnd(watchEof, state, timer, fx, inputs[i].ok);
        return;
      }
      if open {
        var e := if inputs[i].Received? then inputs[i].event else DrainFailed;
        open := inputs[i].Received?;
        state, timer, fx := OnEvent(watchEof, state, timer, fx, e);
      }
    }
    outcome := None;
  }
}
