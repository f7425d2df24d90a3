/**
 Where every logger ends: a logger taken out of the slot is closed, once, and none is leaked.
 */
module TelemetryLifecycle {
  import opened Wrappers
  import opened Telemetry

  /** Some thread has taken logger l and is about to close it. */
  ghost predicate BeingClosed(s: State, l: LoggerId) {
    exists t :: t in s.threads && s.threads[t] == Closing(Some(l))
  }

  /** Every logger built is in the slot, being closed, or closed; and only one of them. */
  ghost predicate Accounted(s: State) {
    && (forall l: LoggerId :: l < s.builds ==> s.slot == Some(l) || BeingClosed(s, l) || l in s.closed)
    && (forall l: LoggerId :: BeingClosed(s, l) ==> l < s.builds && s.slot != Some(l) && l !in s.closed)
  }

  /** A step that neither takes nor closes: the closing threads stay as they are. */
  lemma OtherStep(s: State, a: Action, s': State, l: LoggerId)
    requires Apply(s, a) == Some(s')
    requires a.Proceed? ==> !s.threads[a.tid].Retiring? && !s.threads[a.tid].Closing?
    ensures BeingClosed(s', l) <==> BeingClosed(s, l)
    ensures s'.closed == s.closed && s.builds <= s'.builds
    ensures if s'.builds == s.builds then s'.slot == s.slot
            else s.slot == None && s'.slot == Some(s.builds) && s'.builds == s.builds + 1
  {
    if BeingClosed(s, l) {
      var t :| t in s.threads && s.threads[t] == Closing(Some(l));
      assert t in s'.threads && s'.threads[t] == Closing(Some(l));
    }
    if BeingClosed(s', l) {
      var t :| t in s'.threads && s'.threads[t] == Closing(Some(l));
      assert t in s.threads && s.threads[t] == Closing(Some(l));
    }
  }

  lemma TakeStep(s: State, t: Tid, s': State, l: LoggerId)
    requires Apply(s, Proceed(t)) == Some(s') && s.threads[t].Retiring?
    ensures BeingClosed(s', l) <==> BeingClosed(s, l) || s.slot == Some(l)
    ensures s'.closed == s.closed && s'.builds == s.builds && s'.slot == None
  {
    assert s'.threads[t] == Closing(s.slot);
    if BeingClosed(s, l) {
      var u :| u in s.threads && s.threads[u] == Closing(Some(l));
      assert u in s'.threads && s'.threads[u] == Closing(Some(l));
    }
    if BeingClosed(s', l) && s.slot != Some(l) {
      var u :| u in s'.threads && s'.threads[u] == Closing(Some(l));
      assert u in s.threads && s.threads[u] == Closing(Some(l));
    }
  }

  lemma OneHolder(s: State, t: Tid, u: Tid)
    requires Inv(s) && t in s.threads && u in s.threads && HoldsMutex(s.threads[t]) && HoldsMutex(s.threads[u])
    ensures t == u
  {
  }

  lemma ClosingHoldsMutex(s: State, l: LoggerId)
    requires BeingClosed(s, l)
    ensures MutexHeld(s)
  {
    var t :| t in s.threads && s.threads[t] == Closing(Some(l));
    assert HoldsMutex(s.threads[t]);
  }

  /** The only closing thread finishes: what it took is closed now. */
  lemma CloseStep(s: State, t: Tid, s': State, l: LoggerId)
    requires Inv(s) && Apply(s, Proceed(t)) == Some(s') && s.threads[t].Closing?
    ensures !BeingClosed(s', l)
    ensures BeingClosed(s, l) <==> s.threads[t] == Closing(Some(l))
    ensures s'.closed == if s.threads[t].taken.Some? then s.closed + {s.threads[t].taken.value} else s.closed
    ensures s'.builds == s.builds && s'.slot == s.slot
  {
    if BeingClosed(s', l) {
      var u :| u in s'.threads && s'.threads[u] == Closing(Some(l));
      OneHolder(s, u, t);
    }
    if BeingClosed(s, l) {
      var u :| u in s.threads && s.threads[u] == Closing(Some(l));
      OneHolder(s, u, t);
    }
  }

  lemma AccountedStep(s: State, a: Action, s': State)
    requires Inv(s) && Accounted(s) && Apply(s, a) == Some(s')
    ensures Accounted(s')
  {
    forall l: LoggerId
      ensures l < s'.builds ==> s'.slot == Some(l) || BeingClosed(s', l) || l in s'.closed
      ensures BeingClosed(s', l) ==> l < s'.builds && s'.slot != Some(l) && l !in s'.closed
    {
      if a.Proceed? && s.threads[a.tid].Retiring? {
        TakeStep(s, a.tid, s', l);
      } else if a.Proceed? && s.threads[a.tid].Closing? {
        CloseStep(s, a.tid, s', l);
      } else {
        OtherStep(s, a, s', l);
      }
    }
  }

  lemma {:induction false} AccountedRun(s: State, actions: seq<Action>, s': State)
    requires Inv(s) && Accounted(s) && Run(s, actions) == Some(s')
    ensures Inv(s') && Accounted(s')
    decreases |actions|
  {
    if actions != [] {
      var next := Apply(s, actions[0]).value;
      AccountedStep(s, actions[0], next);
      StepInv(s, actions[0], next);
      AccountedRun(next, actions[1..], s');
    }
  }

  /** In every reachable state each logger built is in the slot, being closed, or closed, and in
      one of these places only. */
  lemma EveryLoggerIsAccounted(s: State, l: LoggerId)
    requires Reachable(s) && l < s.builds
    ensures s.slot == Some(l) || BeingClosed(s, l) || l in s.closed
    ensures !(s.slot == Some(l) && BeingClosed(s, l))
    ensures !(s.slot == Some(l) && l in s.closed) && !(BeingClosed(s, l) && l in s.closed)
  {
    var actions :| Run(START, actions) == Some(s);
    AccountedRun(START, actions, s);
  }

  /** When no thread is retiring or closing, the logger in the slot is the only one open. */
  lemma OnlyTheSlotIsOpen(s: State, l: LoggerId)
    requires Reachable(s) && l < s.builds && !MutexHeld(s)
    ensures l in s.closed <==> s.slot != Some(l)
  {
    EveryLoggerIsAccounted(s, l);
    if BeingClosed(s, l) { ClosingHoldsMutex(s, l); }
  }

  /** No logger is closed twice. */
  lemma ClosedOnce(s: State, t: Tid, l: LoggerId)
    requires Reachable(s) && t in s.threads && s.threads[t] == Closing(Some(l))
    ensures l !in s.closed
  {
    var actions :| Run(START, actions) == Some(s);
    AccountedRun(START, actions, s);
    assert BeingClosed(s, l);
  }

  // ---------- What single threads achieve ----------

  /** Dropping the last guard, undisturbed, empties the slot and closes its logger. */
  lemma LastDropCloses(s: State, t: Tid, l: LoggerId)
    requires t in s.threads && s.threads[t].Live? && s.guards == 1 && s.slot == Some(l)
    requires !ReadLocked(s) && !MutexHeld(s)
    ensures Run(s, [Drop(t), Proceed(t), Proceed(t), Proceed(t)])
            == Some(s.(slot := None, closed := s.closed + {l}, guards := 0, threads := s.threads - {t}))
  {
    var s1 := Set(s, t, Releasing);
    var s2 := Set(s1, t, Retiring).(guards := 0);
    var s3 := Set(s2, t, Closing(Some(l))).(slot := None);
    var s4 := End(s3, t).(closed := s.closed + {l});
    assert Apply(s, Drop(t)) == Some(s1);
    assert Apply(s1, Proceed(t)) == Some(s2);
    assert Apply(s2, Proceed(t)) == Some(s3);
    assert Apply(s3, Proceed(t)) == Some(s4);
    assert s4.threads == s.threads - {t};
    RunFour(s, Drop(t), s1, Proceed(t), s2, Proceed(t), s3, Proceed(t), s4);
  }

  lemma RunFour(s: State, a: Action, s1: State, b: Action, s2: State, c: Action, s3: State, d: Action, s4: State)
    requires Apply(s, a) == Some(s1) && Apply(s1, b) == Some(s2) && Apply(s2, c) == Some(s3) && Apply(s3, d) == Some(s4)
    ensures Run(s, [a, b, c, d]) == Some(s4)
  {
    assert [a, b, c, d][1..] == [b, c, d] && [b, c, d][1..] == [c, d] && [c, d][1..] == [d] && [d][1..] == [];
    assert Run(s4, []) == Some(s4);
    assert Run(s3, [d]) == Some(s4);
    assert Run(s2, [c, d]) == Some(s4);
  }

  /** A thread with something to log, undisturbed, emits into the slot's logger within three steps,
      building one if the slot is empty. */
  lemma SeekerEmits(s: State, t: Tid)
    requires t in s.threads && s.threads[t].Seeking? && !ReadLocked(s)
    ensures var owner := s.threads[t].owner;
            if s.slot.Some? then
              Run(s, [Proceed(t)]) == Some(Set(s, t, Emitting(owner, s.slot.value)))
            else
              Run(s, [Proceed(t), Proceed(t), Proceed(t)])
              == Some(Set(s, t, Emitting(owner, s.builds)).(slot := Some(s.builds), builds := s.builds + 1))
  {
    var owner := s.threads[t].owner;
    if s.slot.Some? {
      assert [Proceed(t)][1..] == [];
    } else {
      var s1 := Set(s, t, Building(owner));
      var s2 := Set(s1, t, Seeking(owner)).(slot := Some(s.builds), builds := s.builds + 1);
      var s3 := Set(s2, t, Emitting(owner, s.builds));
      assert Apply(s, Proceed(t)) == Some(s1);
      assert Apply(s1, Proceed(t)) == Some(s2);
      assert Apply(s2, Proceed(t)) == Some(s3);
      var p := Proceed(t);
      assert [p, p, p][1..] == [p, p] && [p, p][1..] == [p] && [p][1..] == [];
      assert Run(s2, [p]) == Some(s3);
      assert Run(s1, [p, p]) == Some(s3);
      assert s3.threads == s.threads[t := Emitting(owner, s.builds)];
    }
  }

  lemma RunThree(s: State, a: Action, s1: State, b: Action, s2: State, c: Action, s3: State)
    requires Apply(s, a) == Some(s1) && Apply(s1, b) == Some(s2) && Apply(s2, c) == Some(s3)
    ensures Run(s, [a, b, c]) == Some(s3)
  {
    assert [a, b, c][1..] == [b, c] && [b, c][1..] == [c] && [c][1..] == [];
    assert Run(s2, [c]) == Some(s3);
  }

  /** Logging an error with a logger in the slot, undisturbed, starts, emits and leaves no trace. */
  lemma EmitterComesAndGoes(s: State, t: Tid)
    requires t !in s.threads && s.slot.Some?
    ensures Run(s, [Emit(t), Proceed(t), Proceed(t)]) == Some(s)
  {
    var s1 := Set(s, t, Seeking(false));
    var s2 := Set(s1, t, Emitting(false, s.slot.value));
    RunThree(s, Emit(t), s1, Proceed(t), s2, Proceed(t), s.(threads := s2.threads - {t}));
    assert s2.threads - {t} == s.threads;
  }

  /** An initialisation, undisturbed, counts its guard, emits and returns it. */
  lemma InitBecomesLive(s: State, t: Tid)
    requires t !in s.threads && s.slot.Some? && !MutexHeld(s)
    ensures Run(s, [Init(t), Proceed(t), Proceed(t), Proceed(t)])
            == Some(s.(guards := s.guards + 1, threads := s.threads[t := Live]))
  {
    var s1 := Set(s, t, Registering);
    var s2 := Set(s1, t, Seeking(true)).(guards := s.guards + 1);
    var s3 := Set(s2, t, Emitting(true, s.slot.value));
    var s4 := Set(s3, t, Live);
    MutexStaysFree(s, t);
    RunFour(s, Init(t), s1, Proceed(t), s2, Proceed(t), s3, Proceed(t), s4);
    assert s4.threads == s.threads[t := Live];
  }

  lemma MutexStaysFree(s: State, t: Tid)
    requires !MutexHeld(s)
    ensures !MutexHeld(Set(s, t, Registering))
  {
    var s1 := Set(s, t, Registering);
    forall u | u in s1.threads ensures !HoldsMutex(s1.threads[u]) {
      if u != t { assert s1.threads[u] == s.threads[u]; }
    }
  }
}
