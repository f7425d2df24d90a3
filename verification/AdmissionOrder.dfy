/**
 When the quotas hold at a call's own sample (src/lib.rs). The clock is read before the mutex
 is taken, so a call may be overtaken: an earlier entry into the mutex carries a later sample.
 */
module AdmissionOrder {
  import opened Admission
  import opened AdmissionTheorems

  // ---------- Where the quotas hold ----------

  lemma LatestAppend(calls: seq<Call>, c: Call)
    ensures Latest(calls + [c]) == if Latest(calls) <= c.now then c.now else Latest(calls)
  {
    assert (calls + [c])[..|calls|] == calls;
  }

  /** A call that is not overtaken finds both quotas kept in the window that ends at its sample. */
  lemma QuotasHoldUnlessOvertaken(calls: seq<Call>, c: Call, subject: string)
    requires Latest(calls) <= c.now
    ensures Fresh(Run(calls + [c]).log, c.now) <= 500
    ensures FreshOf(Run(calls + [c]).log, subject, c.now) <= 5
  {
    LatestAppend(calls, c);
    QuotasHold(calls + [c], subject);
  }

  lemma {:induction false} FreshAtMost(log: seq<Entry>, subject: string, at: Instant, late: Instant)
    requires forall i :: 0 <= i < |log| ==> InWindow(log[i], late)
    ensures Fresh(log, at) <= Fresh(log, late) && FreshOf(log, subject, at) <= FreshOf(log, subject, late)
  {
    if log != [] {
      FreshAtMost(log[1..], subject, at, late);
    }
  }

  /** Nothing expires in the first ten minutes of the clock, so the quotas hold for any order of samples. */
  lemma QuotasHoldAtTheStart(calls: seq<Call>, c: Call, subject: string)
    requires Latest(calls) < WINDOW && c.now < WINDOW
    ensures Fresh(Run(calls + [c]).log, c.now) <= 500
    ensures FreshOf(Run(calls + [c]).log, subject, c.now) <= 5
  {
    var all := calls + [c];
    LatestAppend(calls, c);
    forall i | 0 <= i < |Run(all).log| ensures InWindow(Run(all).log[i], Latest(all)) {
      LogIsPast(all, i);
    }
    FreshAtMost(Run(all).log, subject, c.now, Latest(all));
    QuotasHold(all, subject);
  }

  // ---------- Where they fail ----------

  lemma RunAppend(calls: seq<Call>, c: Call)
    ensures var (w, v) := Check(Run(calls).windows, c.subject, c.now, c.victim);
            Run(calls + [c]) == Outcome(w, Logged(Run(calls).log, c, v), v)
  {
    assert (calls + [c])[..|calls|] == calls;
  }

  /** A call that meets room in both swept windows is admitted. */
  lemma RunAdmits(calls: seq<Call>, c: Call, w: Windows)
    requires Swept(Run(calls).windows, c.now) == w
    requires |w.all| < GLOBAL && |w.bySubject| < MAX_SUBJECTS && |Held(w, c.subject)| < PER_SUBJECT
    ensures Run(calls + [c]).windows == Windows(w.all + [c.now], w.bySubject[c.subject := Held(w, c.subject) + [c.now]])
    ensures Run(calls + [c]).log == Run(calls).log + [Entry(c.subject, c.now)]
  {
    RunAppend(calls, c);
  }

  lemma SweepSame(w: Windows, now: Instant)
    requires w.all != [] ==> !Expired(w.all[0], now)
    requires forall s :: s in w.bySubject ==> w.bySubject[s] != [] && !Expired(w.bySubject[s][0], now)
    ensures Swept(w, now) == w
  {
    assert forall s :: s in w.bySubject ==> DiscardExpired(w.bySubject[s], now) == w.bySubject[s];
    assert Swept(w, now).bySubject == w.bySubject;
  }

  predicate AllAt(ts: seq<Instant>, t: Instant) {
    forall i :: 0 <= i < |ts| ==> ts[i] == t
  }

  /** Everything held is a call at `t`. */
  predicate LoadedAt(w: Windows, t: Instant) {
    AllAt(w.all, t) && forall s :: s in w.bySubject ==> w.bySubject[s] != [] && AllAt(w.bySubject[s], t)
  }

  lemma SweepLoad(w: Windows, t: Instant, later: Instant)
    requires LoadedAt(w, t) && t + WINDOW <= later
    ensures Swept(w, later) == EMPTY
  {
    var _ := DiscardSpec(w.all, later);
    forall s | s in w.bySubject ensures DiscardExpired(w.bySubject[s], later) == [] {
      var _ := DiscardSpec(w.bySubject[s], later);
    }
    assert Swept(w, later).bySubject == map[];
  }

  /** Calls at `t` that are all admitted. */
  ghost predicate Load(calls: seq<Call>, t: Instant) {
    && LoadedAt(Run(calls).windows, t)
    && |Run(calls).log| == |calls| && (forall i :: 0 <= i < |calls| ==> Run(calls).log[i] == Entry(calls[i].subject, t))
    && Latest(calls) <= t
  }

  lemma LoadedMore(w: Windows, t: Instant, subject: string)
    requires LoadedAt(w, t)
    ensures LoadedAt(Windows(w.all + [t], w.bySubject[subject := Held(w, subject) + [t]]), t)
  {
  }

  lemma LoggedMore(calls: seq<Call>, log: seq<Entry>, t: Instant, subject: string)
    requires |log| == |calls| && forall i :: 0 <= i < |calls| ==> log[i] == Entry(calls[i].subject, t)
    ensures var c := Call(subject, t, "");
            |log + [Entry(subject, t)]| == |calls + [c]|
            && forall i :: 0 <= i < |calls + [c]| ==>
                (log + [Entry(subject, t)])[i] == Entry((calls + [c])[i].subject, t)
  {
  }

  /** One more call of a load, while there is room. */
  lemma LoadMore(calls: seq<Call>, t: Instant, subject: string)
    requires Load(calls, t)
    requires var w := Run(calls).windows;
             |w.all| < GLOBAL && |w.bySubject| < MAX_SUBJECTS && |Held(w, subject)| < PER_SUBJECT
    ensures var w, c := Run(calls).windows, Call(subject, t, "");
            && Load(calls + [c], t)
            && Run(calls + [c]).windows == Windows(w.all + [t], w.bySubject[subject := Held(w, subject) + [t]])
  {
    var w, c := Run(calls).windows, Call(subject, t, "");
    SweepSame(w, t);
    RunAdmits(calls, c, w);
    LatestAppend(calls, c);
    LoadedMore(w, t, subject);
    LoggedMore(calls, Run(calls).log, t, subject);
  }

  /** After a load another subject's call at `later` empties the windows, and an overtaken call is admitted. */
  lemma Overtake(calls: seq<Call>, t: Instant, later: Instant, now: Instant)
    requires Load(calls, t) && t + WINDOW <= later && now < later
    ensures var before := calls + [Call("b", later, "")];
            && Latest(before) == later
            && Run(before + [Call("a", now, "")]).log
               == Run(calls).log + [Entry("b", later)] + [Entry("a", now)]
  {
    var before := calls + [Call("b", later, "")];
    LatestAppend(calls, Call("b", later, ""));
    SweepLoad(Run(calls).windows, t, later);
    RunAdmits(calls, Call("b", later, ""), EMPTY);
    var w := Run(before).windows;
    assert EMPTY.all + [later] == [later] && Held(EMPTY, "b") + [later] == [later];
    assert w == Windows([later], map["b" := [later]]);
    SweepSame(w, now);
    assert Held(w, "a") == [] && |w.bySubject| == 1;
    RunAdmits(before, Call("a", now, ""), w);
  }

  lemma {:induction false} FreshAppend(log: seq<Entry>, e: Entry, subject: string, at: Instant)
    ensures Fresh(log + [e], at) == Fresh(log, at) + if InWindow(e, at) then 1 else 0
    ensures FreshOf(log + [e], subject, at)
         == FreshOf(log, subject, at) + if e.subject == subject && InWindow(e, at) then 1 else 0
  {
    if log == [] {
      assert log + [e] == [e] && [e][1..] == [];
    } else {
      assert (log + [e])[0] == log[0] && (log + [e])[1..] == log[1..] + [e];
      FreshAppend(log[1..], e, subject, at);
    }
  }

  lemma {:induction false} FreshAll(log: seq<Entry>, subject: string, at: Instant)
    requires forall i :: 0 <= i < |log| ==> InWindow(log[i], at)
    ensures Fresh(log, at) == |log|
    ensures (forall i :: 0 <= i < |log| ==> log[i].subject == subject) ==> FreshOf(log, subject, at) == |log|
  {
    if log != [] {
      FreshAll(log[1..], subject, at);
    }
  }

  /** The time of a load that is inside the window at `now` and outside it at `later`. */
  function LoadTime(later: Instant, now: Instant): Instant
    requires WINDOW <= later
  {
    if now <= later - WINDOW then now else later - WINDOW
  }

  /** A load of `n` calls and two more exceed `n` in the overtaken call's window. */
  lemma OvertakenCounts(calls: seq<Call>, later: Instant, now: Instant)
    requires WINDOW <= later && now < later && Load(calls, LoadTime(later, now))
    ensures var before := calls + [Call("b", later, "")];
            && Latest(before) == later
            && Fresh(Run(before + [Call("a", now, "")]).log, now) == |calls| + 1
            && ((forall i :: 0 <= i < |calls| ==> calls[i].subject == "a") ==>
                  FreshOf(Run(before + [Call("a", now, "")]).log, "a", now) == |calls| + 1)
  {
    var log := Run(calls).log;
    Overtake(calls, LoadTime(later, now), later, now);
    FreshAll(log, "a", now);
    FreshAppend(log, Entry("b", later), "a", now);
    FreshAppend(log + [Entry("b", later)], Entry("a", now), "a", now);
  }

  // ---------- Loads that fill a quota ----------

  predicate OnlyA(m: map<string, seq<Instant>>) {
    |m| <= 1 && forall s :: s in m ==> s == "a"
  }

  lemma StillOnlyA(m: map<string, seq<Instant>>, ts: seq<Instant>)
    requires OnlyA(m)
    ensures OnlyA(m["a" := ts])
  {
    assert m["a" := ts].Keys == {"a"};
  }

  lemma {:induction false} SubjectLoad(n: nat, t: Instant) returns (calls: seq<Call>)
    requires n <= PER_SUBJECT
    ensures |calls| == n && Load(calls, t) && forall i :: 0 <= i < n ==> calls[i].subject == "a"
    ensures |Run(calls).windows.all| == n == |Held(Run(calls).windows, "a")| && OnlyA(Run(calls).windows.bySubject)
  {
    if n == 0 {
      calls := [];
    } else {
      var before := SubjectLoad(n - 1, t);
      var w := Run(before).windows;
      LoadMore(before, t, "a");
      StillOnlyA(w.bySubject, Held(w, "a") + [t]);
      calls := before + [Call("a", t, "")];
    }
  }

  /** The n-th of infinitely many subjects. */
  function Name(n: nat): (s: string)
    ensures |s| == n
  {
    seq(n, _ => 'x')
  }

  /** Subjects with names shorter than n, at most n of them. */
  predicate Few(m: map<string, seq<Instant>>, n: nat) {
    |m| <= n && forall s :: s in m ==> |s| < n
  }

  lemma OneMoreSubject(m: map<string, seq<Instant>>, n: nat, ts: seq<Instant>)
    requires Few(m, n)
    ensures Name(n) !in m && Few(m[Name(n) := ts], n + 1)
  {
    assert m[Name(n) := ts].Keys == m.Keys + {Name(n)};
  }

  lemma {:induction false} GlobalLoad(n: nat, t: Instant) returns (calls: seq<Call>)
    requires n <= GLOBAL
    ensures |calls| == n && Load(calls, t)
    ensures |Run(calls).windows.all| == n && Few(Run(calls).windows.bySubject, n)
  {
    if n == 0 {
      calls := [];
    } else {
      var before := GlobalLoad(n - 1, t);
      var w := Run(before).windows;
      OneMoreSubject(w.bySubject, n - 1, [] + [t]);
      assert Held(w, Name(n - 1)) == [];
      LoadMore(before, t, Name(n - 1));
      calls := before + [Call(Name(n - 1), t, "")];
    }
  }

  // ---------- Exactly when ----------

  ghost predicate SubjectQuotaAt(calls: seq<Call>, c: Call) {
    forall subject :: FreshOf(Run(calls + [c]).log, subject, c.now) <= 5
  }

  predicate GlobalQuotaAt(calls: seq<Call>, c: Call) {
    Fresh(Run(calls + [c]).log, c.now) <= 500
  }

  /** A sample `now` that is overtaken by `later`, once something can have expired. */
  predicate CanBeBeaten(later: Instant, now: Instant) {
    now < later && 600 * 1_000_000_000 <= later
  }

  lemma SubjectQuotaFails(later: Instant, now: Instant) returns (calls: seq<Call>)
    requires CanBeBeaten(later, now)
    ensures Latest(calls) == later && FreshOf(Run(calls + [Call("a", now, "")]).log, "a", now) == 6
    ensures !SubjectQuotaAt(calls, Call("a", now, ""))
  {
    var load := SubjectLoad(PER_SUBJECT, LoadTime(later, now));
    OvertakenCounts(load, later, now);
    calls := load + [Call("b", later, "")];
  }

  lemma GlobalQuotaFails(later: Instant, now: Instant) returns (calls: seq<Call>)
    requires CanBeBeaten(later, now)
    ensures Latest(calls) == later && Fresh(Run(calls + [Call("a", now, "")]).log, now) == 501
    ensures !GlobalQuotaAt(calls, Call("a", now, ""))
  {
    var load := GlobalLoad(GLOBAL, LoadTime(later, now));
    OvertakenCounts(load, later, now);
    calls := load + [Call("b", later, "")];
  }

  lemma QuotasHoldOtherwise(calls: seq<Call>, c: Call)
    requires !CanBeBeaten(Latest(calls), c.now)
    ensures SubjectQuotaAt(calls, c) && GlobalQuotaAt(calls, c)
  {
    forall subject ensures FreshOf(Run(calls + [c]).log, subject, c.now) <= 5 {
      if Latest(calls) <= c.now { QuotasHoldUnlessOvertaken(calls, c, subject); }
      else { QuotasHoldAtTheStart(calls, c, subject); }
    }
    if Latest(calls) <= c.now { QuotasHoldUnlessOvertaken(calls, c, ""); }
    else { QuotasHoldAtTheStart(calls, c, ""); }
  }

  /**
   The per-subject quota holds at a call with sample `now` for every history with greatest
   sample `later` exactly when the call is not overtaken, or the clock is still in its first
   ten minutes.
   */
  lemma SubjectQuotaExactly(later: Instant, now: Instant)
    ensures (forall calls, c: Call :: Latest(calls) == later && c.now == now ==> SubjectQuotaAt(calls, c))
            <==> !CanBeBeaten(later, now)
  {
    if CanBeBeaten(later, now) {
      var calls := SubjectQuotaFails(later, now);
      assert !SubjectQuotaAt(calls, Call("a", now, ""));
    } else {
      forall calls, c: Call | Latest(calls) == later && c.now == now ensures SubjectQuotaAt(calls, c) {
        QuotasHoldOtherwise(calls, c);
      }
    }
  }

  /** The same for the global quota. */
  lemma GlobalQuotaExactly(later: Instant, now: Instant)
    ensures (forall calls, c: Call :: Latest(calls) == later && c.now == now ==> GlobalQuotaAt(calls, c))
            <==> !CanBeBeaten(later, now)
  {
    if CanBeBeaten(later, now) {
      var calls := GlobalQuotaFails(later, now);
      assert !GlobalQuotaAt(calls, Call("a", now, ""));
    } else {
      forall calls, c: Call | Latest(calls) == later && c.now == now ensures GlobalQuotaAt(calls, c) {
        QuotasHoldOtherwise(calls, c);
      }
    }
  }
}
