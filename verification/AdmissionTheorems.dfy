/** What admission guarantees over every run of calls (src/lib.rs). */
module AdmissionTheorems {
  import opened Wrappers
  import opened Admission

  datatype Call = Call(subject: string, now: Instant, victim: string)

  datatype Entry = Entry(subject: string, time: Instant)

  /** Windows after a run of calls, with the log of admitted calls in order. */
  datatype Outcome = Outcome(windows: Windows, log: seq<Entry>, verdict: Verdict)

  function Run(calls: seq<Call>): Outcome {
    if calls == [] then Outcome(EMPTY, [], Admitted)
    else
      var before, c := Run(calls[..|calls| - 1]), calls[|calls| - 1];
      var (w, v) := Check(before.windows, c.subject, c.now, c.victim);
      Outcome(w, Logged(before.log, c, v), v)
  }

  /** The greatest sample so far. */
  function Latest(calls: seq<Call>): Instant {
    if calls == [] then 0
    else
      var before, now := Latest(calls[..|calls| - 1]), calls[|calls| - 1].now;
      if before <= now then now else before
  }

  // ---------- The accounting invariant, for samples in any order ----------

  /** Times of the entries of one subject. */
  function Of(log: seq<Entry>, subject: string): seq<Instant> {
    if log == [] then []
    else (if log[0].subject == subject then [log[0].time] else []) + Of(log[1..], subject)
  }

  function Times(log: seq<Entry>): seq<Instant> {
    if log == [] then [] else [log[0].time] + Times(log[1..])
  }

  /** `held` is the end of `full`, and everything before it had expired by `latest`. */
  predicate Tail(held: seq<Instant>, full: seq<Instant>, latest: Instant) {
    && |held| <= |full| && held == full[|full| - |held|..]
    && forall i :: 0 <= i < |full| - |held| ==> full[i] + WINDOW <= latest
  }

  ghost predicate SubjectOk(w: Windows, log: seq<Entry>, g: nat, latest: Instant, subject: string)
    requires g <= |log|
  {
    && Tail(Held(w, subject), Of(log[g..], subject), latest)
    && |Held(w, subject)| <= PER_SUBJECT
    && (subject in w.bySubject ==> w.bySubject[subject] != [])
  }

  /** The global deque holds the admitted calls from position g on. */
  ghost predicate Accounts(w: Windows, log: seq<Entry>, g: nat, latest: Instant) {
    && g <= |log|
    && w.all == Times(log[g..])
    && (forall i :: 0 <= i < g ==> log[i].time + WINDOW <= latest)
    && (forall s :: SubjectOk(w, log, g, latest, s))
    && |w.all| <= GLOBAL
  }

  lemma {:induction false} DiscardSpec(ts: seq<Instant>, now: Instant) returns (k: nat)
    ensures k <= |ts| && DiscardExpired(ts, now) == ts[k..]
    ensures forall i :: 0 <= i < k ==> ts[i] + WINDOW <= now
    ensures k < |ts| ==> now < ts[k] + WINDOW
  {
    if ts != [] && Expired(ts[0], now) {
      var j := DiscardSpec(ts[1..], now);
      k := j + 1;
    } else {
      k := 0;
    }
  }

  lemma {:induction false} TimesSpec(log: seq<Entry>)
    ensures |Times(log)| == |log| && forall i :: 0 <= i < |log| ==> Times(log)[i] == log[i].time
  {
    if log != [] { TimesSpec(log[1..]); }
  }

  lemma {:induction false} OfAppend(log: seq<Entry>, e: Entry, subject: string)
    ensures Of(log + [e], subject) == Of(log, subject) + (if e.subject == subject then [e.time] else [])
  {
    var end := if e.subject == subject then [e.time] else [];
    if log == [] {
      assert log + [e] == [e] && Of([e][1..], subject) == [];
      assert end + [] == [] + end;
    } else {
      var start, rest := if log[0].subject == subject then [log[0].time] else [], log[1..];
      assert (log + [e])[0] == log[0] && (log + [e])[1..] == rest + [e];
      OfAppend(rest, e, subject);
      assert start + (Of(rest, subject) + end) == start + Of(rest, subject) + end;
    }
  }

  lemma TailOfTail(held: seq<Instant>, full: seq<Instant>, latest: Instant, now: Instant)
    requires Tail(held, full, latest)
    ensures Tail(DiscardExpired(held, now), full, if latest <= now then now else latest)
    ensures var rest := DiscardExpired(held, now); rest != [] ==> now < rest[0] + WINDOW
  {
    var k := DiscardSpec(held, now);
    var n := |full| - |held|;
    forall i | 0 <= i < n + k ensures full[i] + WINDOW <= (if latest <= now then now else latest) {
      if i >= n { assert held[i - n] == full[i]; }
    }
  }

  /** An expired time at the front of the full list is not among those still held. */
  lemma TailSurvivesPop(held: seq<Instant>, t: Instant, rest: seq<Instant>, latest: Instant, now: Instant)
    requires Tail(held, [t] + rest, latest) && t + WINDOW <= now
    requires held != [] ==> now < held[0] + WINDOW
    ensures Tail(held, rest, latest)
  {
    var full := [t] + rest;
    assert |held| == |full| ==> held == full;
    assert full[|full| - |held|..] == rest[|rest| - |held|..];
    forall i | 0 <= i < |rest| - |held| ensures rest[i] + WINDOW <= latest { assert rest[i] == full[i + 1]; }
  }

  /** Dropping expired entries from the front of the log cannot cut into what a subject still holds. */
  lemma {:induction false} TailSurvivesPops(held: seq<Instant>, log: seq<Entry>, g: nat, k: nat, subject: string,
                                            latest: Instant, now: Instant)
    requires g + k <= |log| && Tail(held, Of(log[g..], subject), latest)
    requires forall i :: g <= i < g + k ==> log[i].time + WINDOW <= now
    requires held != [] ==> now < held[0] + WINDOW
    ensures Tail(held, Of(log[g + k..], subject), latest)
    decreases k
  {
    if k > 0 {
      var rest := Of(log[g + 1..], subject);
      assert log[g..][0] == log[g] && log[g..][1..] == log[g + 1..];
      if log[g].subject == subject {
        TailSurvivesPop(held, log[g].time, rest, latest, now);
      } else {
        assert Of(log[g..], subject) == rest;
      }
      TailSurvivesPops(held, log, g + 1, k - 1, subject, latest, now);
    }
  }

  lemma SweepAccounts(w: Windows, log: seq<Entry>, g: nat, latest: Instant, now: Instant) returns (g': nat)
    requires Accounts(w, log, g, latest)
    ensures Accounts(Swept(w, now), log, g', if latest <= now then now else latest)
  {
    var later := if latest <= now then now else latest;
    var k := DiscardSpec(w.all, now);
    TimesSpec(log[g..]);
    g' := g + k;
    TimesDrop(log[g..], k);
    assert log[g..][k..] == log[g'..];
    forall i | 0 <= i < g' ensures log[i].time + WINDOW <= later {
      if i >= g { assert w.all[i - g] == log[g..][i - g].time; }
    }
    assert forall i :: g <= i < g' ==> log[i].time + WINDOW <= now by {
      forall i | g <= i < g' ensures log[i].time + WINDOW <= now { assert w.all[i - g] == log[g..][i - g].time; }
    }
    forall s ensures SubjectOk(Swept(w, now), log, g', later, s) {
      assert SubjectOk(w, log, g, latest, s);
      SweepSubject(w, log, g, k, latest, now, s);
    }
  }

  lemma TimesDrop(log: seq<Entry>, k: nat)
    requires k <= |log|
    ensures |Times(log)| == |log| && Times(log)[k..] == Times(log[k..])
  {
    TimesSpec(log);
    TimesSpec(log[k..]);
  }

  lemma SweepSubject(w: Windows, log: seq<Entry>, g: nat, k: nat, latest: Instant, now: Instant, s: string)
    requires g + k <= |log| && SubjectOk(w, log, g, latest, s)
    requires forall i :: g <= i < g + k ==> log[i].time + WINDOW <= now
    ensures SubjectOk(Swept(w, now), log, g + k, if latest <= now then now else latest, s)
  {
    var held := DiscardExpired(Held(w, s), now);
    assert Held(Swept(w, now), s) == held;
    TailOfTail(Held(w, s), Of(log[g..], s), latest, now);
    TailSurvivesPops(held, log, g, k, s, if latest <= now then now else latest, now);
    var _ := DiscardSpec(Held(w, s), now);
  }

  // ---------- Tracked subjects and the eviction branch ----------

  ghost function Subjects(log: seq<Entry>): set<string> {
    if log == [] then {} else {log[0].subject} + Subjects(log[1..])
  }

  lemma {:induction false} FewSubjects(log: seq<Entry>)
    ensures |Subjects(log)| <= |log|
  {
    if log != [] { FewSubjects(log[1..]); }
  }

  lemma {:induction false} OfSubjects(log: seq<Entry>, s: string)
    requires Of(log, s) != []
    ensures s in Subjects(log)
  {
    if log[0].subject != s { OfSubjects(log[1..], s); }
  }

  /** No more subjects are tracked than calls are held. */
  lemma TrackedSubjects(w: Windows, log: seq<Entry>, g: nat, latest: Instant)
    requires Accounts(w, log, g, latest)
    ensures |w.bySubject| <= |w.all|
  {
    var window := log[g..];
    forall s | s in w.bySubject ensures s in Subjects(window) {
      assert SubjectOk(w, log, g, latest, s);
      OfSubjects(window, s);
    }
    FewSubjects(window);
    TimesSpec(window);
    SubsetSize(w.bySubject.Keys, Subjects(window));
    assert |w.bySubject| == |w.bySubject.Keys|;
  }

  lemma TimesAppend(log: seq<Entry>, e: Entry)
    ensures Times(log + [e]) == Times(log) + [e.time]
  {
    TimesSpec(log);
    TimesSpec(log + [e]);
  }

  lemma TailAppend(held: seq<Instant>, full: seq<Instant>, latest: Instant, t: Instant)
    requires Tail(held, full, latest)
    ensures Tail(held + [t], full + [t], latest)
  {
    assert (full + [t])[|full| - |held|..] == full[|full| - |held|..] + [t];
  }

  lemma AdmitSubject(w: Windows, log: seq<Entry>, g: nat, latest: Instant, e: Entry, s: string)
    requires g <= |log| && SubjectOk(w, log, g, latest, s) && |Held(w, e.subject)| < PER_SUBJECT
    ensures SubjectOk(Windows(w.all + [e.time], w.bySubject[e.subject := Held(w, e.subject) + [e.time]]),
                      log + [e], g, latest, s)
  {
    var w' := Windows(w.all + [e.time], w.bySubject[e.subject := Held(w, e.subject) + [e.time]]);
    var full, held := Of(log[g..], s), Held(w, s);
    assert (log + [e])[g..] == log[g..] + [e];
    OfAppend(log[g..], e, s);
    if s == e.subject {
      TailAppend(held, full, latest, e.time);
      assert Held(w', s) == held + [e.time];
    } else {
      assert full + [] == full;
      assert Held(w', s) == held;
    }
  }

  lemma AdmitAccounts(w: Windows, log: seq<Entry>, g: nat, latest: Instant, e: Entry)
    requires Accounts(w, log, g, latest) && |w.all| < GLOBAL && |Held(w, e.subject)| < PER_SUBJECT
    ensures Accounts(Windows(w.all + [e.time], w.bySubject[e.subject := Held(w, e.subject) + [e.time]]),
                     log + [e], g, latest)
  {
    var w' := Windows(w.all + [e.time], w.bySubject[e.subject := Held(w, e.subject) + [e.time]]);
    assert (log + [e])[g..] == log[g..] + [e];
    TimesAppend(log[g..], e);
    forall s ensures SubjectOk(w', log + [e], g, latest, s) {
      assert SubjectOk(w, log, g, latest, s);
      AdmitSubject(w, log, g, latest, e, s);
    }
  }

  function Logged(log: seq<Entry>, c: Call, v: Verdict): seq<Entry> {
    if v.Admitted? then log + [Entry(c.subject, c.now)] else log
  }

  lemma CallAccounts(w: Windows, log: seq<Entry>, g: nat, latest: Instant, c: Call) returns (g': nat)
    requires Accounts(w, log, g, latest)
    ensures var (w', v) := Check(w, c.subject, c.now, c.victim);
            Accounts(w', Logged(log, c, v), g', if latest <= c.now then c.now else latest)
    ensures !EvictionReached(Swept(w, c.now), c.subject)
  {
    var swept, later := Swept(w, c.now), if latest <= c.now then c.now else latest;
    g' := SweepAccounts(w, log, g, latest, c.now);
    TrackedSubjects(swept, log, g', later);
    if |swept.all| < GLOBAL && |Held(swept, c.subject)| < PER_SUBJECT {
      AdmitAccounts(swept, log, g', later, Entry(c.subject, c.now));
    }
  }

  /** Every run accounts exactly for its admitted calls. */
  lemma {:induction false} RunAccounts(calls: seq<Call>) returns (g: nat)
    ensures Accounts(Run(calls).windows, Run(calls).log, g, Latest(calls))
  {
    if calls == [] {
      g := 0;
      assert forall s :: SubjectOk(EMPTY, [], 0, 0, s);
    } else {
      var rest, c := calls[..|calls| - 1], calls[|calls| - 1];
      var g0 := RunAccounts(rest);
      g := CallAccounts(Run(rest).windows, Run(rest).log, g0, Latest(rest), c);
    }
  }

  /** For samples in any order: each timestamp held for a subject is still held globally (as
      the end of that subject's calls in the global deque), no subject is tracked with an
      empty deque, tracked subjects never outnumber held calls, and the next call never
      reaches the eviction branch. */
  lemma EvictionIsNeverReached(calls: seq<Call>, subject: string, now: Instant) returns (g: nat)
    ensures var o := Run(calls);
            && g <= |o.log| && o.windows.all == Times(o.log[g..])
            && (forall s :: s in o.windows.bySubject ==>
                  o.windows.bySubject[s] != [] && Tail(o.windows.bySubject[s], Of(o.log[g..], s), Latest(calls)))
            && |o.windows.bySubject| <= |o.windows.all| <= 500
            && !EvictionReached(Swept(o.windows, now), subject)
  {
    var o := Run(calls);
    g := RunAccounts(calls);
    TrackedSubjects(o.windows, o.log, g, Latest(calls));
    forall s | s in o.windows.bySubject
      ensures o.windows.bySubject[s] != [] && Tail(o.windows.bySubject[s], Of(o.log[g..], s), Latest(calls))
    {
      assert SubjectOk(o.windows, o.log, g, Latest(calls), s);
    }
    var _ := CallAccounts(o.windows, o.log, g, Latest(calls), Call(subject, now, ""));
  }

  // ---------- Quotas ----------

  /** The admitted call lies in the ten minutes that end at `at`. */
  predicate InWindow(e: Entry, at: Instant) {
    e.time <= at < e.time + 600 * 1_000_000_000
  }

  /** Admitted calls in the window that ends at `at`; all of them, or one subject's. */
  function Fresh(log: seq<Entry>, at: Instant): nat {
    if log == [] then 0 else (if InWindow(log[0], at) then 1 else 0) + Fresh(log[1..], at)
  }

  function FreshOf(log: seq<Entry>, subject: string, at: Instant): nat {
    if log == [] then 0
    else (if log[0].subject == subject && InWindow(log[0], at) then 1 else 0) + FreshOf(log[1..], subject, at)
  }

  lemma {:induction false} FreshBound(log: seq<Entry>, g: nat, at: Instant)
    requires g <= |log| && forall i :: 0 <= i < g ==> log[i].time + WINDOW <= at
    ensures Fresh(log, at) <= |log| - g
  {
    if log != [] {
      FreshBound(log[1..], if g == 0 then 0 else g - 1, at);
    }
  }

  lemma {:induction false} FreshOfBound(log: seq<Entry>, subject: string, k: nat, at: Instant)
    requires k <= |Of(log, subject)| && forall i :: 0 <= i < k ==> Of(log, subject)[i] + WINDOW <= at
    ensures FreshOf(log, subject, at) <= |Of(log, subject)| - k
  {
    if log != [] {
      var full, rest := Of(log, subject), Of(log[1..], subject);
      if log[0].subject == subject {
        assert full == [log[0].time] + rest && full[0] == log[0].time;
        assert forall i :: 0 <= i < |rest| ==> rest[i] == full[i + 1];
        FreshOfBound(log[1..], subject, if k == 0 then 0 else k - 1, at);
      } else {
        assert full == rest;
        FreshOfBound(log[1..], subject, k, at);
      }
    }
  }

  lemma {:induction false} FreshOfSkip(log: seq<Entry>, g: nat, subject: string, at: Instant)
    requires g <= |log| && forall i :: 0 <= i < g ==> log[i].time + WINDOW <= at
    ensures FreshOf(log, subject, at) == FreshOf(log[g..], subject, at)
  {
    if g > 0 {
      FreshOfSkip(log[1..], g - 1, subject, at);
      assert log[1..][g - 1..] == log[g..];
    } else {
      assert log[0..] == log;
    }
  }

  /** For samples in any order: measured at the greatest sample so far, at most 500 admitted
      calls overall and 5 of any one subject are younger than ten minutes. */
  lemma QuotasHold(calls: seq<Call>, subject: string)
    ensures Fresh(Run(calls).log, Latest(calls)) <= 500
    ensures FreshOf(Run(calls).log, subject, Latest(calls)) <= 5
  {
    var o := Run(calls);
    var g := RunAccounts(calls);
    FreshBound(o.log, g, Latest(calls));
    TimesSpec(o.log[g..]);
    FreshOfSkip(o.log, g, subject, Latest(calls));
    assert SubjectOk(o.windows, o.log, g, Latest(calls), subject);
    var full, held := Of(o.log[g..], subject), Held(o.windows, subject);
    FreshOfBound(o.log[g..], subject, |full| - |held|, Latest(calls));
  }

  ghost predicate Nondecreasing(calls: seq<Call>) {
    forall i, j :: 0 <= i < j < |calls| ==> calls[i].now <= calls[j].now
  }

  lemma {:induction false} LatestIsLast(calls: seq<Call>)
    requires Nondecreasing(calls) && calls != []
    ensures Latest(calls) == calls[|calls| - 1].now
  {
    if |calls| > 1 {
      LatestIsLast(calls[..|calls| - 1]);
    }
  }

  /** With samples in order, at every call at most 500 admitted calls overall and 5 of any
      one subject lie within the ten minutes before it. */
  lemma QuotasHoldInOrder(calls: seq<Call>, subject: string)
    requires Nondecreasing(calls) && calls != []
    ensures Fresh(Run(calls).log, calls[|calls| - 1].now) <= 500
    ensures FreshOf(Run(calls).log, subject, calls[|calls| - 1].now) <= 5
  {
    LatestIsLast(calls);
    QuotasHold(calls, subject);
  }

  // ---------- Admission decided by counting ----------

  /** Instants in the window that ends at `at`. */
  function Within(ts: seq<Instant>, at: Instant): nat {
    if ts == [] then 0 else (if ts[0] <= at < ts[0] + 600 * 1_000_000_000 then 1 else 0) + Within(ts[1..], at)
  }

  lemma {:induction false} FreshIsWithin(log: seq<Entry>, at: Instant)
    ensures Fresh(log, at) == Within(Times(log), at)
  {
    if log != [] {
      FreshIsWithin(log[1..], at);
    }
  }

  lemma {:induction false} FreshOfIsWithin(log: seq<Entry>, subject: string, at: Instant)
    ensures FreshOf(log, subject, at) == Within(Of(log, subject), at)
  {
    if log != [] {
      FreshOfIsWithin(log[1..], subject, at);
      if log[0].subject == subject {
        assert Of(log, subject)[1..] == Of(log[1..], subject);
      } else {
        assert Of(log, subject) == Of(log[1..], subject);
      }
    }
  }

  /** Expired instants at the front count nothing. */
  lemma {:induction false} WithinSkips(ts: seq<Instant>, k: nat, at: Instant)
    requires k <= |ts| && forall i :: 0 <= i < k ==> ts[i] + WINDOW <= at
    ensures Within(ts, at) == Within(ts[k..], at)
  {
    if k > 0 {
      WithinSkips(ts[1..], k - 1, at);
      assert ts[1..][k - 1..] == ts[k..];
    } else {
      assert ts[0..] == ts;
    }
  }

  predicate Ordered(ts: seq<Instant>) {
    forall i, j :: 0 <= i < j < |ts| ==> ts[i] <= ts[j]
  }

  lemma {:induction false} AllWithin(ts: seq<Instant>, at: Instant)
    requires forall i :: 0 <= i < |ts| ==> ts[i] <= at < ts[i] + WINDOW
    ensures Within(ts, at) == |ts|
  {
    if ts != [] {
      AllWithin(ts[1..], at);
    }
  }

  /** Sweeping ordered instants of the past leaves as many as lie in the window. */
  lemma SweepCounts(ts: seq<Instant>, at: Instant)
    requires Ordered(ts) && forall i :: 0 <= i < |ts| ==> ts[i] <= at
    ensures |DiscardExpired(ts, at)| == Within(ts, at)
  {
    var k := DiscardSpec(ts, at);
    WithinSkips(ts, k, at);
    AllWithin(ts[k..], at);
  }

  lemma {:induction false} LogIsOrdered(calls: seq<Call>)
    requires Nondecreasing(calls)
    ensures forall i, j :: 0 <= i < j < |Run(calls).log| ==> Run(calls).log[i].time <= Run(calls).log[j].time
  {
    if calls != [] {
      var before, c := calls[..|calls| - 1], calls[|calls| - 1];
      LogIsOrdered(before);
      if before != [] { LatestIsLast(before); }
      forall i | 0 <= i < |Run(before).log| ensures Run(before).log[i].time <= c.now { LogIsPast(before, i); }
    }
  }

  lemma {:induction false} OfIsOrdered(log: seq<Entry>, subject: string, at: Instant)
    requires forall i, j :: 0 <= i < j < |log| ==> log[i].time <= log[j].time
    requires forall i :: 0 <= i < |log| ==> log[i].time <= at
    ensures Ordered(Of(log, subject)) && forall i :: 0 <= i < |Of(log, subject)| ==> Of(log, subject)[i] <= at
    ensures log != [] ==> forall i :: 0 <= i < |Of(log, subject)| ==> log[0].time <= Of(log, subject)[i]
  {
    if log != [] {
      OfIsOrdered(log[1..], subject, at);
      if |log| > 1 { assert log[1].time >= log[0].time; }
    }
  }

  lemma TailCounts(held: seq<Instant>, full: seq<Instant>, latest: Instant, at: Instant)
    requires Tail(held, full, latest) && latest <= at && Ordered(full)
    requires forall i :: 0 <= i < |full| ==> full[i] <= at
    ensures |DiscardExpired(held, at)| == Within(full, at)
  {
    var n := |full| - |held|;
    SuffixOrdered(full, n, at);
    SweepCounts(held, at);
    WithinSkips(full, n, at);
  }

  lemma SuffixOrdered(full: seq<Instant>, n: nat, at: Instant)
    requires n <= |full| && Ordered(full) && forall i :: 0 <= i < |full| ==> full[i] <= at
    ensures Ordered(full[n..]) && forall i :: 0 <= i < |full[n..]| ==> full[n..][i] <= at
  {
  }

  lemma GlobalCount(w: Windows, log: seq<Entry>, g: nat, latest: Instant, at: Instant)
    requires g <= |log| && w.all == Times(log[g..]) && latest <= at
    requires forall i :: 0 <= i < g ==> log[i].time + WINDOW <= latest
    requires forall i, j :: 0 <= i < j < |log| ==> log[i].time <= log[j].time
    requires forall i :: 0 <= i < |log| ==> log[i].time <= at
    ensures |DiscardExpired(w.all, at)| == Fresh(log, at)
  {
    TimesSpec(log);
    TimesDrop(log, g);
    FreshIsWithin(log, at);
    TailCounts(w.all, Times(log), latest, at);
  }

  lemma SubjectCount(w: Windows, log: seq<Entry>, g: nat, latest: Instant, at: Instant, subject: string)
    requires g <= |log| && SubjectOk(w, log, g, latest, subject) && latest <= at
    requires forall i :: 0 <= i < g ==> log[i].time + WINDOW <= latest
    requires forall i, j :: 0 <= i < j < |log| ==> log[i].time <= log[j].time
    requires forall i :: 0 <= i < |log| ==> log[i].time <= at
    ensures |DiscardExpired(Held(w, subject), at)| == FreshOf(log, subject, at)
  {
    OfIsOrdered(log[g..], subject, at);
    FreshOfSkip(log, g, subject, at);
    FreshOfIsWithin(log[g..], subject, at);
    TailCounts(Held(w, subject), Of(log[g..], subject), latest, at);
  }

  /** With samples in order a call is admitted exactly when fewer than 500 admitted calls, and fewer
      than 5 of its subject, lie in the ten minutes before it. */
  lemma AdmittedByCounting(calls: seq<Call>, c: Call)
    requires Nondecreasing(calls + [c])
    ensures Check(Run(calls).windows, c.subject, c.now, c.victim).1.Admitted? <==>
              Fresh(Run(calls).log, c.now) < 500 && FreshOf(Run(calls).log, c.subject, c.now) < 5
  {
    var w, log := Run(calls).windows, Run(calls).log;
    OrderedPrefix(calls, c);
    var g := RunAccounts(calls);
    LogIsOrdered(calls);
    forall i | 0 <= i < |log| ensures log[i].time <= c.now { LogIsPast(calls, i); }
    AdmittedExactly(w, log, g, Latest(calls), c);
    GlobalCount(w, log, g, Latest(calls), c.now);
    assert SubjectOk(w, log, g, Latest(calls), c.subject);
    SubjectCount(w, log, g, Latest(calls), c.now, c.subject);
  }

  lemma OrderedPrefix(calls: seq<Call>, c: Call)
    requires Nondecreasing(calls + [c])
    ensures Nondecreasing(calls) && Latest(calls) <= c.now
  {
    forall i, j | 0 <= i < j < |calls| ensures calls[i].now <= calls[j].now {
      assert (calls + [c])[i] == calls[i] && (calls + [c])[j] == calls[j];
    }
    if calls != [] {
      LatestIsLast(calls);
      assert (calls + [c])[|calls| - 1] == calls[|calls| - 1] && (calls + [c])[|calls|] == c;
    }
  }

  // ---------- Rejected calls ----------

  lemma DiscardTwice(ts: seq<Instant>, n1: Instant, n2: Instant)
    requires n1 <= n2
    ensures DiscardExpired(DiscardExpired(ts, n1), n2) == DiscardExpired(ts, n2)
  {
    if ts != [] && Expired(ts[0], n1) {
      DiscardTwice(ts[1..], n1, n2);
    }
  }

  lemma SweepTwice(w: Windows, n1: Instant, n2: Instant)
    requires n1 <= n2
    ensures Swept(Swept(w, n1), n2) == Swept(w, n2)
  {
    DiscardTwice(w.all, n1, n2);
    forall s | s in w.bySubject
      ensures DiscardExpired(DiscardExpired(w.bySubject[s], n1), n2) == DiscardExpired(w.bySubject[s], n2)
    {
      DiscardTwice(w.bySubject[s], n1, n2);
    }
    var once, twice := Swept(w, n2).bySubject, Swept(Swept(w, n1), n2).bySubject;
    assert forall s :: s in once <==> s in twice;
  }

  /** A rejected call consumes no quota: a call with a sample no earlier is decided, and leaves
      the windows, as if the rejected one had not been made. */
  lemma RejectionConsumesNothing(calls: seq<Call>, rejected: Call, next: Call)
    requires Check(Run(calls).windows, rejected.subject, rejected.now, rejected.victim).1.RateLimited?
    requires rejected.now <= next.now
    ensures var w := Run(calls).windows;
            Check(Check(w, rejected.subject, rejected.now, rejected.victim).0, next.subject, next.now, next.victim)
            == Check(w, next.subject, next.now, next.victim)
  {
    var w := Run(calls).windows;
    var _ := EvictionIsNeverReached(calls, rejected.subject, rejected.now);
    SweepTwice(w, rejected.now, next.now);
  }

  lemma DiscardAgain(ts: seq<Instant>, n1: Instant, n2: Instant)
    ensures |DiscardExpired(DiscardExpired(ts, n1), n2)| <= |DiscardExpired(ts, n2)|
  {
    if n1 <= n2 {
      DiscardTwice(ts, n1, n2);
    } else {
      var k := DiscardSpec(ts, n1);
      var m := DiscardSpec(ts, n2);
      var _ := DiscardSpec(ts[k..], n2);
    }
  }

  lemma HeldIsDiscarded(w: Windows, now: Instant, subject: string)
    ensures Held(Swept(w, now), subject) == DiscardExpired(Held(w, subject), now)
  {
  }

  /** In an accounted state a call is admitted exactly when both swept windows have room. */
  lemma AdmittedExactly(w: Windows, log: seq<Entry>, g: nat, latest: Instant, c: Call)
    requires Accounts(w, log, g, latest)
    ensures Check(w, c.subject, c.now, c.victim).1.Admitted? <==>
              |DiscardExpired(w.all, c.now)| < GLOBAL && |DiscardExpired(Held(w, c.subject), c.now)| < PER_SUBJECT
    ensures Check(w, c.subject, c.now, c.victim).1.RateLimited? ==>
              Check(w, c.subject, c.now, c.victim).0 == Swept(w, c.now)
  {
    var _ := CallAccounts(w, log, g, latest, c);
    HeldIsDiscarded(w, c.now, c.subject);
  }

  /** For samples in any order a rejected call never costs a later one its admission. */
  lemma RejectionNeverCosts(calls: seq<Call>, rejected: Call, next: Call)
    requires Check(Run(calls).windows, rejected.subject, rejected.now, rejected.victim).1.RateLimited?
    requires Check(Run(calls).windows, next.subject, next.now, next.victim).1.Admitted?
    ensures var after := Check(Run(calls).windows, rejected.subject, rejected.now, rejected.victim).0;
            Check(after, next.subject, next.now, next.victim).1.Admitted?
  {
    var g := RunAccounts(calls);
    NeverCosts(Run(calls).windows, Run(calls).log, g, Latest(calls), rejected, next);
  }

  lemma NeverCosts(w: Windows, log: seq<Entry>, g: nat, latest: Instant, rejected: Call, next: Call)
    requires Accounts(w, log, g, latest)
    requires Check(w, rejected.subject, rejected.now, rejected.victim).1.RateLimited?
    requires Check(w, next.subject, next.now, next.victim).1.Admitted?
    ensures var after := Check(w, rejected.subject, rejected.now, rejected.victim).0;
            Check(after, next.subject, next.now, next.victim).1.Admitted?
  {
    var after := Swept(w, rejected.now);
    var later := if latest <= rejected.now then rejected.now else latest;
    var g1 := SweepAccounts(w, log, g, latest, rejected.now);
    AdmittedExactly(w, log, g, latest, rejected);
    AdmittedExactly(w, log, g, latest, next);
    AdmittedExactly(after, log, g1, later, next);
    HeldIsDiscarded(w, rejected.now, next.subject);
    DiscardAgain(w.all, rejected.now, next.now);
    DiscardAgain(Held(w, next.subject), rejected.now, next.now);
  }

  // ---------- The retry hint ----------

  /** The hint for a window whose earliest timestamp is given: one second past a window that has
      expired, 601 for a timestamp of the present or the future, and between them just enough. */
  lemma HintSpec(earliest: Instant, now: Instant)
    ensures var hint := RetryAfter(earliest, now);
            && 1 <= hint <= 601
            && (earliest >= now ==> hint == 601)
            && (earliest + 600 * 1_000_000_000 <= now ==> hint == 1)
            && (earliest <= now < earliest + 600 * 1_000_000_000 ==>
                  && earliest + 600 * 1_000_000_000 < now + hint * 1_000_000_000
                  && now + (hint - 1) * 1_000_000_000 <= earliest + 600 * 1_000_000_000)
  {
    if earliest <= now < earliest + WINDOW {
      var left := WINDOW - (now - earliest);
      assert left == left / SECOND * SECOND + left % SECOND;
    }
  }

  lemma FrontLeaves(ts: seq<Instant>, now: Instant)
    requires ts != [] && ts[0] + WINDOW <= now
    ensures |DiscardExpired(ts, now)| < |ts|
  {
    var k := DiscardSpec(ts, now);
  }

  /** Samples in order: every admitted time is at most the current sample. */
  lemma {:induction false} LogIsPast(calls: seq<Call>, i: nat)
    requires i < |Run(calls).log|
    ensures Run(calls).log[i].time <= Latest(calls)
  {
    var rest := calls[..|calls| - 1];
    if i < |Run(rest).log| {
      LogIsPast(rest, i);
    }
  }

  /** The windows a call meets after a run and then rejected calls only. */
  function AfterRejections(w: Windows, calls: seq<Call>): Windows
    decreases |calls|
  {
    if calls == [] then w
    else AfterRejections(Check(w, calls[0].subject, calls[0].now, calls[0].victim).0, calls[1..])
  }

  ghost predicate AllRejected(w: Windows, calls: seq<Call>)
    decreases |calls|
  {
    calls != [] ==>
      var (w', v) := Check(w, calls[0].subject, calls[0].now, calls[0].victim);
      v.RateLimited? && AllRejected(w', calls[1..])
  }

  /** Rejected calls with samples in order only sweep. */
  lemma {:induction false} RejectionsOnlySweep(w: Windows, log: seq<Entry>, g: nat, latest: Instant, calls: seq<Call>,
                                               now: Instant)
    requires Accounts(w, log, g, latest) && AllRejected(w, calls)
    requires forall i :: 0 <= i < |calls| ==> calls[i].now <= now
    ensures Swept(AfterRejections(w, calls), now) == Swept(w, now)
    decreases |calls|
  {
    if calls != [] {
      var c := calls[0];
      var g' := CallAccounts(w, log, g, latest, c);
      var w' := Check(w, c.subject, c.now, c.victim).0;
      assert w' == Swept(w, c.now);
      RejectionsOnlySweep(w', log, g', if latest <= c.now then c.now else latest, calls[1..], now);
      SweepTwice(w, c.now, now);
    }
  }

  /** A refused call gets a hint of 1 to 601 seconds. A caller that waits that long, while
      nobody else is admitted, passes the gate that refused it; one second less would not
      always do, for the blocking call expires no earlier than the hint minus one second. */
  lemma HintIsSufficient(calls: seq<Call>, refused: Call, between: seq<Call>, later: Instant)
    requires Nondecreasing(calls + [refused])
    requires Run(calls + [refused]).verdict.RateLimited?
    requires AllRejected(Run(calls + [refused]).windows, between)
    requires forall i :: 0 <= i < |between| ==> between[i].now <= later
    requires later >= refused.now + Run(calls + [refused]).verdict.retryAfter * SECOND
    ensures 1 <= Run(calls + [refused]).verdict.retryAfter <= 601
    ensures var w, after := Run(calls + [refused]).windows,
              Swept(AfterRejections(Run(calls + [refused]).windows, between), later);
            if |w.all| >= GLOBAL then
              |after.all| < GLOBAL
              && refused.now + (Run(calls + [refused]).verdict.retryAfter - 1) * SECOND <= w.all[0] + WINDOW
            else
              |Held(after, refused.subject)| < PER_SUBJECT && Held(w, refused.subject) != []
              && refused.now + (Run(calls + [refused]).verdict.retryAfter - 1) * SECOND
                 <= Held(w, refused.subject)[0] + WINDOW
  {
    var all := calls + [refused];
    assert all[..|calls|] == calls;
    var before, w := Run(calls), Run(all).windows;
    var g := RunAccounts(all);
    LatestIsLast(all);
    RejectionsOnlySweep(w, Run(all).log, g, Latest(all), between, later);
    var g0 := RunAccounts(calls);
    var _ := CallAccounts(before.windows, before.log, g0, Latest(calls), refused);
    assert w == Swept(before.windows, refused.now) && Run(all).log == before.log;
    var gate := if |w.all| >= GLOBAL then w.all else Held(w, refused.subject);
    assert SubjectOk(w, Run(all).log, g, Latest(all), refused.subject);
    FrontIsFresh(before.windows, refused.now, refused.subject);
    FrontIsPast(all, g, refused.subject);
    HintSpec(gate[0], refused.now);
    FrontLeaves(gate, later);
  }

  lemma FrontIsFresh(w: Windows, now: Instant, s: string)
    ensures Swept(w, now).all != [] ==> now < Swept(w, now).all[0] + WINDOW
    ensures Held(Swept(w, now), s) != [] ==> now < Held(Swept(w, now), s)[0] + WINDOW
  {
    var _ := DiscardSpec(w.all, now);
    var _ := DiscardSpec(Held(w, s), now);
  }

  lemma FrontIsPast(calls: seq<Call>, g: nat, s: string)
    requires Accounts(Run(calls).windows, Run(calls).log, g, Latest(calls))
    ensures Run(calls).windows.all != [] ==> Run(calls).windows.all[0] <= Latest(calls)
    ensures Held(Run(calls).windows, s) != [] ==> Held(Run(calls).windows, s)[0] <= Latest(calls)
  {
    var o := Run(calls);
    TimesSpec(o.log[g..]);
    if o.windows.all != [] { LogIsPast(calls, g); }
    assert SubjectOk(o.windows, o.log, g, Latest(calls), s);
    var full, held := Of(o.log[g..], s), Held(o.windows, s);
    if held != [] {
      var i := OfIndex(o.log[g..], s, |full| - |held|);
      LogIsPast(calls, g + i);
    }
  }

  lemma {:induction false} OfIndex(log: seq<Entry>, s: string, k: nat) returns (i: nat)
    requires k < |Of(log, s)|
    ensures i < |log| && log[i] == Entry(s, Of(log, s)[k])
  {
    if log[0].subject == s && k == 0 {
      i := 0;
    } else {
      var j := OfIndex(log[1..], s, if log[0].subject == s then k - 1 else k);
      i := j + 1;
    }
  }
}
