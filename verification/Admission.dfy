/**
 Sliding-window admission (`QuoteAdmission` in src/lib.rs). Instants are nanoseconds on a
 monotonic clock. A call samples `now` before it takes the mutex, so samples may reach
 the windows out of order.
 */
module Admission {

  const SECOND: nat := 1_000_000_000
  const WINDOW: nat := 600 * SECOND
  const PER_SUBJECT: nat := 5
  const GLOBAL: nat := 500
  const MAX_SUBJECTS: nat := 4096

  type Instant = nat

  datatype Windows = Windows(all: seq<Instant>, bySubject: map<string, seq<Instant>>)

  datatype Verdict = Admitted | RateLimited(retryAfter: nat)

  const EMPTY := Windows([], map[])

  /** `saturating_duration_since` */
  function Elapsed(now: Instant, t: Instant): nat {
    if t <= now then now - t else 0
  }

  predicate Expired(t: Instant, now: Instant) {
    Elapsed(now, t) >= WINDOW
  }

  function DiscardExpired(ts: seq<Instant>, now: Instant): seq<Instant> {
    if ts != [] && Expired(ts[0], now) then DiscardExpired(ts[1..], now) else ts
  }

  function RetryAfter(earliest: Instant, now: Instant): nat {
    (if Elapsed(now, earliest) >= WINDOW then 0 else WINDOW - Elapsed(now, earliest)) / SECOND + 1
  }

  /** The sweep that opens every call. */
  function Swept(w: Windows, now: Instant): Windows {
    Windows(DiscardExpired(w.all, now),
            map s | s in w.bySubject && DiscardExpired(w.bySubject[s], now) != [] ::
              DiscardExpired(w.bySubject[s], now))
  }

  function Held(w: Windows, subject: string): seq<Instant> {
    if subject in w.bySubject then w.bySubject[subject] else []
  }

  predicate EvictionReached(w: Windows, subject: string) {
    subject !in w.bySubject && |w.bySubject| >= MAX_SUBJECTS
  }

  /** What the code does with swept windows; `victim` is the subject the hash map would
      yield if the eviction branch were reached. */
  function Decide(w: Windows, subject: string, now: Instant, victim: string): (Windows, Verdict) {
    if |w.all| >= GLOBAL then (w, RateLimited(RetryAfter(w.all[0], now)))
    else
      var kept := if EvictionReached(w, subject) then w.bySubject - {victim} else w.bySubject;
      var ts := if subject in kept then kept[subject] else [];
      if |ts| >= PER_SUBJECT then (w.(bySubject := kept), RateLimited(RetryAfter(ts[0], now)))
      else (Windows(w.all + [now], kept[subject := ts + [now]]), Admitted)
  }

  function Check(w: Windows, subject: string, now: Instant, victim: string): (Windows, Verdict) {
    Decide(Swept(w, now), subject, now, victim)
  }

  // ---------- As the code runs it ----------

  /** `discard_expired` */
  method DiscardLoop(timestamps: seq<Instant>, now: Instant) returns (rest: seq<Instant>)
    ensures rest == DiscardExpired(timestamps, now)
  {
    rest := timestamps;
    while rest != [] && Elapsed(now, rest[0]) >= WINDOW
      invariant DiscardExpired(rest, now) == DiscardExpired(timestamps, now)
      decreases |rest|
    {
      rest := rest[1..];
    }
  }

  class QuoteAdmission {
    var all: seq<Instant>
    var bySubject: map<string, seq<Instant>>

    ghost function Contents(): Windows
      reads this
    {
      Windows(all, bySubject)
    }

    constructor ()
      ensures Contents() == EMPTY
    {
      all, bySubject := [], map[];
    }

    /** The subject whose earliest timestamp is least, as `min_by_key` returns one. */
    method OldestSubject() returns (victim: string)
      requires bySubject != map[]
      requires forall s :: s in bySubject ==> bySubject[s] != []
      ensures victim in bySubject
      ensures forall s :: s in bySubject ==> bySubject[victim][0] <= bySubject[s][0]
    {
      victim :| victim in bySubject;
      var rest := bySubject.Keys - {victim};
      while rest != {}
        invariant victim in bySubject && rest <= bySubject.Keys
        invariant forall s :: s in bySubject && s !in rest ==> bySubject[victim][0] <= bySubject[s][0]
        decreases |rest|
      {
        var s :| s in rest;
        if bySubject[s][0] < bySubject[victim][0] { victim := s; }
        rest := rest - {s};
      }
    }

    method CheckSubmission(subject: string, now: Instant) returns (verdict: Verdict, ghost victim: string)
      modifies this
      ensures (Contents(), verdict) == Check(old(Contents()), subject, now, victim)
      ensures var swept := Swept(old(Contents()), now);
              |swept.all| < GLOBAL && EvictionReached(swept, subject) ==>
                victim in swept.bySubject
                && forall s :: s in swept.bySubject ==> swept.bySubject[victim][0] <= swept.bySubject[s][0]
    {
      victim := "";
      all := DiscardLoop(all, now);
      bySubject := map s | s in bySubject && DiscardExpired(bySubject[s], now) != [] ::
        DiscardExpired(bySubject[s], now);
      if |all| >= GLOBAL {
        return RateLimited(RetryAfter(all[0], now)), victim;
      }
      if subject !in bySubject && |bySubject| >= MAX_SUBJECTS {
        var oldest := OldestSubject();
        victim := oldest;
        bySubject := bySubject - {oldest};
      }
      var timestamps := if subject in bySubject then bySubject[subject] else [];
      if |timestamps| >= PER_SUBJECT {
        return RateLimited(RetryAfter(timestamps[0], now)), victim;
      }
      bySubject := bySubject[subject := timestamps + [now]];
      all := all + [now];
      verdict := Admitted;
    }
  }
}
