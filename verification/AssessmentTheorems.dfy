/**
 What every run of assessment submissions and quote writes keeps.
 */
module AssessmentTheorems {
  import opened Wrappers
  import opened Assessments

  // ---------- Steps keep the invariant ----------

  lemma QuoteWriteInv(s: State, at: Key, operation: Operation)
    requires Inv(s) && !operation.Assessment?
    ensures Inv(Step(s, QuoteWrite(at, operation)))
  {
    var t := Step(s, QuoteWrite(at, operation));
    forall k | k in t.operations && t.operations[k].Assessment? ensures EntryIsLive(t, k) {
      assert EntryIsLive(s, k);
      var i :| 0 <= i < |s.records| && IsRecordOf(s.records[i], k, s.operations[k]);
      assert IsRecordOf(t.records[i], k, t.operations[k]);
    }
  }

  /** Evicting from a full queue, when the entry for a record still to be queued is `k`. */
  lemma EvictKeepsEntries(s: State, k: Key)
    requires DistinctKeys(s) && RecordsHoldKeys(s) && |s.records| > 0
    requires forall x :: x in s.operations && s.operations[x].Assessment? && x != k ==> EntryIsLive(s, x)
    requires |s.records| >= CAPACITY
    ensures var t := Evict(s);
            && (forall x :: x in t.operations && t.operations[x].Assessment? && x != k ==> EntryIsLive(t, x))
            && RecordsHoldKeys(t)
  {
    var t := Evict(s);
    var gone := s.records[0];
    forall x | x in t.operations && t.operations[x].Assessment? && x != k ensures EntryIsLive(t, x) {
      var i :| 0 <= i < |s.records| && IsRecordOf(s.records[i], x, s.operations[x]);
      assert i != 0;
      assert t.records[i - 1] == s.records[i];
    }
    forall i | 0 <= i < |t.records| ensures KeyOf(t.records[i]) in t.operations
                                            && (t.operations[KeyOf(t.records[i])].Assessment? ==>
                                                  IsRecordOf(t.records[i], KeyOf(t.records[i]),
                                                             t.operations[KeyOf(t.records[i])]))
    {
      assert t.records[i] == s.records[i + 1];
    }
  }

  lemma CreateInv(s: State, subject: string, key: string, request: Submission, id: nat, now: string)
    requires Inv(s) && (subject, key) !in s.operations
    requires Enabled(s, SubmitAction(subject, key, request, id, now))
    ensures Inv(Submit(s, subject, key, request, id, now).0)
  {
    var k := (subject, key);
    var record := Record(id, subject, key, request, now);
    var entered := s.(operations := s.operations[k := Assessment(id, request)]);
    EnterKeeps(s, k, id, request);
    var room := Evict(entered);
    if |s.records| >= CAPACITY {
      EvictKeepsEntries(entered, k);
    }
    RoomFor(s, k, id, request);
    PushKeeps(room, record);
  }

  lemma EnterKeeps(s: State, k: Key, id: nat, request: Submission)
    requires Inv(s) && k !in s.operations
    ensures var t := s.(operations := s.operations[k := Assessment(id, request)]);
            && RecordsHoldKeys(t) && DistinctKeys(t)
            && forall x :: x in t.operations && t.operations[x].Assessment? && x != k ==> EntryIsLive(t, x)
  {
    var t := s.(operations := s.operations[k := Assessment(id, request)]);
    forall x | x in t.operations && t.operations[x].Assessment? && x != k ensures EntryIsLive(t, x) {
      assert EntryIsLive(s, x);
      var i :| 0 <= i < |s.records| && IsRecordOf(s.records[i], x, s.operations[x]);
      assert IsRecordOf(t.records[i], x, t.operations[x]);
    }
  }

  /** After entering and evicting, the new record fits and clashes with nothing. */
  lemma RoomFor(s: State, k: Key, id: nat, request: Submission)
    requires Inv(s) && k !in s.operations
    requires forall i :: 0 <= i < |s.records| ==> s.records[i].id != id
    ensures var t := Evict(s.(operations := s.operations[k := Assessment(id, request)]));
            && |t.records| < CAPACITY && DistinctIds(t) && DistinctKeys(t)
            && (forall i :: 0 <= i < |t.records| ==> t.records[i].id != id && KeyOf(t.records[i]) != k)
            && k in t.operations && t.operations[k] == Assessment(id, request)
  {
  }

  lemma PushKeeps(s: State, r: Record)
    requires |s.records| < CAPACITY && DistinctIds(s) && DistinctKeys(s) && RecordsHoldKeys(s)
    requires forall x :: x in s.operations && s.operations[x].Assessment? && x != KeyOf(r) ==> EntryIsLive(s, x)
    requires forall i :: 0 <= i < |s.records| ==> s.records[i].id != r.id && KeyOf(s.records[i]) != KeyOf(r)
    requires KeyOf(r) in s.operations && s.operations[KeyOf(r)] == Assessment(r.id, r.submission)
    ensures Inv(s.(records := s.records + [r]))
  {
    var t := s.(records := s.records + [r]);
    forall x | x in t.operations && t.operations[x].Assessment? ensures EntryIsLive(t, x) {
      if x == KeyOf(r) {
        assert IsRecordOf(t.records[|s.records|], x, t.operations[x]);
      } else {
        assert EntryIsLive(s, x);
        var i :| 0 <= i < |s.records| && IsRecordOf(s.records[i], x, s.operations[x]);
        assert t.records[i] == s.records[i];
      }
    }
  }

  lemma StepInv(s: State, a: Action)
    requires Inv(s) && Enabled(s, a)
    ensures Inv(Step(s, a))
  {
    match a {
      case SubmitAction(subject, key, request, id, now) =>
        if (subject, key) !in s.operations {
          CreateInv(s, subject, key, request, id, now);
        }
      case QuoteWrite(at, operation) =>
        QuoteWriteInv(s, at, operation);
    }
  }

  lemma {:induction false} RunInv(s: State, actions: seq<Action>, t: State)
    requires Inv(s) && Run(s, actions, t)
    ensures Inv(t)
    decreases |actions|
  {
    if actions != [] {
      StepInv(s, actions[0]);
      RunInv(Step(s, actions[0]), actions[1..], t);
    }
  }

  /** In every reachable state the queue is bounded and every assessment entry points to a live record. */
  lemma ReachableInv(s: State)
    requires Reachable(s)
    ensures Inv(s) && |s.records| <= 1024
  {
    var actions: seq<Action> :| Run(EMPTY, actions, s);
    RunInv(EMPTY, actions, s);
  }

  // ---------- Theorems ----------

  lemma FindLive(s: State, i: nat)
    requires DistinctIds(s) && i < |s.records|
    ensures Find(s.records, s.records[i].id, s.records[i].subject) == Some(s.records[i])
  {
    var found := Find(s.records, s.records[i].id, s.records[i].subject);
    if found.Some? {
      var j :| 0 <= j < |s.records| && s.records[j] == found.value;
    }
  }

  /**
   The outcome of a call in any reachable state: a free key creates, an entry with the same
   request replays the live record with that key, and everything else is refused unchanged;
   storage is never unavailable.
   */
  lemma OutcomesAreExact(s: State, subject: string, key: string, request: Submission, id: nat, now: string)
    requires Inv(s)
    ensures var (t, outcome) := Submit(s, subject, key, request, id, now);
            && !outcome.StorageUnavailable?
            && (outcome.Created? <==> (subject, key) !in s.operations)
            && (outcome.Replayed? <==>
                  (subject, key) in s.operations && s.operations[(subject, key)].Assessment?
                  && s.operations[(subject, key)].request == request)
            && (outcome.Replayed? ==>
                  t == s && outcome.record in s.records && KeyOf(outcome.record) == (subject, key)
                  && outcome.record.submission == request)
            && (outcome.KeyReused? ==> t == s)
            && (outcome.Created? ==>
                  && outcome.record == Record(id, subject, key, request, now)
                  && t.records == (if |s.records| < 1024 then s.records else s.records[1..]) + [outcome.record]
                  && (subject, key) in t.operations
                  && t.operations[(subject, key)] == Assessment(id, request))
  {
    var k := (subject, key);
    if k in s.operations && s.operations[k].Assessment? {
      assert EntryIsLive(s, k);
      var i :| 0 <= i < |s.records| && IsRecordOf(s.records[i], k, s.operations[k]);
      FindLive(s, i);
    }
  }

  /** A creation touches one other entry at most: that of the evicted record, and only if it is its own. */
  lemma EvictionTakesOnlyItsOwnEntry(s: State, subject: string, key: string, request: Submission, id: nat,
                                     now: string, k: Key)
    requires Inv(s) && (subject, key) !in s.operations && k in s.operations
    ensures var t := Submit(s, subject, key, request, id, now).0;
            && (k in t.operations ==> t.operations[k] == s.operations[k])
            && (k !in t.operations <==>
                  |s.records| == 1024 && IsRecordOf(s.records[0], k, s.operations[k]))
  {
    if |s.records| == CAPACITY && k == KeyOf(s.records[0]) && OwnsEntry(s.operations, s.records[0]) {
      assert IsRecordOf(s.records[0], k, s.operations[k]);
    }
  }

  /** A quote handler's write takes its key over: every submission with that key is then refused,
      whatever was there, and all other keys are answered as before. */
  lemma QuoteWriteTakesKey(s: State, at: Key, operation: Operation, subject: string, key: string,
                           request: Submission, id: nat, now: string)
    requires !operation.Assessment?
    ensures var t := Step(s, QuoteWrite(at, operation));
            && t.records == s.records
            && ((subject, key) == at ==> Submit(t, subject, key, request, id, now) == (t, KeyReused))
            && ((subject, key) != at ==>
                  Submit(t, subject, key, request, id, now).1 == Submit(s, subject, key, request, id, now).1)
  {
  }

  // ---------- How long a replay lasts ----------

  function Creates(s: State, a: Action): nat {
    if a.SubmitAction? && (a.subject, a.key) !in s.operations then 1 else 0
  }

  /** Creations in a run. */
  ghost function Creations(s: State, actions: seq<Action>): nat
    decreases |actions|
  {
    if actions == [] then 0 else Creates(s, actions[0]) + Creations(Step(s, actions[0]), actions[1..])
  }

  predicate Writes(actions: seq<Action>, k: Key) {
    exists i :: 0 <= i < |actions| && actions[i].QuoteWrite? && actions[i].at == k
  }

  /** The entry and the record of `k`, the latter `n` places from the end. */
  predicate Holds(s: State, r: Record, n: nat) {
    n < |s.records| && s.records[|s.records| - 1 - n] == r && OwnsEntry(s.operations, r)
    && s.operations[KeyOf(r)].request == r.submission
  }

  lemma StepHolds(s: State, a: Action, r: Record, n: nat)
    requires Inv(s) && Enabled(s, a) && Holds(s, r, n)
    requires a.QuoteWrite? ==> a.at != KeyOf(r)
    ensures var more := Creates(s, a); n + more < CAPACITY ==> Holds(Step(s, a), r, n + more)
  {
  }

  lemma {:induction false} RunHolds(s: State, actions: seq<Action>, t: State, r: Record, n: nat)
    requires Inv(s) && Run(s, actions, t) && Holds(s, r, n) && !Writes(actions, KeyOf(r))
    requires n + Creations(s, actions) < CAPACITY
    ensures Holds(t, r, n + Creations(s, actions))
    decreases |actions|
  {
    if actions != [] {
      var a, rest := actions[0], actions[1..];
      StepHolds(s, a, r, n);
      StepInv(s, a);
      assert forall i :: 0 <= i < |rest| ==> rest[i] == actions[i + 1];
      RunHolds(Step(s, a), rest, t, r, n + Creates(s, a));
    }
  }

  /**
   A created record is replayed to every later call with its key and request, and any other
   request for the key is refused, through fewer than 1024 further creations.
   */
  lemma ReplayLasts(s: State, a: Action, actions: seq<Action>, t: State, request: Submission, id: nat, now: string)
    requires Inv(s) && Enabled(s, a) && a.SubmitAction? && (a.subject, a.key) !in s.operations
    requires Run(Step(s, a), actions, t) && !Writes(actions, (a.subject, a.key))
    requires Creations(Step(s, a), actions) < 1024
    ensures Submit(t, a.subject, a.key, request, id, now) ==
              (t, if request == a.request then Replayed(Record(a.id, a.subject, a.key, a.request, a.now))
                  else KeyReused)
  {
    var r := Record(a.id, a.subject, a.key, a.request, a.now);
    var s1 := Step(s, a);
    StepInv(s, a);
    RoomFor(s, KeyOf(r), a.id, a.request);
    assert Holds(s1, r, 0);
    RunHolds(s1, actions, t, r, 0);
    RunInv(s1, actions, t);
    FindLive(t, |t.records| - 1 - Creations(s1, actions));
  }

  /** The 1024th further creation evicts it and frees its key. */
  lemma ReplayEnds(s: State, a: Action, r: Record)
    requires Inv(s) && Enabled(s, a) && Holds(s, r, 1023)
    requires a.SubmitAction? && (a.subject, a.key) !in s.operations
    ensures KeyOf(r) !in Step(s, a).operations && r !in Step(s, a).records
  {
    var t := Step(s, a);
    assert s.records[0] == r;
    forall i | 0 <= i < |t.records| ensures t.records[i] != r {
      assert i < |s.records| - 1 ==> t.records[i] == s.records[i + 1];
    }
  }
}
