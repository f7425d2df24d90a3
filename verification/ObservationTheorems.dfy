/** What the observation ledger guarantees in every reachable state. */
module ObservationTheorems {
  import opened Wrappers
  import opened Text
  import opened Timestamps
  import opened ObservationLedger
  import opened ObservationChain
  import opened ObservationProtocol

  /** Every stream has sequences exactly 1..n, distinct event ids, and each record links to
      the digest of the one before it, the first to the zero digest. */
  lemma StreamsAreChains(world: World, s: State, owner: string, source: string)
    requires Reachable(world, s)
    ensures var stream := StreamOf(s.rows, owner, source);
            && (forall i :: 0 <= i < |stream| ==> stream[i].sequence == i + 1)
            && (forall i, j :: 0 <= i < j < |stream| ==> stream[i].event != stream[j].event)
            && (stream != [] ==> stream[0].prior == ZERO_RECORD_DIGEST)
            && (forall i :: 0 < i < |stream| ==> stream[i].prior == stream[i - 1].record)
  {
    ReachableInv(world, s);
    var stream := StreamOf(s.rows, owner, source);
    assert Chain(world.sha, stream);
    forall i | 0 <= i < |stream|
      ensures stream[i].sequence == i + 1
      ensures stream[i].prior == if i == 0 then ZERO_RECORD_DIGEST else stream[i - 1].record
    {
      assert LinkOk(world.sha, stream, i);
      assert i > 0 ==> stream[..i][i - 1] == stream[i - 1];
    }
    if stream != [] { assert LinkOk(world.sha, stream, 0); }
  }

  lemma OpenRowsDiffer(world: World, s: State, pid: Pid, other: Pid, row: Row)
    requires ProcsOk(world.sha, s) && pid in s.procs && other in s.procs && other != pid
    requires !s.procs[pid].stage.Waiting? && s.procs[other].stage.Written?
    requires row.owner == s.procs[pid].delivery.owner && row.source == s.procs[pid].delivery.source
    requires row.receipt == s.procs[pid].delivery.receipt
    ensures var open := s.procs[other].stage.row;
            open.receipt != row.receipt && !(open.owner == row.owner && open.source == row.source)
  {
    assert Apart(s.procs[pid], s.procs[other]) && ProcOk(world.sha, s.rows, s.procs[other]);
    assert Holds(s.procs[pid], row.owner, row.source);
  }

  lemma PlacedStep(world: World, s: State, pid: Pid, s': State)
    requires LedgerOk(world.sha, s.rows) && pid in s.procs && s.procs[pid].stage.Placed?
    requires ProcOk(world.sha, s.rows, s.procs[pid]) && Apply(world, s, Advance(pid)) == Some(s')
    ensures pid in s'.procs && s'.procs[pid].stage.Written?
    ensures s'.procs[pid].stage.row == NewRow(world.sha, s.procs[pid].stage.prior, s.procs[pid].delivery)
    ensures ClearOf(s.rows, s'.procs[pid].stage.row)
  {
    InsertCannotFail(world.sha, s.rows, s.procs[pid].delivery);
  }

  /** No INSERT ever meets one of the table's uniqueness constraints, against committed rows
      or against rows another open transaction has written. */
  lemma ConstraintsNeverFire(world: World, s: State, pid: Pid, s': State)
    requires Reachable(world, s) && pid in s.procs && s.procs[pid].stage.Placed?
    requires Apply(world, s, Advance(pid)) == Some(s')
    ensures pid in s'.procs && s'.procs[pid].stage.Written?
    ensures ClearOf(s.rows, s'.procs[pid].stage.row)
    ensures forall other :: other in s.procs && other != pid && s.procs[other].stage.Written? ==>
              var row, open := s'.procs[pid].stage.row, s.procs[other].stage.row;
              open.receipt != row.receipt && !(open.owner == row.owner && open.source == row.source)
  {
    ReachableInv(world, s);
    PlacedStep(world, s, pid, s');
    forall other | other in s.procs && other != pid && s.procs[other].stage.Written?
      ensures var row, open := s'.procs[pid].stage.row, s.procs[other].stage.row;
              open.receipt != row.receipt && !(open.owner == row.owner && open.source == row.source)
    {
      OpenRowsDiffer(world, s, pid, other, s'.procs[pid].stage.row);
    }
  }

  lemma {:induction false} EventsDiffer(sha: Sha256, rows: seq<Row>, i: nat, j: nat)
    requires LedgerOk(sha, rows) && i < j < |rows|
    requires rows[i].owner == rows[j].owner && rows[i].source == rows[j].source
    ensures rows[i].event != rows[j].event
  {
    var prefix := rows[..|rows| - 1];
    if j < |rows| - 1 {
      PrefixLedger(sha, rows);
      EventsDiffer(sha, prefix, i, j);
    } else {
      var owner, source := rows[i].owner, rows[i].source;
      var n := IndexInStream(prefix, i, owner, source);
      var stream := StreamOf(rows, owner, source);
      assert Chain(sha, stream) && stream == StreamOf(prefix, owner, source) + [rows[j]];
      assert stream[n] == rows[i] && stream[|stream| - 1] == rows[j];
    }
  }

  lemma RowOfEvent(sha: Sha256, rows: seq<Row>, i: nat, j: nat)
    requires LedgerOk(sha, rows) && i < |rows| && j < |rows|
    requires rows[i].owner == rows[j].owner && rows[i].source == rows[j].source && rows[i].event == rows[j].event
    ensures i == j
  {
    if i < j {
      EventsDiffer(sha, rows, i, j);
    } else if j < i {
      EventsDiffer(sha, rows, j, i);
    }
  }

  lemma PrefixLedger(sha: Sha256, rows: seq<Row>)
    requires LedgerOk(sha, rows) && rows != []
    ensures LedgerOk(sha, rows[..|rows| - 1])
  {
    var prefix := rows[..|rows| - 1];
    forall owner, source ensures Chain(sha, StreamOf(prefix, owner, source)) {
      var s, s0 := StreamOf(rows, owner, source), StreamOf(prefix, owner, source);
      assert Chain(sha, s);
      ChainPrefix(sha, s, |s0|);
      assert s[..|s0|] == s0;
    }
  }

  // ---------- Receipts ----------

  /** One event id of a stream is accepted at most once. Every replay of it is answered with
      the receipt id of the acceptance and one and the same text, the stored form of the
      instant of acceptance; a conflict has other content. */
  lemma ReceiptsAreStable(world: World, s: State, a: Pid, b: Pid)
    requires Reachable(world, s) && a in s.replies && b in s.replies && s.replies[a].outcome.Accepted?
    requires var x, y := s.replies[a].delivery, s.replies[b].delivery;
             x.owner == y.owner && x.source == y.source && x.event == y.event
    ensures var x, y, outcome := s.replies[a].delivery, s.replies[b].delivery, s.replies[b].outcome;
            && s.replies[a].outcome == Accepted(x.receipt, RfcText(x.receivedAt))
            && (outcome.Accepted? ==> a == b)
            && (outcome.Duplicate? ==>
                  outcome == Duplicate(x.receipt, world.stored(x.receivedAt))
                  && x.payload == y.payload && x.sequence == y.sequence)
            && (outcome.EventConflict? ==> !(x.payload == y.payload && x.sequence == y.sequence))
  {
    ReachableInv(world, s);
    var x, y := s.replies[a], s.replies[b];
    assert ReplyOk(world, s, a, x) && ReplyOk(world, s, b, y);
    var i :| 0 <= i < |s.rows| && i < |s.authors| && s.authors[i] == a && Records(s.rows[i], x.delivery);
    OnlyRow(world.sha, s.rows, i, y.delivery);
    if y.outcome.Accepted? {
      var j :| 0 <= j < |s.rows| && j < |s.authors| && s.authors[j] == b && Records(s.rows[j], y.delivery);
      assert j == i;
    }
  }

  lemma OnlyRow(sha: Sha256, rows: seq<Row>, i: nat, d: Delivery)
    requires LedgerOk(sha, rows) && i < |rows| && SameEvent(rows[i], d)
    ensures forall j :: 0 <= j < |rows| && SameEvent(rows[j], d) ==> j == i
    ensures forall r :: r in rows && SameEvent(r, d) ==> r == rows[i]
  {
    forall j | 0 <= j < |rows| && SameEvent(rows[j], d) ensures j == i {
      RowOfEvent(sha, rows, i, j);
    }
  }

  /** A replay from the database repeats the time text of the acceptance exactly when that
      text has six fraction digits. */
  lemma ReplayTextExactly(sha: Sha256, round: Stamp -> MicroStamp, s: State, a: Pid, b: Pid)
    requires KeepsMicros(round) && Reachable(Database(sha, round), s)
    requires a in s.replies && b in s.replies && s.replies[a].outcome.Accepted? && s.replies[b].outcome.Duplicate?
    requires var x, y := s.replies[a].delivery, s.replies[b].delivery;
             x.owner == y.owner && x.source == y.source && x.event == y.event
    ensures s.replies[b].outcome.receivedAt == s.replies[a].outcome.receivedAt
            <==> SixDigits(s.replies[a].delivery.receivedAt.nano)
  {
    ReceiptsAreStable(Database(sha, round), s, a, b);
    PrintedBackExactly(round, s.replies[a].delivery.receivedAt);
  }

  /** An acceptance on a whole second is replayed with another text. */
  lemma WholeSecondIsReprinted(sha: Sha256, round: Stamp -> MicroStamp, r: Row, d: Delivery)
    requires KeepsMicros(round) && r.receivedAt.nano == 0 && SameContent(r, d)
    ensures Replayed(Database(sha, round), r, d) == Duplicate(r.receipt, SecondText(r.receivedAt.clock) + ".000000Z")
    ensures RfcText(r.receivedAt) == SecondText(r.receivedAt.clock) + "Z"
  {
    ZeroFraction();
    assert round(r.receivedAt) == MicroStamp(r.receivedAt.clock, 0);
  }

  // ---------- One delivery alone ----------

  lemma RecordedIsFound(sha: Sha256, rows: seq<Row>, d: Delivery, r: Row)
    requires Chain(sha, StreamOf(rows, d.owner, d.source)) && r in StreamOf(rows, d.owner, d.source)
    requires r.event == d.event
    ensures FindEvent(rows, d.owner, d.source, d.event) == Some(r)
  {
    var stream := StreamOf(rows, d.owner, d.source);
    FindEventInStream(rows, d.owner, d.source, d.event);
    var i :| 0 <= i < |stream| && stream[i] == r;
    var found := FindEvent(rows, d.owner, d.source, d.event).value;
    var j :| 0 <= j < |stream| && stream[j] == found;
  }

  /** An event that is recorded is replayed when payload and sequence agree, and conflicts otherwise. */
  lemma IngestRecorded(world: World, rows: seq<Row>, d: Delivery, r: Row)
    requires LedgerOk(world.sha, rows) && r in StreamOf(rows, d.owner, d.source) && r.event == d.event
    ensures Ingest(world, rows, d, None) ==
              (rows, if r.payload == d.payload && r.sequence == d.sequence
                     then Duplicate(r.receipt, world.stored(r.receivedAt)) else EventConflict)
  {
    assert Chain(world.sha, StreamOf(rows, d.owner, d.source));
    RecordedIsFound(world.sha, rows, d, r);
  }

  /** The new record has the delivery's fields and the digest of the record before it. */
  predicate Extends(r: Row, d: Delivery, prior: string) {
    && r.owner == d.owner && r.source == d.source && r.event == d.event && r.sequence == d.sequence
    && r.payload == d.payload && r.receipt == d.receipt && r.receivedAt == d.receivedAt && r.prior == prior
  }

  /** A new event is recorded exactly when its sequence is the next one of its stream. */
  lemma IngestNew(world: World, rows: seq<Row>, d: Delivery)
    requires LedgerOk(world.sha, rows) && Absent(StreamOf(rows, d.owner, d.source), d.event)
    ensures var (rows', outcome) := Ingest(world, rows, d, None);
            var stream := StreamOf(rows, d.owner, d.source);
            if d.sequence == |stream| + 1 && |stream| < 9_223_372_036_854_775_807 then
              outcome == Accepted(d.receipt, RfcText(d.receivedAt))
              && |rows'| == |rows| + 1 && rows'[..|rows|] == rows && Extends(rows'[|rows|], d, Head(stream))
            else rows' == rows && outcome == SequenceConflict
  {
    var stream := StreamOf(rows, d.owner, d.source);
    assert Chain(world.sha, stream);
    FindEventInStream(rows, d.owner, d.source, d.event);
    NextInStream(world.sha, rows, d.owner, d.source);
    HeadIsCursor(world.sha, rows, d.owner, d.source);
  }

  /** A bound on the number of records changes one thing: what would have been recorded in a full
      store is refused as unavailable, and nothing is stored. */
  lemma IngestBounded(world: World, rows: seq<Row>, d: Delivery, capacity: nat)
    ensures var (free, answer) := Ingest(world, rows, d, None);
            Ingest(world, rows, d, Some(capacity)) ==
              if answer.Accepted? && |rows| >= capacity then (rows, StorageUnavailable) else (free, answer)
  {
  }

  lemma HeadIsCursor(sha: Sha256, rows: seq<Row>, owner: string, source: string)
    requires Chain(sha, StreamOf(rows, owner, source))
    ensures PriorDigest(Cursor(rows, owner, source)) == Head(StreamOf(rows, owner, source))
  {
    CursorInStream(sha, rows, owner, source);
  }

  lemma ZeroLabel(d: Digest)
    requires forall k :: 0 <= k < 32 ==> d[k] == 0
    ensures |Label(d)| == 71 && Label(d)[..7] == "sha256:" && forall i :: 7 <= i < 71 ==> Label(d)[i] == '0'
  {
    forall i | 7 <= i < 71 ensures Label(d)[i] == '0' {
      assert Label(d)[i] == HexLower(d)[i - 7];
      assert d[(i - 7) / 2] == 0;
    }
  }

  /** The head of an empty stream is `sha256:` and 64 zeros; of any other its last record digest. */
  lemma HeadSpelledOut(stream: seq<Row>)
    ensures stream != [] ==> Head(stream) == stream[|stream| - 1].record
    ensures stream == [] ==>
              var zero := Head(stream);
              |zero| == 71 && zero[..7] == "sha256:" && forall i :: 7 <= i < 71 ==> zero[i] == '0'
  {
    assert forall k :: 0 <= k < 32 ==> ZERO_BYTES[k] == 0;
    ZeroLabel(ZERO_BYTES);
  }

  /** The text hashed for a record, and the digest's form. */
  lemma DigestSpelledOut(sha: Sha256, prior: string, payload: string, event: string, sequence: nat)
    ensures RecordDigest(sha, prior, payload, event, sequence)
            == "sha256:" + HexLower(sha("canonical.readiness.observation.record.v1\n" + prior + "\n" + payload + "\n"
                                        + event + "\n" + Decimal(sequence) + "\n"))
  {
    TextSpelledOut(RECORD_DOMAIN, prior, payload, event, Decimal(sequence));
  }

  lemma TextSpelledOut(domain: string, a: string, b: string, c: string, d: string)
    ensures domain + (a + ['\n'] + (b + ['\n'] + (c + ['\n'] + (d + ['\n'] + []))))
         == domain + a + "\n" + b + "\n" + c + "\n" + d + "\n"
  {
  }

  // ---------- Late deliveries ----------

  /** `pid` carries `d`, whose event `row` already records, and has written nothing. */
  ghost predicate Settled(world: World, s: State, pid: Pid, d: Delivery, row: Row) {
    && row in s.rows && SameEvent(row, d) && pid in s.seen
    && (pid in s.procs ==>
          s.procs[pid].delivery == d && pid !in s.replies
              && (s.procs[pid].stage.Waiting? || s.procs[pid].stage.Locked?))
    && (pid in s.replies ==> s.replies[pid] == Reply(d, Replayed(world, row, d)))
  }

  lemma FoundIs(sha: Sha256, rows: seq<Row>, d: Delivery, row: Row)
    requires LedgerOk(sha, rows) && row in rows && SameEvent(row, d)
    ensures FindEvent(rows, d.owner, d.source, d.event) == Some(row)
  {
    var i :| 0 <= i < |rows| && rows[i] == row;
    var _ := IndexInStream(rows, i, d.owner, d.source);
    FindEventInStream(rows, d.owner, d.source, d.event);
    FoundEvent(rows, d);
    OnlyRow(sha, rows, i, d);
  }

  lemma SettledOwnStep(world: World, s: State, s': State, pid: Pid, d: Delivery, row: Row)
    requires Settled(world, s, pid, d, row) && Apply(world, s, Advance(pid)) == Some(s')
    requires FindEvent(s.rows, d.owner, d.source, d.event) == Some(row)
    ensures Settled(world, s', pid, d, row) && s'.rows == s.rows
  {
  }

  lemma OtherStep(world: World, s: State, pid: Pid, d: Delivery, stage: Stage, s': State)
    requires Step(world, s, pid, d, stage) == Some(s')
    ensures s.rows <= s'.rows && s'.seen == s.seen
    ensures s'.procs - {pid} == s.procs - {pid} && s'.replies - {pid} == s.replies - {pid}
  {
  }

  lemma SettledOtherStep(world: World, s: State, a: Action, s': State, pid: Pid, d: Delivery, row: Row)
    requires Settled(world, s, pid, d, row) && Apply(world, s, a) == Some(s') && a.pid != pid
    ensures Settled(world, s', pid, d, row)
  {
    if a.Advance? {
      OtherStep(world, s, a.pid, s.procs[a.pid].delivery, s.procs[a.pid].stage, s');
      assert pid in s'.procs <==> pid in s'.procs - {a.pid};
      assert pid in s'.replies <==> pid in s'.replies - {a.pid};
    }
  }

  lemma SettledStep(world: World, s: State, a: Action, s': State, pid: Pid, d: Delivery, row: Row)
    requires Inv(world, s) && Settled(world, s, pid, d, row) && Apply(world, s, a) == Some(s')
    ensures Settled(world, s', pid, d, row)
    ensures a.pid == pid ==> s'.rows == s.rows
  {
    if a.pid != pid {
      SettledOtherStep(world, s, a, s', pid, d, row);
    } else if a.Advance? {
      FoundIs(world.sha, s.rows, d, row);
      SettledOwnStep(world, s, s', pid, d, row);
    }
  }

  ghost predicate WritesNothing(world: World, s: State, actions: seq<Action>, pid: Pid)
    decreases |actions|
  {
    actions != [] && Apply(world, s, actions[0]).Some? ==>
      var next := Apply(world, s, actions[0]).value;
      && (actions[0].pid == pid ==> next.rows == s.rows)
      && WritesNothing(world, next, actions[1..], pid)
  }

  /** A delivery whose event is already recorded writes nothing in any continuation, and its
      answer is Duplicate exactly when payload and sequence are those recorded, EventConflict
      otherwise. */
  lemma {:induction false} LateDeliveryIsReadOnly(world: World, s: State, actions: seq<Action>, s': State, pid: Pid,
                                                  d: Delivery, row: Row)
    requires Inv(world, s) && Settled(world, s, pid, d, row) && Run(world, s, actions) == Some(s')
    ensures Settled(world, s', pid, d, row) && WritesNothing(world, s, actions, pid)
    ensures pid in s'.replies ==>
              s'.replies[pid].outcome ==
                if SameContent(row, d) then Duplicate(row.receipt, world.stored(row.receivedAt)) else EventConflict
    decreases |actions|
  {
    if actions != [] {
      var next := Apply(world, s, actions[0]).value;
      SettledStep(world, s, actions[0], next, pid, d, row);
      StepInv(world, s, actions[0], next);
      LateDeliveryIsReadOnly(world, next, actions[1..], s', pid, d, row);
    }
  }

  /** A delivery that arrives once its event is recorded starts out settled. */
  lemma LateDeliveryIsSettled(world: World, s: State, pid: Pid, d: Delivery, s': State, row: Row)
    requires Reachable(world, s) && Apply(world, s, Arrive(pid, d)) == Some(s')
    requires row in s.rows && SameEvent(row, d)
    ensures Inv(world, s') && Settled(world, s', pid, d, row)
  {
    ReachableInv(world, s);
    StepInv(world, s, Arrive(pid, d), s');
  }

  // ---------- Serial runs ----------

  /** The deliveries a run answers, in order, each with its answer. */
  ghost function Answers(world: World, s: State, actions: seq<Action>): seq<Reply>
    decreases |actions|
  {
    if actions == [] || Apply(world, s, actions[0]).None? then []
    else
      var next := Apply(world, s, actions[0]).value;
      Answered(s, actions[0], next) + Answers(world, next, actions[1..])
  }

  function Answered(s: State, a: Action, next: State): seq<Reply> {
    if a.Advance? && a.pid in s.procs && a.pid !in next.procs && a.pid in next.replies then [next.replies[a.pid]]
        else []
  }

  /** Ingesting the deliveries alone, one after another, from `rows` ends in `rows'` with these answers. */
  ghost predicate Serial(world: World, rows: seq<Row>, log: seq<Reply>, rows': seq<Row>)
    decreases |log|
  {
    if log == [] then rows == rows'
    else
      var (next, outcome) := Ingest(world, rows, log[0].delivery, None);
      outcome == log[0].outcome && Serial(world, next, log[1..], rows')
  }

  /** An interleaved delivery is answered, and leaves the table, as it would run alone at that moment. */
  lemma AnswerIsSerial(world: World, s: State, pid: Pid, s': State)
    requires Inv(world, s) && Apply(world, s, Advance(pid)) == Some(s')
    ensures if pid in s'.procs then s'.rows == s.rows
            else pid in s'.replies && s'.replies[pid].delivery == s.procs[pid].delivery
                 && (s'.rows, s'.replies[pid].outcome) == Ingest(world, s.rows, s.procs[pid].delivery, None)
  {
    assert ProcOk(world.sha, s.rows, s.procs[pid]);
    StepInv(world, s, Advance(pid), s');
  }

  lemma SerialStep(world: World, rows: seq<Row>, log: seq<Reply>, mid: seq<Row>, more: seq<Reply>, rows': seq<Row>)
    requires |log| <= 1 && (log == [] ==> mid == rows)
    requires log != [] ==> (mid, log[0].outcome) == Ingest(world, rows, log[0].delivery, None)
    requires Serial(world, mid, more, rows')
    ensures Serial(world, rows, log + more, rows')
  {
    if log == [] {
      assert log + more == more;
    } else {
      assert (log + more)[0] == log[0] && (log + more)[1..] == more;
    }
  }

  /** Every interleaving of deliveries, crashes included, has the table and answers of a serial run. */
  lemma {:induction false} EveryRunIsSerial(world: World, s: State, actions: seq<Action>, s': State)
    requires Inv(world, s) && Run(world, s, actions) == Some(s')
    ensures Serial(world, s.rows, Answers(world, s, actions), s'.rows)
    decreases |actions|
  {
    if actions != [] {
      var a := actions[0];
      var next := Apply(world, s, a).value;
      if a.Advance? { AnswerIsSerial(world, s, a.pid, next); }
      StepInv(world, s, a, next);
      EveryRunIsSerial(world, next, actions[1..], s');
      SerialStep(world, s.rows, Answered(s, a, next), next.rows, Answers(world, next, actions[1..]), s'.rows);
    }
  }

  // ---------- Heads ----------

  /** The head digest of a reachable stream commits to its whole history, also across two
      databases, unless the hash collides on two recorded inputs. */
  lemma ReachableHeadsCommit(world: World, s: State, t: State, owner1: string, source1: string,
                             owner2: string, source2: string)
    requires Reachable(world, s) && Reachable(world, t)
    requires var a, b := StreamOf(s.rows, owner1, source1), StreamOf(t.rows, owner2, source2);
             a != [] && b != [] && Head(a) == Head(b)
    ensures var a, b := StreamOf(s.rows, owner1, source1), StreamOf(t.rows, owner2, source2);
            SameHistory(a, b)
            || exists i, j :: 0 <= i < |a| && 0 <= j < |b| && Collision(world.sha, Input(a[i]), Input(b[j]))
  {
    ReachableInv(world, s);
    ReachableInv(world, t);
    HeadCommitsToHistory(world.sha, StreamOf(s.rows, owner1, source1), StreamOf(t.rows, owner2, source2));
  }
}
