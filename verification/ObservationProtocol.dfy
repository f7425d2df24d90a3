/**
 Deliveries interleaved statement by statement over the observation table
 (`store_database` in src/readiness_observation_ingest.rs). The advisory lock of an
 (owner, source) stream is an abstract mutex held from lock to commit, rollback or crash.
 */
module ObservationProtocol {
  import opened Wrappers
  import opened Timestamps
  import opened ObservationLedger

  type Pid = nat

  datatype Stage =
    | Waiting                   // before the advisory lock
    | Locked                    // before the event query
    | EventAbsent               // before the cursor query
    | Placed(prior: string)     // sequence accepted, before the INSERT
    | Written(row: Row)         // INSERT done, not committed

  datatype Proc = Proc(delivery: Delivery, stage: Stage)

  datatype Reply = Reply(delivery: Delivery, outcome: Outcome)

  /** `authors[i]` is the process that inserted row i; no step reads it. */
  datatype State = State(
    rows: seq<Row>,
    procs: map<Pid, Proc>,
    seen: set<Pid>,
    replies: map<Pid, Reply>,
    authors: seq<Pid>)

  datatype Action = Arrive(pid: Pid, delivery: Delivery) | Advance(pid: Pid) | Crash(pid: Pid)

  predicate Holds(p: Proc, owner: string, source: string) {
    p.delivery.owner == owner && p.delivery.source == source && !p.stage.Waiting?
  }

  predicate StreamTaken(s: State, owner: string, source: string) {
    exists pid | pid in s.procs :: Holds(s.procs[pid], owner, source)
  }

  /** Two rows that one of the table's uniqueness constraints forbids: primary key, sequence or receipt. */
  predicate Conflict(a: Row, b: Row) {
    a.receipt == b.receipt
    || (InStream(a, b.owner, b.source) && (a.event == b.event || a.sequence == b.sequence))
  }

  predicate Violates(rows: seq<Row>, r: Row) {
    exists i | 0 <= i < |rows| :: Conflict(rows[i], r)
  }

  /** Receipt ids are freshly drawn: nobody else has this one. */
  predicate FreshReceipt(s: State, receipt: string) {
    && (forall i | 0 <= i < |s.rows| :: s.rows[i].receipt != receipt)
    && (forall pid | pid in s.procs :: s.procs[pid].delivery.receipt != receipt)
  }

  function Init(): State {
    State([], map[], {}, map[], [])
  }

  function Put(s: State, pid: Pid, d: Delivery, stage: Stage): State {
    s.(procs := s.procs[pid := Proc(d, stage)])
  }

  function Answer(s: State, pid: Pid, d: Delivery, outcome: Outcome): State {
    s.(procs := s.procs - {pid}, replies := s.replies[pid := Reply(d, outcome)])
  }

  function Commit(s: State, pid: Pid, d: Delivery, row: Row): State {
    Answer(s, pid, d, Accepted(d.receipt, RfcText(d.receivedAt))).(rows := s.rows + [row], authors := s.authors + [pid])
  }

  function Step(world: World, s: State, pid: Pid, d: Delivery, stage: Stage): Option<State> {
    match stage
    case Waiting => if StreamTaken(s, d.owner, d.source) then None else Some(Put(s, pid, d, Locked))
    case Locked =>
      var found := FindEvent(s.rows, d.owner, d.source, d.event);
      if found.Some? then Some(Answer(s, pid, d, Replayed(world, found.value, d)))
      else Some(Put(s, pid, d, EventAbsent))
    case EventAbsent =>
      var cursor := Cursor(s.rows, d.owner, d.source);
      if IsNext(cursor, d.sequence) then Some(Put(s, pid, d, Placed(PriorDigest(cursor))))
      else Some(Answer(s, pid, d, SequenceConflict))
    case Placed(prior) =>
      // an INSERT that violates a uniqueness constraint aborts the transaction
      if Violates(s.rows, NewRow(world.sha, prior, d)) then Some(s.(procs := s.procs - {pid}))
      else Some(Put(s, pid, d, Written(NewRow(world.sha, prior, d))))
    case Written(row) => Some(Commit(s, pid, d, row))
  }

  function Apply(world: World, s: State, a: Action): Option<State> {
    match a
    case Arrive(pid, d) =>
      if pid in s.seen || !Admissible(d) || !FreshReceipt(s, d.receipt) then None
      else Some(Put(s, pid, d, Waiting).(seen := s.seen + {pid}))
    case Advance(pid) =>
      if pid in s.procs then Step(world, s, pid, s.procs[pid].delivery, s.procs[pid].stage) else None
    case Crash(pid) =>
      if pid in s.procs then Some(s.(procs := s.procs - {pid})) else None
  }

  function Run(world: World, s: State, actions: seq<Action>): Option<State>
    decreases |actions|
  {
    if actions == [] then Some(s)
    else
      match Apply(world, s, actions[0])
      case None => None
      case Some(next) => Run(world, next, actions[1..])
  }

  ghost predicate Reachable(world: World, s: State) {
    exists actions :: Run(world, Init(), actions) == Some(s)
  }

  // ---------- Invariant ----------

  ghost predicate ProcOk(sha: Sha256, rows: seq<Row>, p: Proc) {
    var d := p.delivery;
    var cursor := Cursor(rows, d.owner, d.source);
    && Admissible(d)
    && (forall i :: 0 <= i < |rows| ==> rows[i].receipt != d.receipt)
    && (p.stage.EventAbsent? || p.stage.Placed? || p.stage.Written? ==>
        FindEvent(rows, d.owner, d.source, d.event).None?)
    && (p.stage.Placed? ==> IsNext(cursor, d.sequence) && p.stage.prior == PriorDigest(cursor))
    && (p.stage.Written? ==> IsNext(cursor, d.sequence) && p.stage.row == NewRow(sha, PriorDigest(cursor), d))
  }

  ghost predicate Apart(a: Proc, b: Proc) {
    a.delivery.receipt != b.delivery.receipt
    && forall owner, source :: !(Holds(a, owner, source) && Holds(b, owner, source))
  }

  ghost predicate ProcsOk(sha: Sha256, s: State) {
    && (forall p :: p in s.procs ==> p in s.seen && ProcOk(sha, s.rows, s.procs[p]))
    && (forall p, q :: p in s.procs && q in s.procs && p != q ==> Apart(s.procs[p], s.procs[q]))
  }

  predicate SameEvent(r: Row, d: Delivery) {
    InStream(r, d.owner, d.source) && r.event == d.event
  }

  /** Row r is the record of delivery d. */
  predicate Records(r: Row, d: Delivery) {
    SameEvent(r, d) && SameContent(r, d) && r.receipt == d.receipt && r.receivedAt == d.receivedAt
  }

  /** An acceptance is backed by the row its process inserted; a duplicate receipt and a
      conflict by a row with the same event id. */
  ghost predicate ReplyOk(world: World, s: State, pid: Pid, reply: Reply) {
    match reply.outcome
    case Accepted(receipt, at) =>
      receipt == reply.delivery.receipt && at == RfcText(reply.delivery.receivedAt)
      && exists i :: 0 <= i < |s.rows| && i < |s.authors| && s.authors[i] == pid && Records(s.rows[i], reply.delivery)
    case Duplicate(receipt, at) =>
      exists r :: r in s.rows && SameEvent(r, reply.delivery) && SameContent(r, reply.delivery)
                  && r.receipt == receipt && world.stored(r.receivedAt) == at
    case EventConflict =>
      exists r :: r in s.rows && SameEvent(r, reply.delivery) && !SameContent(r, reply.delivery)
    case SequenceConflict => true
    case StorageUnavailable => false
  }

  ghost predicate RepliesOk(world: World, s: State) {
    && |s.authors| == |s.rows|
    && forall pid :: pid in s.replies ==> pid in s.seen && ReplyOk(world, s, pid, s.replies[pid])
  }

  predicate ReceiptsDiffer(rows: seq<Row>) {
    forall i, j :: 0 <= i < j < |rows| ==> rows[i].receipt != rows[j].receipt
  }

  ghost predicate Inv(world: World, s: State) {
    LedgerOk(world.sha, s.rows) && ProcsOk(world.sha, s) && RepliesOk(world, s) && ReceiptsDiffer(s.rows)
  }

  lemma ReplyGrows(world: World, s: State, s': State, pid: Pid, reply: Reply)
    requires s.rows <= s'.rows && s.authors <= s'.authors && ReplyOk(world, s, pid, reply)
    ensures ReplyOk(world, s', pid, reply)
  {
    assert forall r :: r in s.rows ==> r in s'.rows;
    assert forall i :: 0 <= i < |s.rows| ==> s'.rows[i] == s.rows[i];
    assert forall i :: 0 <= i < |s.authors| ==> s'.authors[i] == s.authors[i];
  }

  lemma RepliesKept(world: World, s: State, s': State, pid: Pid)
    requires RepliesOk(world, s) && s.rows <= s'.rows && s.authors <= s'.authors && |s'.authors| == |s'.rows|
              && s.seen <= s'.seen
    requires s'.replies == s.replies
             || (pid in s'.seen && pid in s'.replies && s'.replies == s.replies[pid := s'.replies[pid]]
                 && ReplyOk(world, s', pid, s'.replies[pid]))
    ensures RepliesOk(world, s')
  {
    forall p | p in s'.replies ensures p in s'.seen && ReplyOk(world, s', p, s'.replies[p]) {
      if s'.replies == s.replies || p != pid {
        ReplyGrows(world, s, s', p, s'.replies[p]);
      }
    }
  }

  lemma PutProcs(sha: Sha256, s: State, s': State, pid: Pid)
    requires ProcsOk(sha, s) && s'.rows == s.rows && s.seen <= s'.seen && pid in s'.procs && pid in s'.seen
    requires s'.procs == s.procs[pid := s'.procs[pid]] && ProcOk(sha, s.rows, s'.procs[pid])
    requires forall p :: p in s.procs && p != pid ==> Apart(s.procs[p], s'.procs[pid])
    ensures ProcsOk(sha, s')
  {
    forall p, q | p in s'.procs && q in s'.procs && p != q ensures Apart(s'.procs[p], s'.procs[q]) {
      if p == pid {
        assert Apart(s.procs[q], s'.procs[pid]);
      } else if q != pid {
        assert Apart(s.procs[p], s.procs[q]);
      }
    }
  }

  lemma StageApart(sha: Sha256, s: State, pid: Pid, stage: Stage)
    requires ProcsOk(sha, s) && pid in s.procs
    requires s.procs[pid].stage.Waiting? ==> !StreamTaken(s, s.procs[pid].delivery.owner, s.procs[pid].delivery.source)
    ensures forall p :: p in s.procs && p != pid ==> Apart(s.procs[p], s.procs[pid].(stage := stage))
  {
    forall p | p in s.procs && p != pid ensures Apart(s.procs[p], s.procs[pid].(stage := stage)) {
      assert Apart(s.procs[p], s.procs[pid]);
    }
  }

  /** The queries of one stream ignore rows of another. */
  lemma OtherStream(rows: seq<Row>, r: Row, owner: string, source: string, event: string)
    requires !InStream(r, owner, source)
    ensures FindEvent(rows + [r], owner, source, event) == FindEvent(rows, owner, source, event)
    ensures Cursor(rows + [r], owner, source) == Cursor(rows, owner, source)
  {
    assert (rows + [r])[..|rows|] == rows;
  }

  lemma CommitProcs(sha: Sha256, s: State, pid: Pid, row: Row)
    requires ProcsOk(sha, s) && pid in s.procs && s.procs[pid].stage == Written(row)
    ensures ProcsOk(sha, Commit(s, pid, s.procs[pid].delivery, row))
  {
    var s' := Commit(s, pid, s.procs[pid].delivery, row);
    assert ProcOk(sha, s.rows, s.procs[pid]);
    assert Holds(s.procs[pid], row.owner, row.source);
    forall p | p in s'.procs ensures p in s'.seen && ProcOk(sha, s'.rows, s'.procs[p]) {
      var d := s.procs[p].delivery;
      assert ProcOk(sha, s.rows, s.procs[p]) && Apart(s.procs[p], s.procs[pid]);
      if !s.procs[p].stage.Waiting? {
        assert Holds(s.procs[p], d.owner, d.source);
        OtherStream(s.rows, row, d.owner, d.source, d.event);
      }
    }
    assert forall p, q :: p in s'.procs && q in s'.procs && p != q ==> Apart(s.procs[p], s.procs[q]);
  }

  lemma ChainNumbers(sha: Sha256, s: seq<Row>, k: nat)
    requires Chain(sha, s) && k < |s|
    ensures s[k].sequence == k + 1
  {
    assert LinkOk(sha, s, k);
  }

  /** The next sequence of a stream is one more than its length. */
  lemma NextInStream(sha: Sha256, rows: seq<Row>, owner: string, source: string)
    requires Chain(sha, StreamOf(rows, owner, source))
    ensures PriorSequence(Cursor(rows, owner, source)) == |StreamOf(rows, owner, source)|
  {
    var s := StreamOf(rows, owner, source);
    CursorInStream(sha, rows, owner, source);
    if s != [] { ChainNumbers(sha, s, |s| - 1); }
  }

  /** Row i of the stream a delivery extends has another event id and another sequence. */
  lemma EarlierInStream(sha: Sha256, rows: seq<Row>, d: Delivery, i: nat)
    requires Chain(sha, StreamOf(rows, d.owner, d.source)) && FindEvent(rows, d.owner, d.source, d.event).None?
    requires IsNext(Cursor(rows, d.owner, d.source), d.sequence)
    requires i < |rows| && InStream(rows[i], d.owner, d.source)
    ensures rows[i].event != d.event && rows[i].sequence != d.sequence
  {
    FindEventInStream(rows, d.owner, d.source, d.event);
    NextInStream(sha, rows, d.owner, d.source);
    var k := IndexInStream(rows, i, d.owner, d.source);
    ChainNumbers(sha, StreamOf(rows, d.owner, d.source), k);
  }

  /** No row has r's receipt, and none of its stream has its event id or its sequence. */
  ghost predicate ClearOf(rows: seq<Row>, r: Row) {
    forall i :: 0 <= i < |rows| ==>
      && rows[i].receipt != r.receipt
      && !(rows[i].owner == r.owner && rows[i].source == r.source && rows[i].event == r.event)
      && !(rows[i].owner == r.owner && rows[i].source == r.source && rows[i].sequence == r.sequence)
  }

  lemma RowIsClear(sha: Sha256, rows: seq<Row>, d: Delivery, prior: string)
    requires Chain(sha, StreamOf(rows, d.owner, d.source)) && FindEvent(rows, d.owner, d.source, d.event).None?
    requires IsNext(Cursor(rows, d.owner, d.source), d.sequence)
    requires forall i :: 0 <= i < |rows| ==> rows[i].receipt != d.receipt
    ensures ClearOf(rows, NewRow(sha, prior, d)) && !Violates(rows, NewRow(sha, prior, d))
  {
    forall i | 0 <= i < |rows| && InStream(rows[i], d.owner, d.source)
      ensures rows[i].event != d.event && rows[i].sequence != d.sequence
    {
      EarlierInStream(sha, rows, d, i);
    }
    ClearIsAllowed(rows, NewRow(sha, prior, d));
  }

  lemma ClearIsAllowed(rows: seq<Row>, r: Row)
    requires ClearOf(rows, r)
    ensures !Violates(rows, r)
  {
  }

  /** All three uniqueness constraints hold for a row the protocol is about to insert. */
  lemma InsertCannotFail(sha: Sha256, rows: seq<Row>, d: Delivery)
    requires LedgerOk(sha, rows) && FindEvent(rows, d.owner, d.source, d.event).None?
    requires IsNext(Cursor(rows, d.owner, d.source), d.sequence)
    requires forall i :: 0 <= i < |rows| ==> rows[i].receipt != d.receipt
    ensures var row := NewRow(sha, PriorDigest(Cursor(rows, d.owner, d.source)), d);
            ClearOf(rows, row) && !Violates(rows, row)
  {
    RowIsClear(sha, rows, d, PriorDigest(Cursor(rows, d.owner, d.source)));
  }

  lemma {:induction false} IndexInStream(rows: seq<Row>, i: nat, owner: string, source: string) returns (k: nat)
    requires i < |rows| && InStream(rows[i], owner, source)
    ensures k < |StreamOf(rows, owner, source)| && StreamOf(rows, owner, source)[k] == rows[i]
  {
    if i == |rows| - 1 {
      k := |StreamOf(rows[..|rows| - 1], owner, source)|;
    } else {
      k := IndexInStream(rows[..|rows| - 1], i, owner, source);
    }
  }

  // ---------- Every step ----------

  lemma PutInv(world: World, s: State, pid: Pid, stage: Stage)
    requires Inv(world, s) && pid in s.procs && ProcOk(world.sha, s.rows, s.procs[pid].(stage := stage))
    requires s.procs[pid].stage.Waiting? ==> !StreamTaken(s, s.procs[pid].delivery.owner, s.procs[pid].delivery.source)
    ensures Inv(world, Put(s, pid, s.procs[pid].delivery, stage))
  {
    var s' := Put(s, pid, s.procs[pid].delivery, stage);
    StageApart(world.sha, s, pid, stage);
    PutProcs(world.sha, s, s', pid);
    RepliesKept(world, s, s', pid);
  }

  lemma AnswerInv(world: World, s: State, pid: Pid, outcome: Outcome)
    requires Inv(world, s) && pid in s.procs && ReplyOk(world, s, pid, Reply(s.procs[pid].delivery, outcome))
    ensures Inv(world, Answer(s, pid, s.procs[pid].delivery, outcome))
  {
    var s' := Answer(s, pid, s.procs[pid].delivery, outcome);
    ReplyGrows(world, s, s', pid, Reply(s.procs[pid].delivery, outcome));
    RepliesKept(world, s, s', pid);
  }

  lemma CommitReplies(world: World, s: State, pid: Pid, d: Delivery, row: Row)
    requires RepliesOk(world, s) && pid in s.seen && Records(row, d)
    ensures RepliesOk(world, Commit(s, pid, d, row))
  {
    var s' := Commit(s, pid, d, row);
    assert s'.rows[|s.rows|] == row && s'.authors[|s.rows|] == pid;
    RepliesKept(world, s, s', pid);
  }

  lemma CommitInv(world: World, s: State, pid: Pid, row: Row)
    requires Inv(world, s) && pid in s.procs && s.procs[pid].stage == Written(row)
    ensures Inv(world, Commit(s, pid, s.procs[pid].delivery, row))
  {
    var d := s.procs[pid].delivery;
    assert ProcOk(world.sha, s.rows, s.procs[pid]);
    AppendKeepsLedger(world.sha, s.rows, d);
    CommitProcs(world.sha, s, pid, row);
    CommitReplies(world, s, pid, d, row);
  }

  lemma ArriveInv(world: World, s: State, pid: Pid, d: Delivery, s': State)
    requires Inv(world, s) && Apply(world, s, Arrive(pid, d)) == Some(s')
    ensures Inv(world, s')
  {
    PutProcs(world.sha, s, s', pid);
    RepliesKept(world, s, s', pid);
  }

  lemma AdvanceInv(world: World, s: State, pid: Pid, s': State)
    requires Inv(world, s) && Apply(world, s, Advance(pid)) == Some(s')
    ensures Inv(world, s') && (s.procs[pid].stage.Placed? ==> pid in s'.procs)
  {
    var d := s.procs[pid].delivery;
    assert ProcOk(world.sha, s.rows, s.procs[pid]);
    match s.procs[pid].stage {
      case Waiting => PutInv(world, s, pid, Locked);
      case Locked =>
        var found := FindEvent(s.rows, d.owner, d.source, d.event);
        if found.Some? {
          FoundEvent(s.rows, d);
          AnswerInv(world, s, pid, Replayed(world, found.value, d));
        } else {
          PutInv(world, s, pid, EventAbsent);
        }
      case EventAbsent =>
        if IsNext(Cursor(s.rows, d.owner, d.source), d.sequence) {
          PutInv(world, s, pid, s'.procs[pid].stage);
        } else {
          AnswerInv(world, s, pid, SequenceConflict);
        }
      case Placed(prior) =>
        InsertCannotFail(world.sha, s.rows, d);
        PutInv(world, s, pid, Written(NewRow(world.sha, prior, d)));
      case Written(row) => CommitInv(world, s, pid, row);
    }
  }

  lemma StepInv(world: World, s: State, a: Action, s': State)
    requires Inv(world, s) && Apply(world, s, a) == Some(s')
    ensures Inv(world, s')
    ensures a.Advance? && s.procs[a.pid].stage.Placed? ==> a.pid in s'.procs
  {
    match a
    case Arrive(pid, d) => ArriveInv(world, s, pid, d, s');
    case Crash(pid) => RepliesKept(world, s, s', pid);
    case Advance(pid) => AdvanceInv(world, s, pid, s');
  }

  lemma {:induction false} FoundEvent(rows: seq<Row>, d: Delivery)
    requires FindEvent(rows, d.owner, d.source, d.event).Some?
    ensures var r := FindEvent(rows, d.owner, d.source, d.event).value; r in rows && SameEvent(r, d)
  {
    var last := rows[|rows| - 1];
    if !SameEvent(last, d) {
      FoundEvent(rows[..|rows| - 1], d);
    }
  }

  lemma {:induction false} RunInv(world: World, s: State, actions: seq<Action>, s': State)
    requires Inv(world, s) && Run(world, s, actions) == Some(s')
    ensures Inv(world, s')
    decreases |actions|
  {
    if actions != [] {
      var next := Apply(world, s, actions[0]).value;
      StepInv(world, s, actions[0], next);
      RunInv(world, next, actions[1..], s');
    }
  }

  lemma ReachableInv(world: World, s: State)
    requires Reachable(world, s)
    ensures Inv(world, s)
  {
    var actions :| Run(world, Init(), actions) == Some(s);
    assert forall owner, source :: StreamOf([], owner, source) == [];
    RunInv(world, Init(), actions, s);
  }
}
