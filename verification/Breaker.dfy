/**
 The circuit breaker and retry loop in front of the model provider (src/gemini.rs). Times
 are milliseconds read under the circuit's mutex; each event below is one critical section.
 */
module Breaker {
  import opened Wrappers

  const THRESHOLD: nat := 5
  const OPEN_FOR: nat := 30_000
  datatype Circuit = Circuit(failures: nat, openUntil: Option<int>)

  const CLOSED := Circuit(0, None)

  datatype Event = BeforeRequest(now: int) | RecordSuccess | RecordFailure(at: int)

  // ---------- The implementation ----------

  predicate Refuses(c: Circuit, now: int) {
    c.openUntil.Some? && now < c.openUntil.value
  }

  function Next(c: Circuit, e: Event): Circuit {
    match e
    case BeforeRequest(now) => if c.openUntil.None? || Refuses(c, now) then c else CLOSED
    case RecordSuccess => CLOSED
    case RecordFailure(at) =>
      var failures := SaturatingIncrement(c.failures);
      Circuit(failures, if failures >= THRESHOLD then Some(at + OPEN_FOR) else c.openUntil)
  }

  function After(history: seq<Event>): Circuit {
    if history == [] then CLOSED else Next(After(history[..|history| - 1]), history[|history| - 1])
  }

  /** The mutex-guarded fields. */
  class CircuitState {
    var failures: nat
    var openUntil: Option<int>

    function Value(): Circuit
      reads this
    {
      Circuit(failures, openUntil)
    }

    constructor ()
      ensures Value() == CLOSED
    {
      failures := 0;
      openUntil := None;
    }

    method BeforeRequest(now: int) returns (admitted: bool)
      modifies this
      ensures admitted == !Refuses(old(Value()), now)
      ensures Value() == Next(old(Value()), Event.BeforeRequest(now))
    {
      if openUntil.Some? {
        if now < openUntil.value {
          return false;
        }
        failures := 0;
        openUntil := None;
      }
      admitted := true;
    }

    method RecordSuccess()
      modifies this
      ensures Value() == Next(old(Value()), Event.RecordSuccess)
    {
      failures := 0;
      openUntil := None;
    }

    method RecordFailure(at: int)
      modifies this
      ensures Value() == Next(old(Value()), Event.RecordFailure(at))
    {
      failures := SaturatingIncrement(failures);
      if failures >= THRESHOLD {
        openUntil := Some(at + OPEN_FOR);
      }
    }
  }

  // ---------- The specification ----------

  /** Refusal in terms of the failures since the last reset alone. */
  predicate Trips(failures: seq<int>, now: int) {
    |failures| >= THRESHOLD && now < failures[|failures| - 1] + OPEN_FOR
  }

  /** A success resets, and so does a request let through after a trip has expired. */
  predicate Resets(failures: seq<int>, e: Event) {
    e.RecordSuccess? || (e.BeforeRequest? && |failures| >= THRESHOLD && !Trips(failures, e.now))
  }

  /** Times of the failures recorded since the last reset. */
  function SinceReset(history: seq<Event>): seq<int> {
    if history == [] then []
    else
      var before, e := SinceReset(history[..|history| - 1]), history[|history| - 1];
      if Resets(before, e) then [] else if e.RecordFailure? then before + [e.at] else before
  }

  function Min(a: nat, b: nat): nat {
    if a < b then a else b
  }

  /** The two fields are a summary of those failures. */
  lemma {:induction false} CircuitIsSummary(history: seq<Event>)
    ensures var f := SinceReset(history);
            After(history) == Circuit(Min(|f|, 4_294_967_295), if |f| >= 5 then Some(f[|f| - 1] + 30_000) else None)
  {
    if history != [] {
      CircuitIsSummary(history[..|history| - 1]);
    }
  }

  /**
   After every history, a request is refused exactly when five failures or more were recorded
   since the last reset and the latest of them is less than 30 seconds old.
   */
  lemma RefusesExactly(history: seq<Event>, now: int)
    ensures var f := SinceReset(history);
            Refuses(After(history), now) <==> |f| >= 5 && now < f[|f| - 1] + 30_000
  {
    CircuitIsSummary(history);
  }

  function Failures(history: seq<Event>): nat {
    if history == [] then 0
    else Failures(history[..|history| - 1]) + (if history[|history| - 1].RecordFailure? then 1 else 0)
  }

  lemma {:induction false} FailuresAreCounted(history: seq<Event>)
    ensures Failures(history) == |set i | 0 <= i < |history| && history[i].RecordFailure?|
  {
    if history != [] {
      var n := |history| - 1;
      var before := set i | 0 <= i < n && history[i].RecordFailure?;
      FailuresAreCounted(history[..n]);
      assert before == set i | 0 <= i < n && history[..n][i].RecordFailure?;
      assert (set i | 0 <= i < |history| && history[i].RecordFailure?)
          == before + (if history[n].RecordFailure? then {n} else {});
    }
  }

  /** What follows a reset decides alone. */
  lemma {:induction false} ResetForgets(before: seq<Event>, e: Event, more: seq<Event>)
    requires Resets(SinceReset(before), e)
    ensures SinceReset(before + [e] + more) == SinceReset(more)
  {
    var history := before + [e] + more;
    if more == [] {
      assert history[..|history| - 1] == before;
    } else {
      assert history[..|history| - 1] == before + [e] + more[..|more| - 1];
      ResetForgets(before, e, more[..|more| - 1]);
    }
  }

  lemma {:induction false} SinceResetCounts(history: seq<Event>)
    ensures |SinceReset(history)| <= Failures(history)
  {
    if history != [] {
      SinceResetCounts(history[..|history| - 1]);
    }
  }

  /** After any reset the circuit stays closed until five more failures. */
  lemma TripNeedsFiveFailures(before: seq<Event>, e: Event, more: seq<Event>, now: int)
    requires Resets(SinceReset(before), e) && Failures(more) < 5
    ensures !Refuses(After(before + [e] + more), now)
  {
    ResetForgets(before, e, more);
    SinceResetCounts(more);
    RefusesExactly(before + [e] + more, now);
  }

  /** An open circuit admits again 30 seconds after the latest failure and then starts from zero. */
  lemma ExpiryRecovers(history: seq<Event>, now: int)
    requires |SinceReset(history)| >= 5
    requires now >= SinceReset(history)[|SinceReset(history)| - 1] + 30_000
    ensures After(history + [Event.BeforeRequest(now)]) == CLOSED
  {
    CircuitIsSummary(history);
    assert (history + [Event.BeforeRequest(now)])[..|history|] == history;
  }

  // ---------- One request ----------

  datatype Response =
    | Success(body: Body)
    | Status(code: nat)
    | TransportError(connectOrTimeout: bool)

  /** How reading and validating a successful response ends. */
  datatype Body = Valid(text: string) | TooLarge | Lost | BadEnvelope | BadAnalysis

  datatype GeminiError =
    | CircuitOpen | InvalidAnalysis | InvalidResponse | PromptTooLarge | Rejected(code: nat)
    | ResponseTooLarge | Transport

  datatype Result = Analysis(text: string) | Failed(error: GeminiError)

  predicate IsOperational(e: GeminiError) {
    e.CircuitOpen? || e.Transport? || (e.Rejected? && (e.code == 429 || 500 <= e.code <= 599))
  }

  predicate ShouldRetryStatus(code: nat) {
    code == 429 || 500 <= code < 600
  }

  predicate Retryable(r: Response) {
    match r
    case Success(_) => false
    case Status(code) => ShouldRetryStatus(code)
    case TransportError(transient) => transient
  }

  /** What a response that ends the loop is reported as. */
  function Report(r: Response): Result {
    match r
    case Success(Valid(text)) => Analysis(text)
    case Success(TooLarge) => Failed(ResponseTooLarge)
    case Success(Lost) => Failed(Transport)
    case Success(BadEnvelope) => Failed(InvalidResponse)
    case Success(BadAnalysis) => Failed(InvalidAnalysis)
    case Status(code) => Failed(Rejected(code))
    case TransportError(_) => Failed(Transport)
  }

  const MAX_ATTEMPTS: nat := 3

  function Power2(n: nat): nat {
    if n == 0 then 1 else 2 * Power2(n - 1)
  }

  function RetryDelay(attempt: nat): nat {
    250 * Power2(if attempt < 4 then attempt else 4)
  }

  /** The index of the response that decides: the first that is not retried, or the last attempt. */
  function Deciding(responses: seq<Response>): (k: nat)
    requires |responses| == MAX_ATTEMPTS
    ensures k < MAX_ATTEMPTS
  {
    if !Retryable(responses[0]) then 0 else if !Retryable(responses[1]) then 1 else 2
  }

  /** `execute_with_retries`, given what each attempt would receive: transient transport errors, 429
      and 5xx are tried again, twice at most, and the last response received is the result. */
  method ExecuteWithRetries(responses: seq<Response>) returns (result: Result, sent: nat, slept: seq<nat>)
    requires |responses| == MAX_ATTEMPTS
    ensures sent == Deciding(responses) + 1 && 1 <= sent <= 3
    ensures slept == [250, 500][..sent - 1]
    ensures forall i :: 0 <= i < sent - 1 ==>
              responses[i] == TransportError(true)
              || (responses[i].Status? && (responses[i].code == 429 || 500 <= responses[i].code <= 599))
    ensures sent < 3 ==>
              responses[sent - 1] != TransportError(true)
              && !(responses[sent - 1].Status?
                   && (responses[sent - 1].code == 429 || 500 <= responses[sent - 1].code <= 599))
    ensures match responses[sent - 1]
            case Success(Valid(text)) => result == Analysis(text)
            case Success(TooLarge) => result == Failed(ResponseTooLarge)
            case Success(Lost) => result == Failed(Transport)
            case Success(BadEnvelope) => result == Failed(InvalidResponse)
            case Success(BadAnalysis) => result == Failed(InvalidAnalysis)
            case Status(code) => result == Failed(Rejected(code))
            case TransportError(_) => result == Failed(Transport)
  {
    slept := [];
    for attempt := 0 to MAX_ATTEMPTS
      invariant attempt <= Deciding(responses)
      invariant slept == [250, 500][..attempt]
    {
      sent := attempt + 1;
      if Retryable(responses[attempt]) && attempt + 1 < MAX_ATTEMPTS {
        slept := slept + [RetryDelay(attempt)];
        continue;
      }
      return Report(responses[attempt]), sent, slept;
    }
    assert false; // the error after the loop is never reached
  }

  /** What `analyze` records for the result of an admitted request. */
  function Vote(result: Result, at: int): Option<Event> {
    match result
    case Analysis(_) => Some(Event.RecordSuccess)
    case Failed(error) => if IsOperational(error) then Some(Event.RecordFailure(at)) else None
  }

  /**
   An admitted request counts as a failure exactly when its deciding response is a transport
   error, a lost body or a retryable status, so every exhausted retry counts.
   */
  lemma FailureVotes(responses: seq<Response>, at: int)
    requires |responses| == MAX_ATTEMPTS
    ensures var last := responses[Deciding(responses)];
            && (Vote(Report(last), at) == Some(Event.RecordFailure(at)) <==>
                  last.TransportError? || last == Success(Lost) ||
                  (last.Status? && (last.code == 429 || 500 <= last.code <= 599)))
            && (Retryable(last) ==> Vote(Report(last), at) == Some(Event.RecordFailure(at)))
            && (Vote(Report(last), at) == Some(Event.RecordSuccess) <==> last.Success? && last.body.Valid?)
  {
  }
}
