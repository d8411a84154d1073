/**
 One JSON POST to a provider (ai/models/src/http.ts, `postJson`): the guard asked before every
 send, retries with backoff, and which answers end the call.
 */
module PostJson {
  import opened Common
  import opened ModelErrors

  const RETRY_STATUS: set<nat> := {408, 409, 425, 429, 500, 502, 503, 504, 529}
  const MAX_BACKOFF: nat := 30_000

  /** What sending gives: an answer, or how it failed. `retryAfter` is the parsed header, in ms. */
  datatype Sent =
    | Answer(status: nat, isJson: bool, retryAfter: Option<nat>)
    | NoAnswer(timedOut: bool)
    | AnswerTooLarge
    | AddressBlocked

  /** What happens around one attempt: when the caller's signal fires, the guard's answer, what is sent. */
  datatype Try = Try(
    abortedBefore: bool, jitter: real, abortedInSleep: bool, guard: bool, abortedAfterGuard: bool, sent: Sent,
    abortedAfterFailure: bool)

  datatype Options = Options(maxRetries: nat, maxRetryAfterMs: nat, baseMs: nat, literalBlocked: bool)

  datatype Error = Error(code: Code, retryAfter: Option<nat>)

  datatype Result = Parsed | Fails(error: Error) | Aborted

  /** What an outsider sees, in order. */
  datatype Event = Slept(ms: int) | Asked(yes: bool) | Counted | Sends(sent: Sent)

  function Pow2(k: nat): nat {
    if k == 0 then 1 else 2 * Pow2(k - 1)
  }

  /** The backoff before attempt number `attempt`, without jitter. */
  function Backoff(baseMs: nat, attempt: nat): nat
    requires attempt > 0
  {
    Min(MAX_BACKOFF, baseMs * Pow2(attempt - 1))
  }

  /** The backoff's second half, jittered, rounded. */
  function Jittered(backoff: nat, jitter: real): int {
    var half := backoff as real / 2.0;
    (half + jitter * half + 0.5).Floor
  }

  /** How long to wait: what the provider said, else the backoff's second half, jittered. */
  function Wait(o: Options, attempt: nat, last: Option<Error>, jitter: real): int
    requires attempt > 0
  {
    if last.Some? && last.value.retryAfter.Some? then last.value.retryAfter.value
    else
      Jittered(Backoff(o.baseMs, attempt), jitter)
  }

  /** What one answer makes of the call: its end, or the error to go on with. */
  datatype Verdict = Ends(result: Result) | GoesOn(error: Error)

  function Judge(o: Options, t: Try): Verdict {
    match t.sent
    case AnswerTooLarge => if t.abortedAfterFailure then Ends(Aborted) else Ends(Fails(Error(TooLarge, None)))
    case AddressBlocked => if t.abortedAfterFailure then Ends(Aborted) else Ends(Fails(Error(Blocked, None)))
    case NoAnswer(timedOut) =>
      if t.abortedAfterFailure then Ends(Aborted) else GoesOn(Error(if timedOut then Timeout else Network, None))
    case Answer(status, isJson, retryAfter) =>
      if 200 <= status < 300 then Ends(if isJson then Parsed else Fails(Error(BadResponse, None)))
      else if 300 <= status < 400 then Ends(Fails(Error(Refused, None)))
      else if status == 401 || status == 403 then Ends(Fails(Error(Auth, None)))
      else if status !in RETRY_STATUS then Ends(Fails(Error(Refused, None)))
      else if retryAfter.Some? && retryAfter.value > o.maxRetryAfterMs then Ends(Fails(Error(RateLimited, retryAfter)))
      else GoesOn(Error(if status == 429 then RateLimited else if status == 408 then Timeout else Server, retryAfter))
  }

  /** One turn of the loop: what is seen, and its end or the error to go on with. */
  function Attempt(o: Options, attempt: nat, last: Option<Error>, t: Try): (seq<Event>, Verdict) {
    var slept := if attempt > 0 then [Slept(Wait(o, attempt, last, t.jitter))] else [];
    if t.abortedBefore then ([], Ends(Aborted))
    else if attempt > 0 && t.abortedInSleep then (slept, Ends(Aborted))
    else if !t.guard then (slept + [Asked(false)], Ends(Fails(Error(Withheld, None))))
    else if t.abortedAfterGuard then (slept + [Asked(true)], Ends(Aborted))
    else (slept + [Asked(true), Counted, Sends(t.sent)], Judge(o, t))
  }

  /** The loop from attempt number `attempt` on. */
  function From(o: Options, attempt: nat, last: Option<Error>, script: nat -> Try): (seq<Event>, Result)
    decreases o.maxRetries + 1 - attempt
  {
    if attempt > o.maxRetries then
      ([], Fails(if last.Some? then last.value else Error(Network, None)))
    else
      var (seen, verdict) := Attempt(o, attempt, last, script(attempt));
      match verdict
      case Ends(result) => (seen, result)
      case GoesOn(error) =>
        var (rest, result) := From(o, attempt + 1, Some(error), script);
        (seen + rest, result)
  }

  function Call(o: Options, script: nat -> Try): (seq<Event>, Result) {
    if o.literalBlocked then ([], Fails(Error(Blocked, None))) else From(o, 0, None, script)
  }

  method Post(o: Options, script: nat -> Try) returns (seen: seq<Event>, result: Result)
    ensures (seen, result) == Call(o, script)
  {
    hide Attempt;
    seen := [];
    if o.literalBlocked {
      return seen, Fails(Error(Blocked, None));
    }
    var last: Option<Error> := None;
    var attempt := 0;
    while attempt <= o.maxRetries
      invariant attempt <= o.maxRetries + 1
      invariant seen + From(o, attempt, last, script).0 == Call(o, script).0
      invariant From(o, attempt, last, script).1 == Call(o, script).1
    {
      ghost var rest := From(o, attempt, last, script).0;
      var events, verdict := Once(o, attempt, last, script(attempt));
      match verdict
      case Ends(r) =>
        assert rest == events;
        return seen + events, r;
      case GoesOn(error) =>
        ghost var after := From(o, attempt + 1, Some(error), script).0;
        assert rest == events + after;
        assert seen + rest == (seen + events) + after;
        seen := seen + events;
        last := Some(error);
      attempt := attempt + 1;
    }
    result := Fails(if last.Some? then last.value else Error(Network, None));
    assert seen + [] == seen;
  }

  /** The loop's body. */
  method Once(o: Options, attempt: nat, last: Option<Error>, t: Try) returns (seen: seq<Event>, verdict: Verdict)
    ensures (seen, verdict) == Attempt(o, attempt, last, t)
  {
    seen := [];
    if t.abortedBefore {
      return seen, Ends(Aborted);
    }
    if attempt > 0 {
      seen := [Slept(Wait(o, attempt, last, t.jitter))];
      if t.abortedInSleep {
        return seen, Ends(Aborted);
      }
    }
    ghost var slept := seen;
    assert slept == if attempt > 0 then [Slept(Wait(o, attempt, last, t.jitter))] else [];
    seen := seen + [Asked(t.guard)];
    if !t.guard {
      assert seen == slept + [Asked(false)];
      return seen, Ends(Fails(Error(Withheld, None)));
    }
    if t.abortedAfterGuard {
      assert seen == slept + [Asked(true)];
      return seen, Ends(Aborted);
    }
    seen := seen + [Counted];
    seen := seen + [Sends(t.sent)];
    assert seen == slept + [Asked(true), Counted, Sends(t.sent)];
    verdict := Judge(o, t);
  }

  // --- What every call keeps --------------------------------------------------------------------

  /** An outcome worth another try. */
  predicate Transient(o: Options, sent: Sent) {
    || sent.NoAnswer?
    || (sent.Answer? && sent.status in RETRY_STATUS
      && (sent.retryAfter.Some? ==> sent.retryAfter.value <= o.maxRetryAfterMs))
  }

  /** How many requests went out. */
  function SendCount(seen: seq<Event>): nat {
    if seen == [] then 0 else SendCount(seen[..|seen| - 1]) + if seen[|seen| - 1].Sends? then 1 else 0
  }

  /** How many `onAttempt` counted. */
  function Counts(seen: seq<Event>): nat {
    if seen == [] then 0 else Counts(seen[..|seen| - 1]) + if seen[|seen| - 1].Counted? then 1 else 0
  }

  /**
   At place `i`: a send comes right after its own count, which comes right after its own yes of the
   guard; nothing is seen after a send whose outcome is final; a wait is bounded.
   */
  ghost predicate EventFits(o: Options, seen: seq<Event>, i: nat)
    requires i < |seen|
  {
    match seen[i]
    case Slept(ms) => 0 <= ms <= Max(MAX_BACKOFF, o.maxRetryAfterMs)
    case Asked(yes) => !yes ==> i == |seen| - 1
    case Counted => i > 0 && seen[i - 1] == Asked(true) && i + 1 < |seen| && seen[i + 1].Sends?
    case Sends(sent) => i > 1 && seen[i - 1] == Counted && (!Transient(o, sent) ==> i == |seen| - 1)
  }

  ghost predicate AllFit(o: Options, seen: seq<Event>) {
    forall i: nat :: i < |seen| ==> EventFits(o, seen, i)
  }

  /** The error carried on to the next attempt is transient, and asks for no longer a wait than allowed. */
  predicate LastFits(o: Options, last: Option<Error>) {
    last.Some? ==> Retryable(last.value.code)
                   && (last.value.retryAfter.Some? ==> last.value.retryAfter.value <= o.maxRetryAfterMs)
  }

  lemma {:induction false} CountsAdd(a: seq<Event>, b: seq<Event>)
    ensures SendCount(a + b) == SendCount(a) + SendCount(b) && Counts(a + b) == Counts(a) + Counts(b)
  {
    if b == [] {
      assert a + b == a;
    } else {
      var n := |b| - 1;
      CountsAdd(a, b[..n]);
      assert (a + b)[..|a + b| - 1] == a + b[..n];
    }
  }

  lemma JitterBound(backoff: nat, jitter: real)
    requires 0.0 <= jitter < 1.0
    ensures var w := Jittered(backoff, jitter); backoff <= 2 * w + 1 && 0 <= w <= backoff
  {
    var half := backoff as real / 2.0;
    assert 0.0 <= jitter * half <= half;
    assert half + half == backoff as real;
    var y := half + jitter * half + 0.5;
    assert y <= backoff as real + 0.5;
    assert y.Floor as real <= y < (backoff + 1) as real;
  }

  /** Without a Retry-After the wait is between half the backoff and all of it. */
  lemma WaitBound(o: Options, attempt: nat, last: Option<Error>, jitter: real)
    requires attempt > 0 && 0.0 <= jitter < 1.0 && LastFits(o, last)
    ensures var w := Wait(o, attempt, last, jitter);
            && 0 <= w <= Max(MAX_BACKOFF, o.maxRetryAfterMs)
            && (last.Some? && last.value.retryAfter.Some? ==> w == last.value.retryAfter.value)
            && (last == None || last.value.retryAfter == None ==>
                  Backoff(o.baseMs, attempt) <= 2 * w + 1 && w <= Backoff(o.baseMs, attempt))
  {
    JitterBound(Backoff(o.baseMs, attempt), jitter);
    hide Backoff, Jittered;
  }

  /** One turn's events fit, whatever turns follow. */
  lemma AttemptFits(o: Options, attempt: nat, last: Option<Error>, t: Try)
    requires 0.0 <= t.jitter < 1.0 && LastFits(o, last)
    ensures var (seen, verdict) := Attempt(o, attempt, last, t);
            && AllFit(o, seen)
            && SendCount(seen) <= 1 && Counts(seen) == SendCount(seen)
            && (verdict.GoesOn? ==>
                  && LastFits(o, Some(verdict.error))
                  && seen != [] && seen[|seen| - 1].Sends? && Transient(o, seen[|seen| - 1].sent))
            && (verdict.Ends? && verdict.result.Fails? && seen != [] && seen[|seen| - 1].Sends? ==>
                  (Transient(o, seen[|seen| - 1].sent) ==> Retryable(verdict.result.error.code)))
  {
    if attempt > 0 { WaitBound(o, attempt, last, t.jitter); }
    var (seen, verdict) := Attempt(o, attempt, last, t);
    var slept := if attempt > 0 then [Slept(Wait(o, attempt, last, t.jitter))] else [];
    CountsAdd(slept, [Asked(t.guard), Counted, Sends(t.sent)]);
    CountsAdd(slept, [Asked(t.guard)]);
    assert [Asked(t.guard), Counted, Sends(t.sent)][..2] == [Asked(t.guard), Counted];
    assert [Asked(t.guard), Counted][..1] == [Asked(t.guard)];
    assert slept + [Asked(true), Counted, Sends(t.sent)] == slept + [Asked(true)] + [Counted] + [Sends(t.sent)];
  }

  lemma Appended(o: Options, a: seq<Event>, b: seq<Event>)
    requires AllFit(o, a) && AllFit(o, b)
    requires a != [] && a[|a| - 1].Sends? && Transient(o, a[|a| - 1].sent)
    ensures AllFit(o, a + b)
  {
    forall i: nat | i < |a + b| ensures EventFits(o, a + b, i) {
      if i < |a| { assert EventFits(o, a, i); } else { assert EventFits(o, b, i - |a|); }
    }
  }

  lemma LastOf(a: seq<Event>, b: seq<Event>)
    ensures b == [] ==> a + b == a
    ensures b != [] ==> (a + b)[|a + b| - 1] == b[|b| - 1]
  {
  }

  ghost predicate Jitters(script: nat -> Try) {
    forall k: nat :: 0.0 <= script(k).jitter < 1.0
  }

  /**
   From attempt number `attempt` on: the events fit, one send at most for each attempt left, each
   counted; and when the last thing seen is a send with a transient outcome, the call's error (if
   it is not aborted) is one worth trying again later.
   */
  lemma {:induction false} FromFits(o: Options, attempt: nat, last: Option<Error>, script: nat -> Try)
    requires Jitters(script) && LastFits(o, last) && attempt <= o.maxRetries + 1
    ensures var (seen, result) := From(o, attempt, last, script);
            && AllFit(o, seen)
            && Counts(seen) == SendCount(seen) <= o.maxRetries + 1 - attempt
            && (seen != [] && seen[|seen| - 1].Sends? && Transient(o, seen[|seen| - 1].sent) && result.Fails? ==>
                  Retryable(result.error.code))
            && (seen == [] && result.Fails? && attempt > 0 && last.Some? ==> Retryable(result.error.code))
    decreases o.maxRetries + 1 - attempt
  {
    if attempt <= o.maxRetries {
      AttemptFits(o, attempt, last, script(attempt));
      hide Attempt, AllFit, LastFits, Transient, Retryable;
      var (seen, verdict) := Attempt(o, attempt, last, script(attempt));
      if verdict.GoesOn? {
        FromFits(o, attempt + 1, Some(verdict.error), script);
        var (rest, result) := From(o, attempt + 1, Some(verdict.error), script);
        assert From(o, attempt, last, script) == (seen + rest, result);
        hide Counts, SendCount, From, Jitters;
        Appended(o, seen, rest);
        CountsAdd(seen, rest);
        LastOf(seen, rest);
      }
    }
  }

  /**
   For every sequence of guard answers, outcomes and aborts: at most `maxRetries` + 1 requests go
   out, each right after a yes of the guard asked for it and counted once, none after a final
   outcome, the waits bounded; and the steps skip what a call fails with after a transient outcome
   only on a job's last attempt.
   */
  lemma EveryCall(o: Options, script: nat -> Try, j: Job)
    requires Jitters(script)
    ensures var (seen, result) := Call(o, script);
            && AllFit(o, seen)
            && Counts(seen) == SendCount(seen) <= o.maxRetries + 1
            && (seen != [] && seen[|seen| - 1].Sends? && Transient(o, seen[|seen| - 1].sent) && result.Fails? ==>
                  && Retryable(result.error.code)
                  && (Skippable(Model(result.error.code), j) <==> j.finalAttempt && !j.aborted)
                  && (SkipReason(Model(result.error.code), j).Some? <==> j.finalAttempt && !j.aborted))
  {
    if !o.literalBlocked {
      FromFits(o, 0, None, script);
      var (seen, result) := From(o, 0, None, script);
      if result.Fails? {
        StepsAgree(result.error.code, j);
      }
    }
  }
}
