/**
 How a call to a provider ends (ai/models/src/http.ts, `postJson`): what it gives for each answer, each failure
 and each abort, over all its attempts, and how long it waits between them.
 */
module PostJsonEnds {
  import opened Common
  import opened ModelErrors
  import opened PostJson

  /** How often the guard was asked. */
  function AskCount(seen: seq<Event>): nat {
    if seen == [] then 0 else AskCount(seen[..|seen| - 1]) + if seen[|seen| - 1].Asked? then 1 else 0
  }

  lemma {:induction false} AsksAdd(a: seq<Event>, b: seq<Event>)
    ensures AskCount(a + b) == AskCount(a) + AskCount(b)
  {
    if b == [] {
      assert a + b == a;
    } else {
      var n := |b| - 1;
      AsksAdd(a, b[..n]);
      assert (a + b)[..|a + b| - 1] == a + b[..n];
    }
  }

  /** An attempt gets to asking the guard. */
  predicate AsksGuard(t: Try, first: bool) {
    !t.abortedBefore && (first || !t.abortedInSleep)
  }

  /** A request goes out: nothing aborts it before, and the guard says yes. */
  predicate Goes(t: Try, first: bool) {
    !t.abortedBefore && (first || !t.abortedInSleep) && t.guard && !t.abortedAfterGuard
  }

  /** The answer asks to be tried again, not later than a call may wait. */
  predicate AsksAgain(o: Options, sent: Sent) {
    && sent.Answer? && sent.status in {408, 409, 425, 429, 500, 502, 503, 504, 529}
    && (sent.retryAfter == None || sent.retryAfter.value <= o.maxRetryAfterMs)
  }

  /** An attempt after which there is another, if any are left. */
  predicate TriesAgain(o: Options, t: Try, first: bool) {
    Goes(t, first) && (AsksAgain(o, t.sent) || (t.sent.NoAnswer? && !t.abortedAfterFailure))
  }

  /** The first attempt from number `i` on after which there is no other, or the number past the last. */
  function Ending(o: Options, script: nat -> Try, i: nat): (k: nat)
    requires i <= o.maxRetries + 1
    ensures i <= k <= o.maxRetries + 1 && (k <= o.maxRetries ==> !TriesAgain(o, script(k), k == 0))
    ensures forall j: nat :: i <= j < k ==> TriesAgain(o, script(j), j == 0)
    decreases o.maxRetries + 1 - i
  {
    if i > o.maxRetries || !TriesAgain(o, script(i), i == 0) then i else Ending(o, script, i + 1)
  }

  predicate Good(sent: Sent) {
    sent.Answer? && 200 <= sent.status < 300 && sent.isJson
  }

  /** What an answer or a failure that is final, or the last one there may be, fails the call with. */
  predicate FailsWith(o: Options, sent: Sent, e: Error) {
    match sent
    case AnswerTooLarge => e == Error(TooLarge, None)
    case AddressBlocked => e == Error(Blocked, None)
    case NoAnswer(timedOut) => e == Error(if timedOut then Timeout else Network, None)
    case Answer(status, _, retryAfter) =>
      && (e.code == BadResponse <==> 200 <= status < 300)
      && (e.code == Auth <==> status == 401 || status == 403)
      && (e.code == RateLimited <==>
            status == 429 || (!AsksAgain(o, sent) && status in {408, 409, 425, 500, 502, 503, 504, 529}))
      && (e.code == Timeout <==> status == 408 && AsksAgain(o, sent))
      && (e.code == Server <==> status in {409, 425, 500, 502, 503, 504, 529} && AsksAgain(o, sent))
      && e.code in {BadResponse, Auth, RateLimited, Timeout, Server, Refused}
      && e.retryAfter == if status in {408, 409, 425, 429, 500, 502, 503, 504, 529} then retryAfter else None
  }

  /** The caller's signal fired: before the request, or while it failed without an answer. */
  predicate IsAborted(t: Try, first: bool) {
    || t.abortedBefore || (!first && t.abortedInSleep) || (t.guard && t.abortedAfterGuard)
    || (t.guard && !t.sent.Answer? && t.abortedAfterFailure)
  }

  predicate EndsWith(o: Options, t: Try, first: bool, result: Result) {
    && (result == Aborted <==> IsAborted(t, first))
    && (result == Parsed <==> Goes(t, first) && Good(t.sent))
    && (result.Fails? && !t.guard ==> result.error == Error(Withheld, None))
    && (result.Fails? && t.guard ==> FailsWith(o, t.sent, result.error))
  }

  /** What an answer or a failure makes of the call. */
  lemma JudgedRight(o: Options, t: Try)
    ensures var verdict := Judge(o, t);
            var aborted := !t.sent.Answer? && t.abortedAfterFailure;
            && (verdict.GoesOn? <==> AsksAgain(o, t.sent) || (t.sent.NoAnswer? && !aborted))
            && (verdict.GoesOn? ==> FailsWith(o, t.sent, verdict.error))
            && (verdict.Ends? ==>
                  && (verdict.result == Aborted <==> aborted)
                  && (verdict.result == Parsed <==> Good(t.sent))
                  && (verdict.result.Fails? ==> FailsWith(o, t.sent, verdict.result.error)))
  {
  }

  lemma AttemptEnds(o: Options, attempt: nat, last: Option<Error>, t: Try)
    ensures var (seen, verdict) := Attempt(o, attempt, last, t);
            var first := attempt == 0;
            && SendCount(seen) == (if Goes(t, first) then 1 else 0)
            && AskCount(seen) == (if AsksGuard(t, first) then 1 else 0)
            && (verdict.GoesOn? <==> TriesAgain(o, t, first))
            && (verdict.GoesOn? ==> Goes(t, first) && AsksGuard(t, first) && FailsWith(o, t.sent, verdict.error))
            && (verdict.Ends? ==> EndsWith(o, t, first, verdict.result))
  {
    hide FailsWith, Judge, Wait, AsksAgain;
    JudgedRight(o, t);
    var slept := if attempt > 0 then [Slept(Wait(o, attempt, last, t.jitter))] else [];
    assert SendCount(slept) == 0 && AskCount(slept) == 0;
    CountsAdd(slept, [Asked(t.guard), Counted, Sends(t.sent)]);
    CountsAdd(slept, [Asked(t.guard)]);
    AsksAdd(slept, [Asked(t.guard), Counted, Sends(t.sent)]);
    AsksAdd(slept, [Asked(t.guard)]);
    assert [Asked(t.guard), Counted, Sends(t.sent)][..2] == [Asked(t.guard), Counted];
    assert [Asked(t.guard), Counted][..1] == [Asked(t.guard)];
    hide Wait;
  }

  /** From an attempt on. */
  lemma {:induction false} FromEnds(o: Options, attempt: nat, last: Option<Error>, script: nat -> Try)
    requires attempt <= o.maxRetries + 1
    requires attempt > 0 ==> last.Some? && FailsWith(o, script(attempt - 1).sent, last.value)
    requires o.maxRetries + 1 == attempt ==> attempt > 0
    ensures var (seen, result) := From(o, attempt, last, script);
            var k := Ending(o, script, attempt);
            if k > o.maxRetries then
              && SendCount(seen) == k - attempt && AskCount(seen) == k - attempt
              && result.Fails? && FailsWith(o, script(k - 1).sent, result.error)
            else
              && AskCount(seen) == k - attempt + (if AsksGuard(script(k), k == 0) then 1 else 0)
              && SendCount(seen) == k - attempt + (if Goes(script(k), k == 0) then 1 else 0)
              && EndsWith(o, script(k), k == 0, result)
    decreases o.maxRetries + 1 - attempt
  {
    hide Attempt, SendCount, AskCount, FailsWith, Goes, AsksGuard, EndsWith, TriesAgain;
    if attempt <= o.maxRetries {
      AttemptEnds(o, attempt, last, script(attempt));
      var (seen, verdict) := Attempt(o, attempt, last, script(attempt));
      if verdict.GoesOn? {
        var next := Some(verdict.error);
        FromEnds(o, attempt + 1, next, script);
        CountsAdd(seen, From(o, attempt + 1, next, script).0);
        AsksAdd(seen, From(o, attempt + 1, next, script).0);
        GoesOnFrom(o, attempt, last, script);
      } else {
        assert From(o, attempt, last, script) == (seen, verdict.result);
      }
    } else {
      NoneSent();
    }
  }

  lemma NoneSent()
    ensures SendCount([]) == 0 && AskCount([]) == 0
  {
  }

  lemma GoesOnFrom(o: Options, attempt: nat, last: Option<Error>, script: nat -> Try)
    requires attempt <= o.maxRetries && Attempt(o, attempt, last, script(attempt)).1.GoesOn?
    ensures var (seen, verdict) := Attempt(o, attempt, last, script(attempt));
            var (rest, result) := From(o, attempt + 1, Some(verdict.error), script);
            From(o, attempt, last, script) == (seen + rest, result)
  {
    hide Attempt;
  }

  /**
   How every call ends. One to a blocked address fails, nothing sent. Else, if attempt `k` is the first not to be
   tried again, the guard was asked and a request went out for each before it, and it ends the call: aborted; with
   the answer, if that is a 2xx and JSON; withheld; or failed with what its outcome stands for. If each is tried
   again, the call fails with what the last one stands for, all `maxRetries` + 1 sent.
   */
  lemma CallEnds(o: Options, script: nat -> Try)
    ensures var (seen, result) := Call(o, script);
            var k := Ending(o, script, 0);
            if o.literalBlocked then seen == [] && result == Fails(Error(Blocked, None))
            else if k > o.maxRetries then
              && SendCount(seen) == k && AskCount(seen) == k
              && result.Fails? && FailsWith(o, script(k - 1).sent, result.error)
            else
              && AskCount(seen) == k + (if AsksGuard(script(k), k == 0) then 1 else 0)
              && SendCount(seen) == k + (if Goes(script(k), k == 0) then 1 else 0)
              && (result == Aborted <==> IsAborted(script(k), k == 0))
              && (result == Parsed <==> Goes(script(k), k == 0) && Good(script(k).sent))
              && (result.Fails? && !script(k).guard ==> result.error == Error(Withheld, None))
              && (result.Fails? && script(k).guard ==> FailsWith(o, script(k).sent, result.error))
  {
    if !o.literalBlocked {
      FromEnds(o, 0, None, script);
    }
  }

  // --- How long it waits --------------------------------------------------------------------------------

  /** The waits, in order. */
  function Waits(seen: seq<Event>): seq<int> {
    if seen == [] then [] else (if seen[0].Slept? then [seen[0].ms] else []) + Waits(seen[1..])
  }

  lemma {:induction false} WaitsAdd(a: seq<Event>, b: seq<Event>)
    ensures Waits(a + b) == Waits(a) + Waits(b)
  {
    if a == [] {
      assert a + b == b;
    } else {
      assert (a + b)[1..] == a[1..] + b && (a + b)[0] == a[0];
      WaitsAdd(a[1..], b);
      var first := if a[0].Slept? then [a[0].ms] else [];
      assert Waits(a + b) == first + Waits(a[1..] + b) && Waits(a) == first + Waits(a[1..]);
      hide Waits;
      assert first + (Waits(a[1..]) + Waits(b)) == first + Waits(a[1..]) + Waits(b);
    }
  }

  /** The backoff doubles from attempt to attempt, up to 30 s. */
  lemma BackoffDoubles(baseMs: nat, attempt: nat)
    requires attempt > 0
    ensures Backoff(baseMs, 1) == Min(30_000, baseMs)
    ensures Backoff(baseMs, attempt + 1) == Min(30_000, 2 * Backoff(baseMs, attempt))
  {
    assert Pow2(0) == 1;
    var p := Pow2(attempt - 1);
    assert baseMs * (2 * p) == 2 * (baseMs * p);
  }

  function AskedWait(sent: Sent): Option<nat> {
    if sent.Answer? then sent.retryAfter else None
  }

  /** The wait before attempt `k`: what the answer before it asked for, or half the backoff and up to all of it. */
  ghost predicate WaitIs(o: Options, script: nat -> Try, k: nat, ms: int)
    requires k > 0
  {
    match AskedWait(script(k - 1).sent)
    case Some(asked) => ms == asked
    case None => Backoff(o.baseMs, k) <= 2 * ms + 1 && ms <= Backoff(o.baseMs, k)
  }

  /** Waits before attempt `k` and those after it. */
  ghost predicate WaitsFit(o: Options, script: nat -> Try, k: nat, waits: seq<int>)
    requires k > 0
  {
    forall i :: 0 <= i < |waits| ==> WaitIs(o, script, k + i, waits[i])
  }

  /** A turn waits once at most, before it asks the guard; one that is tried again did, unless it is the first. */
  lemma TurnWaits(o: Options, attempt: nat, last: Option<Error>, t: Try)
    ensures var (seen, verdict) := Attempt(o, attempt, last, t);
            && (Waits(seen) == [] || (attempt > 0 && Waits(seen) == [Wait(o, attempt, last, t.jitter)]))
            && (verdict.GoesOn? ==>
                  |Waits(seen)| == (if attempt > 0 then 1 else 0) && verdict.error.retryAfter == AskedWait(t.sent))
  {
    var slept := if attempt > 0 then [Slept(Wait(o, attempt, last, t.jitter))] else [];
    hide Wait, Judge;
    var seen := Attempt(o, attempt, last, t).0;
    WaitsAdd(slept, [Asked(t.guard), Counted, Sends(t.sent)]);
    WaitsAdd(slept, [Asked(t.guard)]);
    assert [Asked(t.guard), Counted, Sends(t.sent)][1..] == [Counted, Sends(t.sent)];
    assert [Counted, Sends(t.sent)][1..] == [Sends(t.sent)];
    assert Waits([Sends(t.sent)]) == [];
    assert Waits([Counted, Sends(t.sent)]) == [] && Waits([Asked(t.guard)]) == [];
    assert slept != [] ==> slept[1..] == [];
    assert Waits(slept) == if attempt > 0 then [Wait(o, attempt, last, t.jitter)] else [];
    if t.abortedBefore {
      assert seen == [];
    } else {
      assert seen in {slept, slept + [Asked(t.guard)], slept + [Asked(t.guard), Counted, Sends(t.sent)]};
    }
  }

  lemma WaitBefore(o: Options, attempt: nat, last: Option<Error>, script: nat -> Try)
    requires attempt > 0 && Jitters(script)
    requires last.Some? && last.value.retryAfter == AskedWait(script(attempt - 1).sent)
    ensures WaitIs(o, script, attempt, Wait(o, attempt, last, script(attempt).jitter))
  {
    JitterBound(Backoff(o.baseMs, attempt), script(attempt).jitter);
    hide Backoff, Jittered;
  }

  lemma {:induction false} FromWaits(o: Options, attempt: nat, last: Option<Error>, script: nat -> Try)
    requires Jitters(script) && attempt <= o.maxRetries + 1
    requires attempt > 0 ==> last.Some? && last.value.retryAfter == AskedWait(script(attempt - 1).sent)
    ensures WaitsFit(o, script, if attempt == 0 then 1 else attempt, Waits(From(o, attempt, last, script).0))
    decreases o.maxRetries + 1 - attempt
  {
    hide Attempt, Wait, WaitIs, Waits, AskedWait;
    if attempt <= o.maxRetries {
      TurnWaits(o, attempt, last, script(attempt));
      if attempt > 0 { WaitBefore(o, attempt, last, script); }
      var (seen, verdict) := Attempt(o, attempt, last, script(attempt));
      if verdict.GoesOn? {
        var next := Some(verdict.error);
        FromWaits(o, attempt + 1, next, script);
        GoesOnFrom(o, attempt, last, script);
        WaitsAdd(seen, From(o, attempt + 1, next, script).0);
      }
    } else {
      assert Waits([]) == [] by { NoWaits(); }
    }
  }

  lemma NoWaits()
    ensures Waits([]) == []
  {
  }

  /** Every wait of a call: before attempt `i` + 1 it is what the answer to attempt `i` asked for, or the backoff. */
  lemma CallWaits(o: Options, script: nat -> Try)
    requires Jitters(script)
    ensures WaitsFit(o, script, 1, Waits(Call(o, script).0))
  {
    FromWaits(o, 0, None, script);
  }
}
