/**
 One run of the summarize step for a version (ai/enrich/src/summarize.ts, `run`, `ask`, `giveUp` and
 `markNoProvider`): what becomes of its card and of the tokens it reserved, on every way out.
 */
module SummarizeRun {
  import opened Common
  import opened ModelErrors
  import opened TokenLedger

  datatype Why = NoText | Flagged | NoProvider | OverBudget | Failed(reason: Reason)

  /** `current`: made by this version of the prompt. */
  datatype Card = NoCard | Skipped(why: Why, current: bool) | Summarized(current: bool)

  /** What checking an answer says: it fits, it doesn't (and is asked for once more), or the check breaks. */
  datatype Check = Fits | Misfits | Breaks

  datatype Call = Back(report: Report, check: Check) | Throws(e: Thrown)

  datatype Answer = Good | Bad(e: Thrown)

  /**
   What is outside the step: the text and what the detector says of it, who may have it, what the
   calls give, which transactions commit (`first` of a skip or the reservation, `own` of the step's
   result, `last` of its `finally`), and what others do to the rows between those.
   */
  datatype World = World(
    hasText: bool, flagged: bool, reviewed: bool, allowed: bool, perCall: nat, call: Call, repair: Call, sent: nat,
    otherAllowed: bool, job: Job, first: bool, own: bool, last: bool,
    others: Meanwhile)

  datatype End = UpToDate | SkippedFor(why: Why) | HeldBack | Done | JobFails

  /** Cards that a nightly retry takes up again. */
  predicate TakenUpAgain(card: Card) {
    card.Skipped? && card.why in {OverBudget, Failed(CallRefused), Failed(Unavailable)}
  }

  /** What a card skipped for a reason another try would cure becomes when no provider may have the file. */
  function Marked(card: Card): Card {
    if TakenUpAgain(card) then Skipped(NoProvider, true) else card
  }

  // --- The calls -----------------------------------------------------------------------------------

  function Checked(c: Check): Answer {
    match c case Fits => Good case Misfits => Bad(BadOutput) case Breaks => Bad(Other)
  }

  /** The reports of the calls that came back, and what they come to. */
  function Asked(call: Call, repair: Call): (seq<Report>, Answer) {
    match call
    case Throws(e) => ([], Bad(e))
    case Back(r, check) =>
      if check != Misfits then ([r], Checked(check))
      else match repair
        case Throws(e) => ([r], Bad(e))
        case Back(r2, check2) => ([r, r2], Checked(check2))
  }

  function CardOf(end: End, card: Card, w: World): Card {
    match end
    case UpToDate => card
    case SkippedFor(why) => Skipped(why, true)
    case HeldBack => if w.otherAllowed then card else Marked(card)
    case Done => Summarized(true)
    case JobFails => card
  }

  /** How a run ends once it has its reservation. */
  function EndOf(answer: Answer, w: World): End {
    match answer
    case Good => if w.own then Done else JobFails
    case Bad(e) =>
      if e == Model(Withheld) then (if w.own then HeldBack else JobFails)
      else match SkipReason(e, w.job)
        case None => JobFails
        case Some(reason) => if w.own then SkippedFor(Failed(reason)) else JobFails
  }

  /** Errors of which another try may be free: a provider that is busy, down or slow, or a budget spent. */
  predicate TryLater(e: Thrown) {
    e == StepTimeout || (e.Model? && (Retryable(e.code) || e.code == SpentBudget))
  }

  predicate FailsJob(answer: Answer, j: Job) {
    && answer.Bad? && answer.e != Model(Withheld)
    && (j.aborted || answer.e in {Other, BadVectors} || (TryLater(answer.e) && !j.finalAttempt))
  }

  /** Which answers fail the job, whichever of the two calls they are of. */
  lemma AnswerFails(answer: Answer, w: World)
    ensures EndOf(answer, w) == JobFails <==> !w.own || FailsJob(answer, w.job)
  {
  }

  function SkipEnd(why: Why, w: World): End {
    if w.first then SkippedFor(why) else JobFails
  }

  /** The text may go to a model, and there is no current summary yet. */
  predicate MayAsk(card: Card, w: World) {
    card != Summarized(true) && w.hasText && (w.reviewed || !w.flagged) && w.allowed
  }

  /** How a run ends; `granted`: the day's budget has room for its reservation. */
  function Ending(card: Card, granted: bool, w: World): End {
    if card == Summarized(true) then UpToDate
    else if !w.hasText then SkipEnd(NoText, w)
    else if w.flagged && !w.reviewed then SkipEnd(Flagged, w)
    else if !w.allowed then SkipEnd(NoProvider, w)
    else if !w.first then JobFails
    else if !granted then SkipEnd(OverBudget, w)
    else EndOf(Asked(w.call, w.repair).1, w)
  }

  /** It may ask a model, and has tokens reserved for that. */
  predicate Asks(card: Card, rows: Rows, k: Key, limit: nat, w: World) {
    MayAsk(card, w) && w.first && Reserve(rows, k, w.perCall * 2, limit).1.Some?
  }

  /** What it does to the rows then: it settles with its result, else in its `finally`. */
  function SpendingOf(w: World): Spending {
    var (reports, answer) := Asked(w.call, w.repair);
    Spending(Summarize, w.perCall * 2, reports, w.sent, EndOf(answer, w) != JobFails, w.last)
  }

  /** The rows it leaves. */
  function RowsAfter(card: Card, rows: Rows, k: Key, limit: nat, w: World): Rows {
    if MayAsk(card, w) && w.first then Spend(rows, k, limit, SpendingOf(w), w.others) else rows
  }

  class Version {
    var card: Card
    var rows: Rows
    var used: nat
    var calls: nat
    var settles: nat
    var reserves: nat

    constructor (card: Card, rows: Rows)
      ensures this.card == card && this.rows == rows && used == 0 && calls == 0 && settles == 0 && reserves == 0
    {
      this.card := card;
      this.rows := rows;
      used, calls, settles, reserves := 0, 0, 0, 0;
    }

    /** The call, and one repair; what comes back is counted as it does. */
    method Ask(w: World, cap: nat) returns (answer: Answer)
      requires used == 0 && calls == 0
      modifies this`used, this`calls
      ensures answer == Asked(w.call, w.repair).1
      ensures used == SummarizeTally(cap, Asked(w.call, w.repair).0) && calls == w.sent
    {
      calls := w.sent;
      if w.call.Throws? {
        return Bad(w.call.e);
      }
      Count(w.call.report, cap);
      ghost var first := used;
      assert SummarizeTally(cap, [w.call.report]) == first by {
        assert [w.call.report][1..] == [];
      }
      if w.call.check != Misfits {
        return Checked(w.call.check);
      }
      if w.repair.Throws? {
        return Bad(w.repair.e);
      }
      Count(w.repair.report, cap);
      assert SummarizeTally(cap, [w.call.report, w.repair.report]) == used by {
        assert [w.call.report, w.repair.report][1..] == [w.repair.report] && [w.repair.report][1..] == [];
      }
      return Checked(w.repair.check);
    }

    method Count(r: Report, cap: nat)
      modifies this`used
      ensures used == old(used) + Min(cap, Clamp(r.input, cap) + Clamp(r.output, cap))
    {
      var input := Clamp(r.input, cap);
      var output := Clamp(r.output, cap);
      used := used + Min(cap, input + output);
    }

    method SettleNow(tenant: string, res: Reservation)
      modifies this`rows, this`settles
      ensures rows == Settle(old(rows), tenant, res, Finite(used as real), calls) && settles == old(settles) + 1
    {
      rows := Settle(rows, tenant, res, Finite(used as real), calls);
      settles := settles + 1;
    }

    method Run(tenant: string, today: nat, b: Budget, w: World) returns (end: End)
      requires used == 0 && calls == 0 && settles == 0 && reserves == 0
      modifies this
      // How it ends, and what becomes of the card.
      ensures end == Ending(old(card),
          Reserve(old(rows), Key(tenant, today), w.perCall * 2, b.LimitFor(tenant)).1.Some?, w)
      ensures card == CardOf(end, old(card), w)
      // It reserves exactly when it may ask and the budget has room, and only then asks a model.
      ensures reserves == 1 <==> Asks(old(card), old(rows), Key(tenant, today), b.LimitFor(tenant), w)
      ensures reserves <= 1 && calls == if reserves == 1 then w.sent else 0
      ensures used == if reserves == 1 then SummarizeTally(w.perCall * 2, Asked(w.call, w.repair).0) else 0
      // The reservation is settled once, with the result or after it, unless that last transaction fails too.
      ensures settles == if reserves == 1 && (end != JobFails || w.last) then 1 else 0
      ensures rows == RowsAfter(old(card), old(rows), Key(tenant, today), b.LimitFor(tenant), w)
      // It fails the job exactly when a transaction fails, or the model did in a way worth another try while
      // there is one.
      ensures reserves == 1 ==> (end == JobFails <==> !w.own || FailsJob(Asked(w.call, w.repair).1, w.job))
      // Withheld from every provider, it leaves no card that a nightly retry would take up, and no summary is lost.
      ensures reserves == 1 && Asked(w.call, w.repair).1 == Bad(Model(Withheld)) && w.own && !w.otherAllowed ==>
                !TakenUpAgain(card) && (!old(card).Skipped? ==> card == old(card))
    {
      hide Reserve, Settle, RestOf, SummarizeTally, SkipReason, FailsJob, Retryable;
      AnswerFails(Asked(w.call, w.repair).1, w);
      if card == Summarized(true) {
        return UpToDate;
      }
      var why :=
        if !w.hasText then Some(NoText)
        else if w.flagged && !w.reviewed then Some(Flagged)
        else if !w.allowed then Some(NoProvider)
        else None;
      if why.Some? {
        end := Skip(why.value, w);
        return;
      }
      if !w.first {
        return JobFails;
      }
      var (reserved, res) := Reserve(rows, Key(tenant, today), w.perCall * 2, b.LimitFor(tenant));
      if res == None {
        // Nothing was reserved: the budget is spent for today.
        end := Skip(OverBudget, w);
        return;
      }
      rows, reserves := reserved, 1;
      end := AskAndSave(tenant, w, res.value);
    }

    /** The rest of it, once tokens are reserved: the calls, the result and the `finally`. */
    method AskAndSave(tenant: string, w: World, res: Reservation) returns (end: End)
      requires used == 0 && calls == 0 && settles == 0
      modifies this`rows, this`card, this`used, this`calls, this`settles
      ensures end == EndOf(Asked(w.call, w.repair).1, w) && card == CardOf(end, old(card), w)
      ensures used == SummarizeTally(w.perCall * 2, Asked(w.call, w.repair).0) && calls == w.sent
      ensures settles == if end != JobFails || w.last then 1 else 0
      ensures rows == RestOf(old(rows), tenant, res, SpendingOf(w), w.others)
    {
      hide Settle, SummarizeTally, SkipReason;
      var settled := false;
      var answer := Ask(w, w.perCall * 2);
      rows := w.others.calling(rows);
      if answer.Bad? && answer.e == Model(Withheld) {
        if w.own {
          SettleNow(tenant, res);
          if !w.otherAllowed {
            card := Marked(card);
          }
          settled := true;
        }
        end := if w.own then HeldBack else JobFails;
      } else if answer.Bad? {
        var reason := SkipReason(answer.e, w.job);
        if reason.Some? && w.own {
          SettleNow(tenant, res);
          card := Skipped(Failed(reason.value), true);
          settled := true;
        }
        end := if reason.Some? && w.own then SkippedFor(Failed(reason.value)) else JobFails;
      } else {
        if w.own {
          SettleNow(tenant, res);
          card := Summarized(true);
          settled := true;
        }
        end := if w.own then Done else JobFails;
      }
      // `finally`
      if !settled {
        rows := w.others.leaving(rows);
        if w.last {
          SettleNow(tenant, res);
        }
      }
    }

    /** The salvage run of a job that is given up on: a card of this prompt is left as it is. */
    method GiveUp()
      modifies this`card
      ensures card == if old(card).NoCard? || !old(card).current then Skipped(Failed(Unavailable), true) else old(card)
    {
      if !card.NoCard? && card.current {
        return;
      }
      card := Skipped(Failed(Unavailable), true);
    }

    method Skip(why: Why, w: World) returns (end: End)
      modifies this`card
      ensures end == SkipEnd(why, w) && card == CardOf(end, old(card), w)
    {
      if w.first {
        card := Skipped(why, true);
        return SkippedFor(why);
      }
      return JobFails;
    }
  }

  // --- What every way out leaves -------------------------------------------------------------------

  /**
   Reserved and settled, a run has taken from its tenant's day just what its calls came to, and twice
   its reservation at most; unsettled, just its reservation. No other row changes.
   */
  lemma RunCosts(rows: Rows, tenant: string, today: nat, perCall: nat, limit: nat, w: World, calls: nat)
    requires forall k :: k in rows ==> rows[k].tokens >= 0
    requires Reserve(rows, Key(tenant, today), perCall * 2, limit).1.Some?
    ensures var (reserved, res) := Reserve(rows, Key(tenant, today), perCall * 2, limit);
            var used := SummarizeTally(perCall * 2, Asked(w.call, w.repair).0);
            var settled := Settle(reserved, tenant, res.value, Finite(used as real), calls);
            var k := Key(tenant, today);
            && TokensAt(reserved, k) == TokensAt(rows, k) + perCall * 2 <= limit
            && TokensAt(settled, k) == TokensAt(rows, k) + used <= limit + perCall * 2
            && forall k' :: k' != k ==> TokensAt(settled, k') == TokensAt(reserved, k') == TokensAt(rows, k')
  {
    var (reserved, res) := Reserve(rows, Key(tenant, today), perCall * 2, limit);
    var reports := Asked(w.call, w.repair).0;
    var cap: nat := perCall * 2;
    var used := SummarizeTally(cap, reports);
    SummarizeTallyBound(cap, reports);
    FloorOf(used);
    assert used <= cap * 2 by {
      assert |reports| <= 2;
      assert cap * |reports| <= cap * 2;
    }
    var k := Key(tenant, today);
    var settled := Settle(reserved, tenant, res.value, Finite(used as real), calls);
    hide SummarizeTally, Asked;
    assert k in reserved && res.value == Reservation(today, cap);
  }

  /**
   Withheld by either call, with no other provider allowed: no card is left that a nightly retry would
   take up for nothing, and a summary is left as it is.
   */
  lemma WithheldIsSaid(card: Card, w: World)
    requires MayAsk(card, w) && w.first && w.own && !w.otherAllowed
    requires Asked(w.call, w.repair).1 == Bad(Model(Withheld))
    ensures var left := CardOf(Ending(card, true, w), card, w);
            !TakenUpAgain(left) && (!card.Skipped? ==> left == card)
  {
  }

  /** Runs of the step for one version, and the salvage run, in any order. */
  datatype Event = Runs(granted: bool, w: World) | GivesUp

  function Next(card: Card, e: Event): Card {
    match e
    case Runs(granted, w) => CardOf(Ending(card, granted, w), card, w)
    case GivesUp => if card.NoCard? || !card.current then Skipped(Failed(Unavailable), true) else card
  }

  function Exec(card: Card, es: seq<Event>): Card
    decreases |es|
  {
    if es == [] then card else Exec(Next(card, es[0]), es[1..])
  }

  /** A run of one event more goes on from where the run was. */
  lemma {:induction false} RunsGoOn(card: Card, es: seq<Event>, e: Event)
    ensures Exec(card, []) == card && Exec(card, es + [e]) == Next(Exec(card, es), e)
    decreases |es|
  {
    hide Next;
    if es == [] {
      assert [] + [e] == [e] && [e][1..] == [];
    } else {
      assert (es + [e])[1..] == es[1..] + [e];
      RunsGoOn(Next(card, es[0]), es[1..], e);
    }
  }

  /** A summary once saved is never lost or made again: every later run is up to date, and asks nothing. */
  lemma {:induction false} SummaryStays(card: Card, es: seq<Event>)
    requires card == Summarized(true)
    ensures Exec(card, es) == card
    ensures forall i :: 0 <= i < |es| && es[i].Runs? ==> Ending(card, es[i].granted, es[i].w) == UpToDate
    decreases |es|
  {
    if es != [] {
      SummaryStays(card, es[1..]);
    }
  }

  /**
   And a version has one only if some run's answer was good: text that was allowed, reserved for, called and
   saved.
   */
  lemma {:induction false} SummaryWasMade(card: Card, es: seq<Event>) returns (i: nat)
    requires card != Summarized(true) && Exec(card, es) == Summarized(true)
    ensures i < |es| && es[i].Runs? && es[i].granted && es[i].w.own
    ensures MayAsk(NoCard, es[i].w) && Asked(es[i].w.call, es[i].w.repair).1 == Good
    decreases |es|
  {
    if Next(card, es[0]) == Summarized(true) {
      i := 0;
    } else {
      var j := SummaryWasMade(Next(card, es[0]), es[1..]);
      i := j + 1;
    }
  }

  // --- Exactly how it ends ---------------------------------------------------------------------------

  /**
   What the calls come to: good if the answer fits, or the second does after one that doesn't; and otherwise just
   what went wrong last. What is counted is what came back, of the second only if it was made.
   */
  lemma AnswersExactly(call: Call, repair: Call)
    ensures var (reports, answer) := Asked(call, repair);
            var again := call.Back? && call.check == Misfits;
            var last := if again then repair else call;
            && (answer == Good <==> last.Back? && last.check == Fits)
            && (forall e :: answer == Bad(e) <==>
                  || last == Throws(e)
                  || (last.Back? && last.check == Misfits && e == BadOutput)
                  || (last.Back? && last.check == Breaks && e == Other))
            && reports == (if call.Back? then [call.report] else [])
                          + (if again && repair.Back? then [repair.report] else [])
  {
  }

  /** All that a model is asked for. */
  predicate GetsToAsk(card: Card, granted: bool, w: World) {
    card != Summarized(true) && w.hasText && (w.reviewed || !w.flagged) && w.allowed && w.first && granted
  }

  /**
   Exactly how a run ends, and the card it leaves. It is skipped for the first of no text, a flag that nobody
   reviewed, no provider and no budget; else for what the calls came to. A transaction that fails leaves the card.
   */
  lemma EndsExactly(card: Card, granted: bool, w: World)
    ensures var end := Ending(card, granted, w);
            var answer := Asked(w.call, w.repair).1;
            var asks := GetsToAsk(card, granted, w);
            && (end == UpToDate <==> card == Summarized(true))
            && (end == SkippedFor(NoText) <==> card != Summarized(true) && w.first && !w.hasText)
            && (end == SkippedFor(Flagged) <==>
                  card != Summarized(true) && w.first && w.hasText && w.flagged && !w.reviewed)
            && (end == SkippedFor(NoProvider) <==>
                  card != Summarized(true) && w.first && w.hasText && (w.reviewed || !w.flagged) && !w.allowed)
            && (end == SkippedFor(OverBudget) <==> GetsToAsk(card, true, w) && !granted)
            && (end == Done <==> asks && w.own && answer == Good)
            && (end == HeldBack <==> asks && w.own && answer == Bad(Model(Withheld)))
            && (forall reason :: end == SkippedFor(Failed(reason)) <==>
                  && asks && w.own && answer.Bad? && answer.e != Model(Withheld)
                  && SkipReason(answer.e, w.job) == Some(reason))
    // The card after it, and after the salvage run.
    ensures var end := Ending(card, granted, w);
            Next(card, Runs(granted, w)) ==
              if end == Done then Summarized(true)
              else if end.SkippedFor? then Skipped(end.why, true)
              else if end == HeldBack && !w.otherAllowed && card.Skipped?
                && card.why in {OverBudget, Failed(CallRefused), Failed(Unavailable)} then Skipped(NoProvider, true)
              else card
    ensures Next(card, GivesUp) == if card.NoCard? || !card.current then Skipped(Failed(Unavailable), true) else card
    // It reserves if that transaction commits and it gets as far.
    ensures MayAsk(card, w) && w.first && granted <==> GetsToAsk(card, granted, w)
  {
    hide Asked, SkipReason;
  }

  /**
   What a run leaves the day's row at, with no others between: what its calls came to if it settles, the
   reservation if neither transaction commits, and what it was if nothing was reserved.
   */
  lemma CostsExactly(card: Card, rows: Rows, k: Key, limit: nat, w: World)
    requires w.others == ALONE && (k in rows ==> rows[k].tokens >= 0)
    ensures var granted := TokensAt(rows, k) + 2 * w.perCall <= limit;
            TokensAt(RowsAfter(card, rows, k, limit, w), k) == TokensAt(rows, k) +
              if !GetsToAsk(card, granted, w) then 0
              else if Ending(card, granted, w) == JobFails && !w.last then 2 * w.perCall
              else SummarizeTally(2 * w.perCall, Asked(w.call, w.repair).0)
  {
    hide Asked, SummarizeTally, SkipReason, EndOf;
    FloorOf(SummarizeTally(2 * w.perCall, Asked(w.call, w.repair).0));
    assert w.perCall * 2 == 2 * w.perCall;
  }
}
