/**
 Everything that spends tokens, at once: runs of the summarize and embed steps and turns of queries, of any
 tenants, begun at any time, their transactions interleaved in any way. What the day's rows hold then follows
 from the works themselves.
 */
module LedgerWorks {
  import opened Common
  import opened TokenLedger
  import LedgerRuns
  import LedgerJobs
  import Step = SummarizeRun
  import Vectors = EmbedStep
  import Search = QueryRun

  /** A run of a step for a version, or a provider asked by a query. */
  datatype Work =
    | Summarizes(tenant: string, card: Step.Card, w: Step.World)
    | Embeds(tenant: string, have: Vectors.Rows, wanted: seq<Vectors.Wanted>, v: Vectors.World)
    | Asks(tenant: string, client: Search.Client, estimate: nat)

  /** What it does to the rows if its reservation is granted; None if it never asks for one. */
  ghost function SpendingOf(work: Work): Option<Spending> {
    match work
    case Summarizes(_, card, w) => if Step.MayAsk(card, w) && w.first then Some(Step.SpendingOf(w)) else None
    case Embeds(_, have, wanted, v) =>
      if Vectors.Reserves(have, wanted, v) then Some(Vectors.SpendingOf(have, wanted, v.(granted := true))) else None
    case Asks(_, client, estimate) => Some(Search.SpendingOf(client, estimate))
  }

  /** Where a work is that has its reservation: at its calls, in its `finally`, or gone. */
  datatype Stage = Calls | Leaves | Gone

  datatype Running = Running(tenant: string, sp: Spending, res: Reservation, stage: Stage)

  datatype Shop = Shop(rows: Rows, today: nat, running: seq<Running>)

  /** A work begins and reserves, one goes on to its next transaction, the day ends. */
  datatype Move = Begins(work: Work) | Goes(i: nat) | NextDay

  const OPEN := Shop(map[], 0, [])

  /** One move; one that cannot happen now changes nothing. */
  ghost function Moved(b: Budget, shop: Shop, m: Move): Shop {
    match m
    case Begins(work) =>
      (match SpendingOf(work)
       case None => shop
       case Some(sp) =>
         var (rows, res) := Reserve(shop.rows, Key(work.tenant, shop.today), sp.tokens, b.LimitFor(work.tenant));
         if res == None then shop
         else shop.(rows := rows, running := shop.running + [Running(work.tenant, sp, res.value, Calls)]))
    case Goes(i) =>
      if i >= |shop.running| then shop else
      var r := shop.running[i];
      (match r.stage
       case Calls =>
         if r.sp.settles then
           Shop(SettleSpent(shop.rows, r.tenant, r.res, r.sp), shop.today, shop.running[i := r.(stage := Gone)])
         else shop.(running := shop.running[i := r.(stage := Leaves)])
       case Leaves =>
         Shop(if r.sp.last then SettleSpent(shop.rows, r.tenant, r.res, r.sp) else shop.rows, shop.today,
              shop.running[i := r.(stage := Gone)])
       case Gone => shop)
    case NextDay => shop.(today := shop.today + 1)
  }

  ghost function MovedAll(b: Budget, shop: Shop, moves: seq<Move>): Shop
    decreases |moves|
  {
    if moves == [] then shop else MovedAll(b, Moved(b, shop, moves[0]), moves[1..])
  }

  // --- What a row holds ------------------------------------------------------------------------------

  function KeyOf(r: Running): Key {
    Key(r.tenant, r.res.day)
  }

  /** What a work's row holds for it: its reservation, until it has settled with what its calls came to. */
  function Holds(r: Running): nat {
    if r.stage == Gone && SpendCount(r.sp) == 1 then Spent(Tally(r.sp.kind, r.sp.tokens, r.sp.reports))
      else r.res.tokens
  }

  function HeldOn(running: seq<Running>, k: Key): nat {
    if running == [] then 0
    else HeldOn(running[..|running| - 1], k) + if KeyOf(running[|running| - 1]) == k
      then Holds(running[|running| - 1]) else 0
  }

  /** How far the settlement of a work under way can go past its reservation. */
  function SlackLeft(r: Running): nat {
    if r.stage == Gone then 0 else Slack(r.sp.kind, r.res.tokens)
  }

  function SlackOn(running: seq<Running>, k: Key): nat {
    if running == [] then 0
    else
      SlackOn(running[..|running| - 1], k)
      + if KeyOf(running[|running| - 1]) == k then SlackLeft(running[|running| - 1]) else 0
  }

  /** The most of that of the works under way at any one time. */
  ghost function Peak(b: Budget, shop: Shop, moves: seq<Move>, k: Key): nat
    decreases |moves|
  {
    Max(SlackOn(shop.running, k), if moves == [] then 0 else Peak(b, Moved(b, shop, moves[0]), moves[1..], k))
  }

  // --- The works as jobs of the ledger -----------------------------------------------------------------

  ghost function EventOf(shop: Shop, m: Move): seq<LedgerRuns.Event> {
    match m
    case Begins(work) =>
      (match SpendingOf(work)
       case None => []
       case Some(sp) => [LedgerRuns.Reserves(sp.kind, work.tenant, sp.tokens)])
    case Goes(i) =>
      if i >= |shop.running| then [] else
      (match shop.running[i].stage
       case Calls => [LedgerJobs.CallsOver(i, shop.running[i].sp)]
       case Leaves => [LedgerRuns.Finally(i, shop.running[i].sp.last)]
       case Gone => [])
    case NextDay => [LedgerRuns.DayEnds]
  }

  ghost function EventsOf(b: Budget, shop: Shop, moves: seq<Move>): seq<LedgerRuns.Event>
    decreases |moves|
  {
    if moves == [] then [] else EventOf(shop, moves[0]) + EventsOf(b, Moved(b, shop, moves[0]), moves[1..])
  }

  /** A work is a job. */
  ghost predicate Is(r: Running, j: LedgerRuns.Job) {
    && LedgerJobs.Fits(r.sp) && j.kind == r.sp.kind && j.tenant == r.tenant && j.res == r.res
      && r.res.tokens == r.sp.tokens
    && (r.stage == Calls ==> j.pc == LedgerRuns.Calling && j.settles == 0)
    && (r.stage != Calls ==> j.used == Tally(r.sp.kind, r.sp.tokens, r.sp.reports) && j.calls == r.sp.calls)
    && (r.stage == Leaves ==> j.pc == LedgerRuns.Leaving(false) && j.settles == 0 && !r.sp.settles)
    && (r.stage == Gone ==> j.pc in {LedgerRuns.Over, LedgerRuns.Leaving(true)} && j.settles == SpendCount(r.sp))
  }

  ghost predicate AllAre(running: seq<Running>, jobs: seq<LedgerRuns.Job>) {
    |running| == |jobs| && forall i :: 0 <= i < |running| ==> Is(running[i], jobs[i])
  }

  ghost predicate Matches(shop: Shop, s: LedgerRuns.State) {
    shop.rows == s.rows && shop.today == s.today && AllAre(shop.running, s.jobs)
  }

  lemma WorkFits(work: Work)
    ensures SpendingOf(work).Some? ==> LedgerJobs.Fits(SpendingOf(work).value)
  {
  }

  lemma AreUpdated(running: seq<Running>, jobs: seq<LedgerRuns.Job>, i: nat, r: Running, j: LedgerRuns.Job)
    requires AllAre(running, jobs) && i < |running| && Is(r, j)
    ensures AllAre(running[i := r], jobs[i := j])
  {
    hide Is;
  }

  lemma AreMore(running: seq<Running>, jobs: seq<LedgerRuns.Job>, r: Running, j: LedgerRuns.Job)
    requires AllAre(running, jobs) && Is(r, j)
    ensures AllAre(running + [r], jobs + [j])
  {
    hide Is;
  }

  lemma BeginsMatches(b: Budget, shop: Shop, s: LedgerRuns.State, work: Work)
    requires Matches(shop, s)
    ensures Matches(Moved(b, shop, Begins(work)), LedgerRuns.Exec(b, s, EventOf(shop, Begins(work))))
  {
    hide LedgerRuns.Exec, Reserve, AllAre;
    WorkFits(work);
    LedgerJobs.NoEvents(b, s);
    if SpendingOf(work).Some? {
      var sp := SpendingOf(work).value;
      var first := LedgerRuns.Reserves(sp.kind, work.tenant, sp.tokens);
      LedgerRuns.ExecOne(b, s, first);
      var (rows, res) := Reserve(s.rows, Key(work.tenant, s.today), sp.tokens, b.LimitFor(work.tenant));
      if res.Some? {
        LedgerJobs.ReservesFirst(b, s, work.tenant, sp);
        var j := LedgerRuns.Job(sp.kind, work.tenant, res.value, Finite(0.0), 0, LedgerRuns.Calling, 0);
        AreMore(shop.running, s.jobs, Running(work.tenant, sp, res.value, Calls), j);
      }
    }
  }

  lemma GoesMatches(b: Budget, shop: Shop, s: LedgerRuns.State, i: nat)
    requires Matches(shop, s) && i < |shop.running|
    ensures Matches(Moved(b, shop, Goes(i)), LedgerRuns.Exec(b, s, EventOf(shop, Goes(i))))
  {
    var r, j := shop.running[i], s.jobs[i];
    assert Is(r, j);
    hide LedgerRuns.Exec, LedgerRuns.Next, AllAre, SettleSpent, Tally;
    LedgerJobs.NoEvents(b, s);
    match r.stage
    case Calls =>
      var e := LedgerJobs.CallsOver(i, r.sp);
      LedgerRuns.ExecOne(b, s, e);
      LedgerJobs.CallsThenLeaves(b, s, i, j, r.sp);
      var t := LedgerRuns.Next(b, s, e);
      AreUpdated(shop.running, s.jobs, i, r.(stage := if r.sp.settles then Gone else Leaves), t.jobs[i]);
    case Leaves =>
      var e := LedgerRuns.Finally(i, r.sp.last);
      LedgerRuns.ExecOne(b, s, e);
      LedgerJobs.LeavesLast(b, s, i, j, r.sp);
      var t := LedgerRuns.Next(b, s, e);
      AreUpdated(shop.running, s.jobs, i, r.(stage := Gone), t.jobs[i]);
    case Gone =>
  }

  lemma MoveMatches(b: Budget, shop: Shop, s: LedgerRuns.State, m: Move)
    requires Matches(shop, s)
    ensures Matches(Moved(b, shop, m), LedgerRuns.Exec(b, s, EventOf(shop, m)))
  {
    match m
    case Begins(work) => BeginsMatches(b, shop, s, work);
    case Goes(i) => if i < |shop.running| { GoesMatches(b, shop, s, i); } else { LedgerJobs.NoEvents(b, s); }
    case NextDay => LedgerRuns.ExecOne(b, s, LedgerRuns.DayEnds);
  }

  /** In any interleaving, the works' transactions are a run of the ledger, each work a job of it. */
  lemma {:induction false} WorksAreARun(b: Budget, shop: Shop, s: LedgerRuns.State, moves: seq<Move>)
    requires Matches(shop, s)
    ensures Matches(MovedAll(b, shop, moves), LedgerRuns.Exec(b, s, EventsOf(b, shop, moves)))
    decreases |moves|
  {
    hide Moved, Matches, EventOf, LedgerRuns.Next;
    LedgerJobs.NoEvents(b, s);
    if moves != [] {
      var t := LedgerRuns.Exec(b, s, EventOf(shop, moves[0]));
      MoveMatches(b, shop, s, moves[0]);
      WorksAreARun(b, Moved(b, shop, moves[0]), t, moves[1..]);
      LedgerRuns.ExecCat(b, s, EventOf(shop, moves[0]), EventsOf(b, Moved(b, shop, moves[0]), moves[1..]));
    }
  }

  lemma {:induction false} SumsMatch(running: seq<Running>, jobs: seq<LedgerRuns.Job>, k: Key)
    requires AllAre(running, jobs)
    ensures HeldOn(running, k) == LedgerRuns.Total(jobs, k) && SlackOn(running, k) == LedgerRuns.UnderWay(jobs, k)
    decreases |running|
  {
    if running != [] {
      var n := |running| - 1;
      assert Is(running[n], jobs[n]);
      hide Tally, Slack, Spent;
      SumsMatch(running[..n], jobs[..n], k);
    }
  }

  lemma {:induction false} PeaksMatch(b: Budget, shop: Shop, s: LedgerRuns.State, moves: seq<Move>, k: Key)
    requires Matches(shop, s)
    ensures LedgerRuns.Peak(b, s, EventsOf(b, shop, moves), k) <= Peak(b, shop, moves, k)
    decreases |moves|
  {
    SumsMatch(shop.running, s.jobs, k);
    hide Matches, Moved, LedgerRuns.Next, SlackOn, LedgerRuns.UnderWay, AllAre;
    if moves != [] {
      var es := EventOf(shop, moves[0]);
      var rest := EventsOf(b, Moved(b, shop, moves[0]), moves[1..]);
      MoveMatches(b, shop, s, moves[0]);
      PeaksMatch(b, Moved(b, shop, moves[0]), LedgerRuns.Exec(b, s, es), moves[1..], k);
      PeakOfFew(b, s, es, rest, k);
    }
  }

  lemma PeakOfFew(b: Budget, s: LedgerRuns.State, es: seq<LedgerRuns.Event>, rest: seq<LedgerRuns.Event>, k: Key)
    requires |es| <= 1
    ensures LedgerRuns.Peak(b, s, es + rest, k)
         <= Max(LedgerRuns.UnderWay(s.jobs, k), LedgerRuns.Peak(b, LedgerRuns.Exec(b, s, es), rest, k))
  {
    hide LedgerRuns.Next, LedgerRuns.UnderWay;
    if es == [] {
      assert es + rest == rest;
    } else {
      assert es == [es[0]] && (es + rest)[0] == es[0] && (es + rest)[1..] == rest;
      LedgerRuns.ExecOne(b, s, es[0]);
    }
  }

  /**
   After any works, their transactions interleaved in any way, a row is just what each work holds on it:
   what it reserved, until it has settled, then what its calls came to. And it is within the limit and what
   the works under way at one time could go past their reservations by, however many there were.
   */
  lemma RowsOfAllWork(b: Budget, moves: seq<Move>, k: Key)
    ensures var shop := MovedAll(b, OPEN, moves);
            TokensAt(shop.rows, k) == HeldOn(shop.running, k) <= b.LimitFor(k.tenant) + Peak(b, OPEN, moves, k)
  {
    var es := EventsOf(b, OPEN, moves);
    WorksAreARun(b, OPEN, LedgerRuns.Init(), moves);
    PeaksMatch(b, OPEN, LedgerRuns.Init(), moves, k);
    LedgerRuns.RowsOfEveryRun(b, es, k);
    LedgerRuns.PeakBound(b, es, k);
    SumsMatch(MovedAll(b, OPEN, moves).running, LedgerRuns.Exec(b, LedgerRuns.Init(), es).jobs, k);
  }

  // --- One at a time -------------------------------------------------------------------------------------

  ghost predicate AllGone(running: seq<Running>) {
    forall i :: 0 <= i < |running| ==> running[i].stage == Gone
  }

  /** No work begins before those begun before it are gone. */
  ghost predicate InTurn(b: Budget, shop: Shop, moves: seq<Move>)
    decreases |moves|
  {
    moves == []
    || ((moves[0].Begins? ==> AllGone(shop.running)) && InTurn(b, Moved(b, shop, moves[0]), moves[1..]))
  }

  /**
   How far one of a tenant's works can go past its reservation: twice a summary's calls, three estimates of
   a query.
   */
  ghost function SlackOf(work: Work, tenant: string): nat {
    if work.tenant != tenant then 0
    else match work
      case Summarizes(_, _, w) => 2 * w.perCall
      case Embeds(_, _, _, _) => 0
      case Asks(_, _, estimate) => 3 * estimate
  }

  ghost function Worst(moves: seq<Move>, tenant: string): nat {
    if moves == [] then 0
    else Max(if moves[0].Begins? then SlackOf(moves[0].work, tenant) else 0, Worst(moves[1..], tenant))
  }

  lemma {:induction false} NoneUnderWay(running: seq<Running>, k: Key)
    requires AllGone(running)
    ensures SlackOn(running, k) == 0
  {
    if running != [] {
      NoneUnderWay(running[..|running| - 1], k);
    }
  }

  lemma {:induction false} SlackFalls(running: seq<Running>, i: nat, r: Running, k: Key)
    requires i < |running| && KeyOf(r) == KeyOf(running[i]) && SlackLeft(r) <= SlackLeft(running[i])
    ensures SlackOn(running[i := r], k) <= SlackOn(running, k)
  {
    hide SlackLeft;
    var n := |running| - 1;
    if i == n {
      assert running[i := r][..n] == running[..n];
    } else {
      SlackFalls(running[..n], i, r, k);
      assert running[i := r][..n] == running[..n][i := r];
    }
  }

  /** A work that begins when all others are gone is all there is under way. */
  lemma BeginsAlone(b: Budget, shop: Shop, work: Work, k: Key)
    requires AllGone(shop.running)
    ensures SlackOn(Moved(b, shop, Begins(work)).running, k) <= SlackOf(work, k.tenant)
  {
    NoneUnderWay(shop.running, k);
    var t := Moved(b, shop, Begins(work));
    if t != shop {
      var n := |shop.running|;
      assert t.running[..n] == shop.running && t.running[n].res.tokens == t.running[n].sp.tokens;
      hide Reserve;
    }
  }

  lemma MoveSlack(b: Budget, shop: Shop, m: Move, k: Key)
    requires !m.Begins?
    ensures SlackOn(Moved(b, shop, m).running, k) <= SlackOn(shop.running, k)
  {
    hide SettleSpent, SlackOn;
    if m.Goes? && m.i < |shop.running| && shop.running[m.i].stage != Gone {
      SlackFalls(shop.running, m.i, Moved(b, shop, m).running[m.i], k);
    }
  }

  lemma {:induction false} PeakInTurn(b: Budget, shop: Shop, moves: seq<Move>, k: Key)
    requires InTurn(b, shop, moves)
    ensures Peak(b, shop, moves, k) <= Max(SlackOn(shop.running, k), Worst(moves, k.tenant))
    decreases |moves|
  {
    hide Moved, SlackOn, AllGone, SlackOf;
    if moves != [] {
      if moves[0].Begins? { BeginsAlone(b, shop, moves[0].work, k); } else { MoveSlack(b, shop, moves[0], k); }
      PeakInTurn(b, Moved(b, shop, moves[0]), moves[1..], k);
    }
  }

  /** So one after the other, works leave a row within the limit and the worst that one of them alone can do. */
  lemma RowsInTurn(b: Budget, moves: seq<Move>, k: Key)
    requires InTurn(b, OPEN, moves)
    ensures TokensAt(MovedAll(b, OPEN, moves).rows, k) <= b.LimitFor(k.tenant) + Worst(moves, k.tenant)
  {
    RowsOfAllWork(b, moves, k);
    PeakInTurn(b, OPEN, moves, k);
  }
}
