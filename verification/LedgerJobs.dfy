/**
 The steps and the queries that spend tokens, as jobs of the ledger: what a run of ai/enrich/src/summarize.ts,
 ai/enrich/src/embed.ts or ai/models/src/query.ts does to the rows, by whichever way it leaves and whatever
 other transactions come between its own, is what the events of `LedgerRuns` do.
 */
module LedgerJobs {
  import opened Common
  import opened TokenLedger
  import opened LedgerRuns
  import Step = SummarizeRun
  import Vectors = EmbedStep
  import Search = QueryRun

  // --- One job, among others ------------------------------------------------------------------------

  ghost predicate Fits(sp: Spending) {
    |sp.reports| <= MostCalls(sp.kind) && (sp.kind == Query ==> !sp.settles)
  }

  function CallsOver(n: nat, sp: Spending): Event {
    CallsDone(n, sp.reports, sp.calls, true, sp.settles)
  }

  /** From its reservation to its `finally`, with what others do between; just the first if it is refused. */
  function SpendEvents(b: Budget, s: State, tenant: string, sp: Spending, during: seq<Event>, leaving: seq<Event>)
    : seq<Event> {
    var n := |s.jobs|;
    var first := Reserves(sp.kind, tenant, sp.tokens);
    if Reserve(s.rows, Key(tenant, s.today), sp.tokens, b.LimitFor(tenant)).1 == None then [first]
    else [first] + during + [CallsOver(n, sp)] + (if sp.settles then [] else leaving) + [Finally(n, sp.last)]
  }

  /** None of the events is job `n`'s. */
  ghost predicate NotOf(es: seq<Event>, n: nat) {
    forall i :: 0 <= i < |es| && (es[i].CallsDone? || es[i].Finally?) ==> es[i].job != n
  }

  /** What others do to the rows meanwhile is what these events do. */
  ghost predicate Between(b: Budget, s: State, tenant: string, sp: Spending, others: Meanwhile,
                          during: seq<Event>, leaving: seq<Event>) {
    var n := |s.jobs|;
    var reserved := Next(b, s, Reserves(sp.kind, tenant, sp.tokens));
    var called := Exec(b, reserved, during);
    var over := Next(b, called, CallsOver(n, sp));
    && NotOf(during, n) && NotOf(leaving, n)
    && others.calling(reserved.rows) == called.rows
    && others.leaving(over.rows) == Exec(b, over, leaving).rows
  }

  lemma {:induction false} StaysAsItIs(b: Budget, s: State, n: nat, es: seq<Event>)
    requires n < |s.jobs| && NotOf(es, n)
    ensures var t := Exec(b, s, es); n < |t.jobs| && t.jobs[n] == s.jobs[n]
    decreases |es|
  {
    if es != [] {
      var t := Next(b, s, es[0]);
      assert n < |t.jobs| && t.jobs[n] == s.jobs[n];
      assert forall i :: 0 <= i < |es[1..]| ==> es[1..][i] == es[i + 1];
      StaysAsItIs(b, t, n, es[1..]);
    }
  }

  lemma ReservesFirst(b: Budget, s: State, tenant: string, sp: Spending)
    requires Reserve(s.rows, Key(tenant, s.today), sp.tokens, b.LimitFor(tenant)).1.Some?
    ensures var (rows, res) := Reserve(s.rows, Key(tenant, s.today), sp.tokens, b.LimitFor(tenant));
            Next(b, s, Reserves(sp.kind, tenant, sp.tokens))
            == s.(rows := rows, jobs := s.jobs + [Job(sp.kind, tenant, res.value, Finite(0.0), 0, Calling, 0)])
            && res.value.tokens == sp.tokens
  {
  }

  /** The job after its calls, and after its `finally`. */
  lemma CallsThenLeaves(b: Budget, s: State, n: nat, j: Job, sp: Spending)
    requires n < |s.jobs| && s.jobs[n] == j && j.pc == Calling && j.settles == 0 && j.kind == sp.kind && Fits(sp)
    requires j.res.tokens == sp.tokens
    ensures var t := Next(b, s, CallsOver(n, sp));
            var done := j.(used := Tally(sp.kind, sp.tokens, sp.reports), calls := sp.calls);
            && t.today == s.today
            && t.rows == (if sp.settles then SettleSpent(s.rows, j.tenant, j.res, sp) else s.rows)
            && t.jobs == s.jobs[n := done.(pc := Leaving(sp.settles), settles := if sp.settles then 1 else 0)]
  {
    hide Tally, Settle;
  }

  lemma LeavesLast(b: Budget, s: State, n: nat, j: Job, sp: Spending)
    requires n < |s.jobs| && s.jobs[n] == j && j.pc == Leaving(sp.settles) && j.settles == (if sp.settles then 1 else 0)
    requires j.used == Tally(sp.kind, sp.tokens, sp.reports) && j.calls == sp.calls
    ensures var t := Next(b, s, Finally(n, sp.last));
            && t.today == s.today
            && t.rows == (if !sp.settles && sp.last then SettleSpent(s.rows, j.tenant, j.res, sp) else s.rows)
            && t.jobs == s.jobs[n := j.(pc := Over, settles := SpendCount(sp))]
  {
    hide Tally, Settle;
  }

  /** The job a run has become: over, having reserved what it did and settled as often as it says. */
  ghost predicate IsOver(j: Job, tenant: string, sp: Spending) {
    j.kind == sp.kind && j.tenant == tenant && j.res.tokens == sp.tokens && j.pc == Over && j.settles == SpendCount(sp)
  }

  lemma SpendInSteps(b: Budget, s: State, first: Event, during: seq<Event>, calls: Event, leaving: seq<Event>,
         last: Event)
    ensures var over := Next(b, Exec(b, Next(b, s, first), during), calls);
            Exec(b, s, [first] + during + [calls] + leaving + [last]) == Next(b, Exec(b, over, leaving), last)
  {
    hide Next;
    var es := [first] + during + [calls] + leaving;
    ExecCat(b, s, es, [last]);
    ExecCat(b, s, [first] + during + [calls], leaving);
    ExecCat(b, s, [first] + during, [calls]);
    ExecCat(b, s, [first], during);
    ExecOne(b, s, first);
    ExecOne(b, Exec(b, Next(b, s, first), during), calls);
    ExecOne(b, Exec(b, Next(b, Exec(b, Next(b, s, first), during), calls), leaving), last);
  }

  /**
   Whatever others do between its transactions, a run that spends is a job of the ledger, and leaves the
   rows that job does.
   */
  lemma SpendIsAJob(b: Budget, s: State, tenant: string, sp: Spending, others: Meanwhile,
                    during: seq<Event>, leaving: seq<Event>)
    requires Fits(sp)
    requires Reserve(s.rows, Key(tenant, s.today), sp.tokens, b.LimitFor(tenant)).1.Some? ==>
               Between(b, s, tenant, sp, others, during, leaving)
    ensures var k := Key(tenant, s.today);
            var t := Exec(b, s, SpendEvents(b, s, tenant, sp, during, leaving));
            && t.rows == Spend(s.rows, k, b.LimitFor(tenant), sp, others)
            && (if Reserve(s.rows, k, sp.tokens, b.LimitFor(tenant)).1 == None then t == s
                else |s.jobs| < |t.jobs| && IsOver(t.jobs[|s.jobs|], tenant, sp))
  {
    var n := |s.jobs|;
    var first := Reserves(sp.kind, tenant, sp.tokens);
    if Reserve(s.rows, Key(tenant, s.today), sp.tokens, b.LimitFor(tenant)).1 == None {
      ExecOne(b, s, first);
    } else {
      ReservesFirst(b, s, tenant, sp);
      GrantedIsAJob(b, s, tenant, sp, others, during, leaving);
    }
  }

  lemma GrantedIsAJob(b: Budget, s: State, tenant: string, sp: Spending, others: Meanwhile,
                      during: seq<Event>, leaving: seq<Event>)
    requires Fits(sp) && Between(b, s, tenant, sp, others, during, leaving)
    requires Reserve(s.rows, Key(tenant, s.today), sp.tokens, b.LimitFor(tenant)).1.Some?
    ensures var t := Exec(b, s, SpendEvents(b, s, tenant, sp, during, leaving));
            && t.rows == Spend(s.rows, Key(tenant, s.today), b.LimitFor(tenant), sp, others)
            && |s.jobs| < |t.jobs| && IsOver(t.jobs[|s.jobs|], tenant, sp)
  {
    hide Next, Exec, Reserve, SettleSpent, Tally, NotOf, Fits;
    var n := |s.jobs|;
    var first := Reserves(sp.kind, tenant, sp.tokens);
    ReservesFirst(b, s, tenant, sp);
    var reserved := Next(b, s, first);
    var called := Exec(b, reserved, during);
    StaysAsItIs(b, reserved, n, during);
    var j := reserved.jobs[n];
    CallsThenLeaves(b, called, n, j, sp);
    var over := Next(b, called, CallsOver(n, sp));
    var more := if sp.settles then [] else leaving;
    StaysAsItIs(b, over, n, leaving);
    NoEvents(b, over);
    var left := Exec(b, over, more);
    LeavesLast(b, left, n, over.jobs[n], sp);
    SpendInSteps(b, s, first, during, CallsOver(n, sp), more, Finally(n, sp.last));
  }

  lemma NoEvents(b: Budget, s: State)
    ensures Exec(b, s, []) == s
  {
  }

  // --- A run of the summarize step ----------------------------------------------------------------

  /** The transactions of a run that may ask a model; one that may not has none. */
  function SummarizeEvents(b: Budget, s: State, tenant: string, card: Step.Card, w: Step.World,
                           during: seq<Event>, leaving: seq<Event>): seq<Event> {
    if Step.MayAsk(card, w) && w.first then SpendEvents(b, s, tenant, Step.SpendingOf(w), during, leaving) else []
  }

  lemma SummarizeFits(w: Step.World)
    ensures Fits(Step.SpendingOf(w))
  {
  }

  /** However the step leaves, and whatever comes between its transactions, it is one job of the ledger, or none. */
  lemma SummarizeIsAJob(b: Budget, s: State, tenant: string, card: Step.Card, w: Step.World,
                        during: seq<Event>, leaving: seq<Event>)
    requires Step.Asks(card, s.rows, Key(tenant, s.today), b.LimitFor(tenant), w) ==>
               Between(b, s, tenant, Step.SpendingOf(w), w.others, during, leaving)
    ensures var k := Key(tenant, s.today);
            var t := Exec(b, s, SummarizeEvents(b, s, tenant, card, w, during, leaving));
            && t.rows == Step.RowsAfter(card, s.rows, k, b.LimitFor(tenant), w)
            && (if Step.Asks(card, s.rows, k, b.LimitFor(tenant), w)
                then |s.jobs| < |t.jobs| && IsOver(t.jobs[|s.jobs|], tenant, Step.SpendingOf(w))
                else t == s)
  {
    NoEvents(b, s);
    SummarizeFits(w);
    if Step.MayAsk(card, w) && w.first {
      SpendIsAJob(b, s, tenant, Step.SpendingOf(w), w.others, during, leaving);
    }
  }

  // --- A run of the embed step ---------------------------------------------------------------------

  ghost function EmbedEvents(b: Budget, s: State, tenant: string, have: Vectors.Rows, wanted: seq<Vectors.Wanted>,
                             w: Vectors.World, during: seq<Event>, leaving: seq<Event>): seq<Event> {
    if Vectors.Reserves(have, wanted, w) then
      SpendEvents(b, s, tenant, Vectors.SpendingOf(have, wanted, w), during, leaving)
    else []
  }

  lemma EmbedFits(have: Vectors.Rows, wanted: seq<Vectors.Wanted>, w: Vectors.World)
    ensures Fits(Vectors.SpendingOf(have, wanted, w))
  {
  }

  lemma EmbedIsAJob(b: Budget, s: State, tenant: string, have: Vectors.Rows, wanted: seq<Vectors.Wanted>,
                    outside: Vectors.World, during: seq<Event>, leaving: seq<Event>)
    requires var w := Vectors.In(outside, s.rows, Key(tenant, s.today), b.LimitFor(tenant));
             Vectors.Asks(have, wanted, w) ==>
               Between(b, s, tenant, Vectors.SpendingOf(have, wanted, w), w.others, during, leaving)
    ensures var k := Key(tenant, s.today);
            var w := Vectors.In(outside, s.rows, k, b.LimitFor(tenant));
            var t := Exec(b, s, EmbedEvents(b, s, tenant, have, wanted, w, during, leaving));
            && t.rows == Vectors.LedgerAfter(have, wanted, w, s.rows, k, b.LimitFor(tenant))
            && (if Vectors.Asks(have, wanted, w)
                then |s.jobs| < |t.jobs| && IsOver(t.jobs[|s.jobs|], tenant, Vectors.SpendingOf(have, wanted, w))
                else t == s)
  {
    var w := Vectors.In(outside, s.rows, Key(tenant, s.today), b.LimitFor(tenant));
    NoEvents(b, s);
    EmbedFits(have, wanted, w);
    if Vectors.Reserves(have, wanted, w) {
      SpendIsAJob(b, s, tenant, Vectors.SpendingOf(have, wanted, w), w.others, during, leaving);
    }
  }

  // --- A query --------------------------------------------------------------------------------------

  /** What comes between the transactions of a provider's turn: before it, during its call and before its `finally`. */
  datatype Gaps = Gaps(before: seq<Event>, during: seq<Event>, leaving: seq<Event>)

  function TurnEvents(b: Budget, s: State, seen: set<string>, c: Search.Client, a: Search.Account,
         g: Gaps): seq<Event> {
    if Search.Passed(c, seen) then []
    else g.before + SpendEvents(b, Exec(b, s, g.before), a.tenant, Search.SpendingOf(c, a.estimate), g.during,
      g.leaving)
  }

  /** Days ending before a turn, and others' transactions around it, are those events. */
  ghost predicate TurnBetween(b: Budget, s: State, q: Search.State, c: Search.Client, a: Search.Account, g: Gaps) {
    var t := Exec(b, s, g.before);
    && t.rows == c.before(s.rows) && t.today == q.today + c.midnights
    && (Reserve(t.rows, Key(a.tenant, t.today), a.estimate, a.limit).1.Some? ==>
          Between(b, t, a.tenant, Search.SpendingOf(c, a.estimate), c.others, g.during, g.leaving))
  }

  /** A provider is asked: it has not been passed, and there is room on the day. */
  predicate Granted(q: Search.State, c: Search.Client, a: Search.Account) {
    var t := Search.Asked(q, c);
    !Search.Passed(c, q.seen) && Reserve(t.rows, Key(a.tenant, t.today), a.estimate, a.limit).1.Some?
  }

  lemma QueryFits(c: Search.Client, estimate: nat)
    ensures Fits(Search.SpendingOf(c, estimate))
  {
  }

  /** A provider's turn is one job of the day it comes on, or none. */
  lemma TurnIsAJob(b: Budget, s: State, q: Search.State, c: Search.Client, a: Search.Account, g: Gaps)
    requires q.rows == s.rows && a.limit == b.LimitFor(a.tenant)
    requires !Search.Passed(c, q.seen) ==> TurnBetween(b, s, q, c, a, g)
    ensures var t := Exec(b, s, TurnEvents(b, s, q.seen, c, a, g));
            var n := |Exec(b, s, g.before).jobs|;
            && t.rows == Search.Turn(q, c, a).0.rows
            && |s.jobs| <= n && |s.jobs| <= |t.jobs|
            && (Granted(q, c, a) ==> n < |t.jobs| && IsOver(t.jobs[n], a.tenant, Search.SpendingOf(c, a.estimate)))
  {
    NoEvents(b, s);
    QueryFits(c, a.estimate);
    JobsStay(b, s, g.before);
    JobsStay(b, s, TurnEvents(b, s, q.seen, c, a, g));
    if !Search.Passed(c, q.seen) {
      var sp := Search.SpendingOf(c, a.estimate);
      var t := Exec(b, s, g.before);
      hide Exec, Next, Reserve, Spend, Search.SpendingOf, Between, Fits, IsOver;
      SpendIsAJob(b, t, a.tenant, sp, c.others, g.during, g.leaving);
      assert sp.tokens == a.estimate by { EstimateOf(c, a.estimate); }
      ExecCat(b, s, g.before, SpendEvents(b, t, a.tenant, sp, g.during, g.leaving));
    }
  }

  /** No job goes, and one that is over stays as it is. */
  lemma {:induction false} JobsStay(b: Budget, s: State, es: seq<Event>)
    ensures var t := Exec(b, s, es);
            |s.jobs| <= |t.jobs| && forall i :: 0 <= i < |s.jobs| && s.jobs[i].pc == Over ==> t.jobs[i] == s.jobs[i]
    decreases |es|
  {
    if es != [] {
      JobsStay(b, Next(b, s, es[0]), es[1..]);
    }
  }

  /** The events of a query's first `n` turns. */
  function QueryEvents(b: Budget, s: State, q: Search.State, clients: seq<Search.Client>, n: nat, a: Search.Account,
                       gaps: seq<Gaps>): seq<Event>
    requires n <= |clients| == |gaps|
  {
    if n == 0 then []
    else
      var es := QueryEvents(b, s, q, clients, n - 1, a, gaps);
      var (r, goes) := Search.Turns(q, clients, n - 1, a);
      es + if goes then TurnEvents(b, Exec(b, s, es), r.seen, clients[n - 1], a, gaps[n - 1]) else []
  }

  /** Where the ledger is before turn `i`. */
  function StateAt(b: Budget, s: State, q: Search.State, clients: seq<Search.Client>, i: nat, a: Search.Account,
                   gaps: seq<Gaps>): State
    requires i <= |clients| == |gaps|
  {
    Exec(b, s, QueryEvents(b, s, q, clients, i, a, gaps))
  }

  /** Turn `i` comes, with those events around it. */
  ghost predicate TurnFits(b: Budget, s: State, q: Search.State, clients: seq<Search.Client>, i: nat, a: Search.Account,
                           gaps: seq<Gaps>)
    requires i < |clients| == |gaps|
  {
    var (r, goes) := Search.Turns(q, clients, i, a);
    goes && !Search.Passed(clients[i], r.seen) ==>
      TurnBetween(b, StateAt(b, s, q, clients, i, a, gaps), r, clients[i], a, gaps[i])
  }

  /** The number of turn `i`'s job. */
  function JobAt(b: Budget, s: State, q: Search.State, clients: seq<Search.Client>, i: nat, a: Search.Account,
                 gaps: seq<Gaps>): nat
    requires i < |clients| == |gaps|
  {
    |Exec(b, StateAt(b, s, q, clients, i, a, gaps), gaps[i].before).jobs|
  }

  /** A provider that is asked, its tokens being granted, has a job of its own. */
  ghost predicate HasItsJob(b: Budget, s: State, t: State, q: Search.State, clients: seq<Search.Client>, i: nat,
                            a: Search.Account, gaps: seq<Gaps>)
    requires i < |clients| == |gaps|
  {
    var (r, goes) := Search.Turns(q, clients, i, a);
    var n := JobAt(b, s, q, clients, i, a, gaps);
    goes && Granted(r, clients[i], a) ==>
      |s.jobs| <= n < |t.jobs| && IsOver(t.jobs[n], a.tenant, Search.SpendingOf(clients[i], a.estimate))
  }

  /**
   Whatever comes between its transactions, a query is a job of the ledger for each provider it asks and
   has tokens for, over, and leaves the rows those do.
   */
  lemma {:induction false} QueryIsJobs(b: Budget, s: State, q: Search.State, clients: seq<Search.Client>, n: nat,
                                       a: Search.Account, gaps: seq<Gaps>)
    requires n <= |clients| == |gaps| && q.rows == s.rows && a.limit == b.LimitFor(a.tenant)
    requires forall i: nat :: i < n ==> TurnFits(b, s, q, clients, i, a, gaps)
    ensures var t := StateAt(b, s, q, clients, n, a, gaps);
            && t.rows == Search.Turns(q, clients, n, a).0.rows && |s.jobs| <= |t.jobs|
            && (forall i: nat :: i < n ==> HasItsJob(b, s, t, q, clients, i, a, gaps))
    decreases n
  {
    hide Search.Turn, Next, Exec, TurnEvents, TurnBetween, Granted, IsOver, Search.SpendingOf;
    NoEvents(b, s);
    if n > 0 {
      QueryIsJobs(b, s, q, clients, n - 1, a, gaps);
      var es := QueryEvents(b, s, q, clients, n - 1, a, gaps);
      var t := Exec(b, s, es);
      var (r, goes) := Search.Turns(q, clients, n - 1, a);
      assert TurnFits(b, s, q, clients, n - 1, a, gaps);
      if goes {
        TurnIsAJob(b, t, r, clients[n - 1], a, gaps[n - 1]);
        var more := TurnEvents(b, t, r.seen, clients[n - 1], a, gaps[n - 1]);
        ExecCat(b, s, es, more);
        var u := Exec(b, t, more);
        JobsStay(b, t, more);
        forall i: nat | i < n ensures HasItsJob(b, s, u, q, clients, i, a, gaps) {
          if i < n - 1 {
            assert HasItsJob(b, s, t, q, clients, i, a, gaps);
            OverIsOver(t, u, JobAt(b, s, q, clients, i, a, gaps), a.tenant, Search.SpendingOf(clients[i], a.estimate));
          }
        }
      } else {
        assert es + [] == es;
      }
    }
  }

  lemma OverIsOver(t: State, u: State, n: nat, tenant: string, sp: Spending)
    requires |t.jobs| <= |u.jobs| && forall i :: 0 <= i < |t.jobs| && t.jobs[i].pc == Over ==> u.jobs[i] == t.jobs[i]
    ensures n < |t.jobs| && IsOver(t.jobs[n], tenant, sp) ==> IsOver(u.jobs[n], tenant, sp)
  {
  }

  /** And no two turns share one. */
  lemma JobsDiffer(b: Budget, s: State, q: Search.State, clients: seq<Search.Client>, i: nat, j: nat,
                   a: Search.Account, gaps: seq<Gaps>)
    requires i < j < |clients| == |gaps| && q.rows == s.rows && a.limit == b.LimitFor(a.tenant)
    requires forall l: nat :: l <= j ==> TurnFits(b, s, q, clients, l, a, gaps)
    requires var (r, goes) := Search.Turns(q, clients, i, a); goes && Granted(r, clients[i], a)
    ensures JobAt(b, s, q, clients, i, a, gaps) < JobAt(b, s, q, clients, j, a, gaps)
  {
    QueryIsJobs(b, s, q, clients, j, a, gaps);
    hide Search.Turns, Exec, Next, Granted, QueryEvents, TurnFits;
    var t := StateAt(b, s, q, clients, j, a, gaps);
    assert HasItsJob(b, s, t, q, clients, i, a, gaps);
    JobsStay(b, t, gaps[j].before);
  }

  lemma EstimateOf(c: Search.Client, estimate: nat)
    ensures Search.SpendingOf(c, estimate).tokens == estimate
  {
  }
}
