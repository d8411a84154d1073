/**
 The token ledger to the token and the call (ai/models/src/budget.ts, with the tallies of
 ai/enrich/src/embed.ts, ai/enrich/src/summarize.ts and ai/models/src/query.ts): exactly which reservations are
 granted, what a report is counted as, when a job settles, and how many calls a row has counted.
 */
module LedgerExact {
  import opened Common
  import opened TokenLedger
  import opened LedgerRuns

  // --- What is granted ------------------------------------------------------------------------------------

  lemma Reached(b: Budget, es: seq<Event>)
    ensures Inv(b, Exec(b, Init(), es))
  {
    forall k ensures RowFits(b, Init(), k) {}
    EveryRun(b, Init(), es);
  }

  /**
   In every run, tokens are granted exactly if the tenant's row for the day stays within its own budget, or within
   everyone's if it has none. What is granted is on the row and is a job's; no other row changes; and what is
   refused changes nothing.
   */
  lemma GrantedExactly(b: Budget, es: seq<Event>, kind: Kind, tenant: string, tokens: nat)
    ensures var s := Exec(b, Init(), es);
            var t := Next(b, s, Reserves(kind, tenant, tokens));
            var k := Key(tenant, s.today);
            if TokensAt(s.rows, k) + tokens <= (if tenant in b.perTenant then b.perTenant[tenant] else b.daily) then
              && |t.jobs| == |s.jobs| + 1 && t.jobs[..|s.jobs|] == s.jobs && KeyOf(t.jobs[|s.jobs|]) == k
              && t.jobs[|s.jobs|].kind == kind && t.jobs[|s.jobs|].res.tokens == tokens
              && TokensAt(t.rows, k) == TokensAt(s.rows, k) + tokens
              && (forall k' :: k' != k ==> TokensAt(t.rows, k') == TokensAt(s.rows, k'))
            else t == s
  {
    Reached(b, es);
    var s := Exec(b, Init(), es);
    assert RowFits(b, s, Key(tenant, s.today));
    hide Exec, Total, TotalOver;
  }

  // --- What a report is counted as --------------------------------------------------------------------------

  /** `c` is a number a provider reported: whole, rounded down, not below zero nor past `cap`. */
  predicate CountedAs(r: real, cap: nat, c: nat) {
    if r >= cap as real then c == cap else if r < 0.0 then c == 0 else c as real <= r < c as real + 1.0
  }

  /** As a step counts it: what is no number counts as `cap`. The ledger counts that as nothing. */
  lemma ClampExactly(n: Num, cap: nat)
    ensures match n case NotFinite => Clamp(n, cap) == cap case Finite(r) => CountedAs(r, cap, Clamp(n, cap))
    ensures match n
            case NotFinite => Spent(n) == 0
            case Finite(r) => if r < 0.0 then Spent(n) == 0 else Spent(n) as real <= r < Spent(n) as real + 1.0
  {
    if n.Finite? && 0.0 <= n.r {
      assert n.r.Floor as real <= n.r < n.r.Floor as real + 1.0;
    }
  }

  /**
   What each kind of job settles with. Embedding: its input, up to the reservation. A query: the same up to four
   times that, and nothing for what is no number. A summary: for each of its calls what went in and what came out,
   up to the reservation. Nothing, if no call came back.
   */
  lemma SpentExactly(kind: Kind, reserved: nat, reports: seq<Report>)
    ensures reports == [] ==> Spent(Tally(kind, reserved, reports)) == 0
    ensures reports != [] && kind == Embed ==>
              Spent(Tally(kind, reserved, reports)) == Clamp(reports[0].input, reserved)
    ensures reports != [] && kind == Query ==>
              var spent := Spent(Tally(kind, reserved, reports));
              match reports[0].input
              case NotFinite => spent == 0
              case Finite(r) => CountedAs(r, 4 * reserved, spent)
    ensures reports != [] && kind == Summarize ==>
              Spent(Tally(kind, reserved, reports))
              == Min(reserved, Clamp(reports[0].input, reserved) + Clamp(reports[0].output, reserved))
                 + Spent(Tally(kind, reserved, reports[1..]))
  {
    FloorOf(0);
    match kind
    case Embed => if reports != [] { FloorOf(Clamp(reports[0].input, reserved)); }
    case Summarize =>
      FloorOf(SummarizeTally(reserved, reports));
      if reports != [] { FloorOf(SummarizeTally(reserved, reports[1..])); }
    case Query =>
      FloorOf(reserved * 4);
      if reports != [] && reports[0].input.Finite? {
        var r := reports[0].input.r;
        assert r.Floor as real <= r < r.Floor as real + 1.0;
      }
  }

  /** A settlement is its row's alone: what was spent for what was reserved, and the calls. */
  lemma SettleExactly(rows: Rows, tenant: string, res: Reservation, used: Num, calls: nat, k: Key)
    ensures var now := Settle(rows, tenant, res, used, calls);
            && now.Keys == rows.Keys
            && (k in rows && k != Key(tenant, res.day) ==> now[k] == rows[k])
            && (k in rows && k == Key(tenant, res.day) && rows[k].tokens >= res.tokens ==>
                  now[k] == Row(rows[k].tokens - res.tokens + Spent(used), rows[k].calls + calls))
  {
    hide Spent;
  }

  // --- When a job settles ------------------------------------------------------------------------------------

  /** The step is the one in which job `i` settles, with the reports it has. */
  predicate SettlesNow(s: State, i: nat, e: Event) {
    && i < |s.jobs|
    && match e
       case CallsDone(j, reports, _, writes, commits) =>
         j == i && s.jobs[i].pc.Calling? && |reports| <= MostCalls(s.jobs[i].kind) && writes && commits
         && s.jobs[i].kind != Query
       case Finally(j, commits) => j == i && s.jobs[i].pc == Leaving(false) && commits
       case _ => false
  }

  /**
   A job settles exactly in its own transaction if that commits, else in its `finally` if that does: once, for
   what its calls were reported to have spent.
   */
  lemma SettlesExactly(b: Budget, es: seq<Event>, i: nat, e: Event)
    ensures var s := Exec(b, Init(), es);
            var t := Next(b, s, e);
            i < |s.jobs| ==>
              && |s.jobs| <= |t.jobs|
              && t.jobs[i].settles == s.jobs[i].settles + (if SettlesNow(s, i, e) then 1 else 0) <= 1
              && (SettlesNow(s, i, e) ==>
                    var j := s.jobs[i];
                    var spent := Spent(if e.CallsDone? then Tally(j.kind, j.res.tokens, e.reports) else j.used);
                    TokensAt(t.rows, KeyOf(j)) == TokensAt(s.rows, KeyOf(j)) - j.res.tokens + spent)
              && (e.CallsDone? && e.job == i && s.jobs[i].pc.Calling? && |e.reports| <= MostCalls(s.jobs[i].kind) ==>
                    t.jobs[i].used == Tally(s.jobs[i].kind, s.jobs[i].res.tokens, e.reports)
                    && t.jobs[i].calls == e.calls && t.jobs[i].pc == Leaving(SettlesNow(s, i, e)))
              && (e.Finally? && e.job == i && s.jobs[i].pc.Leaving? ==> t.jobs[i].pc == Over)
  {
    Reached(b, es);
    var s := Exec(b, Init(), es);
    NextKeeps(b, s, e);
    if i < |s.jobs| {
      assert JobFits(s.rows, s.jobs[i]);
      if SettlesNow(s, i, e) { RowHasJob(b, s, i); }
    }
    hide Exec, Total, TotalOver, Tally, Inv;
  }

  lemma RowHasJob(b: Budget, s: State, i: nat)
    requires Inv(b, s) && i < |s.jobs| && s.jobs[i].settles == 0
    ensures TokensAt(s.rows, KeyOf(s.jobs[i])) >= s.jobs[i].res.tokens
  {
    TotalHas(s.jobs, i);
    assert RowFits(b, s, KeyOf(s.jobs[i]));
  }

  // --- How many calls ----------------------------------------------------------------------------------------

  function CallsAt(rows: Rows, k: Key): nat {
    if k in rows then rows[k].calls else 0
  }

  function CallsOf(j: Job, k: Key): nat {
    if KeyOf(j) == k && j.settles > 0 then j.calls else 0
  }

  /** The calls of the jobs of a row that have settled. */
  function TotalCalls(jobs: seq<Job>, k: Key): nat {
    if jobs == [] then 0 else TotalCalls(jobs[..|jobs| - 1], k) + CallsOf(jobs[|jobs| - 1], k)
  }

  lemma {:induction false} TotalCallsUpdate(jobs: seq<Job>, i: nat, j: Job, k: Key)
    requires i < |jobs|
    ensures TotalCalls(jobs[i := j], k) == TotalCalls(jobs, k) - CallsOf(jobs[i], k) + CallsOf(j, k)
  {
    var n := |jobs| - 1;
    if i == n {
      assert jobs[i := j][..n] == jobs[..n];
    } else {
      TotalCallsUpdate(jobs[..n], i, j, k);
      assert jobs[i := j][..n] == jobs[..n][i := j];
    }
  }

  lemma CallsKept(b: Budget, s: State, e: Event, k: Key)
    requires Inv(b, s) && CallsAt(s.rows, k) == TotalCalls(s.jobs, k)
    ensures var t := Next(b, s, e); CallsAt(t.rows, k) == TotalCalls(t.jobs, k)
  {
    var t := Next(b, s, e);
    hide Total, TotalOver, Tally, Slack, Spent;
    if t.jobs != s.jobs {
      if e.Reserves? {
        assert t.jobs[..|s.jobs|] == s.jobs;
      } else {
        assert JobFits(s.rows, s.jobs[e.job]);
        hide Inv;
        assert t.jobs == s.jobs[e.job := t.jobs[e.job]];
        TotalCallsUpdate(s.jobs, e.job, t.jobs[e.job], k);
      }
    }
  }

  lemma {:induction false} CallsKeptInRun(b: Budget, s: State, es: seq<Event>, k: Key)
    requires Inv(b, s) && CallsAt(s.rows, k) == TotalCalls(s.jobs, k)
    ensures var t := Exec(b, s, es); CallsAt(t.rows, k) == TotalCalls(t.jobs, k)
    decreases |es|
  {
    hide Next, Inv, TotalCalls, CallsAt;
    if es != [] {
      CallsKept(b, s, es[0], k);
      NextKeeps(b, s, es[0]);
      CallsKeptInRun(b, Next(b, s, es[0]), es[1..], k);
    }
  }

  /** In every run a row has counted just the calls of its jobs that have settled, each once. */
  lemma CallsOfEveryRun(b: Budget, es: seq<Event>, k: Key)
    ensures var s := Exec(b, Init(), es); CallsAt(s.rows, k) == TotalCalls(s.jobs, k)
  {
    Reached(b, []);
    CallsKeptInRun(b, Init(), es, k);
  }
}
