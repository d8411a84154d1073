/**
 Runs of the token ledger: any number of embed, summarize and query jobs of any tenants, over any
 days, their transactions interleaved (ai/models/src/budget.ts; the jobs' exits are those of
 ai/enrich/src/embed.ts, ai/enrich/src/summarize.ts and ai/models/src/query.ts).
 */
module LedgerRuns {
  import opened Common
  import opened TokenLedger

  /**
   Where a job that has its reservation is: at its calls; in its `finally`, with the `settled` flag
   it gets there with; or over.
   */
  datatype Pc = Calling | Leaving(settled: bool) | Over

  /** A job: what it reserved, what its tally will settle with, and how often it has settled. */
  datatype Job = Job(kind: Kind, tenant: string, res: Reservation, used: Num, calls: nat, pc: Pc, settles: nat)

  datatype State = State(rows: Rows, jobs: seq<Job>, today: nat)

  /**
   A job reserves; its calls are over, having reported `reports`, and it goes to its own
   transaction (saving the result, or recording why there is none, and settling), which commits or
   not, or it goes straight to its `finally`; its `finally` settles if nothing has, and that
   transaction commits or not; the day ends.
   */
  datatype Event =
    | Reserves(kind: Kind, tenant: string, tokens: nat)
    | CallsDone(job: nat, reports: seq<Report>, calls: nat, writes: bool, commits: bool)
    | Finally(job: nat, commits: bool)
    | DayEnds

  function Init(): State {
    State(map[], [], 0)
  }

  function KeyOf(j: Job): Key {
    Key(j.tenant, j.res.day)
  }

  function SettleJob(s: State, i: nat, j: Job): State
    requires i < |s.jobs|
  {
    s.(rows := Settle(s.rows, j.tenant, j.res, j.used, j.calls), jobs := s.jobs[i := j.(settles := j.settles + 1)])
  }

  /** One event; one that cannot happen now changes nothing. */
  function Next(b: Budget, s: State, e: Event): State {
    match e
    case Reserves(kind, tenant, tokens) =>
      var (rows, res) := Reserve(s.rows, Key(tenant, s.today), tokens, b.LimitFor(tenant));
      (match res
       case None => s
       case Some(r) => s.(rows := rows, jobs := s.jobs + [Job(kind, tenant, r, Finite(0.0), 0, Calling, 0)]))
    case CallsDone(i, reports, calls, writes, commits) =>
      if i >= |s.jobs| || s.jobs[i].pc != Calling || |reports| > MostCalls(s.jobs[i].kind) then s else
      var j := s.jobs[i].(used := Tally(s.jobs[i].kind, s.jobs[i].res.tokens, reports), calls := calls);
      // A query has no transaction of its own: it settles in its `finally`.
      if writes && commits && j.kind != Query then SettleJob(s, i, j.(pc := Leaving(true)))
      else s.(jobs := s.jobs[i := j.(pc := Leaving(false))])
    case Finally(i, commits) =>
      if i >= |s.jobs| || !s.jobs[i].pc.Leaving? then s else
      var j := s.jobs[i].(pc := Over);
      if !s.jobs[i].pc.settled && commits then SettleJob(s, i, j) else s.(jobs := s.jobs[i := j])
    case DayEnds => s.(today := s.today + 1)
  }

  function Exec(b: Budget, s: State, es: seq<Event>): State
    decreases |es|
  {
    if es == [] then s else Exec(b, Next(b, s, es[0]), es[1..])
  }

  /** What a job's row holds for it: what it spent once it settled, what it reserved before. */
  function Amount(j: Job): nat {
    if j.settles == 0 then j.res.tokens else Spent(j.used)
  }

  /** How far its settlement went past its reservation. */
  function Overspend(j: Job): nat {
    Max(0, Amount(j) - j.res.tokens)
  }

  /** The sum over the jobs of a row of what they hold, went past or have counted as calls. */
  function Total(jobs: seq<Job>, k: Key): nat {
    if jobs == [] then 0 else Total(jobs[..|jobs| - 1], k) + One(jobs[|jobs| - 1], k)
  }

  function One(j: Job, k: Key): nat {
    if KeyOf(j) == k then Amount(j) else 0
  }

  function TotalOver(jobs: seq<Job>, k: Key): nat {
    if jobs == [] then 0 else TotalOver(jobs[..|jobs| - 1], k) + OneOver(jobs[|jobs| - 1], k)
  }

  function OneOver(j: Job, k: Key): nat {
    if KeyOf(j) == k then Overspend(j) else 0
  }

  function TotalSlack(jobs: seq<Job>, k: Key): nat {
    if jobs == [] then 0
    else TotalSlack(jobs[..|jobs| - 1], k)
         + if KeyOf(jobs[|jobs| - 1]) == k then Slack(jobs[|jobs| - 1].kind, jobs[|jobs| - 1].res.tokens) else 0
  }

  ghost predicate JobFits(rows: Rows, j: Job) {
    && KeyOf(j) in rows
    && j.settles <= 1
    && (j.pc.Calling? ==> j.settles == 0)
    && (j.pc.Leaving? ==> j.settles == if j.pc.settled then 1 else 0)
    && Overspend(j) <= Slack(j.kind, j.res.tokens)
    && (!j.pc.Calling? ==> Spent(j.used) <= j.res.tokens + Slack(j.kind, j.res.tokens))
  }

  ghost predicate RowFits(b: Budget, s: State, k: Key) {
    && TokensAt(s.rows, k) == Total(s.jobs, k)
    && Total(s.jobs, k) <= b.LimitFor(k.tenant) + TotalOver(s.jobs, k)
  }

  ghost predicate Inv(b: Budget, s: State) {
    && (forall k :: RowFits(b, s, k))
    && (forall i :: 0 <= i < |s.jobs| ==> JobFits(s.rows, s.jobs[i]))
  }

  lemma {:induction false} TotalUpdate(jobs: seq<Job>, i: nat, j: Job, k: Key)
    requires i < |jobs| && KeyOf(j) == KeyOf(jobs[i])
    ensures Total(jobs[i := j], k) == Total(jobs, k) - One(jobs[i], k) + One(j, k)
    ensures TotalOver(jobs[i := j], k) == TotalOver(jobs, k) - OneOver(jobs[i], k) + OneOver(j, k)
  {
    var n := |jobs| - 1;
    if i == n {
      assert jobs[i := j][..n] == jobs[..n];
    } else {
      TotalUpdate(jobs[..n], i, j, k);
      assert jobs[i := j][..n] == jobs[..n][i := j];
    }
  }

  /** Before it settles, a job's reservation is in its row: the clamp at zero changes nothing. */
  lemma {:induction false} TotalHas(jobs: seq<Job>, i: nat)
    requires i < |jobs|
    ensures Total(jobs, KeyOf(jobs[i])) >= Amount(jobs[i])
  {
    var n := |jobs| - 1;
    if i < n {
      TotalHas(jobs[..n], i);
    }
  }

  lemma ClampNeverBites(b: Budget, s: State, i: nat)
    requires Inv(b, s) && i < |s.jobs| && s.jobs[i].settles == 0
    ensures TokensAt(s.rows, KeyOf(s.jobs[i])) + Spent(s.jobs[i].used) - s.jobs[i].res.tokens >= 0
  {
    TotalHas(s.jobs, i);
    assert RowFits(b, s, KeyOf(s.jobs[i]));
  }

  /** A job's other fields changed, not what its row holds for it. */
  lemma JobStepKeeps(b: Budget, s: State, i: nat, j: Job)
    requires Inv(b, s) && i < |s.jobs| && JobFits(s.rows, j)
    requires KeyOf(j) == KeyOf(s.jobs[i]) && Amount(j) == Amount(s.jobs[i]) && j.res == s.jobs[i].res
    ensures Inv(b, s.(jobs := s.jobs[i := j]))
  {
    var t := s.(jobs := s.jobs[i := j]);
    forall k ensures RowFits(b, t, k) {
      assert RowFits(b, s, k);
      TotalUpdate(s.jobs, i, j, k);
    }
  }

  lemma SettleKeeps(b: Budget, s: State, i: nat, j: Job)
    requires Inv(b, s) && i < |s.jobs| && s.jobs[i].settles == 0
    requires j == s.jobs[i].(used := j.used, calls := j.calls, pc := j.pc)
    requires JobFits(s.rows, j.(settles := 1))
    ensures Inv(b, SettleJob(s, i, j))
  {
    var t := SettleJob(s, i, j);
    var done := j.(settles := 1);
    ClampNeverBites(b, s.(jobs := s.jobs), i);
    forall k ensures RowFits(b, t, k) {
      assert RowFits(b, s, k);
      TotalUpdate(s.jobs, i, done, k);
      if k == KeyOf(j) { TotalHas(s.jobs, i); }
    }
  }

  lemma ReserveKeeps(b: Budget, s: State, kind: Kind, tenant: string, tokens: nat)
    requires Inv(b, s)
    ensures Inv(b, Next(b, s, Reserves(kind, tenant, tokens)))
  {
    var t := Next(b, s, Reserves(kind, tenant, tokens));
    if t != s {
      forall k ensures RowFits(b, t, k) {
        ReserveRow(b, s, kind, tenant, tokens, k);
      }
      ReserveJobs(b, s, kind, tenant, tokens);
    }
  }

  lemma ReserveRow(b: Budget, s: State, kind: Kind, tenant: string, tokens: nat, k: Key)
    requires RowFits(b, s, k)
    ensures RowFits(b, Next(b, s, Reserves(kind, tenant, tokens)), k)
  {
    var t := Next(b, s, Reserves(kind, tenant, tokens));
    if t != s {
      var n := |s.jobs|;
      assert |t.jobs| == n + 1 && t.jobs[..n] == s.jobs;
      assert Total(t.jobs, k) == Total(s.jobs, k) + One(t.jobs[n], k);
      assert TotalOver(t.jobs, k) == TotalOver(s.jobs, k) + OneOver(t.jobs[n], k);
      hide Total, TotalOver;
    }
  }

  lemma ReserveJobs(b: Budget, s: State, kind: Kind, tenant: string, tokens: nat)
    requires forall i :: 0 <= i < |s.jobs| ==> JobFits(s.rows, s.jobs[i])
    ensures var t := Next(b, s, Reserves(kind, tenant, tokens));
            forall i :: 0 <= i < |t.jobs| ==> JobFits(t.rows, t.jobs[i])
  {
    var t := Next(b, s, Reserves(kind, tenant, tokens));
    forall i | 0 <= i < |t.jobs| ensures JobFits(t.rows, t.jobs[i]) {
      assert i < |s.jobs| ==> JobFits(s.rows, s.jobs[i]);
    }
  }

  lemma NextKeeps(b: Budget, s: State, e: Event)
    requires Inv(b, s)
    ensures Inv(b, Next(b, s, e))
  {
    match e
    case Reserves(kind, tenant, tokens) => ReserveKeeps(b, s, kind, tenant, tokens);
    case CallsDone(i, reports, calls, writes, commits) =>
      if i < |s.jobs| && s.jobs[i].pc == Calling && |reports| <= MostCalls(s.jobs[i].kind) {
        var was := s.jobs[i];
        assert JobFits(s.rows, was);
        SpentBound(was.kind, was.res.tokens, reports);
        var j := was.(used := Tally(was.kind, was.res.tokens, reports), calls := calls);
        if writes && commits && j.kind != Query {
          SettleKeeps(b, s, i, j.(pc := Leaving(true)));
        } else {
          JobStepKeeps(b, s, i, j.(pc := Leaving(false)));
        }
      }
    case Finally(i, commits) =>
      if i < |s.jobs| && s.jobs[i].pc.Leaving? {
        assert JobFits(s.rows, s.jobs[i]);
        var j := s.jobs[i].(pc := Over);
        if !s.jobs[i].pc.settled && commits { SettleKeeps(b, s, i, j); } else { JobStepKeeps(b, s, i, j); }
      }
    case DayEnds =>
      forall k ensures RowFits(b, Next(b, s, e), k) { assert RowFits(b, s, k); }
  }

  /**
   In every run a tenant's row for a day is what its jobs that have not settled reserved plus what
   the others spent, and at most the tenant's limit plus what settlements went past their
   reservations; no job settles twice.
   */
  lemma {:induction false} EveryRun(b: Budget, s: State, es: seq<Event>)
    requires Inv(b, s)
    ensures Inv(b, Exec(b, s, es))
    decreases |es|
  {
    if es != [] {
      NextKeeps(b, s, es[0]);
      EveryRun(b, Next(b, s, es[0]), es[1..]);
    }
  }

  /** The same, said of every run from the start. */
  lemma RowsOfEveryRun(b: Budget, es: seq<Event>, k: Key)
    ensures var s := Exec(b, Init(), es);
            && TokensAt(s.rows, k) == Total(s.jobs, k) <= b.LimitFor(k.tenant) + TotalOver(s.jobs, k)
            && forall i :: 0 <= i < |s.jobs| ==>
                 s.jobs[i].settles <= 1 && Overspend(s.jobs[i]) <= Slack(s.jobs[i].kind, s.jobs[i].res.tokens)
  {
    forall k' ensures RowFits(b, Init(), k') {}
    EveryRun(b, Init(), es);
    var s := Exec(b, Init(), es);
    assert RowFits(b, s, k);
    forall i | 0 <= i < |s.jobs|
      ensures s.jobs[i].settles <= 1 && Overspend(s.jobs[i]) <= Slack(s.jobs[i].kind, s.jobs[i].res.tokens)
    {
      assert JobFits(s.rows, s.jobs[i]);
    }
  }

  lemma {:induction false} OverWithinSlack(rows: Rows, jobs: seq<Job>, k: Key)
    requires forall i :: 0 <= i < |jobs| ==> JobFits(rows, jobs[i])
    ensures TotalOver(jobs, k) <= TotalSlack(jobs, k)
  {
    if jobs != [] {
      OverWithinSlack(rows, jobs[..|jobs| - 1], k);
      assert JobFits(rows, jobs[|jobs| - 1]);
    }
  }

  /**
   What can be known beforehand: whatever providers report and however jobs interleave and end, a
   row never goes past the limit by more than the reservations of summarize jobs and three times
   those of queries.
   */
  lemma RowBound(b: Budget, es: seq<Event>, k: Key)
    ensures var s := Exec(b, Init(), es);
            0 <= TokensAt(s.rows, k) <= b.LimitFor(k.tenant) + TotalSlack(s.jobs, k)
  {
    forall k' ensures RowFits(b, Init(), k') {}
    EveryRun(b, Init(), es);
    var s := Exec(b, Init(), es);
    assert RowFits(b, s, k);
    OverWithinSlack(s.rows, s.jobs, k);
  }

  /** Embedding alone never goes past the limit. */
  lemma EmbedStaysWithin(b: Budget, es: seq<Event>, k: Key)
    requires forall i :: 0 <= i < |es| && es[i].Reserves? ==> es[i].kind == Embed
    ensures TokensAt(Exec(b, Init(), es).rows, k) <= b.LimitFor(k.tenant)
  {
    RowBound(b, es, k);
    OnlyEmbedJobs(b, Init(), es);
    NoSlack(Exec(b, Init(), es).jobs, k);
  }

  ghost predicate AllEmbed(jobs: seq<Job>) {
    forall i :: 0 <= i < |jobs| ==> jobs[i].kind == Embed
  }

  lemma {:induction false} OnlyEmbedJobs(b: Budget, s: State, es: seq<Event>)
    requires forall i :: 0 <= i < |es| && es[i].Reserves? ==> es[i].kind == Embed
    requires AllEmbed(s.jobs)
    ensures AllEmbed(Exec(b, s, es).jobs)
    decreases |es|
  {
    if es != [] {
      assert AllEmbed(Next(b, s, es[0]).jobs);
      OnlyEmbedJobs(b, Next(b, s, es[0]), es[1..]);
    }
  }

  lemma {:induction false} NoSlack(jobs: seq<Job>, k: Key)
    requires AllEmbed(jobs)
    ensures TotalSlack(jobs, k) == 0
  {
    if jobs != [] {
      NoSlack(jobs[..|jobs| - 1], k);
    }
  }

  // --- When the limit holds ------------------------------------------------------------------------

  /** The most a job's row may come to hold for it. */
  function Most(j: Job): nat {
    match j.pc
    case Calling => j.res.tokens + Slack(j.kind, j.res.tokens)
    case Leaving(settled) => if settled then Amount(j) else Max(j.res.tokens, Spent(j.used))
    case Over => Amount(j)
  }

  function OneMost(j: Job, k: Key): nat {
    if KeyOf(j) == k then Most(j) else 0
  }

  function TotalMost(jobs: seq<Job>, k: Key): nat {
    if jobs == [] then 0 else TotalMost(jobs[..|jobs| - 1], k) + OneMost(jobs[|jobs| - 1], k)
  }

  /** No new reservations: the jobs there are go on. */
  ghost predicate NoneReserve(es: seq<Event>) {
    forall i :: 0 <= i < |es| ==> !es[i].Reserves?
  }

  lemma {:induction false} TotalMostUpdate(jobs: seq<Job>, i: nat, j: Job, k: Key)
    requires i < |jobs| && KeyOf(j) == KeyOf(jobs[i])
    ensures TotalMost(jobs[i := j], k) == TotalMost(jobs, k) - OneMost(jobs[i], k) + OneMost(j, k)
  {
    hide Most;
    var n := |jobs| - 1;
    if i == n {
      assert jobs[i := j][..n] == jobs[..n];
    } else {
      TotalMostUpdate(jobs[..n], i, j, k);
      assert jobs[i := j][..n] == jobs[..n][i := j];
    }
  }

  lemma {:induction false} TotalWithinMost(rows: Rows, jobs: seq<Job>, k: Key)
    requires forall i :: 0 <= i < |jobs| ==> JobFits(rows, jobs[i])
    ensures Total(jobs, k) <= TotalMost(jobs, k)
  {
    if jobs != [] {
      TotalWithinMost(rows, jobs[..|jobs| - 1], k);
      assert JobFits(rows, jobs[|jobs| - 1]);
    }
  }

  /** A step of a job never raises the most it may hold. */
  lemma MostFalls(b: Budget, s: State, e: Event, k: Key)
    requires Inv(b, s) && !e.Reserves?
    ensures TotalMost(Next(b, s, e).jobs, k) <= TotalMost(s.jobs, k)
  {
    var t := Next(b, s, e);
    if t.jobs != s.jobs {
      var i := e.job;
      assert JobFits(s.rows, s.jobs[i]);
      if e.CallsDone? {
        SpentBound(s.jobs[i].kind, s.jobs[i].res.tokens, e.reports);
      }
      hide Tally, Spent, Slack;
      assert t.jobs == s.jobs[i := t.jobs[i]];
      assert KeyOf(t.jobs[i]) == KeyOf(s.jobs[i]) && Most(t.jobs[i]) <= Most(s.jobs[i]);
      TotalMostUpdate(s.jobs, i, t.jobs[i], k);
    }
  }

  lemma {:induction false} StaysWithinMost(b: Budget, s: State, es: seq<Event>, k: Key)
    requires Inv(b, s) && NoneReserve(es)
    ensures TokensAt(Exec(b, s, es).rows, k) <= TotalMost(s.jobs, k)
    decreases |es|
  {
    if es == [] {
      TotalWithinMost(s.rows, s.jobs, k);
      assert RowFits(b, s, k);
    } else {
      NextKeeps(b, s, es[0]);
      MostFalls(b, s, es[0], k);
      assert forall i :: 0 <= i < |es| - 1 ==> es[1..][i] == es[i + 1];
      StaysWithinMost(b, Next(b, s, es[0]), es[1..], k);
    }
  }

  lemma {:induction false} ExecCat(b: Budget, s: State, es: seq<Event>, fs: seq<Event>)
    ensures Exec(b, s, es + fs) == Exec(b, Exec(b, s, es), fs)
    decreases |es|
  {
    hide Next;
    if es == [] {
      assert es + fs == fs;
    } else {
      assert (es + fs)[0] == es[0] && (es + fs)[1..] == es[1..] + fs;
      ExecCat(b, Next(b, s, es[0]), es[1..], fs);
    }
  }

  lemma ExecOne(b: Budget, s: State, e: Event)
    ensures Exec(b, s, [e]) == Next(b, s, e)
  {
    hide Next;
    assert [e][1..] == [];
    assert Exec(b, Next(b, s, e), []) == Next(b, s, e);
  }

  // --- The most under way at once -------------------------------------------------------------------

  /** How far the settlements still to come can go past the reservations of a row, together. */
  function UnderWay(jobs: seq<Job>, k: Key): nat {
    if jobs == [] then 0 else UnderWay(jobs[..|jobs| - 1], k) + OneUnderWay(jobs[|jobs| - 1], k)
  }

  function OneUnderWay(j: Job, k: Key): nat {
    if KeyOf(j) == k && (j.pc.Calling? || j.pc == Leaving(false)) then Slack(j.kind, j.res.tokens) else 0
  }

  /** The most of that at any time of a run. */
  function Peak(b: Budget, s: State, es: seq<Event>, k: Key): nat
    decreases |es|
  {
    Max(UnderWay(s.jobs, k), if es == [] then 0 else Peak(b, Next(b, s, es[0]), es[1..], k))
  }

  lemma {:induction false} MostUnderWay(rows: Rows, jobs: seq<Job>, k: Key)
    requires forall i :: 0 <= i < |jobs| ==> JobFits(rows, jobs[i])
    ensures TotalMost(jobs, k) <= Total(jobs, k) + UnderWay(jobs, k)
  {
    if jobs != [] {
      MostUnderWay(rows, jobs[..|jobs| - 1], k);
      assert JobFits(rows, jobs[|jobs| - 1]);
    }
  }

  lemma ReserveMost(b: Budget, s: State, e: Event, k: Key)
    requires Inv(b, s) && e.Reserves?
    ensures var t := Next(b, s, e);
            TotalMost(t.jobs, k) <= Max(TotalMost(s.jobs, k), b.LimitFor(k.tenant) + UnderWay(t.jobs, k))
  {
    var t := Next(b, s, e);
    NextKeeps(b, s, e);
    if t != s {
      if k == Key(e.tenant, s.today) {
        MostUnderWay(t.rows, t.jobs, k);
        assert RowFits(b, t, k);
      } else {
        var n := |s.jobs|;
        assert t.jobs[..n] == s.jobs && OneMost(t.jobs[n], k) == 0;
      }
    }
  }

  lemma {:induction false} PeakKeeps(b: Budget, s: State, es: seq<Event>, k: Key)
    requires Inv(b, s)
    ensures TotalMost(Exec(b, s, es).jobs, k) <= Max(TotalMost(s.jobs, k), b.LimitFor(k.tenant) + Peak(b, s, es, k))
    decreases |es|
  {
    hide Next, Inv, TotalMost, UnderWay;
    if es != [] {
      var t := Next(b, s, es[0]);
      NextKeeps(b, s, es[0]);
      PeakKeeps(b, t, es[1..], k);
      assert UnderWay(t.jobs, k) <= Peak(b, t, es[1..], k) <= Peak(b, s, es, k);
      if es[0].Reserves? {
        ReserveMost(b, s, es[0], k);
      } else {
        MostFalls(b, s, es[0], k);
      }
    }
  }

  /**
   However jobs interleave and end, a row never goes past the limit by more than settlements under way
   at one time can: it does not matter how many jobs there were.
   */
  lemma PeakBound(b: Budget, es: seq<Event>, k: Key)
    ensures TokensAt(Exec(b, Init(), es).rows, k) <= b.LimitFor(k.tenant) + Peak(b, Init(), es, k)
  {
    forall k' ensures RowFits(b, Init(), k') {}
    EveryRun(b, Init(), es);
    PeakKeeps(b, Init(), es, k);
    var s := Exec(b, Init(), es);
    TotalWithinMost(s.rows, s.jobs, k);
    assert RowFits(b, s, k);
  }

  // --- Exactly when it holds ------------------------------------------------------------------------

  /** One job, alone, can be led to hold the most it may, and can't go further. */
  lemma JobDriven(b: Budget, s: State, i: nat) returns (es: seq<Event>, j: Job)
    requires Inv(b, s) && i < |s.jobs|
    ensures NoneReserve(es) && Exec(b, s, es).jobs == s.jobs[i := j]
    ensures KeyOf(j) == KeyOf(s.jobs[i]) && Amount(j) == Most(j) == Most(s.jobs[i])
  {
    j := s.jobs[i];
    assert JobFits(s.rows, j);
    match j.pc
    case Calling =>
      SpentBoundReached(j.kind, j.res.tokens);
      var reports :|
        |reports| <= MostCalls(j.kind)
          && Spent(Tally(j.kind, j.res.tokens, reports)) == j.res.tokens + Slack(j.kind, j.res.tokens);
      var first := CallsDone(i, reports, 0, true, true);
      var second := Finally(i, true);
      hide Tally, Spent, Slack;
      var t := Next(b, s, first);
      ExecOne(b, s, first);
      ExecOne(b, t, second);
      ExecCat(b, s, [first], [second]);
      es := [first] + [second];
      j := Next(b, t, second).jobs[i];
      assert Next(b, t, second).jobs == s.jobs[i := j];
    case Leaving(settled) =>
      if !settled {
        var last := Finally(i, Spent(j.used) > j.res.tokens);
        ExecOne(b, s, last);
        es := [last];
        j := Next(b, s, last).jobs[i];
      } else {
        es := [];
        assert s.jobs[i := j] == s.jobs;
      }
    case Over =>
      es := [];
      assert s.jobs[i := j] == s.jobs;
  }

  /** The jobs from number `n` on hold the most they may. */
  ghost predicate AtMost(jobs: seq<Job>, n: nat) {
    forall i :: n <= i < |jobs| ==> Amount(jobs[i]) == Most(jobs[i])
  }

  /** So all jobs together can be. */
  lemma {:induction false} AllDriven(b: Budget, s: State, n: nat, k: Key) returns (es: seq<Event>)
    requires Inv(b, s) && n <= |s.jobs| && AtMost(s.jobs, n)
    ensures NoneReserve(es) && Inv(b, Exec(b, s, es))
    ensures AtMost(Exec(b, s, es).jobs, 0) && TotalMost(Exec(b, s, es).jobs, k) == TotalMost(s.jobs, k)
    decreases n
  {
    hide Most, Amount, Next, Inv;
    if n == 0 {
      es := [];
    } else {
      var first, j := JobDriven(b, s, n - 1);
      var t := Exec(b, s, first);
      EveryRun(b, s, first);
      TotalMostUpdate(s.jobs, n - 1, j, k);
      var rest := AllDriven(b, t, n - 1, k);
      ExecCat(b, s, first, rest);
      es := first + rest;
    }
  }

  lemma {:induction false} TotalIsMost(jobs: seq<Job>, k: Key)
    requires AtMost(jobs, 0)
    ensures Total(jobs, k) == TotalMost(jobs, k)
  {
    hide Most, Amount;
    if jobs != [] {
      var n := |jobs| - 1;
      assert Amount(jobs[n]) == Most(jobs[n]);
      TotalIsMost(jobs[..n], k);
    }
  }

  /**
   Exactly when the limit holds: from any reachable state, however its jobs go on, a row stays within
   the limit if and only if the most its jobs may hold, together, does.
   */
  lemma LimitHoldsExactly(b: Budget, before: seq<Event>, k: Key)
    ensures var s := Exec(b, Init(), before);
            (forall es | NoneReserve(es) :: TokensAt(Exec(b, s, es).rows, k) <= b.LimitFor(k.tenant)) <==>
            TotalMost(s.jobs, k) <= b.LimitFor(k.tenant)
  {
    var s := Exec(b, Init(), before);
    forall k' ensures RowFits(b, Init(), k') {}
    EveryRun(b, Init(), before);
    forall es | NoneReserve(es) ensures TokensAt(Exec(b, s, es).rows, k) <= TotalMost(s.jobs, k) {
      StaysWithinMost(b, s, es, k);
    }
    var worst := AllDriven(b, s, |s.jobs|, k);
    var t := Exec(b, s, worst);
    assert RowFits(b, t, k);
    TotalIsMost(t.jobs, k);
    assert TokensAt(t.rows, k) == TotalMost(s.jobs, k);
  }

  /** An instance: a summarize job whose provider reports its most twice takes a row to twice the limit. */
  lemma LimitIsExceeded()
    ensures var b := Budget(10, map[]);
            var most := Report(Finite(10.0), Finite(0.0));
            var es := [Reserves(Summarize, "t", 10), CallsDone(0, [most, most], 2, true, true)];
            TokensAt(Exec(b, Init(), es).rows, Key("t", 0)) == 20
  {
    var b := Budget(10, map[]);
    var most := Report(Finite(10.0), Finite(0.0));
    var first := Reserves(Summarize, "t", 10);
    var second := CallsDone(0, [most, most], 2, true, true);
    var es := [first, second];
    var s := Next(b, Init(), first);
    assert es[1..] == [second] && [second][1..] == [];
    assert Exec(b, Init(), es) == Exec(b, s, [second]) == Exec(b, Next(b, s, second), []);
    assert [most, most][1..] == [most] && [most][1..] == [];
    assert SummarizeTally(10, [most]) == 10 + SummarizeTally(10, []);
    assert SummarizeTally(10, [most, most]) == 10 + SummarizeTally(10, [most]);
    FloorOf(20);
  }
}
