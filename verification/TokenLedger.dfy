/**
 The cost guard (ai/models/src/budget.ts): a row per tenant and day of the tokens reserved or
 spent, reserved before a call and settled after it, each in one transaction.
 */
module TokenLedger {
  import opened Common

  /** A JavaScript number as a provider may report it. */
  datatype Num = NotFinite | Finite(r: real)

  /** A tenant's row for a day (UTC). */
  datatype Key = Key(tenant: string, day: nat)
  datatype Row = Row(tokens: int, calls: nat)
  type Rows = map<Key, Row>

  function TokensAt(rows: Rows, k: Key): int {
    if k in rows then rows[k].tokens else 0
  }

  datatype Reservation = Reservation(day: nat, tokens: nat)

  /** `dailyTokenBudget`: a tenant's own budget, or everyone's. */
  datatype Budget = Budget(daily: nat, perTenant: map<string, nat>) {
    function LimitFor(tenant: string): nat {
      if tenant in perTenant then perTenant[tenant] else daily
    }
  }

  function Reserve(rows: Rows, k: Key, tokens: nat, limit: nat): (Rows, Option<Reservation>) {
    if tokens > limit then (rows, None)
    else if k !in rows then (rows[k := Row(tokens, 0)], Some(Reservation(k.day, tokens)))
    else if rows[k].tokens + tokens <= limit then
      (rows[k := rows[k].(tokens := rows[k].tokens + tokens)], Some(Reservation(k.day, tokens)))
    else (rows, None)
  }

  /** What a settlement counts as spent: whole, not negative, nothing for a number that isn't one. */
  function Spent(used: Num): nat {
    match used
    case NotFinite => 0
    case Finite(r) => Max(0, r.Floor)
  }

  function Settle(rows: Rows, tenant: string, res: Reservation, used: Num, calls: nat): Rows {
    var k := Key(tenant, res.day);
    var delta := Spent(used) - res.tokens;
    if (delta == 0 && calls == 0) || k !in rows then rows
    else rows[k := Row(Max(0, rows[k].tokens + delta), rows[k].calls + calls)]
  }

  class Table {
    var rows: Rows

    constructor ()
      ensures rows == map[]
    {
      rows := map[];
    }

    method ReserveTokens(tenant: string, today: nat, tokens: nat, limit: nat) returns (res: Option<Reservation>)
      modifies this
      ensures (rows, res) == Reserve(old(rows), Key(tenant, today), tokens, limit)
    {
      if tokens > limit {
        return None;
      }
      var k := Key(tenant, today);
      if k !in rows {
        rows := rows[k := Row(tokens, 0)];
      } else {
        if rows[k].tokens + tokens > limit {
          return None;
        }
        rows := rows[k := Row(rows[k].tokens + tokens, rows[k].calls)];
      }
      return Some(Reservation(today, tokens));
    }

    method SettleTokens(tenant: string, res: Reservation, used: Num, calls: nat)
      modifies this
      ensures rows == Settle(old(rows), tenant, res, used, calls)
    {
      var spent := if used.Finite? then Max(0, used.r.Floor) else 0;
      var delta := spent - res.tokens;
      if delta == 0 && calls == 0 {
        return;
      }
      var k := Key(tenant, res.day);
      if k in rows {
        rows := rows[k := Row(Max(0, rows[k].tokens + delta), rows[k].calls + calls)];
      }
    }
  }

  // --- What each kind of job settles with --------------------------------------------------------

  /** Whose reservation it is: the embed step's, the summarize step's, a search query's. */
  datatype Kind = Embed | Summarize | Query

  /** The usage a call that came back reported. */
  datatype Report = Report(input: Num, output: Num)

  /** Whole, not negative, at most `cap`; `cap` for a number that isn't one. */
  function Clamp(n: Num, cap: nat): (c: nat)
    ensures c <= cap
  {
    match n
    case NotFinite => cap
    case Finite(r) => Min(cap, Max(0, r.Floor))
  }

  /** The tally of a job's calls: one for embed and query, two at most for summarize (one repair). */
  function Tally(kind: Kind, reserved: nat, reports: seq<Report>): Num {
    match kind
    case Embed => Finite(if reports == [] then 0.0 else Clamp(reports[0].input, reserved) as real)
    case Summarize => Finite(SummarizeTally(reserved, reports) as real)
    case Query =>
      if reports == [] || reports[0].input.NotFinite? then Finite(0.0)
      else
        var most := (reserved * 4) as real;
        Finite(if reports[0].input.r < most then reports[0].input.r else most)
  }

  /** Each of the step's calls counts the whole reservation at most. */
  function SummarizeTally(cap: nat, reports: seq<Report>): nat {
    if reports == [] then 0
    else Min(cap, Clamp(reports[0].input, cap) + Clamp(reports[0].output, cap)) + SummarizeTally(cap, reports[1..])
  }

  function MostCalls(kind: Kind): nat {
    if kind == Summarize then 2 else 1
  }

  /**
   What a job does once it may spend: what it reserves, what its calls report and how many count, whether
   a transaction of its own settles (with its result), and whether that of its `finally` commits.
   */
  datatype Spending = Spending(kind: Kind, tokens: nat, reports: seq<Report>, calls: nat, settles: bool, last: bool)

  /** What other transactions make of the rows meanwhile: during its calls, and before its `finally`. */
  datatype Meanwhile = Meanwhile(calling: Rows -> Rows, leaving: Rows -> Rows)

  const ALONE := Meanwhile((rows: Rows) => rows, (rows: Rows) => rows)

  function SettleSpent(rows: Rows, tenant: string, res: Reservation, sp: Spending): Rows {
    Settle(rows, tenant, res, Tally(sp.kind, sp.tokens, sp.reports), sp.calls)
  }

  /** The rows a job leaves that has its reservation. */
  function RestOf(rows: Rows, tenant: string, res: Reservation, sp: Spending, others: Meanwhile): Rows {
    var called := others.calling(rows);
    if sp.settles then SettleSpent(called, tenant, res, sp)
    else
      var left := others.leaving(called);
      if sp.last then SettleSpent(left, tenant, res, sp) else left
  }

  /** And from its reservation on; one that is refused leaves them as they are. */
  function Spend(rows: Rows, k: Key, limit: nat, sp: Spending, others: Meanwhile): Rows {
    match Reserve(rows, k, sp.tokens, limit)
    case (_, None) => rows
    case (reserved, Some(res)) => RestOf(reserved, k.tenant, res, sp, others)
  }

  /** How often it settles. */
  function SpendCount(sp: Spending): nat {
    if sp.settles || sp.last then 1 else 0
  }

  /** How far a settlement can go past its reservation. */
  function Slack(kind: Kind, reserved: nat): nat {
    match kind
    case Embed => 0
    case Summarize => reserved
    case Query => 3 * reserved
  }

  lemma {:induction false} SummarizeTallyBound(cap: nat, reports: seq<Report>)
    ensures SummarizeTally(cap, reports) <= cap * |reports|
  {
    if reports != [] {
      SummarizeTallyBound(cap, reports[1..]);
      assert cap * |reports| == cap + cap * (|reports| - 1);
    }
  }

  lemma FloorOf(n: int)
    ensures (n as real).Floor == n
  {
  }

  /** However a provider reports, a settlement is at most the reservation and its kind's slack. */
  lemma SpentBound(kind: Kind, reserved: nat, reports: seq<Report>)
    requires |reports| <= MostCalls(kind)
    ensures Spent(Tally(kind, reserved, reports)) <= reserved + Slack(kind, reserved)
  {
    match kind
    case Embed =>
    case Summarize =>
      SummarizeTallyBound(reserved, reports);
      var t := SummarizeTally(reserved, reports);
      FloorOf(t);
      assert t <= reserved * 2 by {
        assert reserved * |reports| <= reserved * 2;
      }
    case Query =>
      FloorOf(reserved * 4);
  }

  /** The bound is exact: a provider can make every kind of job settle with just that. */
  lemma SpentBoundReached(kind: Kind, reserved: nat)
    ensures exists reports: seq<Report> ::
              |reports| <= MostCalls(kind) && Spent(Tally(kind, reserved, reports)) == reserved + Slack(kind, reserved)
  {
    var much := Report(Finite((reserved * 4) as real), Finite(0.0));
    FloorOf(reserved * 4);
    FloorOf(reserved);
    match kind
    case Summarize =>
      var reports := [much, much];
      assert reports[1..] == [much] && [much][1..] == [];
      assert SummarizeTally(reserved, [much]) == reserved + SummarizeTally(reserved, []);
      assert SummarizeTally(reserved, reports) == reserved + SummarizeTally(reserved, [much]);
      FloorOf(2 * reserved);
      assert Spent(Tally(kind, reserved, reports)) == 2 * reserved;
    case _ =>
      assert Spent(Tally(kind, reserved, [much])) == reserved + Slack(kind, reserved);
  }
}
