/**
 A search query's vectors (ai/models/src/query.ts, `embedQuery`): each embedding model once, by the
 first provider that may have the query, each call reserved before and settled after.
 */
module QueryRun {
  import opened Common
  import opened TokenLedger

  type Vector = seq<real>

  /** What a call gives: its first vector, if any, and the tokens it reports; or it throws. */
  datatype Call = Back(vector: Option<Vector>, input: Num) | Throws(aborted: bool)

  /**
   A provider: its embedding model (None: it has none), whether it may have the query, its call and whether
   the settlement after it commits; and, before it is asked, how many days end and what others do to the
   rows, and what they do to them during the call.
   */
  datatype Client = Client(
    model: Option<string>, kindAllowed: bool, embeds: bool, call: Call, settles: bool,
    midnights: nat, before: Rows -> Rows, others: Meanwhile)

  datatype Embedding = Embedding(model: string, vector: Vector)

  datatype State = State(rows: Rows, today: nat, seen: set<string>, out: seq<Embedding>)

  /** The account a query counts in, its estimate and its tenant's limit. */
  datatype Account = Account(tenant: string, estimate: nat, limit: nat)

  predicate Passed(c: Client, seen: set<string>) {
    c.model == None || c.model.value in seen || !c.kindAllowed || !c.embeds
  }

  /** What a call does to the rows: a query has no transaction but the reservation's and its `finally`'s. */
  function SpendingOf(c: Client, estimate: nat): Spending {
    Spending(Query, estimate, if c.call.Back? then [Report(c.call.input, Finite(0.0))] else [], 1, false, c.settles)
  }

  /** The day a provider's tokens are reserved on, and the rows there are then. */
  function Asked(s: State, c: Client): State {
    s.(rows := c.before(s.rows), today := s.today + c.midnights)
  }

  /** One provider's turn; false when the query was called off. */
  function Turn(s: State, c: Client, a: Account): (State, bool) {
    if Passed(c, s.seen) then (s, true)
    else
      var t := Asked(s, c);
      var k := Key(a.tenant, t.today);
      var seen := s.seen + {c.model.value};
      if Reserve(t.rows, k, a.estimate, a.limit).1 == None then (t.(seen := seen), true)
      else
        (State(Spend(t.rows, k, a.limit, SpendingOf(c, a.estimate), c.others), t.today, seen,
               if c.call.Back? && c.call.vector.Some? then s.out + [Embedding(c.model.value, c.call.vector.value)]
               else s.out),
         !(c.call.Throws? && c.call.aborted))
  }

  /** The turns of the first `n` providers, unless one is called off. */
  function Turns(s: State, clients: seq<Client>, n: nat, a: Account): (State, bool)
    requires n <= |clients|
  {
    if n == 0 then (s, true)
    else
      var (t, goes) := Turns(s, clients, n - 1, a);
      if goes then Turn(t, clients[n - 1], a) else (t, false)
  }

  function Start(rows: Rows, today: nat): State {
    State(rows, today, {}, [])
  }

  class Ledger {
    var rows: Rows
    var today: nat

    constructor (rows: Rows, today: nat)
      ensures this.rows == rows && this.today == today
    {
      this.rows, this.today := rows, today;
    }

    /** None when the query was called off. */
    method EmbedQuery(clients: seq<Client>, a: Account) returns (found: Option<seq<Embedding>>)
      modifies this
      ensures var (s, goes) := Turns(Start(old(rows), old(today)), clients, |clients|, a);
              rows == s.rows && today == s.today && found == if goes then Some(s.out) else None
    {
      hide Reserve, Settle, Tally;
      ghost var start := Start(rows, today);
      var out: seq<Embedding>, seen: set<string> := [], {};
      var i := 0;
      while i < |clients|
        invariant i <= |clients|
        invariant Turns(start, clients, i, a) == (State(rows, today, seen, out), true)
      {
        ghost var before := State(rows, today, seen, out);
        var c := clients[i];
        i := i + 1;
        assert Turns(start, clients, i, a) == Turn(before, c, a);
        if c.model == None || c.model.value in seen || !c.kindAllowed || !c.embeds {
          continue;
        }
        var model := c.model.value;
        seen := seen + {model};
        rows, today := c.before(rows), today + c.midnights;
        var (reserved, res) := Reserve(rows, Key(a.tenant, today), a.estimate, a.limit);
        if res == None {
          continue;
        }
        rows := c.others.calling(reserved);
        var used := Finite(0.0);
        if c.call.Back? {
          used := Tally(Query, a.estimate, [Report(c.call.input, Finite(0.0))]);
          if c.call.vector.Some? {
            out := out + [Embedding(model, c.call.vector.value)];
          }
        } else {
          NothingReported(a.estimate);
        }
        // `finally`
        rows := c.others.leaving(rows);
        if c.settles {
          rows := Settle(rows, a.tenant, res.value, used, 1);
        }
        if c.call.Throws? && c.call.aborted {
          CalledOff(start, clients, i, |clients|, a);
          return None;
        }
      }
      return Some(out);
    }
  }

  lemma NothingReported(estimate: nat)
    ensures Tally(Query, estimate, []) == Finite(0.0)
  {
  }

  lemma {:induction false} CalledOff(s: State, clients: seq<Client>, n: nat, m: nat, a: Account)
    requires n <= m <= |clients| && !Turns(s, clients, n, a).1
    ensures Turns(s, clients, m, a) == Turns(s, clients, n, a)
    decreases m
  {
    hide Turn;
    if n < m {
      CalledOff(s, clients, n, m - 1, a);
    }
  }

  // --- What every query keeps ------------------------------------------------------------------------

  /** The models of the providers that may have the query. */
  function Models(clients: seq<Client>, n: nat): set<string>
    requires n <= |clients|
  {
    set i | 0 <= i < n && clients[i].model.Some? && clients[i].kindAllowed && clients[i].embeds ::
      clients[i].model.value
  }

  /** One provider that may have the query gave the vector of the embedding. */
  ghost predicate GivenBy(e: Embedding, clients: seq<Client>, n: nat)
    requires n <= |clients|
  {
    exists i :: 0 <= i < n && !Passed(clients[i], {}) && clients[i].model == Some(e.model)
                && clients[i].call.Back? && clients[i].call.vector == Some(e.vector)
  }

  ghost predicate OutFits(s: State, clients: seq<Client>, n: nat)
    requires n <= |clients|
  {
    && (forall i, j :: 0 <= i < j < |s.out| ==> s.out[i].model != s.out[j].model)
    && (forall e :: e in s.out ==> e.model in s.seen && GivenBy(e, clients, n))
  }

  /**
   A query that isn't called off has tried every model it may, each once; what it gives has each model
   once at most, from a provider that may have the query.
   */
  lemma {:induction false} EachModelOnce(rows: Rows, today: nat, clients: seq<Client>, n: nat, a: Account)
    requires n <= |clients|
    ensures var (s, goes) := Turns(Start(rows, today), clients, n, a);
            OutFits(s, clients, n) && (goes ==> s.seen == Models(clients, n))
    decreases n
  {
    hide Reserve, Settle, Tally;
    if n > 0 {
      EachModelOnce(rows, today, clients, n - 1, a);
      var (s, goes) := Turns(Start(rows, today), clients, n - 1, a);
      var c := clients[n - 1];
      assert Models(clients, n) == Models(clients, n - 1) + if Passed(c, {}) then {} else {c.model.value};
      OutGrows(s, clients, n);
      if goes {
        var t := Turn(s, c, a).0;
        if !Passed(c, s.seen) && t.out != s.out {
          var e := t.out[|s.out|];
          assert GivenBy(e, clients, n) by {
            assert !Passed(clients[n - 1], {}) && clients[n - 1].model == Some(e.model);
          }
        }
      }
    }
  }

  lemma OutGrows(s: State, clients: seq<Client>, n: nat)
    requires 0 < n <= |clients| && OutFits(s, clients, n - 1)
    ensures OutFits(s, clients, n)
  {
    forall e | e in s.out ensures GivenBy(e, clients, n) {
      assert GivenBy(e, clients, n - 1);
    }
  }

  /** No other transactions come between the query's own. */
  ghost predicate Alone(c: Client) {
    forall rows :: c.before(rows) == rows && c.others.calling(rows) == rows && c.others.leaving(rows) == rows
  }

  ghost predicate NotNegative(rows: Rows) {
    forall k :: k in rows ==> rows[k].tokens >= 0
  }

  /** What a provider's turn leaves a row at: what it was, or within the limit and three estimates on its day. */
  ghost predicate WithinThree(was: Rows, now: Rows, k: Key, a: Account) {
    && TokensAt(was, k) <= TokensAt(now, k)
    && (TokensAt(now, k) != TokensAt(was, k) ==> k.tenant == a.tenant && TokensAt(now, k) <= a.limit + 3 * a.estimate)
  }

  /** A provider's turn takes four times the estimate at most, from its tenant's row of the day it is asked on. */
  lemma TurnCosts(s: State, c: Client, a: Account)
    requires NotNegative(s.rows) && Alone(c)
    ensures var t := Turn(s, c, a).0;
            && NotNegative(t.rows) && t.today >= s.today
            && (forall k :: WithinThree(s.rows, t.rows, k, a))
            && (forall k :: TokensAt(t.rows, k) <= TokensAt(s.rows, k) + 4 * a.estimate)
            && (forall k :: k != Key(a.tenant, t.today) ==> TokensAt(t.rows, k) == TokensAt(s.rows, k))
  {
    hide Spend, NotNegative, Reserve, TokensAt, Alone, SpendingOf;
    AskedAlone(s, c);
    if !Passed(c, s.seen) {
      SpendCosts(s.rows, Key(a.tenant, s.today + c.midnights), a, c);
    }
  }

  lemma AskedAlone(s: State, c: Client)
    requires Alone(c)
    ensures Asked(s, c).rows == s.rows
  {
  }

  lemma SpendCosts(rows: Rows, k: Key, a: Account, c: Client)
    requires NotNegative(rows) && Alone(c) && k.tenant == a.tenant
    ensures var now := Spend(rows, k, a.limit, SpendingOf(c, a.estimate), c.others);
            && NotNegative(now)
            && WithinThree(rows, now, k, a) && TokensAt(now, k) <= TokensAt(rows, k) + 4 * a.estimate
            && (forall k' :: k' != k ==> TokensAt(now, k') == TokensAt(rows, k'))
  {
    var sp := SpendingOf(c, a.estimate);
    SpentBound(Query, a.estimate, sp.reports);
    hide Tally, Spent;
    var (reserved, res) := Reserve(rows, k, a.estimate, a.limit);
    if res.Some? {
      assert k in reserved && res.value == Reservation(k.day, a.estimate) && Key(k.tenant, res.value.day) == k;
    }
  }

  /**
   However many providers it asks and days end meanwhile, a query leaves each of its tenant's days within
   the limit and three estimates, or as it was, and no other tenant's changed.
   */
  lemma {:induction false} QueryCosts(rows: Rows, today: nat, clients: seq<Client>, n: nat, a: Account)
    requires n <= |clients| && NotNegative(rows) && forall c :: c in clients ==> Alone(c)
    ensures var s := Turns(Start(rows, today), clients, n, a).0;
            && NotNegative(s.rows) && s.today >= today
            && (forall k :: WithinThree(rows, s.rows, k, a))
            && (forall k :: TokensAt(s.rows, k) <= TokensAt(rows, k) + 4 * a.estimate * n)
            && (forall k: Key :: k.day < today || k.day > s.today ==> TokensAt(s.rows, k) == TokensAt(rows, k))
    decreases n
  {
    hide Turn, Alone, NotNegative, TokensAt;
    if n > 0 {
      QueryCosts(rows, today, clients, n - 1, a);
      var (s, goes) := Turns(Start(rows, today), clients, n - 1, a);
      assert 4 * a.estimate * n == 4 * a.estimate * (n - 1) + 4 * a.estimate;
      if goes {
        TurnCosts(s, clients[n - 1], a);
        var t := Turn(s, clients[n - 1], a).0;
        forall k ensures WithinThree(rows, t.rows, k, a) {
          assert WithinThree(rows, s.rows, k, a) && WithinThree(s.rows, t.rows, k, a);
        }
      }
    }
  }

  // --- Exactly what a query gives ----------------------------------------------------------------------

  /** A provider that may have the query, with a model to embed it. */
  predicate MayHave(c: Client) {
    c.model.Some? && c.kindAllowed && c.embeds
  }

  /** The first of its model that may have the query. */
  predicate IsFirst(clients: seq<Client>, i: nat)
    requires i < |clients|
  {
    MayHave(clients[i]) && forall j :: 0 <= j < i && MayHave(clients[j]) ==> clients[j].model != clients[i].model
  }

  /** It is asked: the day's row has room for the estimate when its turn comes. */
  predicate IsAsked(rows: Rows, today: nat, clients: seq<Client>, i: nat, a: Account)
    requires i < |clients|
  {
    var t := Asked(Turns(Start(rows, today), clients, i, a).0, clients[i]);
    IsFirst(clients, i) && Reserve(t.rows, Key(a.tenant, t.today), a.estimate, a.limit).1.Some?
  }

  /** The vectors of those asked that gave one, in the providers' order. */
  function Given(rows: Rows, today: nat, clients: seq<Client>, n: nat, a: Account): seq<Embedding>
    requires n <= |clients|
  {
    if n == 0 then [] else
    var c := clients[n - 1];
    Given(rows, today, clients, n - 1, a)
    + if IsAsked(rows, today, clients, n - 1, a) && c.call.Back? && c.call.vector.Some?
      then [Embedding(c.model.value, c.call.vector.value)] else []
  }

  /** Its call failed, and the caller had called the query off. */
  predicate CallsOff(rows: Rows, today: nat, clients: seq<Client>, i: nat, a: Account)
    requires i < |clients|
  {
    IsAsked(rows, today, clients, i, a) && clients[i].call == Throws(true)
  }

  lemma SeenOrFirst(clients: seq<Client>, n: nat)
    requires n < |clients|
    ensures !Passed(clients[n], Models(clients, n)) <==> IsFirst(clients, n)
  {
  }

  lemma TurnGives(s: State, c: Client, a: Account)
    ensures var (t, goes) := Turn(s, c, a);
            var asked := Asked(s, c);
            var has := !Passed(c, s.seen)
              && Reserve(asked.rows, Key(a.tenant, asked.today), a.estimate, a.limit).1.Some?;
            && t.out == (if has && c.call.Back? && c.call.vector.Some?
                         then s.out + [Embedding(c.model.value, c.call.vector.value)] else s.out)
            && (goes <==> !(has && c.call == Throws(true)))
  {
    hide Reserve, Spend;
  }

  /**
   A query gives the vectors of just the providers that are the first of their model to be allowed it, have room
   in the day's budget and give one, in order; unless the call of one of them fails when the query was called off.
   */
  lemma {:induction false} GivesExactly(rows: Rows, today: nat, clients: seq<Client>, n: nat, a: Account)
    requires n <= |clients|
    ensures var (s, goes) := Turns(Start(rows, today), clients, n, a);
            && (goes ==> s.out == Given(rows, today, clients, n, a))
            && (goes <==> forall i :: 0 <= i < n ==> !CallsOff(rows, today, clients, i, a))
    decreases n
  {
    hide Reserve, Spend, Passed, Models, IsFirst, Asked, Turn;
    if n > 0 {
      GivesExactly(rows, today, clients, n - 1, a);
      EachModelOnce(rows, today, clients, n - 1, a);
      SeenOrFirst(clients, n - 1);
      var (s, goes) := Turns(Start(rows, today), clients, n - 1, a);
      var given := Given(rows, today, clients, n - 1, a);
      assert given + [] == given;
      if goes {
        TurnGives(s, clients[n - 1], a);
        assert CallsOff(rows, today, clients, n - 1, a) <==> !Turns(Start(rows, today), clients, n, a).1;
      }
    }
  }

  /**
   What a provider that is asked costs the day, with no others between: what its answer settles for, or nothing if
   it failed; and the estimate if that transaction does not commit.
   */
  lemma AskedCosts(s: State, c: Client, a: Account)
    requires NotNegative(s.rows) && Alone(c) && !Passed(c, s.seen)
    requires Reserve(s.rows, Key(a.tenant, s.today + c.midnights), a.estimate, a.limit).1.Some?
    ensures var k := Key(a.tenant, s.today + c.midnights);
            TokensAt(Turn(s, c, a).0.rows, k) == TokensAt(s.rows, k) +
              if !c.settles then a.estimate
              else if c.call.Throws? then 0
              else Spent(Tally(Query, a.estimate, [Report(c.call.input, Finite(0.0))]))
  {
    AskedAlone(s, c);
    NothingReported(a.estimate);
    FloorOf(0);
    var k := Key(a.tenant, s.today + c.midnights);
    assert k in s.rows ==> s.rows[k].tokens >= 0;
    hide Tally, NotNegative;
  }
}
