/**
 The counting semaphore in front of a provider (ai/models/src/clients.ts, `limiter`): at most `n`
 calls in flight, the others waiting in line, a permit handed from a call that ends to the first
 one in the line.
 */
module Limiter {
  import opened Common

  /** A call's own number. */
  type Call = nat

  /** What the closure keeps: permits taken, and the calls in line. */
  datatype Sem = Sem(active: nat, waiting: seq<Call>)

  /** How a call gets past the gate. */
  datatype Entry = Runs | Waits | Rejected

  /** A call arrives; `aborted` says whether its signal has fired already. */
  function Enter(n: nat, s: Sem, c: Call, aborted: bool): (Sem, Entry) {
    if s.active < n then (s.(active := s.active + 1), Runs)
    else if aborted then (s, Rejected)
    else (s.(waiting := s.waiting + [c]), Waits)
  }

  /** A call ends (`finally`): its permit goes to the first in line, or back. */
  function Leave(s: Sem): (Sem, Option<Call>)
    requires s.active > 0
  {
    if s.waiting != [] then (s.(waiting := s.waiting[1..]), Some(s.waiting[0]))
    else (s.(active := s.active - 1), None)
  }

  /** The line without `c`. */
  function Without(line: seq<Call>, c: Call): seq<Call> {
    if line == [] then [] else if line[0] == c then line[1..] else [line[0]] + Without(line[1..], c)
  }

  /** The signal of a call in line fires. */
  function GiveUp(s: Sem, c: Call): Sem {
    s.(waiting := Without(s.waiting, c))
  }

  class Semaphore {
    const n: nat
    var active: nat
    var waiting: seq<Call>

    function Value(): Sem
      reads this
    {
      Sem(active, waiting)
    }

    constructor (n: nat)
      ensures this.n == n && Value() == Sem(0, [])
    {
      this.n := n;
      active := 0;
      waiting := [];
    }

    method Arrive(c: Call, aborted: bool) returns (entry: Entry)
      modifies this
      ensures (Value(), entry) == Enter(n, old(Value()), c, aborted)
    {
      if active >= n {
        if aborted {
          return Rejected;
        }
        waiting := waiting + [c];
        entry := Waits;
      } else {
        active := active + 1;
        entry := Runs;
      }
    }

    method End() returns (next: Option<Call>)
      requires active > 0
      modifies this
      ensures (Value(), next) == Leave(old(Value()))
    {
      if |waiting| > 0 {
        next := Some(waiting[0]);
        waiting := waiting[1..];
      } else {
        next := None;
        active := active - 1;
      }
    }

    /** `indexOf` and `splice`: the first place of `c` in the line, if it has one. */
    method Abort(c: Call)
      modifies this
      ensures Value() == GiveUp(old(Value()), c)
    {
      var i := 0;
      while i < |waiting| && waiting[i] != c
        invariant i <= |waiting| && waiting == old(waiting) && active == old(active)
        invariant Without(old(waiting), c) == waiting[..i] + Without(waiting[i..], c)
      {
        assert waiting[i..][1..] == waiting[i + 1..];
        i := i + 1;
      }
      if i < |waiting| {
        assert waiting[i..][1..] == waiting[i + 1..];
        waiting := waiting[..i] + waiting[i + 1..];
      }
    }
  }

  // --- Runs -------------------------------------------------------------------------------------

  /**
   A run's state. A granted call has its permit, but its own code has not gone on yet (the promise
   resolved; the call resumes later). `arrived` lists, in order of arrival, the calls that were let
   in or put in line and did not give up there; `permits` the calls that got a permit, in the order
   they did.
   */
  datatype State = State(
    sem: Sem, granted: set<Call>, running: set<Call>, seen: set<Call>,
    arrived: seq<Call>, permits: seq<Call>)

  datatype Event = Arrives(c: Call, aborted: bool) | Resumes(c: Call) | Ends(c: Call) | Aborts(c: Call)

  function Init(): State {
    State(Sem(0, []), {}, {}, {}, [], [])
  }

  /** One event; one that cannot happen now changes nothing. */
  function Next(n: nat, s: State, e: Event): State {
    match e
    case Arrives(c, aborted) =>
      if c in s.seen then s else
      var (sem, entry) := Enter(n, s.sem, c, aborted);
      var t := s.(sem := sem, seen := s.seen + {c});
      (match entry
       case Runs => t.(running := s.running + {c}, arrived := s.arrived + [c], permits := s.permits + [c])
       case Waits => t.(arrived := s.arrived + [c])
       case Rejected => t)
    case Resumes(c) =>
      if c !in s.granted then s else s.(granted := s.granted - {c}, running := s.running + {c})
    case Ends(c) =>
      if c !in s.running || s.sem.active == 0 then s else
      var (sem, next) := Leave(s.sem);
      var t := s.(sem := sem, running := s.running - {c});
      (match next
       case None => t
       case Some(w) => t.(granted := s.granted + {w}, permits := s.permits + [w]))
    case Aborts(c) =>
      if c !in s.sem.waiting then s
      else s.(sem := GiveUp(s.sem, c), arrived := Without(s.arrived, c))
  }

  function Exec(n: nat, s: State, es: seq<Event>): State
    decreases |es|
  {
    if es == [] then s else Exec(n, Next(n, s, es[0]), es[1..])
  }

  ghost predicate Distinct(line: seq<Call>) {
    forall i, j :: 0 <= i < j < |line| ==> line[i] != line[j]
  }

  /** What every run keeps. */
  ghost predicate Inv(n: nat, s: State) {
    && s.granted !! s.running
    && s.sem.active == |s.running| + |s.granted| <= n
    && (s.sem.waiting != [] ==> s.sem.active == n)
    && s.arrived == s.permits + s.sem.waiting
    && Distinct(s.arrived)
    && (forall c :: c in s.arrived ==> c in s.seen)
    && (forall c :: c in s.granted || c in s.running ==> c in s.permits)
  }

  lemma {:induction false} WithoutIn(line: seq<Call>, c: Call)
    requires Distinct(line)
    ensures Distinct(Without(line, c))
    ensures forall d :: d in Without(line, c) <==> d in line && d != c
  {
    if line != [] {
      WithoutIn(line[1..], c);
      assert line == [line[0]] + line[1..];
      assert line[0] !in line[1..];
    }
  }

  lemma {:induction false} WithoutSuffix(front: seq<Call>, line: seq<Call>, c: Call)
    requires c !in front
    ensures Without(front + line, c) == front + Without(line, c)
  {
    if front == [] {
      assert front + line == line;
    } else {
      WithoutSuffix(front[1..], line, c);
      assert (front + line)[1..] == front[1..] + line;
    }
  }

  lemma ArriveKeeps(n: nat, s: State, c: Call, aborted: bool)
    requires n >= 1 && Inv(n, s) && c !in s.seen
    ensures Inv(n, Next(n, s, Arrives(c, aborted)))
  {
    var t := Next(n, s, Arrives(c, aborted));
    assert c !in s.arrived;
    hide Distinct;
    if s.sem.active < n {
      assert s.sem.waiting == [];
      assert s.arrived == s.permits;
      assert t.running == s.running + {c} && c !in s.running;
    } else if !aborted {
      assert t.arrived == t.permits + t.sem.waiting;
    }
  }

  lemma EndKeeps(n: nat, s: State, c: Call)
    requires n >= 1 && Inv(n, s) && c in s.running && s.sem.active > 0
    ensures Inv(n, Next(n, s, Ends(c)))
  {
    var t := Next(n, s, Ends(c));
    assert |s.running - {c}| == |s.running| - 1;
    if s.sem.waiting != [] {
      var w := s.sem.waiting[0];
      assert s.sem.waiting == [w] + s.sem.waiting[1..];
      assert w == s.arrived[|s.permits|];
      assert forall k :: 0 <= k < |s.permits| ==> s.arrived[k] == s.permits[k];
      assert w !in s.permits;
      assert t.arrived == t.permits + t.sem.waiting;
      assert |t.granted| == |s.granted| + 1;
    }
  }

  lemma AbortKeeps(n: nat, s: State, c: Call)
    requires n >= 1 && Inv(n, s) && c in s.sem.waiting
    ensures Inv(n, Next(n, s, Aborts(c)))
  {
    var i :| 0 <= i < |s.sem.waiting| && s.sem.waiting[i] == c;
    assert s.arrived[|s.permits| + i] == c;
    assert forall k :: 0 <= k < |s.permits| ==> s.arrived[k] == s.permits[k];
    assert c !in s.permits;
    WithoutSuffix(s.permits, s.sem.waiting, c);
    WithoutIn(s.arrived, c);
  }

  lemma NextKeeps(n: nat, s: State, e: Event)
    requires n >= 1 && Inv(n, s)
    ensures Inv(n, Next(n, s, e))
  {
    match e
    case Arrives(c, aborted) =>
      if c !in s.seen { ArriveKeeps(n, s, c, aborted); }
    case Resumes(c) =>
    case Ends(c) =>
      if c in s.running && s.sem.active > 0 { EndKeeps(n, s, c); }
    case Aborts(c) =>
      if c in s.sem.waiting { AbortKeeps(n, s, c); }
  }

  /**
   Every interleaving of arrivals, resumptions, ends and aborts: at most `n` calls hold a permit,
   `active` counts exactly them, nobody waits while a permit is free, and the permits went to the
   calls that did not give up in the order they arrived, none overtaken.
   */
  lemma {:induction false} EveryRun(n: nat, s: State, es: seq<Event>)
    requires n >= 1 && Inv(n, s)
    ensures Inv(n, Exec(n, s, es))
    decreases |es|
  {
    if es != [] {
      NextKeeps(n, s, es[0]);
      EveryRun(n, Next(n, s, es[0]), es[1..]);
    }
  }

  /** The same, said of every run from the start. */
  lemma PermitsOfEveryRun(n: nat, es: seq<Event>)
    requires n >= 1
    ensures var s := Exec(n, Init(), es);
            && s.sem.active == |s.running + s.granted| <= n
            && (s.sem.waiting != [] ==> s.sem.active == n)
            // Of those that did not give up, the ones with a permit are the first to have arrived.
            && s.permits <= s.arrived && s.sem.waiting == s.arrived[|s.permits|..] && Distinct(s.arrived)
            && s.running + s.granted <= set c | c in s.permits
  {
    EveryRun(n, Init(), es);
    var s := Exec(n, Init(), es);
    assert |s.running + s.granted| == |s.running| + |s.granted|;
  }

  /** How many running calls end. */
  function EndCount(n: nat, s: State, es: seq<Event>): nat
    decreases |es|
  {
    if es == [] then 0
    else
      (if es[0].Ends? && es[0].c in s.running && s.sem.active > 0 then 1 else 0)
      + EndCount(n, Next(n, s, es[0]), es[1..])
  }

  /** A call's signal fires while it waits. */
  predicate GivesUp(n: nat, s: State, es: seq<Event>, c: Call)
    decreases |es|
  {
    es != [] && ((es[0] == Aborts(c) && c in s.sem.waiting) || GivesUp(n, Next(n, s, es[0]), es[1..], c))
  }

  /** Who waits in a line, at place `at` or before it. */
  ghost predicate WaitsBy(line: seq<Call>, c: Call, at: int) {
    exists q: nat :: q < |line| && q <= at && line[q] == c
  }

  lemma {:induction false} WithoutAnother(line: seq<Call>, d: Call, c: Call, at: int)
    requires WaitsBy(line, c, at) && c != d
    ensures WaitsBy(Without(line, d), c, at)
  {
    var q: nat :| q < |line| && q <= at && line[q] == c;
    if q == 0 {
      assert Without(line, d)[0] == c;
    } else {
      assert line[1..][q - 1] == c;
      if line[0] != d {
        WithoutAnother(line[1..], d, c, at - 1);
        var k: nat :| k < |Without(line[1..], d)| && k <= at - 1 && Without(line[1..], d)[k] == c;
        assert Without(line, d)[k + 1] == c;
      }
    }
  }

  /** One event: it lets the call in, or brings it nearer if a running call ends, or it gives up. */
  lemma StepServes(n: nat, s: State, e: Event, c: Call, at: int)
    requires WaitsBy(s.sem.waiting, c, at) && e != Aborts(c)
    ensures var t := Next(n, s, e);
            c in t.permits || WaitsBy(t.sem.waiting, c, at - EndCount(n, s, [e]))
  {
    var t := Next(n, s, e);
    assert EndCount(n, t, [e][1..]) == 0;
    var q: nat :| q < |s.sem.waiting| && q <= at && s.sem.waiting[q] == c;
    match e
    case Arrives(d, aborted) => assert (s.sem.waiting + [d])[q] == c;
    case Resumes(_) =>
    case Ends(_) => if t.sem.waiting != s.sem.waiting && q > 0 { assert s.sem.waiting[1..][q - 1] == c; }
    case Aborts(d) => WithoutAnother(s.sem.waiting, d, c, at);
  }

  lemma {:induction false} PermitsStay(n: nat, s: State, es: seq<Event>, c: Call)
    requires c in s.permits
    ensures c in Exec(n, s, es).permits
    decreases |es|
  {
    if es != [] {
      PermitsStay(n, Next(n, s, es[0]), es[1..], c);
    }
  }

  /**
   Progress: each running call that ends brings a call in line one place nearer, whoever else arrives
   or gives up. Once `at` + 1 have ended, one that waited at place `at` has its permit, or gave up.
   */
  lemma {:induction false} Served(n: nat, s: State, es: seq<Event>, c: Call, at: int)
    requires WaitsBy(s.sem.waiting, c, at) && !GivesUp(n, s, es, c)
    ensures var t := Exec(n, s, es);
            c in t.permits || WaitsBy(t.sem.waiting, c, at - EndCount(n, s, es))
    ensures EndCount(n, s, es) > at ==> c in Exec(n, s, es).permits
    decreases |es|
  {
    if es != [] {
      var t := Next(n, s, es[0]);
      StepServes(n, s, es[0], c, at);
      assert EndCount(n, s, es) == EndCount(n, s, [es[0]]) + EndCount(n, t, es[1..]) by {
        assert EndCount(n, t, [es[0]][1..]) == 0;
      }
      if c in t.permits {
        PermitsStay(n, t, es[1..], c);
      } else {
        Served(n, t, es[1..], c, at - EndCount(n, s, [es[0]]));
      }
    }
  }

  /** No permit is lost or made up: when no call holds one, all are back and nobody waits. */
  lemma AllEnded(n: nat, es: seq<Event>)
    requires n >= 1
    ensures var s := Exec(n, Init(), es);
            (s.running + s.granted == {} ==> s.sem == Sem(0, []) && s.arrived == s.permits)
  {
    EveryRun(n, Init(), es);
    var s := Exec(n, Init(), es);
    if s.running + s.granted == {} {
      assert s.running == {} && s.granted == {};
    }
  }

  /** What a step does, to the call and to the line. */
  ghost predicate Moves(n: nat, s: State, e: Event, t: State) {
    match e
    case Arrives(c, aborted) =>
      c !in s.seen ==>
        if |s.running + s.granted| < n then t.running == s.running + {c} && t.permits == s.permits + [c]
        else if aborted then t == s.(seen := s.seen + {c})
        else t.sem.waiting == s.sem.waiting + [c] && t.running == s.running && t.granted == s.granted
    case Resumes(c) => c in s.granted ==> t == s.(granted := s.granted - {c}, running := s.running + {c})
    case Ends(c) =>
      c in s.running ==>
        && t.running == s.running - {c}
        && t.granted == s.granted + (if s.sem.waiting == [] then {} else {s.sem.waiting[0]})
        && t.sem.waiting == if s.sem.waiting == [] then [] else s.sem.waiting[1..]
    case Aborts(c) =>
      c in s.sem.waiting ==>
        && t.running == s.running && t.granted == s.granted && t.permits == s.permits
        && forall d :: d in t.sem.waiting <==> d in s.sem.waiting && d != c
  }

  /**
   Exactly what becomes of a call in any run. One that arrives has a permit at once if fewer than `n` do; else it is
   last in line, or turned away if its signal has fired. One in line whose signal fires leaves it, and no other does.
   One that ends gives its permit up, to the first in line if there is one; a permit that was handed on is the
   call's own when it goes on.
   */
  lemma StepExactly(n: nat, es: seq<Event>, e: Event)
    requires n >= 1
    ensures var s := Exec(n, Init(), es); Moves(n, s, e, Next(n, s, e))
  {
    EveryRun(n, Init(), es);
    StepMoves(n, Exec(n, Init(), es), e);
  }

  lemma StepMoves(n: nat, s: State, e: Event)
    requires Inv(n, s)
    ensures Moves(n, s, e, Next(n, s, e))
  {
    assert |s.running + s.granted| == |s.running| + |s.granted|;
    assert s.running != {} ==> |s.running| > 0;
    LineIsDistinct(s);
    hide Inv, Distinct;
    match e
    case Aborts(c) => WithoutIn(s.sem.waiting, c);
    case _ =>
  }

  lemma LineIsDistinct(s: State)
    requires Distinct(s.arrived) && s.arrived == s.permits + s.sem.waiting
    ensures Distinct(s.sem.waiting)
  {
    var p := |s.permits|;
    assert forall i :: 0 <= i < |s.sem.waiting| ==> s.sem.waiting[i] == s.arrived[p + i];
  }
}
