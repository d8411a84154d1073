/**
 The debouncer of the folder watcher (apps/server/src/watch.ts, `createDebouncer`): pokes become
 calls of `fire`, after `debounceMs` of quiet or `maxWaitMs` from a burst's first poke, one call at
 a time. A timer is the time it is due at; time itself is part of a run's state.
 */
module Debouncer {
  import opened Common

  /** The closure's variables. */
  datatype Deb = Deb(quiet: Option<nat>, max: Option<nat>, inFlight: bool, again: bool, closed: bool)

  datatype Times = Times(debounceMs: nat, maxWaitMs: nat)

  /** `due`: the new state, and whether `fire` is called. */
  function Due(d: Deb): (Deb, bool) {
    var c := d.(quiet := None, max := None);
    if d.closed then (c, false)
    else if d.inFlight then (c.(again := true), false)
    else (c.(inFlight := true), true)
  }

  function Poked(d: Deb, now: nat, ms: Times): Deb {
    if d.closed then d
    else d.(quiet := Some(now + ms.debounceMs),
            max := if d.max == None then Some(now + ms.maxWaitMs) else d.max)
  }

  /** `fire`'s promise settled. */
  function Settled(d: Deb): (Deb, bool) {
    var c := d.(inFlight := false);
    if d.again then Due(c.(again := false)) else (c, false)
  }

  function Closed(d: Deb): Deb {
    Deb(None, None, d.inFlight, false, true)
  }

  /** The closure itself. `fired` says that a method called `fire`. */
  class Timers {
    const ms: Times
    var quiet: Option<nat>
    var max: Option<nat>
    var inFlight: bool
    var again: bool
    var closed: bool

    function Value(): Deb
      reads this
    {
      Deb(quiet, max, inFlight, again, closed)
    }

    constructor (ms: Times)
      ensures this.ms == ms && Value() == Deb(None, None, false, false, false)
    {
      this.ms := ms;
      quiet, max := None, None;
      inFlight, again, closed := false, false, false;
    }

    method Clear()
      modifies this
      ensures Value() == old(Value()).(quiet := None, max := None)
    {
      quiet, max := None, None;
    }

    method OnDue() returns (fired: bool)
      modifies this
      ensures (Value(), fired) == Due(old(Value()))
    {
      Clear();
      fired := false;
      if closed {
        return;
      }
      if inFlight {
        again := true;
        return;
      }
      inFlight := true;
      fired := true;
    }

    method Poke(now: nat)
      modifies this
      ensures Value() == Poked(old(Value()), now, ms)
    {
      if closed {
        return;
      }
      quiet := Some(now + ms.debounceMs);
      if max == None {
        max := Some(now + ms.maxWaitMs);
      }
    }

    method OnSettled() returns (fired: bool)
      modifies this
      ensures (Value(), fired) == Settled(old(Value()))
    {
      inFlight := false;
      fired := false;
      if again {
        again := false;
        fired := OnDue();
      }
    }

    method Close()
      modifies this
      ensures Value() == Closed(old(Value()))
    {
      closed := true;
      again := false;
      Clear();
    }
  }

  // --- Runs -------------------------------------------------------------------------------------

  /**
   A call of `fire`: it covers the pokes from number `from` up to `to`; `followed` when it began as
   the call before it settled; `end` once it settled itself.
   */
  datatype Call = Call(begin: nat, from: nat, to: nat, followed: bool, end: Option<nat>)

  /** `pokes` has the time of every poke made before close(), `calls` every call of `fire`. */
  datatype State = State(d: Deb, now: nat, pokes: seq<nat>, calls: seq<Call>)

  datatype Event = Pokes | Passes(to: nat) | QuietDue | MaxDue | Settles | Closes

  function Init(): State {
    State(Deb(None, None, false, false, false), 0, [], [])
  }

  /** How many pokes the calls made so far cover. */
  function Covered(s: State): nat {
    if s.calls == [] then 0 else s.calls[|s.calls| - 1].to
  }

  /** The closure went from `s.d` to `d`, calling `fire` when `fired`. */
  function Then(s: State, d: Deb, fired: bool, followed: bool): State {
    if fired then s.(d := d, calls := s.calls + [Call(s.now, Covered(s), |s.pokes|, followed, None)])
    else s.(d := d)
  }

  predicate NotBefore(timer: Option<nat>, t: nat) {
    timer == None || t <= timer.value
  }

  predicate IsDue(timer: Option<nat>, now: nat) {
    timer.Some? && timer.value <= now
  }

  /** One event; one that cannot happen now changes nothing. Time does not pass an armed timer. */
  function Next(ms: Times, s: State, e: Event): State {
    match e
    case Pokes => if s.d.closed then s else s.(d := Poked(s.d, s.now, ms), pokes := s.pokes + [s.now])
    case Passes(to) =>
      if s.now <= to && NotBefore(s.d.quiet, to) && NotBefore(s.d.max, to) then s.(now := to) else s
    case QuietDue =>
      if IsDue(s.d.quiet, s.now) then var (d, fired) := Due(s.d); Then(s, d, fired, false) else s
    case MaxDue =>
      if IsDue(s.d.max, s.now) then var (d, fired) := Due(s.d); Then(s, d, fired, false) else s
    case Settles =>
      if s.d.inFlight && s.calls != [] then
        var n := |s.calls| - 1;
        var t := s.(calls := s.calls[n := s.calls[n].(end := Some(s.now))]);
        var (d, fired) := Settled(s.d);
        Then(t, d, fired, true)
      else s
    case Closes => s.(d := Closed(s.d))
  }

  function Exec(ms: Times, s: State, es: seq<Event>): State
    decreases |es|
  {
    if es == [] then s else Exec(ms, Next(ms, s, es[0]), es[1..])
  }

  /** A run of one event more goes on from where the run was. */
  lemma {:induction false} RunGoesOn(ms: Times, s: State, es: seq<Event>, e: Event)
    ensures Exec(ms, s, []) == s && Exec(ms, s, es + [e]) == Next(ms, Exec(ms, s, es), e)
    decreases |es|
  {
    hide Next;
    if es == [] {
      assert [] + [e] == [e] && [e][1..] == [];
    } else {
      assert (es + [e])[1..] == es[1..] + [e];
      RunGoesOn(ms, Next(ms, s, es[0]), es[1..], e);
    }
  }

  /**
   No poke is lost: while some are not covered, either the two timers are armed for them (the one
   not later than `maxWaitMs` after the first of them, and time has not gone past either), or the
   next call begins as the one in flight settles.
   */
  ghost predicate Waiting(ms: Times, s: State)
    requires Covered(s) <= |s.pokes|
  {
    var first := Covered(s);
    first < |s.pokes| && !s.d.closed && !s.d.again ==>
      && s.d.max == Some(s.pokes[first] + ms.maxWaitMs)
      && s.d.quiet == Some(s.pokes[|s.pokes| - 1] + ms.debounceMs)
  }

  /** No timer and no `again` without a poke to cover; time is not past an armed timer. */
  ghost predicate TimersFit(s: State) {
    && (Covered(s) == |s.pokes| || s.d.closed ==> s.d.quiet == None && s.d.max == None && !s.d.again)
    && (s.d.again ==> s.d.inFlight)
    && NotBefore(s.d.quiet, s.now) && NotBefore(s.d.max, s.now)
    && (s.d.quiet == None <==> s.d.max == None)
  }

  /**
   Call `k` covers the pokes after those of the call before it, which had settled. It began either
   just as that one settled, or at the sooner of `maxWaitMs` after the first poke it covers and
   `debounceMs` after the last.
   */
  ghost predicate CallFits(ms: Times, pokes: seq<nat>, calls: seq<Call>, k: nat)
    requires k < |calls|
  {
    var c := calls[k];
    && c.from < c.to <= |pokes|
    && c.from == (if k == 0 then 0 else calls[k - 1].to)
    && (k > 0 ==> calls[k - 1].end.Some? && calls[k - 1].end.value <= c.begin)
    && (c.end.Some? ==> c.begin <= c.end.value)
    && (if c.followed then k > 0 && calls[k - 1].end == Some(c.begin)
        else c.begin == Min(pokes[c.from] + ms.maxWaitMs, pokes[c.to - 1] + ms.debounceMs))
  }

  ghost predicate LastFits(s: State) {
    var n := |s.calls|;
    && s.d.inFlight == (n > 0 && s.calls[n - 1].end == None)
    && (n > 0 ==> s.calls[n - 1].begin <= s.now)
    && (n > 0 && s.calls[n - 1].end.Some? ==> s.calls[n - 1].end.value <= s.now)
  }

  ghost predicate Inv(ms: Times, s: State) {
    && Covered(s) <= |s.pokes|
    && Waiting(ms, s) && TimersFit(s) && LastFits(s)
    && (forall k: nat :: k < |s.calls| ==> CallFits(ms, s.pokes, s.calls, k))
  }

  /** What a call's fitness depends on: the pokes it covers, itself and the call before it. */
  lemma StillFits(ms: Times, pokes: seq<nat>, calls: seq<Call>, pokes': seq<nat>, calls': seq<Call>, k: nat)
    requires k < |calls| && k < |calls'| && CallFits(ms, pokes, calls, k)
    requires pokes <= pokes' && calls'[k] == calls[k] && (k > 0 ==> calls'[k - 1] == calls[k - 1])
    ensures CallFits(ms, pokes', calls', k)
  {
    assert forall j :: 0 <= j < |pokes| ==> pokes'[j] == pokes[j];
  }

  /** A new call after those there were: the old ones fit as before. */
  lemma CallsGrow(ms: Times, pokes: seq<nat>, calls: seq<Call>, c: Call)
    requires forall k: nat :: k < |calls| ==> CallFits(ms, pokes, calls, k)
    requires CallFits(ms, pokes, calls + [c], |calls|)
    ensures forall k: nat :: k < |calls| + 1 ==> CallFits(ms, pokes, calls + [c], k)
  {
    forall k: nat | k < |calls| ensures CallFits(ms, pokes, calls + [c], k) {
      StillFits(ms, pokes, calls, pokes, calls + [c], k);
    }
  }

  lemma DueKeeps(ms: Times, s: State)
    requires Inv(ms, s) && (IsDue(s.d.quiet, s.now) || IsDue(s.d.max, s.now))
    ensures var (d, fired) := Due(s.d); Inv(ms, Then(s, d, fired, false))
  {
    var (d, fired) := Due(s.d);
    if fired {
      var t := Then(s, d, fired, false);
      var n := |s.calls|;
      assert n > 0 ==> CallFits(ms, s.pokes, s.calls, n - 1);
      assert CallFits(ms, t.pokes, t.calls, n);
      CallsGrow(ms, s.pokes, s.calls, t.calls[n]);
    }
  }

  lemma EndFits(ms: Times, s: State)
    requires Inv(ms, s) && s.d.inFlight && s.calls != []
    ensures var n := |s.calls| - 1;
            var calls := s.calls[n := s.calls[n].(end := Some(s.now))];
            forall k: nat :: k < |calls| ==> CallFits(ms, s.pokes, calls, k)
  {
    var n := |s.calls| - 1;
    var calls := s.calls[n := s.calls[n].(end := Some(s.now))];
    forall k: nat | k < |calls| ensures CallFits(ms, s.pokes, calls, k) {
      assert CallFits(ms, s.pokes, s.calls, k);
      if k < n { StillFits(ms, s.pokes, s.calls, s.pokes, calls, k); }
    }
  }

  lemma SettleKeeps(ms: Times, s: State)
    requires Inv(ms, s) && s.d.inFlight && s.calls != []
    ensures Inv(ms, Next(ms, s, Settles))
  {
    EndFits(ms, s);
    var n := |s.calls| - 1;
    var calls := s.calls[n := s.calls[n].(end := Some(s.now))];
    var t := Next(ms, s, Settles);
    if s.d.again {
      assert t.calls == calls + [t.calls[n + 1]];
      assert CallFits(ms, s.pokes, t.calls, n + 1);
      CallsGrow(ms, s.pokes, calls, t.calls[n + 1]);
    }
  }

  lemma PokeKeeps(ms: Times, s: State)
    requires Inv(ms, s) && !s.d.closed
    ensures Inv(ms, Next(ms, s, Pokes))
  {
    var t := Next(ms, s, Pokes);
    forall k: nat | k < |s.calls| ensures CallFits(ms, t.pokes, t.calls, k) {
      StillFits(ms, s.pokes, s.calls, t.pokes, t.calls, k);
    }
  }

  lemma NextKeeps(ms: Times, s: State, e: Event)
    requires Inv(ms, s)
    ensures Inv(ms, Next(ms, s, e))
  {
    match e
    case Pokes => if !s.d.closed { PokeKeeps(ms, s); }
    case QuietDue => if IsDue(s.d.quiet, s.now) { DueKeeps(ms, s); }
    case MaxDue => if IsDue(s.d.max, s.now) { DueKeeps(ms, s); }
    case Settles => if s.d.inFlight && s.calls != [] { SettleKeeps(ms, s); }
    case Passes(to) =>
    case Closes =>
  }

  /**
   In every run no poke is lost, each call of `fire` begins exactly when it should, calls never
   overlap, and they cover the pokes in order.
   */
  lemma {:induction false} EveryRun(ms: Times, s: State, es: seq<Event>)
    requires Inv(ms, s)
    ensures Inv(ms, Exec(ms, s, es))
    decreases |es|
  {
    if es != [] {
      NextKeeps(ms, s, es[0]);
      EveryRun(ms, Next(ms, s, es[0]), es[1..]);
    }
  }

  predicate Covers(c: Call, p: nat) {
    c.from <= p < c.to
  }

  /** Each poke before the end of call `n - 1` is covered by one of the calls up to it. */
  lemma {:induction false} PokeHasItsCall(ms: Times, pokes: seq<nat>, calls: seq<Call>, n: nat, p: nat) returns (k: nat)
    requires 0 < n <= |calls| && forall k: nat :: k < |calls| ==> CallFits(ms, pokes, calls, k)
    requires p < calls[n - 1].to
    ensures k < n && Covers(calls[k], p)
  {
    assert CallFits(ms, pokes, calls, n - 1);
    if calls[n - 1].from <= p {
      k := n - 1;
    } else {
      k := PokeHasItsCall(ms, pokes, calls, n - 1, p);
    }
  }

  /** A call has settled, and covers other pokes, before any later one begins. */
  lemma {:induction false} CallsApart(ms: Times, pokes: seq<nat>, calls: seq<Call>, i: nat, j: nat)
    requires i < j < |calls| && forall k: nat :: k < |calls| ==> CallFits(ms, pokes, calls, k)
    ensures calls[i].end.Some? && calls[i].end.value <= calls[j].begin && calls[i].to <= calls[j].from
  {
    assert CallFits(ms, pokes, calls, j);
    if i < j - 1 {
      CallsApart(ms, pokes, calls, i, j - 1);
      assert CallFits(ms, pokes, calls, j - 1);
    }
  }

  ghost predicate IsCovered(s: State, p: nat) {
    exists k: nat :: k < |s.calls| && Covers(s.calls[k], p)
  }

  ghost predicate IsBefore(s: State, i: nat, j: nat)
    requires i < j < |s.calls|
  {
    s.calls[i].end.Some? && s.calls[i].end.value <= s.calls[j].begin && s.calls[i].to <= s.calls[j].from
  }

  /** Within `maxWaitMs` of the first poke it covers, or just as the call before it settles. */
  ghost predicate BeginsInTime(ms: Times, s: State, k: nat)
    requires k < |s.calls|
  {
    var c := s.calls[k];
    c.from < |s.pokes| && (c.begin <= s.pokes[c.from] + ms.maxWaitMs || (k > 0 && s.calls[k - 1].end == Some(c.begin)))
  }

  /**
   The same, said of the calls of every run from the start: never two at once, each poke covered by
   one of them or waited for, each begun in time.
   */
  lemma CallsOfEveryRun(ms: Times, es: seq<Event>)
    ensures var s := Exec(ms, Init(), es);
            && (forall i: nat, j: nat :: i < j < |s.calls| ==> IsBefore(s, i, j))
            && (forall k: nat :: k < |s.calls| ==> BeginsInTime(ms, s, k))
            && Covered(s) <= |s.pokes| && (forall p: nat :: p < Covered(s) ==> IsCovered(s, p))
            && (!s.d.closed && Covered(s) < |s.pokes| ==>
              (s.d.again && s.d.inFlight) || (s.d.quiet.Some? && s.d.max.Some?))
  {
    EveryRun(ms, Init(), es);
    var s := Exec(ms, Init(), es);
    hide Exec;
    forall i: nat, j: nat | i < j < |s.calls| ensures IsBefore(s, i, j) {
      CallsApart(ms, s.pokes, s.calls, i, j);
    }
    forall p: nat | p < Covered(s) ensures IsCovered(s, p) {
      var k := PokeHasItsCall(ms, s.pokes, s.calls, |s.calls|, p);
    }
    forall k: nat | k < |s.calls| ensures BeginsInTime(ms, s, k) {
      assert CallFits(ms, s.pokes, s.calls, k);
    }
  }

  /** Once closed, no call begins and no poke counts, whatever happens. */
  lemma {:induction false} NoneAfterClose(ms: Times, s: State, es: seq<Event>)
    requires Inv(ms, s) && s.d.closed
    ensures var t := Exec(ms, s, es); |t.calls| == |s.calls| && t.pokes == s.pokes && t.d.closed
    decreases |es|
  {
    if es != [] {
      NextKeeps(ms, s, es[0]);
      NoneAfterClose(ms, Next(ms, s, es[0]), es[1..]);
    }
  }

  lemma {:induction false} ClosedExactly(ms: Times, s: State, es: seq<Event>)
    ensures Exec(ms, s, es).d.closed <==> s.d.closed || Closes in es
    decreases |es|
  {
    if es != [] {
      assert es == [es[0]] + es[1..];
      assert Next(ms, s, es[0]).d.closed <==> s.d.closed || es[0] == Closes;
      ClosedExactly(ms, Next(ms, s, es[0]), es[1..]);
    }
  }

  /**
   Which pokes count: those of a run that has not been closed, each at its time. Time passes up to the first armed
   timer, and not at all past one.
   */
  lemma PokesExactly(ms: Times, es: seq<Event>, to: nat)
    ensures var s := Exec(ms, Init(), es);
            && Next(ms, s, Pokes).pokes == (if Closes in es then s.pokes else s.pokes + [s.now])
            && Next(ms, s, Passes(to)) ==
               if s.now <= to && (s.d.quiet.Some? ==> to <= s.d.quiet.value) && (s.d.max.Some? ==> to <= s.d.max.value)
               then s.(now := to) else s
  {
    ClosedExactly(ms, Init(), es);
  }

  lemma ExecTwo(ms: Times, s: State, a: Event, b: Event)
    ensures Exec(ms, s, [a, b]) == Next(ms, Next(ms, s, a), b)
  {
    var t := Next(ms, s, a);
    assert [a, b][1..] == [b] && [b][1..] == [];
    assert Exec(ms, t, [b]) == Exec(ms, Next(ms, t, b), []);
  }

  /** When the sooner of two armed timers is due, */
  function Sooner(d: Deb): nat
    requires d.quiet.Some? && d.max.Some?
  {
    Min(d.quiet.value, d.max.value)
  }

  /** and that it is. */
  function SoonerDue(d: Deb): Event
    requires d.quiet.Some? && d.max.Some?
  {
    if d.quiet.value <= d.max.value then QuietDue else MaxDue
  }

  /**
   Liveness: in any reachable open state with a poke not yet covered, either a call is owed, and the
   one in flight settling begins one that covers every poke so far; or both timers are armed, and the
   sooner of them coming due begins that call just then, or has it owed if one is in flight.
   */
  lemma PokeIsServed(ms: Times, es: seq<Event>)
    ensures var s := Exec(ms, Init(), es);
            !s.d.closed && Covered(s) < |s.pokes| ==>
              if s.d.again then
                var t := Next(ms, s, Settles);
                |t.calls| == |s.calls| + 1 && Covered(t) == |s.pokes| && t.calls[|s.calls|].begin == s.now
              else
                s.d.quiet.Some? && s.d.max.Some? && s.now <= Sooner(s.d) &&
                var t := Exec(ms, s, [Passes(Sooner(s.d)), SoonerDue(s.d)]);
                if s.d.inFlight then t.d.again && t.d.inFlight && !t.d.closed
                else
                  |t.calls| == |s.calls| + 1 && Covered(t) == |s.pokes| && t.calls[|s.calls|].begin == Sooner(s.d)
  {
    EveryRun(ms, Init(), es);
    var s := Exec(ms, Init(), es);
    if !s.d.closed && Covered(s) < |s.pokes| && !s.d.again {
      ExecTwo(ms, s, Passes(Sooner(s.d)), SoonerDue(s.d));
      assert Exec(ms, s, [Passes(Sooner(s.d)), SoonerDue(s.d)])
          == Next(ms, s.(now := Sooner(s.d)), SoonerDue(s.d));
    }
  }
}
