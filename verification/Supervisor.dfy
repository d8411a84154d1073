/**
 The supervisor of one watched source (apps/server/src/watch.ts, `watchOne`): it arms a watcher,
 closes one that fails, tries again later, replaces one whose folder was replaced, and asks for a
 sync after changes.
 */
module Supervisor {
  import opened Common
  import FolderTree
  import FolderTreeRuns

  /** Watch handles are numbered as the factory makes them. */
  type Handle = nat

  /**
   What calling the factory does. `early`: it reported a failure to `onError` before it returned,
   when the caller does not know the handle yet.
   */
  datatype Outcome = Throws | Returns(rootId: Option<nat>, early: bool)

  datatype Io = Opened(h: Handle) | Closed(h: Handle)

  /**
   The closure's variables; then what it did to the world: every open and close of a handle, the
   handles made with their folders' identities and whether each was armed `again`, those that have
   reported a failure (`dead`), and those of them that did so early.
   */
  datatype Sup = Sup(
    closed: bool, watcher: Option<Handle>, retry: bool, warned: bool,
    io: seq<Io>, made: nat, rootIds: seq<Option<nat>>, again: seq<bool>,
    dead: set<Handle>, early: set<Handle>)

  function CloseCurrent(s: Sup): Sup {
    match s.watcher
    case None => s
    case Some(h) => s.(watcher := None, io := s.io + [Closed(h)])
  }

  function Failed(s: Sup): Sup {
    if s.closed then s else CloseCurrent(s).(warned := true, retry := true)
  }

  function Armed(s: Sup, again: bool, out: Outcome): Sup {
    if s.closed then s
    else match out
      case Throws => Failed(s)
      case Returns(id, early) =>
        var h := s.made;
        s.(watcher := Some(h), io := s.io + [Opened(h)], made := h + 1,
           rootIds := s.rootIds + [id], again := s.again + [again],
           dead := if early then s.dead + {h} else s.dead,
           early := if early then s.early + {h} else s.early)
  }

  /** A handle's `onError`, once the factory returned it. */
  function Reported(s: Sup, h: Handle): Sup {
    var t := s.(dead := s.dead + {h});
    if s.watcher == Some(h) then Failed(t) else t
  }

  /** A handle's `ready` resolved: the new state, and whether the debouncer is poked. */
  function Ready(s: Sup, h: Handle): (Sup, bool) {
    if s.closed || s.watcher != Some(h) || h >= |s.again| || !s.again[h] then (s, false)
    else (s.(warned := false), true)
  }

  /** What `stat` of the root found. */
  datatype Stat = Gone | NotFolder | Folder(id: nat)

  /** `fire` after its `stat`, begun when `w` was current: the new state, and whether to ask for a sync. */
  function StatDone(s: Sup, w: Handle, found: Stat, out: Outcome): (Sup, bool) {
    if s.closed || s.watcher != Some(w) then (s, false)
    else match found
      case Gone => (Failed(s), false)
      case NotFolder => (Failed(s), false)
      case Folder(id) =>
        if w < |s.rootIds| && s.rootIds[w].Some? && s.rootIds[w].value != id then
          (Armed(CloseCurrent(s), true, out), false)
        else (s, true)
  }

  function Stopped(s: Sup): Sup {
    CloseCurrent(s.(closed := true, retry := false))
  }

  class Source {
    var closed: bool
    var watcher: Option<Handle>
    var retry: bool
    var warned: bool
    var io: seq<Io>
    var made: nat
    var rootIds: seq<Option<nat>>
    var again: seq<bool>
    var dead: set<Handle>
    var early: set<Handle>

    function Value(): Sup
      reads this
    {
      Sup(closed, watcher, retry, warned, io, made, rootIds, again, dead, early)
    }

    constructor (out: Outcome)
      ensures Value() == Armed(Nothing(), false, out)
    {
      closed, watcher, retry, warned := false, None, false, false;
      io, made, rootIds, again, dead, early := [], 0, [], [], {}, {};
      new;
      Arm(false, out);
    }

    method CloseWatcher()
      modifies this
      ensures Value() == CloseCurrent(old(Value()))
    {
      if watcher.Some? {
        io := io + [Closed(watcher.value)];
        watcher := None;
      }
    }

    method Fail()
      modifies this
      ensures Value() == Failed(old(Value()))
    {
      if closed {
        return;
      }
      CloseWatcher();
      if !warned {
        warned := true;
      }
      retry := true;
    }

    method Arm(isAgain: bool, out: Outcome)
      modifies this
      ensures Value() == Armed(old(Value()), isAgain, out)
    {
      if closed {
        return;
      }
      match out
      case Throws =>
        Fail();
      case Returns(id, isEarly) =>
        var w := made;
        made := made + 1;
        io := io + [Opened(w)];
        rootIds, again := rootIds + [id], again + [isAgain];
        if isEarly {
          // `w` is not assigned yet: the report is ignored.
          dead, early := dead + {w}, early + {w};
        }
        watcher := Some(w);
    }

    method OnError(h: Handle)
      modifies this
      ensures Value() == Reported(old(Value()), h)
    {
      dead := dead + {h};
      if watcher == Some(h) {
        Fail();
      }
    }

    method OnReady(h: Handle) returns (poke: bool)
      modifies this
      ensures (Value(), poke) == Ready(old(Value()), h)
    {
      if closed || watcher != Some(h) {
        return false;
      }
      if h >= |again| || !again[h] {
        return false;
      }
      warned := false;
      return true;
    }

    method OnStat(w: Handle, found: Stat, out: Outcome) returns (sync: bool)
      modifies this
      ensures (Value(), sync) == StatDone(old(Value()), w, found, out)
    {
      if closed || watcher != Some(w) {
        return false;
      }
      if found.Gone? || found.NotFolder? {
        Fail();
        return false;
      }
      if w < |rootIds| && rootIds[w].Some? && rootIds[w].value != found.id {
        CloseWatcher();
        Arm(true, out);
        return false;
      }
      return true;
    }

    method Close()
      modifies this
      ensures Value() == Stopped(old(Value()))
    {
      closed := true;
      retry := false;
      CloseWatcher();
    }
  }

  function Nothing(): Sup {
    Sup(false, None, false, false, [], 0, [], [], {}, {})
  }

  // --- Runs -------------------------------------------------------------------------------------

  /** A sync asked for: by the `fire` of handle `w`, the folder's identity being `id`. */
  datatype Sync = Sync(w: Handle, id: nat)

  /** `stats` are the calls of `fire` waiting for their `stat`, each with the handle it began with. */
  datatype State = State(sup: Sup, stats: map<nat, Handle>, nextStat: nat, pokes: nat, syncs: seq<Sync>)

  datatype Event =
    | Changes
    | Reports(h: Handle)
    | BecomesReady(h: Handle)
    | RetryDue(out: Outcome)
    | Fires
    | StatReturns(k: nat, found: Stat, out: Outcome)
    | Closes

  /** `watchOne` was called, its factory doing `out`. */
  function Init(out: Outcome): State {
    State(Armed(Nothing(), false, out), map[], 0, 0, [])
  }

  /** One event; one that cannot happen now changes nothing. */
  function Next(s: State, e: Event): State {
    match e
    case Changes => if s.sup.closed || s.sup.watcher == None then s else s.(pokes := s.pokes + 1)
    case Reports(h) => if h >= s.sup.made then s else s.(sup := Reported(s.sup, h))
    case BecomesReady(h) =>
      var (sup, poke) := Ready(s.sup, h);
      s.(sup := sup, pokes := if poke then s.pokes + 1 else s.pokes)
    case RetryDue(out) => if !s.sup.retry then s else s.(sup := Armed(s.sup.(retry := false), true, out))
    case Fires =>
      if s.sup.closed || s.sup.watcher == None then s
      else s.(stats := s.stats[s.nextStat := s.sup.watcher.value], nextStat := s.nextStat + 1)
    case StatReturns(k, found, out) =>
      if k !in s.stats then s else
      var w := s.stats[k];
      var (sup, sync) := StatDone(s.sup, w, found, out);
      s.(sup := sup, stats := s.stats - {k}, syncs := if sync then s.syncs + [Sync(w, found.id)] else s.syncs)
    case Closes => s.(sup := Stopped(s.sup))
  }

  function Exec(s: State, es: seq<Event>): State
    decreases |es|
  {
    if es == [] then s else Exec(Next(s, es[0]), es[1..])
  }

  /** A run of one event more goes on from where the run was. */
  lemma {:induction false} RunGoesOn(s: State, es: seq<Event>, e: Event)
    ensures Exec(s, []) == s && Exec(s, es + [e]) == Next(Exec(s, es), e)
    decreases |es|
  {
    hide Next;
    if es == [] {
      assert [] + [e] == [e] && [e][1..] == [];
    } else {
      assert (es + [e])[1..] == es[1..] + [e];
      RunGoesOn(Next(s, es[0]), es[1..], e);
    }
  }

  /** The opens and closes so far: handle 0 opened, closed, then handle 1, each closed before the next. */
  function OneByOne(made: nat, current: bool): seq<Io> {
    if made == 0 then [] else
    OneByOne(made - 1, false) + [Opened(made - 1)] + if current then [] else [Closed(made - 1)]
  }

  ghost predicate SupInv(s: Sup) {
    && |s.rootIds| == |s.again| == s.made
    && (s.watcher.Some? ==> s.made > 0 && s.watcher.value == s.made - 1)
    && s.io == OneByOne(s.made, s.watcher.Some?)
    // Exactly one of a current handle and a pending retry, until closed; then neither.
    && (if s.closed then s.watcher == None && !s.retry else s.watcher.Some? != s.retry)
    && (s.retry ==> s.warned)
    // A current handle has failed exactly when it said so before the factory returned it.
    && (s.watcher.Some? ==> (s.watcher.value in s.dead <==> s.watcher.value in s.early))
    && (forall h :: h in s.early || h in s.dead ==> h < s.made)
  }

  ghost predicate Inv(s: State) {
    && SupInv(s.sup)
    && (forall k :: k in s.stats ==> s.stats[k] < s.sup.made && k < s.nextStat)
    && (forall i :: 0 <= i < |s.syncs| ==>
          var y := s.syncs[i];
          y.w < s.sup.made && (s.sup.rootIds[y.w] == None || s.sup.rootIds[y.w] == Some(y.id)))
  }

  /** Arming keeps the books when no handle is current and no retry is pending. */
  lemma ArmKeeps(s: Sup, again: bool, out: Outcome)
    requires s.watcher == None && !s.retry && (!s.closed ==> SupInv(s.(retry := true, warned := true)))
    requires s.closed ==> SupInv(s)
    ensures SupInv(Armed(s, again, out))
  {
    if !s.closed && out.Returns? {
      assert OneByOne(s.made + 1, true) == OneByOne(s.made, false) + [Opened(s.made)];
    }
  }

  lemma CloseKeeps(s: Sup)
    requires SupInv(s)
    ensures SupInv(Failed(s)) && SupInv(Stopped(s))
    ensures !s.closed ==> SupInv(CloseCurrent(s).(retry := true, warned := true))
  {
    if s.watcher.Some? {
      assert OneByOne(s.made, false) == OneByOne(s.made, true) + [Closed(s.made - 1)];
    }
  }

  lemma ReportKeeps(s: Sup, h: Handle)
    requires SupInv(s) && h < s.made
    ensures SupInv(Reported(s, h)) && Reported(s, h).made == s.made && Reported(s, h).rootIds == s.rootIds
  {
    if s.watcher == Some(h) {
      var t := s.(dead := s.dead + {h}, early := s.early + {h});
      CloseKeeps(t);
      assert Failed(t).(early := s.early) == Reported(s, h);
    }
  }

  lemma StatKeeps(s: Sup, w: Handle, found: Stat, out: Outcome)
    requires SupInv(s)
    ensures var (t, sync) := StatDone(s, w, found, out);
            && SupInv(t) && s.made <= t.made && s.rootIds <= t.rootIds
            && (sync ==> t == s && !s.closed && s.watcher == Some(w) && found.Folder? && w < s.made
                         && (s.rootIds[w] == None || s.rootIds[w] == Some(found.id)))
  {
    CloseKeeps(s);
    if !s.closed && s.watcher == Some(w) && found.Folder? {
      ArmKeeps(CloseCurrent(s), true, out);
    }
  }

  lemma NextKeeps(s: State, e: Event)
    requires Inv(s)
    ensures Inv(Next(s, e))
  {
    match e
    case Reports(h) => if h < s.sup.made { ReportKeeps(s.sup, h); }
    case RetryDue(out) => if s.sup.retry { ArmKeeps(s.sup.(retry := false), true, out); }
    case StatReturns(k, found, out) =>
      if k in s.stats {
        hide SupInv, StatDone;
        StatKeeps(s.sup, s.stats[k], found, out);
        var t := Next(s, e);
        assert forall h :: 0 <= h < |s.sup.rootIds| ==> t.sup.rootIds[h] == s.sup.rootIds[h];
      }
    case Closes => CloseKeeps(s.sup);
    case _ =>
  }

  lemma InitFits(out: Outcome)
    ensures Inv(Init(out))
  {
    if out.Returns? {
      assert OneByOne(1, true) == OneByOne(0, false) + [Opened(0)];
    }
  }

  /**
   In every run an open supervisor has exactly one of a current handle and a pending retry, every
   handle is closed before the next is opened, and each sync was asked for by a handle whose
   folder's identity still matched.
   */
  lemma {:induction false} EveryRun(s: State, es: seq<Event>)
    requires Inv(s)
    ensures Inv(Exec(s, es))
    decreases |es|
  {
    if es != [] {
      NextKeeps(s, es[0]);
      EveryRun(Next(s, es[0]), es[1..]);
    }
  }

  /** The same, said of every run from the start; a sync is asked for by the current handle alone. */
  lemma HandlesOfEveryRun(out: Outcome, es: seq<Event>, e: Event)
    ensures var s := Exec(Init(out), es);
            && (!s.sup.closed ==> s.sup.watcher.Some? != s.sup.retry)
            && (s.sup.closed ==> s.sup.watcher == None && !s.sup.retry)
            && s.sup.io == OneByOne(s.sup.made, s.sup.watcher.Some?)
    ensures var s := Exec(Init(out), es);
            var t := Next(s, e);
            t.syncs != s.syncs ==>
              && |t.syncs| == |s.syncs| + 1 && !s.sup.closed
              && var y := t.syncs[|s.syncs|];
                 s.sup.watcher == Some(y.w) && y.w < |s.sup.rootIds|
                 && (s.sup.rootIds[y.w] == None || s.sup.rootIds[y.w] == Some(y.id))
  {
    InitFits(out);
    EveryRun(Init(out), es);
    var s := Exec(Init(out), es);
    if e.StatReturns? && e.k in s.stats {
      StatKeeps(s.sup, s.stats[e.k], e.found, e.out);
    }
  }

  // --- What changes is synced -------------------------------------------------------------------------

  /** The folder found is the one handle `w` was made for, as far as its factory said. */
  predicate IsOurs(s: State, w: Handle, found: Stat) {
    found.Folder? && w < |s.sup.rootIds| && (s.sup.rootIds[w] == None || s.sup.rootIds[w] == Some(found.id))
  }

  /** Every handle but the one that the first call of the factory made is made again. */
  ghost predicate AgainFits(out: Outcome, s: State) {
    && (out.Returns? ==> s.sup.made > 0)
    && (forall h :: 0 <= h < |s.sup.again| ==> (s.sup.again[h] <==> h > 0 || out == Throws))
  }

  lemma {:induction false} AgainKept(out: Outcome, s: State, es: seq<Event>)
    requires Inv(s) && AgainFits(out, s)
    ensures Inv(Exec(s, es)) && AgainFits(out, Exec(s, es))
    decreases |es|
  {
    if es != [] {
      NextKeeps(s, es[0]);
      AgainStep(out, s, es[0]);
      hide Next, Inv, AgainFits;
      AgainKept(out, Next(s, es[0]), es[1..]);
    }
  }

  lemma AgainStep(out: Outcome, s: State, e: Event)
    requires Inv(s) && AgainFits(out, s)
    ensures AgainFits(out, Next(s, e))
  {
    AgainGrows(s, e);
    hide Next, OneByOne;
  }

  lemma AgainGrows(s: State, e: Event)
    ensures var t := Next(s, e);
            s.sup.made <= t.sup.made && (t.sup.again == s.sup.again || t.sup.again == s.sup.again + [true])
  {
  }

  /**
   Exactly which steps of a run ask for a sync, and for which folder: those of an open supervisor in which the
   `stat` of its current handle finds the folder that handle was made for.
   */
  lemma SyncsExactly(out: Outcome, es: seq<Event>, e: Event)
    ensures var s := Exec(Init(out), es);
            Next(s, e).syncs ==
              if e.StatReturns? && e.k in s.stats && !s.sup.closed && s.sup.watcher == Some(s.stats[e.k])
                && IsOurs(s, s.stats[e.k], e.found)
              then s.syncs + [Sync(s.stats[e.k], e.found.id)] else s.syncs
  {
    InitFits(out);
    EveryRun(Init(out), es);
  }

  /**
   Exactly which steps poke the debouncer, once each: while a handle is current and the supervisor open, each
   change, and that handle's readiness unless it is the one made by the first call.
   */
  lemma PokesExactly(out: Outcome, es: seq<Event>, e: Event)
    ensures var s := Exec(Init(out), es);
            Next(s, e).pokes == s.pokes +
              if !s.sup.closed && s.sup.watcher.Some?
                && var w := s.sup.watcher.value;
                   e.Changes? || (e == BecomesReady(w) && (w > 0 || out == Throws))
              then 1 else 0
  {
    InitFits(out);
    AgainKept(out, Init(out), es);
  }

  /** The step ends the current handle of an open supervisor. */
  predicate EndsHandle(s: State, e: Event) {
    && !s.sup.closed && s.sup.watcher.Some?
    && var w := s.sup.watcher.value;
       || e == Closes || e == Reports(w)
       || (e.StatReturns? && e.k in s.stats && s.stats[e.k] == w && !IsOurs(s, w, e.found))
  }

  /** The step calls the factory, which returns a handle: a retry, or the current one's folder was replaced. */
  predicate MakesHandle(s: State, e: Event) {
    match e
    case RetryDue(out) => !s.sup.closed && s.sup.retry && out.Returns?
    case StatReturns(_, found, out) => EndsHandle(s, e) && found.Folder? && out.Returns?
    case _ => false
  }

  /** What it comes to: opens and closes, the current handle, and what is pending. */
  ghost predicate HandlesMove(s: State, e: Event, t: State) {
    && t.sup.io == s.sup.io + (if EndsHandle(s, e) then [Closed(s.sup.watcher.value)] else [])
                   + (if MakesHandle(s, e) then [Opened(s.sup.made)] else [])
    && t.sup.watcher == (if MakesHandle(s, e) then Some(s.sup.made)
                         else if EndsHandle(s, e) then None else s.sup.watcher)
    && t.sup.closed == (s.sup.closed || e == Closes)
    && t.sup.retry == (!t.sup.closed && t.sup.watcher == None)
    && (e.Reports? && e.h < s.sup.made ==> e.h in t.sup.dead)
  }

  lemma StatMoves(s: State, e: Event)
    requires Inv(s) && e.StatReturns?
    ensures HandlesMove(s, e, Next(s, e))
  {
    hide OneByOne;
  }

  lemma StepMoves(s: State, e: Event)
    requires Inv(s) && !e.StatReturns?
    ensures HandlesMove(s, e, Next(s, e))
  {
    hide OneByOne, StatDone, IsOurs;
  }

  /**
   Exactly which steps of a run close the current handle and which make one; what is pending then follows: an open
   supervisor with no handle is to be tried again. A handle's report is remembered whether it is current or not.
   */
  lemma HandlesExactly(out: Outcome, es: seq<Event>, e: Event)
    ensures var s := Exec(Init(out), es); HandlesMove(s, e, Next(s, e))
  {
    hide *;
    InitFits(out);
    EveryRun(Init(out), es);
    if e.StatReturns? {
      StatMoves(Exec(Init(out), es), e);
    } else {
      StepMoves(Exec(Init(out), es), e);
    }
  }

  predicate Awaited(s: State, k: nat, w: Handle) {
    k in s.stats && s.stats[k] == w
  }

  lemma {:induction false} StatWaits(s: State, es: seq<Event>, k: nat, w: Handle)
    requires Inv(s) && Awaited(s, k, w)
    requires forall i :: 0 <= i < |es| && es[i].StatReturns? ==> es[i].k != k
    ensures var t := Exec(s, es); Inv(t) && Awaited(t, k, w) && s.sup.rootIds <= t.sup.rootIds
    decreases |es|
  {
    if es != [] {
      NextKeeps(s, es[0]);
      assert forall i :: 0 <= i < |es| - 1 ==> es[1..][i] == es[i + 1];
      StatWaitsStep(s, es[0], k, w);
      hide Next, Inv, Awaited;
      StatWaits(Next(s, es[0]), es[1..], k, w);
    }
  }

  lemma StatWaitsStep(s: State, e: Event, k: nat, w: Handle)
    requires Inv(s) && Awaited(s, k, w) && (e.StatReturns? ==> e.k != k)
    ensures Awaited(Next(s, e), k, w) && s.sup.rootIds <= Next(s, e).sup.rootIds
  {
    hide OneByOne;
  }

  /** `u` comes of watching the folder with a new handle: its readiness pokes. */
  ghost predicate WatchesAgain(s: State, u: State) {
    u.sup.watcher == Some(s.sup.made) && Next(u, BecomesReady(s.sup.made)).pokes == s.pokes + 1
  }

  /**
   Once the debouncer fires, whatever comes before its `stat` returns: if the handle is still current then, that
   asks for a sync of the folder if it is the same; if it is another one the handle is closed and a new one made
   for it; and if that fails or there is no folder, the retry makes one. A new handle's readiness pokes again: so
   no change is forgotten while a handle can be made.
   */
  lemma FireLeadsOn(s: State, es: seq<Event>, w: Handle, found: Stat, out: Outcome)
    requires Inv(s) && !s.sup.closed && s.sup.watcher == Some(w)
    requires forall i :: 0 <= i < |es| && es[i].StatReturns? ==> es[i].k != s.nextStat
    ensures var t := Exec(Next(s, Fires), es);
            var u := Next(t, StatReturns(s.nextStat, found, out));
            !t.sup.closed && t.sup.watcher == Some(w) ==>
              if IsOurs(s, w, found) then u.syncs == t.syncs + [Sync(w, found.id)] && u.sup == t.sup
              else if found.Folder? && out.Returns? then WatchesAgain(t, u) && Closed(w) in u.sup.io
              else
                && u.sup.watcher == None && u.sup.retry && Closed(w) in u.sup.io
                && forall id, early :: WatchesAgain(t, Next(u, RetryDue(Returns(id, early))))
  {
    NextKeeps(s, Fires);
    StatWaits(Next(s, Fires), es, s.nextStat, w);
    var t := Exec(Next(s, Fires), es);
    hide Exec, OneByOne;
    assert Awaited(t, s.nextStat, w) && Inv(t);
    if !t.sup.closed && t.sup.watcher == Some(w) {
      LeadsOn(t, s.nextStat, w, found, out);
      hide Next, WatchesAgain, Inv;
      assert w < |s.sup.rootIds| && t.sup.rootIds[w] == s.sup.rootIds[w];
    }
  }

  lemma LeadsOn(t: State, k: nat, w: Handle, found: Stat, out: Outcome)
    requires Inv(t) && Awaited(t, k, w) && !t.sup.closed && t.sup.watcher == Some(w)
    ensures var u := Next(t, StatReturns(k, found, out));
            if IsOurs(t, w, found) then u.syncs == t.syncs + [Sync(w, found.id)] && u.sup == t.sup
            else if found.Folder? && out.Returns? then WatchesAgain(t, u) && Closed(w) in u.sup.io
            else
              && u.sup.watcher == None && u.sup.retry && Closed(w) in u.sup.io
              && forall id, early :: WatchesAgain(t, Next(u, RetryDue(Returns(id, early))))
  {
    hide OneByOne;
  }

  /** What a handle that is not current (any more) reports, or its readiness, changes nothing. */
  lemma StaleChangesNothing(s: State, h: Handle)
    requires s.sup.watcher != Some(h)
    ensures Next(s, BecomesReady(h)) == s
    ensures Next(s, Reports(h)).(sup := s.sup) == s && Next(s, Reports(h)).sup.(dead := s.sup.dead) == s.sup
  {
  }

  /** Once closed: no handle, no retry, no poke, no sync and no new handle, whatever happens. */
  lemma {:induction false} NothingAfterClose(s: State, es: seq<Event>)
    requires Inv(s) && s.sup.closed
    ensures var t := Exec(s, es);
            t.sup.closed && t.sup.io == s.sup.io && t.pokes == s.pokes && t.syncs == s.syncs
    decreases |es|
  {
    if es != [] {
      NextKeeps(s, es[0]);
      NothingAfterClose(Next(s, es[0]), es[1..]);
    }
  }

  /** The source is watched, or will be tried again. */
  predicate Served(s: State) {
    (s.sup.watcher.Some? && s.sup.watcher.value !in s.sup.dead) || s.sup.retry
  }

  /**
   In every reachable open state the source is watched by a handle that has not failed, or tried
   again later, if and only if the current handle (if any) did not fail before its factory returned.
   */
  lemma ServedExactly(out: Outcome, es: seq<Event>)
    ensures var s := Exec(Init(out), es);
            !s.sup.closed ==>
              (Served(s) <==> (s.sup.watcher.Some? ==> s.sup.watcher.value !in s.sup.early))
  {
    InitFits(out);
    EveryRun(Init(out), es);
  }

  predicate OutcomeOf(e: Event, out: Outcome) {
    (e.RetryDue? && e.out == out) || (e.StatReturns? && e.out == out)
  }

  /** So a factory that never reports before it returns leaves no source unserved. */
  lemma {:induction false} ServedByLateReporters(s: State, es: seq<Event>)
    requires Inv(s) && s.sup.early == {}
    requires forall i, id :: 0 <= i < |es| ==> !OutcomeOf(es[i], Returns(id, true))
    ensures var t := Exec(s, es); t.sup.early == {} && (!t.sup.closed ==> Served(t))
    decreases |es|
  {
    if es != [] {
      NextKeeps(s, es[0]);
      var t := Next(s, es[0]);
      assert t.sup.early == {} by {
        match es[0]
        case RetryDue(out) => assert out.Returns? ==> !OutcomeOf(es[0], Returns(out.rootId, true));
        case StatReturns(_, _, out) => assert out.Returns? ==> !OutcomeOf(es[0], Returns(out.rootId, true));
        case _ =>
      }
      forall i, id | 0 <= i < |es[1..]| ensures !OutcomeOf(es[1..][i], Returns(id, true)) {
        assert !OutcomeOf(es[i + 1], Returns(id, true));
      }
      ServedByLateReporters(t, es[1..]);
    }
  }

  /** The outcome of calling the folder-tree factory in a state of its runs. */
  function TreeOutcome(limit: nat, f: FolderTreeRuns.State, root: FolderTree.Path, dev: nat, id: nat,
                       os: FolderTree.OsWatch): Outcome
  {
    var g := FolderTreeRuns.Next(limit, f, FolderTreeRuns.Start(root, dev, id, os));
    if |g.trees| == |f.trees| then Throws else Returns(Some(id), g.trees[|f.trees|].errors > 0)
  }

  lemma UsedWithin(limit: nat, es: seq<FolderTreeRuns.Event>)
    ensures FolderTreeRuns.Exec(limit, FolderTreeRuns.Init(), es).pool.used <= limit
  {
    FolderTreeRuns.WatchesOfEveryRun(limit, es);
  }

  lemma EarlyExactly(limit: nat, before: seq<FolderTreeRuns.Event>, root: FolderTree.Path, dev: nat, id: nat,
                     os: FolderTree.OsWatch)
    ensures var f := FolderTreeRuns.Exec(limit, FolderTreeRuns.Init(), before);
            TreeOutcome(limit, f, root, dev, id, os) == Returns(Some(id), true) <==> f.pool.used == limit
    ensures var f := FolderTreeRuns.Exec(limit, FolderTreeRuns.Init(), before);
            var out := TreeOutcome(limit, f, root, dev, id, os); out == Throws || out.rootId == Some(id)
  {
    UsedWithin(limit, before);
    var f := FolderTreeRuns.Exec(limit, FolderTreeRuns.Init(), before);
    var g := FolderTreeRuns.Next(limit, f, FolderTreeRuns.Start(root, dev, id, os));
    assert f.pool.used >= limit ==> g.trees[|f.trees|].errors == 1;
  }

  /** `e` calls the factory, which does `out`: a retry, or the replacement of a folder. */
  predicate Rearms(s: State, e: Event, out: Outcome) {
    match e
    case RetryDue(o) => o == out && s.sup.retry
    case StatReturns(k, found, o) =>
      && o == out && k in s.stats && s.sup.watcher == Some(s.stats[k]) && found.Folder?
      && s.stats[k] < |s.sup.rootIds| && s.sup.rootIds[s.stats[k]].Some? && s.sup.rootIds[s.stats[k]].value != found.id
    case _ => false
  }

  /**
   The folder-tree factory does report early: exactly when the watch budget is used up at the moment
   it is called, and whether it is called first, again or for a replaced folder, the source is then
   not served.
   */
  lemma StrandedExactly(limit: nat, before: seq<FolderTreeRuns.Event>, root: FolderTree.Path, dev: nat, id: nat,
                        os: FolderTree.OsWatch, s: State, e: Event)
    ensures var f := FolderTreeRuns.Exec(limit, FolderTreeRuns.Init(), before);
            Served(Init(TreeOutcome(limit, f, root, dev, id, os))) <==> f.pool.used < limit
    ensures var f := FolderTreeRuns.Exec(limit, FolderTreeRuns.Init(), before);
            Inv(s) && !s.sup.closed && Rearms(s, e, TreeOutcome(limit, f, root, dev, id, os)) ==>
              (Served(Next(s, e)) <==> f.pool.used < limit)
  {
    UsedWithin(limit, before);
    EarlyExactly(limit, before, root, dev, id, os);
    hide FolderTreeRuns.Exec, FolderTreeRuns.Next, TreeOutcome;
  }

  /** An open supervisor whose current handle failed before its factory returned it, for the folder `id`. */
  ghost predicate Stranded(s: State, h: Handle, id: nat) {
    Inv(s) && !s.sup.closed && s.sup.watcher == Some(h) && h in s.sup.early && s.sup.rootIds[h] == Some(id)
  }

  /** Exactly what frees it: a `stat` that no longer finds the folder, if the factory does not fail early again. */
  lemma FreedExactly(s: State, h: Handle, id: nat, e: Event)
    requires Stranded(s, h, id) && e != Reports(h)
    ensures !Served(s)
    ensures Served(Next(s, e)) <==>
            && e.StatReturns? && e.k in s.stats && s.stats[e.k] == h && e.found != Folder(id)
            && (e.found.Folder? ==> e.out == Throws || !e.out.early)
    ensures !Served(Next(s, e)) && !e.Closes? && (e.StatReturns? ==> e.found == Folder(id)) ==>
        Stranded(Next(s, e), h, id)
  {
    NextKeeps(s, e);
  }

  /** A step of the folder trees, or one of the supervisor's own. */
  datatype Step = OfTrees(t: FolderTreeRuns.Event) | Own(e: Event)

  datatype Both = Both(s: State, f: FolderTreeRuns.State)

  /** Handle `h` is tree `ix`: it reports when that tree does, and only then. */
  function Together(limit: nat, x: Both, ix: nat, h: Handle, step: Step): Both {
    match step
    case OfTrees(e) =>
      var g := FolderTreeRuns.Next(limit, x.f, e);
      var reports := ix < |x.f.trees| && ix < |g.trees| && g.trees[ix].errors > x.f.trees[ix].errors;
      Both(if reports then Next(x.s, Reports(h)) else x.s, g)
    case Own(e) => if e == Reports(h) then x else x.(s := Next(x.s, e))
  }

  function ExecTogether(limit: nat, x: Both, ix: nat, h: Handle, steps: seq<Step>): Both
    decreases |steps|
  {
    if steps == [] then x else ExecTogether(limit, Together(limit, x, ix, h, steps[0]), ix, h, steps[1..])
  }

  /** Nobody closes the supervisor, and its folder stays the one it is. */
  ghost predicate SameFolder(id: nat, steps: seq<Step>) {
    forall i :: 0 <= i < |steps| && steps[i].Own? ==>
      !steps[i].e.Closes? && (steps[i].e.StatReturns? ==> steps[i].e.found == Folder(id))
  }

  lemma {:induction false} StaysStranded(limit: nat, x: Both, ix: nat, h: Handle, id: nat, steps: seq<Step>)
    requires Stranded(x.s, h, id) && SameFolder(id, steps)
    requires ix < |x.f.trees| && x.f.trees[ix].closed && x.f.trees[ix].watchers == map[]
    ensures var y := ExecTogether(limit, x, ix, h, steps); Stranded(y.s, h, id) && !Served(y.s)
    decreases |steps|
  {
    hide Stranded, FolderTreeRuns.Next, Next, Served;
    if steps == [] {
      FreedExactly(x.s, h, id, Fires);
    } else {
      match steps[0] {
        case OfTrees(e) =>
          FolderTreeRuns.StaysClosed(limit, x.f, ix, e);
        case Own(e) =>
          assert !e.Closes? && (e.StatReturns? ==> e.found == Folder(id));
          if e != Reports(h) {
            FreedExactly(x.s, h, id, e);
          }
      }
      assert forall i :: 0 <= i < |steps| - 1 ==> steps[1..][i] == steps[i + 1];
      StaysStranded(limit, Together(limit, x, ix, h, steps[0]), ix, h, id, steps[1..]);
    }
  }

  /**
   A source armed while the watch budget is used up stays unserved for good: whatever the trees of all
   sources and the supervisor then do, free watches or not, while its folder is the same one.
   */
  lemma StrandedForGood(limit: nat, before: seq<FolderTreeRuns.Event>, root: FolderTree.Path, dev: nat, id: nat,
                        os: FolderTree.OsWatch, steps: seq<Step>)
    requires SameFolder(id, steps)
    ensures var f := FolderTreeRuns.Exec(limit, FolderTreeRuns.Init(), before);
            var s := Init(TreeOutcome(limit, f, root, dev, id, os));
            var g := FolderTreeRuns.Next(limit, f, FolderTreeRuns.Start(root, dev, id, os));
            f.pool.used == limit ==> !Served(ExecTogether(limit, Both(s, g), |f.trees|, 0, steps).s)
  {
    var f := FolderTreeRuns.Exec(limit, FolderTreeRuns.Init(), before);
    var s := Init(TreeOutcome(limit, f, root, dev, id, os));
    var g := FolderTreeRuns.Next(limit, f, FolderTreeRuns.Start(root, dev, id, os));
    if f.pool.used == limit {
      EarlyExactly(limit, before, root, dev, id, os);
      InitFits(TreeOutcome(limit, f, root, dev, id, os));
      assert g.trees[|f.trees|].closed && g.trees[|f.trees|].watchers == map[];
      assert Stranded(s, 0, id);
      hide FolderTreeRuns.Exec, FolderTreeRuns.Next, TreeOutcome, Init, ExecTogether;
      StaysStranded(limit, Both(s, g), |f.trees|, 0, id, steps);
    }
  }

  /** A concrete input: no watch budget at all. */
  lemma StrandedExample()
    ensures var f := FolderTreeRuns.Init();
            var s := Init(TreeOutcome(0, f, ["srv"], 1, 7, FolderTree.Opens));
            !Served(s) && !s.sup.retry && s.sup.watcher == Some(0)
  {
  }
}
