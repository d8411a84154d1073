/**
 One run of a mailbox (apps/server/src/mail-in.ts, `runMailbox`): its unread messages, oldest first,
 fifty at most; each is taken, refused, or left for the next run, five times at most.
 */
module MailboxRun {
  import opened Common

  const RUN_MAX: nat := 50
  const TRIES_MAX: nat := 5

  type Uid = nat

  /** What `takeMessage` makes of a message: it records it or its refusal, or it throws. */
  datatype Take = Taken | Refused | TakeThrows

  /**
   What the mail server and the database do for one message: its size (None: gone), whether it can
   be fetched still, what taking it comes to, and whether recording a refusal and marking it work
   (one that does not ends the run).
   */
  datatype Turn = Turn(size: Option<nat>, there: bool, take: Take, denyWorks: bool, doneWorks: bool, sessionWorks: bool)

  datatype Report = Report(taken: nat, refused: nat, deferred: nat)

  /** What went out, in order: a message recorded (taken or refused), and a message marked read. */
  datatype Act = Records(uid: Uid, refused: bool) | Marks(uid: Uid, flagged: bool)

  datatype State = State(tries: map<Uid, nat>, report: Report, acts: seq<Act>)

  function TriesOf(tries: map<Uid, nat>, uid: Uid): nat {
    if uid in tries then tries[uid] else 0
  }

  /** How one message's turn ends: passed over, deferred, recorded, or the run failed. */
  datatype Fate = Gone | Deferred | Recorded(refused: bool) | RunFails

  function FateOf(tries: nat, t: Turn, maxBytes: nat): Fate {
    if !t.sessionWorks then RunFails
    else if t.size == None then Gone
    else if t.size.value > maxBytes || tries >= TRIES_MAX then (if t.denyWorks then Recorded(true) else RunFails)
    else if !t.there then Gone
    else match t.take case Taken => Recorded(false) case Refused => Recorded(true) case TakeThrows => Deferred
  }

  /** One message's turn; false when it ends the run. */
  function OneTurn(s: State, uid: Uid, t: Turn, maxBytes: nat): (State, bool) {
    match FateOf(TriesOf(s.tries, uid), t, maxBytes)
    case RunFails => (s, false)
    case Gone => (s, true)
    case Deferred =>
      (State(s.tries[uid := TriesOf(s.tries, uid) + 1], s.report.(deferred := s.report.deferred + 1), s.acts), true)
    case Recorded(refused) =>
      var recorded := s.(acts := s.acts + [Records(uid, refused)]);
      if !t.doneWorks then (recorded, false)
      else
        (State(s.tries - {uid},
               if refused then s.report.(refused := s.report.refused + 1) else s.report.(taken := s.report.taken + 1),
               recorded.acts + [Marks(uid, refused)]), true)
  }

  /** The turns of `uids`, in order, until one ends the run or the server is stopping. */
  function Turns(s: State, uids: seq<Uid>, world: Uid -> Turn, stopAt: nat, maxBytes: nat): (State, bool)
    decreases |uids|
  {
    if uids == [] then (s, true)
    else if stopAt == 0 then (s, false)
    else
      var (t, goes) := OneTurn(s, uids[0], world(uids[0]), maxBytes);
      if goes then Turns(t, uids[1..], world, stopAt - 1, maxBytes) else (t, false)
  }

  /** Only what is still there to read is remembered as having failed. */
  function Remembered(tries: map<Uid, nat>, all: seq<Uid>): map<Uid, nat> {
    map uid | uid in tries && uid in all :: tries[uid]
  }

  /** A run; false when it failed or was stopped. */
  function Run(tries: map<Uid, nat>, all: seq<Uid>, world: Uid -> Turn, stopAt: nat, maxBytes: nat): (State, bool) {
    Turns(State(Remembered(tries, all), Report(0, 0, 0), []), all[..Min(RUN_MAX, |all|)], world, stopAt, maxBytes)
  }

  /** What a mailbox's schedule keeps between runs, and what one run reports. */
  class Mailbox {
    var tries: map<Uid, nat>
    var report: Report
    var acts: seq<Act>

    constructor (tries: map<Uid, nat>)
      ensures Value() == State(tries, Report(0, 0, 0), [])
    {
      this.tries := tries;
      report, acts := Report(0, 0, 0), [];
    }

    function Value(): State
      reads this
    {
      State(tries, report, acts)
    }

    /** What is no longer unread is forgotten. */
    method Forget(all: seq<Uid>)
      modifies this
      ensures Value() == old(Value()).(tries := Remembered(old(tries), all))
    {
      var left := tries.Keys;
      while left != {}
        invariant left <= old(tries).Keys && report == old(report) && acts == old(acts)
        invariant tries == map uid | uid in old(tries) && (uid in left || uid in all) :: old(tries)[uid]
        decreases left
      {
        var uid :| uid in left;
        if uid !in all {
          tries := tries - {uid};
        }
        left := left - {uid};
      }
    }

    /** `takeMessage` and what is around it, for one message. */
    method Take(uid: Uid, t: Turn, maxBytes: nat) returns (goes: bool)
      modifies this
      ensures (Value(), goes) == OneTurn(old(Value()), uid, t, maxBytes)
    {
      if !t.sessionWorks {
        return false;
      }
      if t.size == None {
        return true;
      }
      var refused := true;
      if t.size.value > maxBytes || (if uid in tries then tries[uid] else 0) >= TRIES_MAX {
        if !t.denyWorks {
          return false;
        }
      } else {
        if !t.there {
          return true;
        }
        if t.take.TakeThrows? {
          report := report.(deferred := report.deferred + 1);
          tries := tries[uid := (if uid in tries then tries[uid] else 0) + 1];
          return true;
        }
        refused := t.take.Refused?;
      }
      acts := acts + [Records(uid, refused)];
      if !t.doneWorks {
        return false;
      }
      acts := acts + [Marks(uid, refused)];
      tries := tries - {uid};
      if refused {
        report := report.(refused := report.refused + 1);
      } else {
        report := report.(taken := report.taken + 1);
      }
      return true;
    }

    method RunOnce(all: seq<Uid>, world: Uid -> Turn, stopAt: nat, maxBytes: nat) returns (completed: bool)
      requires report == Report(0, 0, 0) && acts == []
      modifies this
      ensures (Value(), completed) == Run(old(tries), all, world, stopAt, maxBytes)
    {
      Forget(all);
      ghost var start := Value();
      var uids := all[..Min(RUN_MAX, |all|)];
      var i := 0;
      while i < |uids|
        invariant i <= |uids| && i <= stopAt
        invariant Turns(Value(), uids[i..], world, stopAt - i, maxBytes) == Turns(start, uids, world, stopAt, maxBytes)
      {
        if i == stopAt {
          return false;
        }
        assert uids[i..][1..] == uids[i + 1..] && uids[i..][0] == uids[i];
        var goes := Take(uids[i], world(uids[i]), maxBytes);
        if !goes {
          return false;
        }
        i := i + 1;
      }
      return true;
    }
  }

  // --- What a completed run does ----------------------------------------------------------------

  ghost predicate Distinct(uids: seq<Uid>) {
    forall i, j :: 0 <= i < j < |uids| ==> uids[i] != uids[j]
  }

  function MarkCount(acts: seq<Act>, uid: Uid): nat {
    if acts == [] then 0
    else MarkCount(acts[..|acts| - 1], uid) + if acts[|acts| - 1].Marks? && acts[|acts| - 1].uid == uid then 1 else 0
  }

  /** A message is marked, right after it was recorded: flagged if that was a refusal. */
  ghost predicate RecordedThenMarked(acts: seq<Act>) {
    forall i :: 0 <= i < |acts| && acts[i].Marks? ==> i > 0 && acts[i - 1] == Records(acts[i].uid, acts[i].flagged)
  }

  /** What a completed run has done for one of its messages, `before` being how often it had failed. */
  ghost predicate Handled(s: State, uid: Uid, before: nat, t: Turn, maxBytes: nat) {
    match FateOf(before, t, maxBytes)
    case RunFails => false
    case Gone => MarkCount(s.acts, uid) == 0 && TriesOf(s.tries, uid) == before
    case Deferred => MarkCount(s.acts, uid) == 0 && TriesOf(s.tries, uid) == before + 1
    case Recorded(refused) => MarkCount(s.acts, uid) == 1 && Marks(uid, refused) in s.acts && uid !in s.tries
  }

  ghost predicate SameFor(s: State, s': State, uid: Uid) {
    && MarkCount(s'.acts, uid) == MarkCount(s.acts, uid)
    && TriesOf(s'.tries, uid) == TriesOf(s.tries, uid)
    && (uid in s'.tries <==> uid in s.tries)
  }

  /** A turn that ends the run: the mailbox fails at something. */
  predicate Ends(tries: nat, t: Turn, maxBytes: nat) {
    match FateOf(tries, t, maxBytes)
    case RunFails => true
    case Recorded(_) => !t.doneWorks
    case _ => false
  }

  /** A message's turn comes, and does not end the run; nor does one before it. */
  predicate Reached(tries: map<Uid, nat>, uids: seq<Uid>, world: Uid -> Turn, stopAt: nat, maxBytes: nat, u: Uid)
    decreases |uids|
  {
    && uids != [] && stopAt > 0 && !Ends(TriesOf(tries, uids[0]), world(uids[0]), maxBytes)
    && (u == uids[0] || Reached(tries, uids[1..], world, stopAt - 1, maxBytes, u))
  }

  lemma {:induction false} ReachedSame(tries: map<Uid, nat>, tries': map<Uid, nat>, uids: seq<Uid>, world: Uid -> Turn,
                                       stopAt: nat, maxBytes: nat, u: Uid)
    requires forall w :: w in uids ==> TriesOf(tries, w) == TriesOf(tries', w)
    ensures Reached(tries, uids, world, stopAt, maxBytes, u) <==> Reached(tries', uids, world, stopAt, maxBytes, u)
    decreases |uids|
  {
    hide Ends, TriesOf;
    if uids != [] && stopAt > 0 {
      assert uids[0] in uids && forall w :: w in uids[1..] ==> w in uids;
      ReachedSame(tries, tries', uids[1..], world, stopAt - 1, maxBytes, u);
    }
  }

  lemma {:induction false} ReachedIn(tries: map<Uid, nat>, uids: seq<Uid>, world: Uid -> Turn, stopAt: nat,
         maxBytes: nat, u: Uid)
    requires Reached(tries, uids, world, stopAt, maxBytes, u)
    ensures u in uids
    decreases |uids|
  {
    if u != uids[0] {
      ReachedIn(tries, uids[1..], world, stopAt - 1, maxBytes, u);
    }
  }

  /** One turn is one message's: what it does for its own unless it ends the run, and nothing for another. */
  lemma TurnHandles(s: State, uid: Uid, t: Turn, maxBytes: nat)
    requires MarkCount(s.acts, uid) == 0 && RecordedThenMarked(s.acts)
    ensures var (s', goes) := OneTurn(s, uid, t, maxBytes);
            && RecordedThenMarked(s'.acts) && s.acts <= s'.acts
            && (goes <==> !Ends(TriesOf(s.tries, uid), t, maxBytes))
            && (if goes then Handled(s', uid, TriesOf(s.tries, uid), t, maxBytes) else SameFor(s, s', uid))
            && (forall u :: u != uid ==> SameFor(s, s', u))
  {
    hide MarkCount, RecordedThenMarked;
    match FateOf(TriesOf(s.tries, uid), t, maxBytes)
    case Recorded(refused) =>
      ActsAfter(s.acts, uid, refused);
    case _ =>
  }

  lemma ActsAfter(acts: seq<Act>, uid: Uid, refused: bool)
    requires RecordedThenMarked(acts)
    ensures var one := acts + [Records(uid, refused)]; var two := one + [Marks(uid, refused)];
            && acts <= one && acts <= two && RecordedThenMarked(one) && RecordedThenMarked(two)
            && Marks(uid, refused) in two
            && (forall u :: MarkCount(one, u) == MarkCount(acts, u))
            && (forall u :: MarkCount(two, u) == MarkCount(acts, u) + if u == uid then 1 else 0)
  {
    var one := acts + [Records(uid, refused)];
    var two := one + [Marks(uid, refused)];
    assert one[..|acts|] == acts && two[..|one|] == one;
    assert two[|one|] == Marks(uid, refused);
    assert forall u :: MarkCount(one, u) == MarkCount(acts, u);
    assert RecordedThenMarked(one);
    forall i | 0 <= i < |two| && two[i].Marks?
      ensures i > 0 && two[i - 1] == Records(two[i].uid, two[i].flagged)
    {
      if i < |one| {
        assert one[i] == two[i];
        assert two[i - 1] == one[i - 1];
      }
    }
  }

  lemma HandledStays(s: State, s': State, uid: Uid, before: nat, t: Turn, maxBytes: nat)
    requires Handled(s, uid, before, t, maxBytes) && s.acts <= s'.acts && SameFor(s, s', uid)
    ensures Handled(s', uid, before, t, maxBytes)
  {
  }

  /** What the turns of `uids` have done: for a message reached, what its turn says; for any other, nothing. */
  ghost predicate HandledIfReached(s: State, s': State, uids: seq<Uid>, world: Uid -> Turn, stopAt: nat,
         maxBytes: nat, u: Uid) {
    if Reached(s.tries, uids, world, stopAt, maxBytes, u) then Handled(s', u, TriesOf(s.tries, u), world(u), maxBytes)
    else SameFor(s, s', u)
  }

  /** All turns of a run: each message reached is dealt with once, whatever the turns after it do. */
  lemma {:induction false} TurnsHandle(s: State, uids: seq<Uid>, world: Uid -> Turn, stopAt: nat, maxBytes: nat)
    requires Distinct(uids) && RecordedThenMarked(s.acts) && forall u :: u in uids ==> MarkCount(s.acts, u) == 0
    ensures var (s', completed) := Turns(s, uids, world, stopAt, maxBytes);
            && RecordedThenMarked(s'.acts) && s.acts <= s'.acts
            && (forall u :: HandledIfReached(s, s', uids, world, stopAt, maxBytes, u))
            && (completed <==> forall u :: u in uids ==> Reached(s.tries, uids, world, stopAt, maxBytes, u))
    decreases |uids|
  {
    hide Handled, RecordedThenMarked, OneTurn, MarkCount, TriesOf, Ends;
    assert uids != [] ==> uids[0] in uids;
    if uids != [] && stopAt > 0 {
      var uid := uids[0];
      var rest := uids[1..];
      TurnHandles(s, uid, world(uid), maxBytes);
      var (t, goes) := OneTurn(s, uid, world(uid), maxBytes);
      assert forall u :: u in uids <==> u == uid || u in rest;
      assert uid !in rest;
      forall u | u in rest ensures MarkCount(t.acts, u) == 0 && TriesOf(s.tries, u) == TriesOf(t.tries, u) {
        assert u in uids && u != uid && SameFor(s, t, u);
      }
      if goes {
        TurnsHandle(t, rest, world, stopAt - 1, maxBytes);
        var (s', completed) := Turns(t, rest, world, stopAt - 1, maxBytes);
        forall u ensures HandledIfReached(s, s', uids, world, stopAt, maxBytes, u) {
          OneThenRest(s, t, s', uid, rest, world, stopAt - 1, maxBytes, u);
        }
        assert Reached(s.tries, uids, world, stopAt, maxBytes, uid);
        forall u | u in rest
          ensures Reached(t.tries, rest, world, stopAt - 1, maxBytes, u)
              <==> Reached(s.tries, uids, world, stopAt, maxBytes, u)
        {
          ReachedSame(s.tries, t.tries, rest, world, stopAt - 1, maxBytes, u);
        }
      }
    }
  }

  lemma OneThenRest(s: State, t: State, s': State, uid: Uid, rest: seq<Uid>, world: Uid -> Turn, stopAt: nat,
         maxBytes: nat, u: Uid)
    requires !Ends(TriesOf(s.tries, uid), world(uid), maxBytes)
        && Handled(t, uid, TriesOf(s.tries, uid), world(uid), maxBytes)
    requires uid !in rest && t.acts <= s'.acts && forall w :: w != uid ==> SameFor(s, t, w)
    requires HandledIfReached(t, s', rest, world, stopAt, maxBytes, u)
    ensures HandledIfReached(s, s', [uid] + rest, world, stopAt + 1, maxBytes, u)
  {
    assert ([uid] + rest)[1..] == rest;
    forall w | w in rest ensures TriesOf(s.tries, w) == TriesOf(t.tries, w) {
      assert SameFor(s, t, w);
    }
    hide Ends, Handled, MarkCount;
    ReachedSame(s.tries, t.tries, rest, world, stopAt, maxBytes, u);
    if u == uid {
      if Reached(t.tries, rest, world, stopAt, maxBytes, u) {
        ReachedIn(t.tries, rest, world, stopAt, maxBytes, u);
      }
      HandledStays(t, s', uid, TriesOf(s.tries, uid), world(uid), maxBytes);
    } else {
      assert SameFor(s, t, u);
    }
  }

  /**
   What every run keeps: a message whose turn comes and does not end the run is dealt with exactly once
   (marked after it was recorded, or its tries raised by one, or it is gone), and any other is untouched; in
   a completed run these are the first fifty. Nothing no longer unread is remembered, and no message fails a
   sixth time.
   */
  lemma EveryRun(tries: map<Uid, nat>, all: seq<Uid>, world: Uid -> Turn, stopAt: nat, maxBytes: nat)
    requires Distinct(all) && forall u :: u in tries ==> tries[u] <= TRIES_MAX
    ensures var (s, completed) := Run(tries, all, world, stopAt, maxBytes);
            var uids := all[..Min(RUN_MAX, |all|)];
            && RecordedThenMarked(s.acts)
            && (forall u :: u in s.tries ==> u in all && s.tries[u] <= TRIES_MAX)
            && (forall u :: Reached(tries, uids, world, stopAt, maxBytes, u) ==>
                              u in uids && Handled(s, u, TriesOf(tries, u), world(u), maxBytes))
            && (forall u :: !Reached(tries, uids, world, stopAt, maxBytes, u) ==>
                              MarkCount(s.acts, u) == 0 && (u in all ==> TriesOf(s.tries, u) == TriesOf(tries, u)))
            && (completed <==> forall u :: u in uids ==> Reached(tries, uids, world, stopAt, maxBytes, u))
  {
    var uids := all[..Min(RUN_MAX, |all|)];
    var s := State(Remembered(tries, all), Report(0, 0, 0), []);
    assert forall u :: u in all ==> TriesOf(s.tries, u) == TriesOf(tries, u);
    assert forall u :: u in uids ==> u in all;
    TurnsHandle(s, uids, world, stopAt, maxBytes);
    TurnsRemember(s, uids, all, world, stopAt, maxBytes);
    var s' := Turns(s, uids, world, stopAt, maxBytes).0;
    hide Turns, Handled, RecordedThenMarked, TriesOf, Ends, Bounded;
    forall u ensures HandledIfReached(s, s', uids, world, stopAt, maxBytes, u)
                     && (Reached(tries, uids, world, stopAt, maxBytes, u) <==>
                           Reached(s.tries, uids, world, stopAt, maxBytes, u))
                     && (Reached(tries, uids, world, stopAt, maxBytes, u) ==> u in uids)
    {
      ReachedSame(tries, s.tries, uids, world, stopAt, maxBytes, u);
      if Reached(tries, uids, world, stopAt, maxBytes, u) { ReachedIn(tries, uids, world, stopAt, maxBytes, u); }
    }
  }

  ghost predicate Bounded(tries: map<Uid, nat>, all: seq<Uid>) {
    forall u :: u in tries ==> u in all && tries[u] <= TRIES_MAX
  }

  lemma {:induction false} TurnsRemember(s: State, uids: seq<Uid>, all: seq<Uid>, world: Uid -> Turn, stopAt: nat,
         maxBytes: nat)
    requires Bounded(s.tries, all) && forall u :: u in uids ==> u in all
    ensures Bounded(Turns(s, uids, world, stopAt, maxBytes).0.tries, all)
    decreases |uids|
  {
    if uids != [] && stopAt > 0 {
      var (t, goes) := OneTurn(s, uids[0], world(uids[0]), maxBytes);
      assert uids[0] in uids;
      assert Bounded(t.tries, all);
      assert forall u :: u in uids[1..] ==> u in uids;
      if goes {
        TurnsRemember(t, uids[1..], all, world, stopAt - 1, maxBytes);
      }
    }
  }

  // --- No message is held up for ever ------------------------------------------------------------

  /** One run of a mailbox that keeps its `tries`: what was unread, and what the world did. */
  datatype Visit = Visit(all: seq<Uid>, world: Uid -> Turn, stopAt: nat, maxBytes: nat)

  function After(tries: map<Uid, nat>, v: Visit): (State, bool) {
    Run(tries, v.all, v.world, v.stopAt, v.maxBytes)
  }

  /** UIDs come in ascending order, and a server gives a new message a higher one than any before. */
  ghost predicate Ascending(all: seq<Uid>) {
    forall i, j :: 0 <= i < j < |all| ==> all[i] < all[j]
  }

  /** What the server lists up to `m` after a completed run: nothing it had not, less what was marked. */
  ghost predicate StillListed(tries: map<Uid, nat>, v: Visit, all: seq<Uid>, m: Uid) {
    forall u :: u <= m && u in all ==> u in v.all && MarkCount(After(tries, v).0.acts, u) == 0
  }

  /** A message of the run. */
  predicate OfRun(v: Visit, u: Uid) {
    u in v.all[..Min(RUN_MAX, |v.all|)]
  }

  /** And all of that. */
  ghost predicate ListsExactly(tries: map<Uid, nat>, v: Visit, all: seq<Uid>, m: Uid) {
    forall u :: u <= m ==> (u in all <==> u in v.all && MarkCount(After(tries, v).0.acts, u) == 0)
  }

  /** A message gets on: its turn comes, and it is recorded and marked, or its tries are raised. */
  predicate GetsOn(tries: map<Uid, nat>, v: Visit, u: Uid) {
    && Reached(tries, v.all[..Min(RUN_MAX, |v.all|)], v.world, v.stopAt, v.maxBytes, u)
    && FateOf(TriesOf(tries, u), v.world(u), v.maxBytes) != Gone
  }

  /** Some message up to `m` does. */
  ghost predicate SomeGetsOn(tries: map<Uid, nat>, v: Visit, m: Uid) {
    exists u: Uid :: u <= m && GetsOn(tries, v, u)
  }

  /** Runs one after the other, completed or not, `m` being listed at the start of each. */
  ghost predicate Listed(tries: map<Uid, nat>, vs: seq<Visit>, m: Uid)
    decreases |vs|
  {
    vs == []
    || (&& Ascending(vs[0].all) && m in vs[0].all
        && (|vs| > 1 ==> StillListed(tries, vs[0], vs[1].all, m))
        && Listed(After(tries, vs[0]).0.tries, vs[1..], m))
  }

  /** How many of them something up to `m` gets on in. */
  ghost function Helping(tries: map<Uid, nat>, vs: seq<Visit>, m: Uid): nat
    decreases |vs|
  {
    if vs == [] then 0
    else (if SomeGetsOn(tries, vs[0], m) then 1 else 0) + Helping(After(tries, vs[0]).0.tries, vs[1..], m)
  }

  /** How many more turns an unread message can take. */
  function Weight(all: seq<Uid>, tries: map<Uid, nat>, u: Uid): nat {
    if u in all && TriesOf(tries, u) <= TRIES_MAX then TRIES_MAX + 1 - TriesOf(tries, u) else 0
  }

  /** The turns `m` and all older unread mail can still take, together. */
  function Left(all: seq<Uid>, tries: map<Uid, nat>, m: Uid): nat {
    Weight(all, tries, m) + if m == 0 then 0 else Left(all, tries, m - 1)
  }

  lemma {:induction false} LeftFalls(all: seq<Uid>, tries: map<Uid, nat>, all': seq<Uid>, tries': map<Uid, nat>,
         m: Uid, at: Uid)
    requires forall u: Uid :: u <= m ==> Weight(all', tries', u) <= Weight(all, tries, u)
    ensures Left(all', tries', m) <= Left(all, tries, m)
    ensures at <= m && Weight(all', tries', at) < Weight(all, tries, at) ==> Left(all', tries', m) < Left(all, tries, m)
    decreases m
  {
    if m > 0 {
      LeftFalls(all, tries, all', tries', m - 1, at);
    }
  }

  /** A run takes a turn from each message that gets on in it, and none from any other. */
  lemma WeightFalls(tries: map<Uid, nat>, v: Visit, all': seq<Uid>, m: Uid, u: Uid)
    requires Ascending(v.all) && StillListed(tries, v, all', m) && u <= m
    requires forall w :: w in tries ==> tries[w] <= TRIES_MAX
    ensures Weight(all', After(tries, v).0.tries, u) <= Weight(v.all, tries, u)
    ensures GetsOn(tries, v, u) ==> Weight(all', After(tries, v).0.tries, u) < Weight(v.all, tries, u)
    ensures ListsExactly(tries, v, all', m) && !GetsOn(tries, v, u) ==>
              Weight(all', After(tries, v).0.tries, u) == Weight(v.all, tries, u)
  {
    EveryRun(tries, v.all, v.world, v.stopAt, v.maxBytes);
    hide Run, Turns, Reached, RecordedThenMarked;
    var uids := v.all[..Min(RUN_MAX, |v.all|)];
    assert u in uids ==> u in v.all;
    if Reached(tries, uids, v.world, v.stopAt, v.maxBytes, u) {
      assert Handled(After(tries, v).0, u, TriesOf(tries, u), v.world(u), v.maxBytes);
    }
  }

  lemma {:induction false} LeftSame(all: seq<Uid>, tries: map<Uid, nat>, all': seq<Uid>, tries': map<Uid, nat>, m: Uid)
    requires forall u: Uid :: u <= m ==> Weight(all', tries', u) == Weight(all, tries, u)
    ensures Left(all', tries', m) == Left(all, tries, m)
    decreases m
  {
    if m > 0 {
      LeftSame(all, tries, all', tries', m - 1);
    }
  }

  /**
   No run raises what `m` and the mail before it have left, and one in which some of it gets on lowers it.
   */
  lemma LeftKept(tries: map<Uid, nat>, v: Visit, all': seq<Uid>, m: Uid)
    requires Ascending(v.all) && StillListed(tries, v, all', m)
    requires forall u :: u in tries ==> tries[u] <= TRIES_MAX
    ensures Left(all', After(tries, v).0.tries, m) <= Left(v.all, tries, m)
    ensures SomeGetsOn(tries, v, m) ==> Left(all', After(tries, v).0.tries, m) < Left(v.all, tries, m)
  {
    forall u: Uid | u <= m ensures Weight(all', After(tries, v).0.tries, u) <= Weight(v.all, tries, u) {
      WeightFalls(tries, v, all', m, u);
    }
    LeftFalls(v.all, tries, all', After(tries, v).0.tries, m, 0);
    if SomeGetsOn(tries, v, m) {
      var at: Uid :| at <= m && GetsOn(tries, v, at);
      WeightFalls(tries, v, all', m, at);
      LeftFalls(v.all, tries, all', After(tries, v).0.tries, m, at);
    }
  }

  /**
   Exactly when a run, completed or not, brings `m` nearer: when before the first turn that ends it the
   server gives some message up to `m`. (It lists what it had listed and was not marked.)
   */
  lemma RunLessens(tries: map<Uid, nat>, v: Visit, all': seq<Uid>, m: Uid)
    requires Ascending(v.all) && ListsExactly(tries, v, all', m)
    requires forall u :: u in tries ==> tries[u] <= TRIES_MAX
    ensures Left(all', After(tries, v).0.tries, m) < Left(v.all, tries, m) <==> SomeGetsOn(tries, v, m)
  {
    LeftKept(tries, v, all', m);
    if !SomeGetsOn(tries, v, m) {
      forall u: Uid | u <= m ensures Weight(all', After(tries, v).0.tries, u) == Weight(v.all, tries, u) {
        assert !GetsOn(tries, v, u);
        WeightFalls(tries, v, all', m, u);
      }
      LeftSame(v.all, tries, all', After(tries, v).0.tries, m);
    }
  }

  predicate IsGone(tries: map<Uid, nat>, v: Visit, u: Uid) {
    FateOf(TriesOf(tries, u), v.world(u), v.maxBytes) == Gone
  }

  /** In a completed run, a message behind the first fifty is held up exactly when all of those are gone. */
  lemma HeldUpExactly(tries: map<Uid, nat>, v: Visit, m: Uid)
    requires Ascending(v.all) && m in v.all && !OfRun(v, m) && After(tries, v).1
    requires forall u :: u in tries ==> tries[u] <= TRIES_MAX
    ensures |v.all| > RUN_MAX && forall u: Uid :: OfRun(v, u) ==> u < m
    ensures !SomeGetsOn(tries, v, m) <==> forall u: Uid :: OfRun(v, u) ==> IsGone(tries, v, u)
  {
    EveryRun(tries, v.all, v.world, v.stopAt, v.maxBytes);
    hide Run, Turns, Reached, Handled, RecordedThenMarked, FateOf;
    var first := v.all[..Min(RUN_MAX, |v.all|)];
    var j :| 0 <= j < |v.all| && v.all[j] == m;
    assert forall i :: 0 <= i < |first| ==> first[i] == v.all[i] && first[i] in first;
    assert j >= |first|;
    forall u: Uid | OfRun(v, u) ensures u < m && (GetsOn(tries, v, u) <==> !IsGone(tries, v, u)) {
      var i :| 0 <= i < |first| && first[i] == u;
      assert v.all[i] == u && i < j;
    }
    forall u: Uid | GetsOn(tries, v, u) ensures OfRun(v, u) {
      assert Reached(tries, first, v.world, v.stopAt, v.maxBytes, u);
    }
  }

  /**
   A message whose turn ends the run, with none before it given, holds up all mail: nothing gets on, it is
   not counted as failing, and what is remembered stays as it is.
   */
  lemma HeldUpByOne(tries: map<Uid, nat>, v: Visit, j: nat)
    requires j < Min(RUN_MAX, |v.all|) && Ends(TriesOf(tries, v.all[j]), v.world(v.all[j]), v.maxBytes)
    requires forall i :: 0 <= i < j ==> IsGone(tries, v, v.all[i])
    ensures forall u: Uid :: !GetsOn(tries, v, u)
    ensures After(tries, v).0.tries == Remembered(tries, v.all) && !After(tries, v).1
  {
    var uids := v.all[..Min(RUN_MAX, |v.all|)];
    var s := State(Remembered(tries, v.all), Report(0, 0, 0), []);
    assert forall i :: 0 <= i < |uids| ==> uids[i] == v.all[i] && TriesOf(s.tries, uids[i]) == TriesOf(tries, uids[i]);
    hide FateOf, Ends, TriesOf;
    forall u: Uid ensures !GetsOn(tries, v, u) {
      StopsAtOne(s, tries, uids, v.world, v.stopAt, v.maxBytes, j, u);
    }
    StopsAtOne(s, tries, uids, v.world, v.stopAt, v.maxBytes, j, 0);
  }

  lemma {:induction false} StopsAtOne(s: State, tries: map<Uid, nat>, uids: seq<Uid>, world: Uid -> Turn, stopAt: nat,
         maxBytes: nat,
                                      j: nat, u: Uid)
    requires j < |uids| && forall w :: w in uids ==> TriesOf(s.tries, w) == TriesOf(tries, w)
    requires Ends(TriesOf(tries, uids[j]), world(uids[j]), maxBytes)
    requires forall i :: 0 <= i < j ==> FateOf(TriesOf(tries, uids[i]), world(uids[i]), maxBytes) == Gone
    ensures Reached(tries, uids, world, stopAt, maxBytes, u) ==> FateOf(TriesOf(tries, u), world(u), maxBytes) == Gone
    ensures Turns(s, uids, world, stopAt, maxBytes).0.tries == s.tries && !Turns(s, uids, world, stopAt, maxBytes).1
    decreases |uids|
  {
    hide TriesOf;
    assert uids[0] in uids && forall w :: w in uids[1..] ==> w in uids;
    if stopAt > 0 && j > 0 {
      StopsAtOne(s, tries, uids[1..], world, stopAt - 1, maxBytes, j - 1, u);
    }
  }

  /** And for as long as it does so, run after run. */
  ghost predicate AllEnded(tries: map<Uid, nat>, vs: seq<Visit>)
    decreases |vs|
  {
    vs == []
    || ((exists j: nat :: EndsAt(tries, vs[0], j)) && AllEnded(After(tries, vs[0]).0.tries, vs[1..]))
  }

  ghost predicate EndsAt(tries: map<Uid, nat>, v: Visit, j: nat) {
    && j < Min(RUN_MAX, |v.all|) && Ends(TriesOf(tries, v.all[j]), v.world(v.all[j]), v.maxBytes)
    && forall i :: 0 <= i < j ==> IsGone(tries, v, v.all[i])
  }

  lemma {:induction false} HeldUpForGood(tries: map<Uid, nat>, vs: seq<Visit>, m: Uid)
    requires AllEnded(tries, vs)
    ensures Helping(tries, vs, m) == 0
    decreases |vs|
  {
    if vs != [] {
      var j: nat :| EndsAt(tries, vs[0], j);
      HeldUpByOne(tries, vs[0], j);
      HeldUpForGood(After(tries, vs[0]).0.tries, vs[1..], m);
    }
  }

  function UidsOf(uids: seq<Uid>): set<Uid> {
    set u | u in uids
  }

  lemma {:induction false} UidCount(uids: seq<Uid>)
    requires Ascending(uids)
    ensures |UidsOf(uids)| == |uids|
  {
    if uids != [] {
      var n := |uids| - 1;
      UidCount(uids[..n]);
      assert uids == uids[..n] + [uids[n]];
      assert UidsOf(uids) == UidsOf(uids[..n]) + {uids[n]};
    }
  }

  /** So in a completed run fewer than fifty messages that are listed and not given hold up none but themselves. */
  lemma FewHoldUpNone(tries: map<Uid, nat>, v: Visit, m: Uid, gone: set<Uid>)
    requires Ascending(v.all) && m in v.all && m !in gone && |gone| < RUN_MAX && After(tries, v).1
    requires forall u :: u in tries ==> tries[u] <= TRIES_MAX
    requires forall u: Uid :: OfRun(v, u) && u !in gone ==> !IsGone(tries, v, u)
    ensures SomeGetsOn(tries, v, m)
  {
    if OfRun(v, m) {
      EveryRun(tries, v.all, v.world, v.stopAt, v.maxBytes);
      hide Run, Turns, Reached, Handled, RecordedThenMarked, FateOf;
      assert GetsOn(tries, v, m);
    } else if !SomeGetsOn(tries, v, m) {
      HeldUpExactly(tries, v, m);
      var first := v.all[..Min(RUN_MAX, |v.all|)];
      UidCount(first);
      assert forall u :: u in first ==> OfRun(v, u);
      assert UidsOf(first) <= gone;
      SubsetCount(UidsOf(first), gone);
    }
  }

  lemma SubsetCount(a: set<Uid>, b: set<Uid>)
    requires a <= b
    ensures |a| <= |b|
  {
    assert |b - a| == |b| - |a|;
  }

  /**
   No message is held up for ever: over any runs, completed or not, with `m` listed at the start of each,
   those in which some message up to `m` gets on are no more than `m` and the mail before it have turns
   left (six each).
   */
  lemma {:induction false} NoneHeldUp(tries: map<Uid, nat>, vs: seq<Visit>, m: Uid)
    requires vs != [] && Listed(tries, vs, m) && forall u :: u in tries ==> tries[u] <= TRIES_MAX
    ensures Helping(tries, vs, m) <= Left(vs[0].all, tries, m)
    decreases |vs|
  {
    var after := After(tries, vs[0]).0.tries;
    EveryRun(tries, vs[0].all, vs[0].world, vs[0].stopAt, vs[0].maxBytes);
    hide Run, Turns, Reached, Handled, RecordedThenMarked;
    if |vs| == 1 {
      assert Weight(vs[0].all, tries, m) >= 1;
      assert Helping(after, vs[1..], m) == 0;
    } else {
      NoneHeldUp(after, vs[1..], m);
      LeftKept(tries, vs[0], vs[1].all, m);
    }
  }

  /** A message that failed five times is refused on its next turn, unless the mailbox fails or it is gone. */
  lemma GivenUpOn(s: State, uid: Uid, t: Turn, maxBytes: nat)
    requires TriesOf(s.tries, uid) >= TRIES_MAX
    ensures var (s', goes) := OneTurn(s, uid, t, maxBytes);
            goes && t.size.Some? ==> s'.acts == s.acts + [Records(uid, true), Marks(uid, true)]
                                     && s'.report == s.report.(refused := s.report.refused + 1)
  {
    var (s', goes) := OneTurn(s, uid, t, maxBytes);
    if goes && t.size.Some? {
      assert s'.acts == s.acts + [Records(uid, true)] + [Marks(uid, true)];
    }
  }

  /**
   One is held up for as long as it lasts by fifty older messages that are listed but not given: such a
   run leaves it, and everything remembered, as they were.
   */
  lemma ListedButGone(tries: map<Uid, nat>, v: Visit, m: Uid)
    requires Ascending(v.all) && m in v.all && !OfRun(v, m) && After(tries, v).1
    requires forall u :: u in tries ==> u in v.all && tries[u] <= TRIES_MAX
    requires forall u :: OfRun(v, u) ==> IsGone(tries, v, u)
    ensures After(tries, v).0 == State(tries, Report(0, 0, 0), [])
    ensures ListsExactly(tries, v, v.all, m) && !SomeGetsOn(tries, v, m)
  {
    HeldUpExactly(tries, v, m);
    assert Remembered(tries, v.all) == tries;
    var uids := v.all[..Min(RUN_MAX, |v.all|)];
    assert forall u :: u in uids ==> OfRun(v, u) && IsGone(tries, v, u);
    TurnsOfGone(State(tries, Report(0, 0, 0), []), uids, v.world, v.stopAt, v.maxBytes);
  }

  lemma {:induction false} TurnsOfGone(s: State, uids: seq<Uid>, world: Uid -> Turn, stopAt: nat, maxBytes: nat)
    requires forall u :: u in uids ==> FateOf(TriesOf(s.tries, u), world(u), maxBytes) == Gone
    ensures Turns(s, uids, world, stopAt, maxBytes).0 == s
    decreases |uids|
  {
    if uids != [] && stopAt > 0 {
      assert uids[0] in uids && forall u :: u in uids[1..] ==> u in uids;
      TurnsOfGone(s, uids[1..], world, stopAt - 1, maxBytes);
    }
  }
}
