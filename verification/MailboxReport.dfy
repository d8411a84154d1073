/**
 What a run of a mailbox comes to (apps/server/src/mail-in.ts, `runMailbox`): exactly which messages are taken,
 refused and left to be tried again, in the mail server's and the database's own terms, and the report's counts.
 */
module MailboxReport {
  import opened Common
  import opened MailboxRun

  /** How often it failed before, as far as is remembered. */
  function Failures(tries: map<Uid, nat>, u: Uid): nat {
    if u in tries then tries[u] else 0
  }

  /** A message that is not even fetched: too large, or it failed five times. */
  predicate TooMuch(t: Turn, failures: nat, maxBytes: nat) {
    t.size.Some? && (t.size.value > maxBytes || failures >= 5)
  }

  /** A message that is fetched and taken up. */
  predicate TakenUp(t: Turn, failures: nat, maxBytes: nat) {
    t.size.Some? && t.size.value <= maxBytes && failures < 5 && t.there
  }

  /** Its turn ends the run: the mail server fails, or a refusal is not recorded, or it is not marked. */
  predicate EndsRun(t: Turn, failures: nat, maxBytes: nat) {
    || !t.sessionWorks
    || (TooMuch(t, failures, maxBytes) && !(t.denyWorks && t.doneWorks))
    || (TakenUp(t, failures, maxBytes) && t.take != TakeThrows && !t.doneWorks)
  }

  /** The turn of a message of `uids` comes, and neither it nor one before it ends the run. */
  ghost predicate TurnComes(tries: map<Uid, nat>, uids: seq<Uid>, world: Uid -> Turn, stopAt: nat, maxBytes: nat,
         u: Uid) {
    exists i :: 0 <= i < Min(|uids|, stopAt) && uids[i] == u
      && forall j :: 0 <= j <= i ==> !EndsRun(world(uids[j]), Failures(tries, uids[j]), maxBytes)
  }

  lemma EndsIs(tries: map<Uid, nat>, t: Turn, u: Uid, maxBytes: nat)
    ensures Ends(TriesOf(tries, u), t, maxBytes) <==> EndsRun(t, Failures(tries, u), maxBytes)
  {
  }

  /** The turns come in order, as far as the run goes. */
  lemma {:induction false} ReachedIs(tries: map<Uid, nat>, uids: seq<Uid>, world: Uid -> Turn, stopAt: nat,
         maxBytes: nat, u: Uid)
    ensures Reached(tries, uids, world, stopAt, maxBytes, u) <==> TurnComes(tries, uids, world, stopAt, maxBytes, u)
    decreases |uids|
  {
    hide Ends, EndsRun, TriesOf, Failures;
    if uids != [] && stopAt > 0 {
      var first, rest := uids[0], uids[1..];
      EndsIs(tries, world(first), first, maxBytes);
      ReachedIs(tries, rest, world, stopAt - 1, maxBytes, u);
      if TurnComes(tries, rest, world, stopAt - 1, maxBytes, u)
        && !EndsRun(world(first), Failures(tries, first), maxBytes) {
        var i :| 0 <= i < Min(|rest|, stopAt - 1) && rest[i] == u
          && forall j :: 0 <= j <= i ==> !EndsRun(world(rest[j]), Failures(tries, rest[j]), maxBytes);
        assert uids[i + 1] == u;
        forall j | 0 <= j <= i + 1 ensures !EndsRun(world(uids[j]), Failures(tries, uids[j]), maxBytes) {
          assert j > 0 ==> uids[j] == rest[j - 1];
        }
      }
      if TurnComes(tries, uids, world, stopAt, maxBytes, u) && u != first {
        var i :| 0 <= i < Min(|uids|, stopAt) && uids[i] == u
          && forall j :: 0 <= j <= i ==> !EndsRun(world(uids[j]), Failures(tries, uids[j]), maxBytes);
        assert rest[i - 1] == u;
        assert forall j :: 0 <= j <= i - 1 ==> rest[j] == uids[j + 1];
      }
    }
  }

  /** No more marks than are counted. */
  lemma {:induction false} MarksCounted(acts: seq<Act>, u: Uid)
    ensures MarkCount(acts, u) == 0 ==> forall f :: Marks(u, f) !in acts
    ensures MarkCount(acts, u) == 1 ==> !(Marks(u, true) in acts && Marks(u, false) in acts)
  {
    if acts != [] {
      var n := |acts| - 1;
      MarksCounted(acts[..n], u);
      assert acts == acts[..n] + [acts[n]];
    }
  }

  /**
   Exactly what a run, completed or not, comes to for any message: it is taken and marked if and only if its turn
   comes, it is taken up and recorded; it is refused, marked and flagged if and only if its turn comes and it is
   too large, or failed five times, or is taken up and refused; and its failures are raised, by one, if and only if
   its turn comes and taking it up fails. The run completes if and only if the turns of the first fifty all come.
   */
  lemma EachExactly(tries: map<Uid, nat>, all: seq<Uid>, world: Uid -> Turn, stopAt: nat, maxBytes: nat, u: Uid)
    requires Distinct(all) && forall w :: w in tries ==> tries[w] <= 5
    ensures var (s, completed) := Run(tries, all, world, stopAt, maxBytes);
            var first := all[..Min(50, |all|)];
            var t, failures := world(u), Failures(tries, u);
            var comes := TurnComes(tries, first, world, stopAt, maxBytes, u);
            && (Marks(u, false) in s.acts <==> comes && TakenUp(t, failures, maxBytes) && t.take == Taken)
            && (Marks(u, true) in s.acts <==>
                  comes && (TooMuch(t, failures, maxBytes) || (TakenUp(t, failures, maxBytes) && t.take == Refused)))
            && (u in all ==>
                  Failures(s.tries, u) ==
                    if Marks(u, false) in s.acts || Marks(u, true) in s.acts then 0
                    else if comes && TakenUp(t, failures, maxBytes) && t.take == TakeThrows then failures + 1
                    else failures)
            && (completed <==> forall w :: w in first ==> TurnComes(tries, first, world, stopAt, maxBytes, w))
  {
    EveryRun(tries, all, world, stopAt, maxBytes);
    var (s, completed) := Run(tries, all, world, stopAt, maxBytes);
    var first := all[..Min(50, |all|)];
    forall w ensures Reached(tries, first, world, stopAt, maxBytes, w)
      <==> TurnComes(tries, first, world, stopAt, maxBytes, w)
    {
      ReachedIs(tries, first, world, stopAt, maxBytes, w);
    }
    MarksCounted(s.acts, u);
    hide Run, Reached, TurnComes, RecordedThenMarked, MarkCount;
    assert forall w :: w in first ==> w in all;
    if TurnComes(tries, first, world, stopAt, maxBytes, u) {
      assert Handled(s, u, TriesOf(tries, u), world(u), maxBytes);
    }
  }

  // --- The report ---------------------------------------------------------------------------------------

  /** How many messages were marked, flagged or not. */
  function MarksWith(acts: seq<Act>, flagged: bool): nat {
    if acts == [] then 0 else
    var last := acts[|acts| - 1];
    MarksWith(acts[..|acts| - 1], flagged) + if last.Marks? && last.flagged == flagged then 1 else 0
  }

  /** How many messages failed once more. */
  function Raised(uids: seq<Uid>, before: map<Uid, nat>, after: map<Uid, nat>): nat {
    if uids == [] then 0
    else (if Failures(after, uids[0]) == Failures(before, uids[0]) + 1 then 1 else 0) + Raised(uids[1..], before, after)
  }

  lemma {:induction false} RaisedSame(uids: seq<Uid>, before: map<Uid, nat>, after: map<Uid, nat>,
         before': map<Uid, nat>, after': map<Uid, nat>)
    requires forall u :: u in uids ==>
               Failures(before, u) == Failures(before', u) && Failures(after, u) == Failures(after', u)
    ensures Raised(uids, before, after) == Raised(uids, before', after')
  {
    hide Failures;
    if uids != [] {
      assert uids[0] in uids && forall u :: u in uids[1..] ==> u in uids;
      RaisedSame(uids[1..], before, after, before', after');
    }
  }

  lemma {:induction false} NoneRaised(uids: seq<Uid>, tries: map<Uid, nat>)
    ensures Raised(uids, tries, tries) == 0
  {
    if uids != [] {
      NoneRaised(uids[1..], tries);
    }
  }

  /** The report says what there is besides. */
  ghost predicate Says(s: State) {
    s.report.taken == MarksWith(s.acts, false) && s.report.refused == MarksWith(s.acts, true)
  }

  lemma OneTurnSays(s: State, uid: Uid, t: Turn, maxBytes: nat)
    requires Says(s)
    ensures var s' := OneTurn(s, uid, t, maxBytes).0;
            && Says(s')
            && s'.report.deferred == s.report.deferred
               + (if Failures(s'.tries, uid) == Failures(s.tries, uid) + 1 then 1 else 0)
            && forall u :: u != uid ==> Failures(s'.tries, u) == Failures(s.tries, u)
  {
    hide FateOf, MarksWith;
    match FateOf(TriesOf(s.tries, uid), t, maxBytes)
    case Recorded(refused) =>
      MarksAfter(s.acts, uid, refused);
    case _ =>
  }

  lemma MarksAfter(acts: seq<Act>, uid: Uid, refused: bool)
    ensures forall f :: MarksWith(acts + [Records(uid, refused)], f) == MarksWith(acts, f)
    ensures forall f :: MarksWith(acts + [Records(uid, refused)] + [Marks(uid, refused)], f)
                     == MarksWith(acts, f) + if f == refused then 1 else 0
  {
    var one := acts + [Records(uid, refused)];
    var two := one + [Marks(uid, refused)];
    assert one[..|acts|] == acts && two[..|one|] == one;
    assert forall f :: MarksWith(one, f) == MarksWith(acts, f);
    assert two[|one|] == Marks(uid, refused);
  }

  lemma {:induction false} TurnsSay(s: State, uids: seq<Uid>, world: Uid -> Turn, stopAt: nat, maxBytes: nat)
    requires Distinct(uids) && Says(s)
    ensures var s' := Turns(s, uids, world, stopAt, maxBytes).0;
            && Says(s') && s'.report.deferred == s.report.deferred + Raised(uids, s.tries, s'.tries)
            && forall u :: u !in uids ==> Failures(s'.tries, u) == Failures(s.tries, u)
    decreases |uids|
  {
    hide OneTurn, Says, Failures;
    if uids == [] || stopAt == 0 {
      NoneRaised(uids, s.tries);
    } else {
      var uid, rest := uids[0], uids[1..];
      OneTurnSays(s, uid, world(uid), maxBytes);
      var (t, goes) := OneTurn(s, uid, world(uid), maxBytes);
      assert uid !in rest && forall u :: u in uids <==> u == uid || u in rest;
      if goes {
        TurnsSay(t, rest, world, stopAt - 1, maxBytes);
        var s' := Turns(t, rest, world, stopAt - 1, maxBytes).0;
        RaisedSame(rest, s.tries, s'.tries, t.tries, s'.tries);
      } else {
        NoneRaised(rest, t.tries);
        RaisedSame(rest, s.tries, t.tries, t.tries, t.tries);
      }
    }
  }

  /**
   The report of a run, completed or not: `taken` and `refused` are how many messages were marked without and
   with the flag, and `deferred` how many of the first fifty failed once more.
   */
  lemma ReportCounts(tries: map<Uid, nat>, all: seq<Uid>, world: Uid -> Turn, stopAt: nat, maxBytes: nat)
    requires Distinct(all)
    ensures var s := Run(tries, all, world, stopAt, maxBytes).0;
            && s.report.taken == MarksWith(s.acts, false) && s.report.refused == MarksWith(s.acts, true)
            && s.report.deferred == Raised(all[..Min(50, |all|)], tries, s.tries)
  {
    var start := State(Remembered(tries, all), Report(0, 0, 0), []);
    var first := all[..Min(50, |all|)];
    assert Distinct(first) && forall u :: u in first ==> u in all;
    TurnsSay(start, first, world, stopAt, maxBytes);
    var s := Turns(start, first, world, stopAt, maxBytes).0;
    RaisedSame(first, tries, s.tries, start.tries, s.tries);
  }
}
