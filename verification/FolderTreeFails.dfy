/**
 What makes a folder tree fail (apps/server/src/watch.ts, `createFolderTreeWatch`): anything but a folder that
 went or may not be read, and then it is closed whole and says so.
 */
module FolderTreeFails {
  import opened Common
  import opened FolderTree
  import opened FolderTreeRuns
  import opened FolderTreeWhole

  /** A folder of the tree's device is looked at, and not yet watched as the one it is. */
  predicate ToWatch(t: Tree, p: Path, st: Stat) {
    st.Found? && st.isDir && st.dev == t.dev && (p in t.watchers ==> t.watchers[p].id != st.id)
  }

  /** The event breaks the tree: its root's watch fails, a folder to watch is one too many or is not let be watched. */
  predicate Breaks(limit: nat, s: State, ix: nat, e: Event)
    requires ix < |s.trees|
  {
    var t := s.trees[ix];
    match e
    case WatchError(h) => h in s.pool.made && s.pool.made[h].tree == ix && s.pool.made[h].dir == t.root
    case LstatDone(k, st, os) =>
      && k in s.walks && s.walks[k].Lstat? && s.walks[k].tree == ix && ToWatch(t, s.walks[k].path, st)
      && (os == OtherError || (s.pool.used == limit && s.walks[k].path !in t.watchers))
    case GoesOn(k) => k in s.walks && s.walks[k] == Failing(ix)
    case _ => false
  }

  /** The same, or it is the start of the tree with no watch left for its root. */
  predicate BreaksNow(limit: nat, s: State, ix: nat, e: Event) {
    if ix < |s.trees| then !s.trees[ix].closed && Breaks(limit, s, ix, e)
    else ix == |s.trees| && e.Start? && s.pool.used == limit
  }

  /** A walk of the tree is told of an error that is no folder that went or may not be read. */
  predicate Stumbles(s: State, ix: nat, e: Event) {
    match e
    case LstatDone(k, st, _) => k in s.walks && s.walks[k].Lstat? && s.walks[k].tree == ix && st == Fails
    case ReaddirDone(k, l) => k in s.walks && s.walks[k].Readdir? && s.walks[k].tree == ix && l == ListFails
    case _ => false
  }

  predicate BreaksIn(limit: nat, s: State, ix: nat, es: seq<Event>)
    decreases |es|
  {
    es != [] && (BreaksNow(limit, s, ix, es[0]) || BreaksIn(limit, Next(limit, s, es[0]), ix, es[1..]))
  }

  predicate StumblesIn(limit: nat, s: State, ix: nat, es: seq<Event>)
    decreases |es|
  {
    es != [] && (Stumbles(s, ix, es[0]) || StumblesIn(limit, Next(limit, s, es[0]), ix, es[1..]))
  }

  lemma DropCounts(x: Both, path: Path)
    requires path in x.tree.watchers && path != x.tree.root
    ensures Dropped(x, path).pool.used < x.pool.used && path !in Dropped(x, path).tree.watchers
  {
    assert path in Below(x.tree, path);
  }

  /** A look closes the tree exactly when it breaks it. */
  lemma LookFails(limit: nat, ix: nat, x: Both, path: Path, depth: nat, st: Stat, os: OsWatch)
    requires st != Fails && !x.tree.closed && path != x.tree.root && x.pool.used <= limit
    ensures var y := Considered(limit, ix, x, path, depth, st, os).0;
            if ToWatch(x.tree, path, st) && (os == OtherError || (x.pool.used == limit && path !in x.tree.watchers))
            then y.tree.closed && y.tree.watchers == map[] && y.tree.errors == x.tree.errors + 1
            else !y.tree.closed && y.tree.errors == x.tree.errors
  {
    if path in x.tree.watchers { DropCounts(x, path); }
    hide Below;
  }

  /** What a step that breaks a tree leaves, or one that does not. */
  predicate Leaves(t: Tree, t': Tree, breaks: bool, closes: bool) {
    if breaks then t'.closed && t'.watchers == map[] && t'.errors == t.errors + 1
    else t'.errors == t.errors && (t'.closed <==> closes)
  }

  lemma LookLeaves(limit: nat, s: State, ix: nat, k: nat, st: Stat, os: OsWatch)
    requires Inv(limit, s) && ix < |s.trees| && !s.trees[ix].closed
    ensures var e := LstatDone(k, st, os);
            var s' := Next(limit, s, e);
            |s.trees| == |s'.trees| && Leaves(s.trees[ix], s'.trees[ix], Breaks(limit, s, ix, e), false)
  {
    hide Inv, Next, Considered, ToWatch;
    if k !in s.walks || !s.walks[k].Lstat? {
      NoSuchLook(limit, s, k, st, os);
    } else {
      var w := s.walks[k];
      WalkOf(limit, s, k);
      UsedFits(limit, s);
      LstatIsNext(limit, s, k, st, os);
      if w.tree == ix && st != Fails {
        LookFails(limit, ix, At(s, ix), w.path, w.depth, st, os);
      } else if st == Fails {
        NothingToWatch(s.trees[ix], w.path);
      }
    }
  }

  lemma NothingToWatch(t: Tree, p: Path)
    ensures !ToWatch(t, p, Fails)
  {
  }

  lemma NoSuchLook(limit: nat, s: State, k: nat, st: Stat, os: OsWatch)
    requires k !in s.walks || !s.walks[k].Lstat?
    ensures Next(limit, s, LstatDone(k, st, os)) == s
  {
  }

  lemma StepLeaves(limit: nat, s: State, ix: nat, e: Event)
    requires Inv(limit, s) && ix < |s.trees| && !s.trees[ix].closed && !e.LstatDone?
    ensures var s' := Next(limit, s, e);
            |s.trees| <= |s'.trees| && Leaves(s.trees[ix], s'.trees[ix], Breaks(limit, s, ix, e), e == Closes(ix))
  {
    hide Turn, Inv, Dropped, Add, Consider, Next;
    if e.WatchError? {
      ErrorLeaves(limit, s, ix, e.handle);
    } else {
      OtherLeaves(limit, s, ix, e);
    }
  }

  lemma OtherLeaves(limit: nat, s: State, ix: nat, e: Event)
    requires ix < |s.trees| && !s.trees[ix].closed && !e.LstatDone? && !e.WatchError?
    ensures var s' := Next(limit, s, e);
            |s.trees| <= |s'.trees| && Leaves(s.trees[ix], s'.trees[ix], Breaks(limit, s, ix, e), e == Closes(ix))
  {
    hide Turn, Dropped, Add, Consider;
    match e
    case GoesOn(k) =>
    case Closes(i) =>
    case _ =>
  }

  lemma ErrorLeaves(limit: nat, s: State, ix: nat, h: Handle)
    requires ix < |s.trees| && !s.trees[ix].closed
    ensures var e := WatchError(h);
            var s' := Next(limit, s, e);
            |s.trees| == |s'.trees| && Leaves(s.trees[ix], s'.trees[ix], Breaks(limit, s, ix, e), false)
  {
    hide Dropped;
    if h in s.pool.made { DropsOnly(At(s, ix), s.pool.made[h].dir); }
  }

  /**
   What a step does to an open tree: if it breaks it, it leaves it closed, with none of its watches open, and one
   error more reported; if not, no error is reported, and it is closed only by closing it.
   */
  lemma FailsExactly(limit: nat, s: State, ix: nat, e: Event)
    requires Inv(limit, s) && ix < |s.trees| && !s.trees[ix].closed
    ensures var s' := Next(limit, s, e);
            && |s.trees| <= |s'.trees|
            && var t, t' := s.trees[ix], s'.trees[ix];
               if Breaks(limit, s, ix, e) then
                 && t'.closed && t'.watchers == map[] && t'.errors == t.errors + 1
                 && forall h :: h in s'.pool.open ==> h in s'.pool.made && s'.pool.made[h].tree != ix
               else t'.errors == t.errors && (t'.closed <==> e == Closes(ix))
  {
    hide Inv, Next, Breaks;
    NextKeeps(limit, s, e);
    if e.LstatDone? {
      LookLeaves(limit, s, ix, e.walk, e.st, e.os);
    } else {
      StepLeaves(limit, s, ix, e);
    }
    if Breaks(limit, s, ix, e) {
      NoneOpen(limit, Next(limit, s, e), ix);
    }
  }

  lemma DropsOnly(x: Both, dir: Path)
    ensures Dropped(x, dir).tree == x.tree.(watchers := Dropped(x, dir).tree.watchers)
  {
  }

  lemma UsedFits(limit: nat, s: State)
    requires Inv(limit, s)
    ensures s.pool.used <= limit
  {
  }

  /** A closed tree has no watch open. */
  lemma NoneOpen(limit: nat, s: State, ix: nat)
    requires Inv(limit, s) && ix < |s.trees| && s.trees[ix].closed
    ensures forall h :: h in s.pool.open ==> h in s.pool.made && s.pool.made[h].tree != ix
  {
    assert TreeFits(s.trees[ix]);
    forall h | h in s.pool.open ensures h in s.pool.made && s.pool.made[h].tree != ix {
      assert Kept(s.pool, s.trees, h);
    }
  }

  /** A walk that comes to an error goes on to close its tree. */
  lemma StumbleFails(limit: nat, s: State, ix: nat, e: Event)
    requires Stumbles(s, ix, e) && ix < |s.trees|
    ensures var s' := Next(limit, s, e); s'.trees == s.trees && IsFailing(ix, s'.walks)
  {
    hide Considered;
    assert Next(limit, s, e).walks[e.walk] == Failing(ix);
  }

  lemma FailingGoesOn(limit: nat, s: State, ix: nat, k: nat)
    requires ix < |s.trees| && IsFailing(ix, s.walks)
    ensures var s' := Next(limit, s, GoesOn(k)); ix < |s'.trees| && (s'.trees[ix].closed || IsFailing(ix, s'.walks))
  {
    hide Turn;
    var j :| j in s.walks && s.walks[j] == Failing(ix);
    if j != k {
      assert j in Next(limit, s, GoesOn(k)).walks && Next(limit, s, GoesOn(k)).walks[j] == Failing(ix);
    }
  }

  lemma TreesStay(limit: nat, s: State, e: Event)
    ensures |s.trees| <= |Next(limit, s, e).trees|
  {
    if e.Start? {
      hide Add;
    } else {
      NotYet(limit, s, e);
      hide Next;
    }
  }

  /** Only its own step ends it. */
  lemma FailingWaits(limit: nat, s: State, j: nat, e: Event)
    requires j in s.walks && s.walks[j].Failing? && e != GoesOn(j) && s.nextWalk !in s.walks
    ensures j in Next(limit, s, e).walks && Next(limit, s, e).walks[j] == s.walks[j]
  {
    hide Considered, Add, Consider, Turn, Dropped, Failed, Closed;
    match e
    case Start(_, _, _, _) =>
    case Changed(h, name) =>
    case LstatDone(k, st, os) =>
    case _ =>
  }

  lemma FailingStaysSo(limit: nat, s: State, ix: nat, e: Event)
    requires Inv(limit, s) && ix < |s.trees| && IsFailing(ix, s.walks)
    ensures var s' := Next(limit, s, e); ix < |s'.trees| && (s'.trees[ix].closed || IsFailing(ix, s'.walks))
  {
    hide Next, Inv;
    if e.GoesOn? {
      FailingGoesOn(limit, s, ix, e.walk);
    } else {
      NextIsNew(limit, s);
      var j :| j in s.walks && s.walks[j] == Failing(ix);
      FailingWaits(limit, s, j, e);
      TreesStay(limit, s, e);
    }
  }

  /** What a walk stumbled over is about to close the tree, or has. */
  ghost predicate Ending(s: State, ix: nat) {
    ix < |s.trees| && (s.trees[ix].closed || IsFailing(ix, s.walks))
  }

  lemma EndingStays(limit: nat, s: State, ix: nat, e: Event)
    requires Inv(limit, s) && (Ending(s, ix) || (ix < |s.trees| && Stumbles(s, ix, e)))
    ensures Ending(Next(limit, s, e), ix)
  {
    hide Next, Inv, IsFailing, Stumbles;
    if Stumbles(s, ix, e) {
      StumbleFails(limit, s, ix, e);
    } else if s.trees[ix].closed {
      ClosedStays(limit, s, ix, e);
    } else {
      FailingStaysSo(limit, s, ix, e);
    }
  }

  lemma {:induction false} EndingEnds(limit: nat, s: State, ix: nat, es: seq<Event>)
    requires Inv(limit, s) && (Ending(s, ix) || StumblesIn(limit, s, ix, es))
    ensures Ending(Exec(limit, s, es), ix)
    decreases |es|
  {
    hide Next, Inv, Ending, Stumbles;
    if es != [] {
      NextKeeps(limit, s, es[0]);
      if Stumbles(s, ix, es[0]) { WalksHaveTrees(limit, s, ix, es[0]); }
      if Ending(s, ix) || Stumbles(s, ix, es[0]) { EndingStays(limit, s, ix, es[0]); }
      EndingEnds(limit, Next(limit, s, es[0]), ix, es[1..]);
    }
  }

  lemma WalksHaveTrees(limit: nat, s: State, ix: nat, e: Event)
    requires Inv(limit, s) && Stumbles(s, ix, e)
    ensures ix < |s.trees|
  {
    WalkOf(limit, s, e.walk);
    hide Inv;
  }

  /** Errors reported so far: none of a tree that is not there yet. */
  function Errors(s: State, ix: nat): nat {
    if ix < |s.trees| then s.trees[ix].errors else 0
  }

  lemma StartErrors(limit: nat, s: State, e: Event)
    requires Inv(limit, s) && e.Start?
    ensures Errors(Next(limit, s, e), |s.trees|) == if s.pool.used == limit then 1 else 0
    ensures forall i :: 0 <= i < |s.trees| ==> Errors(Next(limit, s, e), i) == Errors(s, i)
    ensures |s.trees| <= |Next(limit, s, e).trees| <= |s.trees| + 1
  {
    UsedFits(limit, s);
    hide Inv;
  }

  lemma ErrorsStep(limit: nat, s: State, ix: nat, e: Event)
    requires Inv(limit, s)
    ensures Errors(Next(limit, s, e), ix) == Errors(s, ix) + if BreaksNow(limit, s, ix, e) then 1 else 0
  {
    hide Next, Inv, Breaks;
    if ix < |s.trees| {
      if s.trees[ix].closed {
        ClosedSame(limit, s, ix, e);
      } else {
        FailsExactly(limit, s, ix, e);
      }
    } else if e.Start? {
      StartErrors(limit, s, e);
    } else {
      NotYet(limit, s, e);
    }
  }

  lemma ClosedSame(limit: nat, s: State, ix: nat, e: Event)
    requires Inv(limit, s) && ix < |s.trees| && s.trees[ix].closed
    ensures ix < |Next(limit, s, e).trees| && Next(limit, s, e).trees[ix] == s.trees[ix]
  {
    assert TreeFits(s.trees[ix]);
    StaysClosed(limit, s, ix, e);
    hide Next, Inv;
  }

  lemma {:induction false} ErrorsCount(limit: nat, s: State, ix: nat, es: seq<Event>)
    requires Inv(limit, s)
    ensures Errors(Exec(limit, s, es), ix) > 0 <==> Errors(s, ix) > 0 || BreaksIn(limit, s, ix, es)
    decreases |es|
  {
    hide Next, Inv, Errors, BreaksNow;
    if es != [] {
      NextKeeps(limit, s, es[0]);
      ErrorsStep(limit, s, ix, es[0]);
      ErrorsCount(limit, Next(limit, s, es[0]), ix, es[1..]);
    }
  }

  /**
   A tree says that it failed, once and closed, exactly if something broke it while it was open: whatever the
   system answers, in any run. And one of whose walks any came to another error than a folder that went or may
   not be read is closed once its walks are over.
   */
  lemma FailsAsAWhole(limit: nat, es: seq<Event>, ix: nat)
    ensures var s := Exec(limit, Init(), es);
            && Errors(s, ix) == (if BreaksIn(limit, Init(), ix, es) then 1 else 0)
            && (BreaksIn(limit, Init(), ix, es) ==> s.trees[ix].closed)
            && (StumblesIn(limit, Init(), ix, es) ==> ix < |s.trees| && (NoneWalks(s, ix) ==> s.trees[ix].closed))
  {
    var s := Exec(limit, Init(), es);
    EveryRun(limit, Init(), es);
    ErrorsCount(limit, Init(), ix, es);
    if ix < |s.trees| { TreeOf(limit, s, ix); }
    if StumblesIn(limit, Init(), ix, es) { EndingEnds(limit, Init(), ix, es); }
  }
}
