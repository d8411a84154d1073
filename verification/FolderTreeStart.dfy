/**
 A folder tree from its start, its files staying as they are (apps/server/src/watch.ts, `createFolderTreeWatch`):
 it is never watched in part, and what it watches is there.
 */
module FolderTreeStart {
  import opened Common
  import opened FolderTree
  import opened FolderTreeRuns
  import opened FolderTreeWhole

  /** A folder that is there, listed or not: some folder may be entered and not be listed. */
  ghost predicate Present(f: Files, root: Path, dev: nat, p: Path)
    decreases |p|
  {
    p == root
    || (|p| > |root| && |p| - |root| < MAX_DEPTH && Watchable(f, dev, p) && Present(f, root, dev, p[..|p| - 1]))
  }

  ghost predicate StackPresent(f: Files, t: Tree, stack: seq<Frame>) {
    forall i :: 0 <= i < |stack| ==> Present(f, t.root, t.dev, stack[i].dir)
  }

  /** A walk is in folders that are there. */
  ghost predicate WalkPresent(f: Files, t: Tree, w: Walk) {
    match w
    case Lstat(_, path, _, stack) =>
      |path| > |t.root| && Present(f, t.root, t.dev, path[..|path| - 1]) && StackPresent(f, t, stack)
    case Readdir(_, dir, _, stack) => Present(f, t.root, t.dev, dir) && StackPresent(f, t, stack)
    case Loop(_, stack) => StackPresent(f, t, stack)
    case Failing(_) => true
  }

  ghost predicate AllPresent(f: Files, t: Tree) {
    forall p :: p in t.watchers ==> Present(f, t.root, t.dev, p)
  }

  ghost predicate WalksPresent(f: Files, t: Tree, ix: nat, walks: map<nat, Walk>) {
    forall k :: k in walks && walks[k].tree == ix ==> WalkPresent(f, t, walks[k])
  }

  ghost predicate MadePresent(f: Files, t: Tree, ix: nat, made: map<Handle, Made>) {
    forall h :: h in made && made[h].tree == ix ==> Present(f, t.root, t.dev, made[h].dir)
  }

  ghost predicate Sound(f: Files, s: State, ix: nat) {
    ix < |s.trees| ==>
      AllPresent(f, s.trees[ix]) && WalksPresent(f, s.trees[ix], ix, s.walks)
        && MadePresent(f, s.trees[ix], ix, s.pool.made)
  }

  lemma WalksPresentStill(f: Files, t: Tree, ix: nat, walks: map<nat, Walk>, k: nat, now: Walk)
    requires WalksPresent(f, t, ix, walks) && (now.tree == ix ==> WalkPresent(f, t, now))
    ensures WalksPresent(f, t, ix, walks[k := now]) && WalksPresent(f, t, ix, walks - {k})
  {
    hide WalkPresent;
  }

  /** Only the root and the device matter. */
  lemma SameRoot(f: Files, t: Tree, t': Tree, ix: nat, walks: map<nat, Walk>, made: map<Handle, Made>)
    requires t'.root == t.root && t'.dev == t.dev && t'.watchers.Keys <= t.watchers.Keys
    requires AllPresent(f, t) && WalksPresent(f, t, ix, walks) && MadePresent(f, t, ix, made)
    ensures AllPresent(f, t') && WalksPresent(f, t', ix, walks) && MadePresent(f, t', ix, made)
  {
    hide Present;
    assert forall p :: p in t'.watchers ==> p in t'.watchers.Keys;
    forall k | k in walks && walks[k].tree == ix ensures WalkPresent(f, t', walks[k]) {
      assert WalkPresent(f, t, walks[k]);
    }
  }

  lemma TurnPresent(f: Files, t: Tree, ix: nat, stack: seq<Frame>)
    requires StackPresent(f, t, stack) && StackFits(t.root, stack) && stack != []
    ensures var w := Turn(t, ix, stack).value; w.tree == ix && WalkPresent(f, t, w)
  {
    hide Present;
    var top := stack[0];
    assert Deep(t.root, top.dir, top.depth);
    if top.left != [] {
      var rest := [top.(left := top.left[1..])] + stack[1..];
      assert StackPresent(f, t, rest);
      assert (top.dir + [top.left[0].name])[..|top.dir|] == top.dir;
    }
  }

  lemma FoundIsPresent(f: Files, t: Tree, path: Path, depth: nat)
    requires Deep(t.root, path, depth) && |path| > |t.root| && Present(f, t.root, t.dev, path[..|path| - 1])
    requires Watchable(f, t.dev, path)
    ensures Present(f, t.root, t.dev, path)
  {
    hide Watchable;
  }

  ghost predicate Fewer(x: Both, y: Both) {
    y.tree.root == x.tree.root && y.tree.dev == x.tree.dev && y.pool.made == x.pool.made
    && y.tree.watchers.Keys <= x.tree.watchers.Keys
  }

  lemma Forgets(x: Both, dir: Path)
    ensures Fewer(x, Failed(x)) && Fewer(x, Dropped(x, dir)) && Fewer(x, Closed(x))
  {
    hide Below;
  }

  /** What a tree watches then was watched before, or is the path if that is added. */
  ghost predicate AtMost(x: Both, y: Both, ix: nat, path: Path, depth: nat, added: bool) {
    && y.tree.root == x.tree.root && y.tree.dev == x.tree.dev
    && y.tree.watchers.Keys <= x.tree.watchers.Keys + (if added then {path} else {})
    && (forall h :: h in y.pool.made ==>
          (h in x.pool.made && y.pool.made[h] == x.pool.made[h]) || (added && y.pool.made[h] == Made(ix, path, depth)))
  }

  lemma AddAdds(limit: nat, ix: nat, x: Both, path: Path, depth: nat, id: nat, os: OsWatch)
    ensures var (y, added) := Add(limit, ix, x, path, depth, id, os);
            AtMost(x, y, ix, path, depth, added == Yes) && (added == Yes ==> os == Opens)
  {
    Forgets(x, path);
    hide Failed;
  }

  lemma FewerAtMost(x: Both, y: Both, ix: nat, path: Path, depth: nat)
    ensures Fewer(x, x) && (Fewer(x, y) ==> AtMost(x, y, ix, path, depth, false))
  {
  }

  lemma FewerThenAdds(x: Both, y: Both, z: Both, ix: nat, path: Path, depth: nat, added: bool)
    requires Fewer(x, y) && AtMost(y, z, ix, path, depth, added)
    ensures AtMost(x, z, ix, path, depth, added)
  {
  }

  /** After a look it is there. */
  lemma LookAdds(f: Files, limit: nat, ix: nat, x: Both, path: Path, depth: nat)
    requires f.stat(path) != Fails
    ensures var (y, scan) := Considered(limit, ix, x, path, depth, f.stat(path), f.watch(path));
            AtMost(x, y, ix, path, depth, scan) && (scan ==> Watchable(f, x.tree.dev, path))
  {
    hide Dropped, Add, AtMost, Fewer;
    var y := if path in x.tree.watchers then Dropped(x, path) else x;
    Forgets(x, path);
    FewerAtMost(x, y, ix, path, depth);
    FewerAtMost(x, x, ix, path, depth);
    if f.stat(path).Found? {
      var (z, added) := Add(limit, ix, y, path, depth, f.stat(path).id, f.watch(path));
      AddAdds(limit, ix, y, path, depth, f.stat(path).id, f.watch(path));
      FewerThenAdds(x, y, z, ix, path, depth, added == Yes);
    }
  }

  lemma PathFits(limit: nat, s: State, k: nat)
    requires Inv(limit, s) && k in s.walks && s.walks[k].Lstat?
    ensures var w := s.walks[k];
            w.tree < |s.trees| && Deep(s.trees[w.tree].root, w.path, w.depth) && |w.path| > |s.trees[w.tree].root|
  {
    WalkOf(limit, s, k);
    hide Inv;
  }

  /** A walk after its look is in folders that are there. */
  lemma LookedPresent(f: Files, t: Tree, w: Walk, scan: bool)
    requires w.Lstat? && WalkPresent(f, t, w) && Deep(t.root, w.path, w.depth) && |w.path| > |t.root|
    requires scan ==> Watchable(f, t.dev, w.path)
    ensures scan ==> Present(f, t.root, t.dev, w.path)
    ensures WalkPresent(f, t, if scan then Readdir(w.tree, w.path, w.depth, w.stack) else Loop(w.tree, w.stack))
  {
    if scan { FoundIsPresent(f, t, w.path, w.depth); }
    hide Present, Watchable;
  }

  lemma OwnLookSound(f: Files, limit: nat, s: State, ix: nat, k: nat)
    requires Inv(limit, s) && Sound(f, s, ix) && ix < |s.trees| && k in s.walks && s.walks[k].Lstat?
        && s.walks[k].tree == ix
    requires f.stat(s.walks[k].path) != Fails
    ensures var p := s.walks[k].path; Sound(f, Next(limit, s, LstatDone(k, f.stat(p), f.watch(p))), ix)
  {
    hide Inv, Next, Considered, Present, Watchable, Deep, WalkPresent, AllPresent, MadePresent;
    var w, t := s.walks[k], s.trees[ix];
    var st, os := f.stat(w.path), f.watch(w.path);
    assert WalkPresent(f, t, w);
    PathFits(limit, s, k);
    LstatIsNext(limit, s, k, st, os);
    LookAdds(f, limit, ix, At(s, ix), w.path, w.depth);
    var (x, scan) := Considered(limit, ix, At(s, ix), w.path, w.depth, st, os);
    LookedPresent(f, t, w, scan);
    var now := if scan then Readdir(ix, w.path, w.depth, w.stack) else Loop(ix, w.stack);
    WalksPresentStill(f, t, ix, s.walks, k, now);
    LookSound(f, t, x, ix, s.walks[k := now], s.pool.made, w.path, w.depth, scan);
  }

  lemma LstatSound(f: Files, limit: nat, s: State, ix: nat, k: nat, st: Stat, os: OsWatch)
    requires Inv(limit, s) && Sound(f, s, ix) && Answers(f, s, ix, LstatDone(k, st, os))
    requires ix < |s.trees| && k in s.walks && s.walks[k].Lstat?
    ensures Sound(f, Next(limit, s, LstatDone(k, st, os)), ix)
  {
    hide Inv, Next, Considered, Present, Watchable, Deep, WalkPresent, AllPresent, WalksPresent;
    PathFits(limit, s, k);
    LstatIsNext(limit, s, k, st, os);
    var w, t := s.walks[k], s.trees[ix];
    if st == Fails {
      FailingPresent(f, t, w.tree);
      WalksPresentStill(f, t, ix, s.walks, k, Failing(w.tree));
    } else if w.tree == ix {
      OwnLookSound(f, limit, s, ix, k);
    } else {
      OtherLook(limit, w.tree, At(s, w.tree), w.path, w.depth, st, os);
      var now := Next(limit, s, LstatDone(k, st, os)).walks[k];
      WalksPresentStill(f, t, ix, s.walks, k, now);
    }
  }

  lemma FailingPresent(f: Files, t: Tree, ix: nat)
    ensures WalkPresent(f, t, Failing(ix))
  {
  }

  lemma LookSound(f: Files, t: Tree, x: Both, ix: nat, walks: map<nat, Walk>, made: map<Handle, Made>, path: Path,
         depth: nat,
                  scan: bool)
    requires AllPresent(f, t) && WalksPresent(f, t, ix, walks) && MadePresent(f, t, ix, made)
    requires x.tree.root == t.root && x.tree.dev == t.dev && (scan ==> Present(f, t.root, t.dev, path))
    requires x.tree.watchers.Keys <= t.watchers.Keys + (if scan then {path} else {})
    requires forall h :: h in x.pool.made ==>
               (h in made && x.pool.made[h] == made[h]) || (scan && x.pool.made[h] == Made(ix, path, depth))
    ensures AllPresent(f, x.tree) && WalksPresent(f, x.tree, ix, walks) && MadePresent(f, x.tree, ix, x.pool.made)
  {
    hide Present;
    assert forall p :: p in x.tree.watchers ==> p in x.tree.watchers.Keys;
    forall k | k in walks && walks[k].tree == ix ensures WalkPresent(f, x.tree, walks[k]) {
      assert WalkPresent(f, t, walks[k]);
    }
  }

  /** What is watched for a tree is made for it. */
  lemma OtherLook(limit: nat, ix: nat, x: Both, path: Path, depth: nat, st: Stat, os: OsWatch)
    requires st != Fails
    ensures var y := Considered(limit, ix, x, path, depth, st, os).0;
            forall h :: h in y.pool.made && y.pool.made[h].tree != ix ==>
              h in x.pool.made && x.pool.made[h] == y.pool.made[h]
  {
    hide Below;
  }

  lemma StartSound(f: Files, limit: nat, s: State, ix: nat, root: Path, dev: nat, id: nat, os: OsWatch)
    requires Inv(limit, s) && Sound(f, s, ix)
    ensures Sound(f, Next(limit, s, Start(root, dev, id, os)), ix)
  {
    hide Inv, Next, Add, WalkPresent;
    var n := |s.trees|;
    var x := Add(limit, n, Both(s.pool, Tree(root, dev, map[], false, 0)), root, 0, id, os);
    StartIsNext(limit, s, root, dev, id, os);
    StartWatches(limit, s.pool, n, root, dev, id, os);
    if x.1 != Throws {
      var first := Readdir(n, root, 0, []);
      if ix < n {
        WalksPresentStill(f, s.trees[ix], ix, s.walks, s.nextWalk, first);
      } else if ix == n {
        forall k | k in s.walks ensures s.walks[k].tree < n { WalkOf(limit, s, k); }
        forall h | h in s.pool.made ensures s.pool.made[h].tree < n { MadeOf(limit, s, h); }
        RootIsPresent(f, x.0.tree, n, root);
        StartsAtRoot(limit, s.pool, n, root, dev, id, os);
        assert forall p :: p in x.0.tree.watchers ==> p in x.0.tree.watchers.Keys;
      }
    }
  }

  lemma RootIsPresent(f: Files, t: Tree, ix: nat, root: Path)
    ensures t.root == root ==> Present(f, root, t.dev, root) && WalkPresent(f, t, Readdir(ix, root, 0, []))
  {
  }

  lemma StartsAtRoot(limit: nat, pool: Pool, n: nat, root: Path, dev: nat, id: nat, os: OsWatch)
    ensures var x := Add(limit, n, Both(pool, Tree(root, dev, map[], false, 0)), root, 0, id, os).0;
            x.tree.watchers.Keys <= {root} && x.tree.root == root
  {
  }

  lemma NextSound(f: Files, limit: nat, s: State, ix: nat, e: Event)
    requires Inv(limit, s) && Sound(f, s, ix) && Answers(f, s, ix, e)
    ensures Sound(f, Next(limit, s, e), ix)
  {
    hide Inv, Next, Sound, Answers;
    if e.Start? {
      StartSound(f, limit, s, ix, e.root, e.dev, e.id, e.os);
    } else if ix < |s.trees| {
      StepSound(f, limit, s, ix, e);
    } else {
      NotYet(limit, s, e);
      NoTreeIsSound(f, Next(limit, s, e), ix);
    }
  }

  lemma NoTreeIsSound(f: Files, s: State, ix: nat)
    requires ix >= |s.trees|
    ensures Sound(f, s, ix)
  {
  }

  lemma StepSound(f: Files, limit: nat, s: State, ix: nat, e: Event)
    requires Inv(limit, s) && Sound(f, s, ix) && Answers(f, s, ix, e) && ix < |s.trees| && !e.Start?
    ensures Sound(f, Next(limit, s, e), ix)
  {
    hide Inv, Considered, Turn, Consider, Dropped, Failed, Closed, AllPresent, WalksPresent, MadePresent, Present;
    match e
    case Changed(h, name) => if h in s.pool.made { ChangedSound(f, limit, s, ix, h, name); }
    case WatchError(h) =>
      if h in s.pool.made && s.pool.made[h].tree < |s.trees| { FewerSound(f, s, ix, s.pool.made[h].tree,
        s.pool.made[h].dir); }
    case LstatDone(k, st, os) => if k in s.walks && s.walks[k].Lstat? { LstatSound(f, limit, s, ix, k, st, os); }
    case ReaddirDone(k, listing) => if k in s.walks
      && s.walks[k].Readdir? { ReaddirSound(f, limit, s, ix, k, listing); }
    case GoesOn(k) => if k in s.walks { GoesOnSound(f, limit, s, ix, k); }
    case Closes(i) => if i < |s.trees| { FewerSound(f, s, ix, i, []); }
  }

  /** Closing, failing and dropping only forget. */
  lemma FewerSound(f: Files, s: State, ix: nat, i: nat, dir: Path)
    requires Sound(f, s, ix) && ix < |s.trees| && i < |s.trees|
    ensures Sound(f, With(s, i, Failed(At(s, i))), ix)
    ensures Sound(f, With(s, i, Dropped(At(s, i), dir)), ix)
    ensures Sound(f, With(s, i, Closed(At(s, i))), ix)
  {
    var t := s.trees[ix];
    Forgets(At(s, i), dir);
    hide Failed, Dropped, Closed, AllPresent, WalksPresent, MadePresent;
    SameRoot(f, t, With(s, i, Failed(At(s, i))).trees[ix], ix, s.walks, s.pool.made);
    SameRoot(f, t, With(s, i, Dropped(At(s, i), dir)).trees[ix], ix, s.walks, s.pool.made);
    SameRoot(f, t, With(s, i, Closed(At(s, i))).trees[ix], ix, s.walks, s.pool.made);
  }

  lemma ChangedSound(f: Files, limit: nat, s: State, ix: nat, h: Handle, name: Option<string>)
    requires Inv(limit, s) && Sound(f, s, ix) && ix < |s.trees| && h in s.pool.made
    ensures Sound(f, Next(limit, s, Changed(h, name)), ix)
  {
    hide Inv, Next, Present, WalkPresent, Consider, Deep;
    var m := s.pool.made[h];
    MadeOf(limit, s, h);
    ChangedIsNext(limit, s, h, name);
    if !s.trees[m.tree].closed && name.Some? {
      ConsiderPresent(f, s.trees[m.tree], m.tree, m, name.value);
      var now := Consider(s.trees[m.tree], m.tree, m.dir + [name.value], m.depth + 1, []);
      WalksPresentStill(f, s.trees[ix], ix, s.walks, s.nextWalk, now);
    }
  }

  lemma ConsiderPresent(f: Files, t: Tree, ix: nat, m: Made, name: string)
    requires Deep(t.root, m.dir, m.depth)
    ensures var w := Consider(t, ix, m.dir + [name], m.depth + 1, []);
            w.tree == ix && (Present(f, t.root, t.dev, m.dir) ==> WalkPresent(f, t, w))
  {
    hide Present;
    assert (m.dir + [name])[..|m.dir|] == m.dir;
  }

  lemma ReaddirSound(f: Files, limit: nat, s: State, ix: nat, k: nat, listing: Listing)
    requires Sound(f, s, ix) && ix < |s.trees| && k in s.walks && s.walks[k].Readdir?
    ensures Sound(f, Next(limit, s, ReaddirDone(k, listing)), ix)
  {
    hide Present;
    var w, t := s.walks[k], s.trees[ix];
    var now := Next(limit, s, ReaddirDone(k, listing)).walks[k];
    assert w.tree == ix ==> WalkPresent(f, t, w);
    WalksPresentStill(f, t, ix, s.walks, k, now);
  }

  lemma GoesOnSound(f: Files, limit: nat, s: State, ix: nat, k: nat)
    requires Inv(limit, s) && Sound(f, s, ix) && ix < |s.trees| && k in s.walks
    ensures Sound(f, Next(limit, s, GoesOn(k)), ix)
  {
    hide Inv, Present, WalkPresent, Next;
    WalkOf(limit, s, k);
    var w, t := s.walks[k], s.trees[ix];
    if w.Lstat? || w.Readdir? {
      StaysPut(limit, s, k);
    } else if w.Failing? {
      FailingNext(limit, s, k);
      FewerSound(f, s, ix, w.tree, []);
      WalksPresentStill(f, With(s, w.tree, Failed(At(s, w.tree))).trees[ix], ix, s.walks, k, Failing(w.tree));
    } else {
      LoopIsNext(limit, s, k);
      LoopSound(f, s.trees, s.walks, ix, k);
    }
  }

  lemma FailingNext(limit: nat, s: State, k: nat)
    requires k in s.walks && s.walks[k].Failing? && s.walks[k].tree < |s.trees|
    ensures var ix := s.walks[k].tree;
            Next(limit, s, GoesOn(k)) == With(s, ix, Failed(At(s, ix))).(walks := s.walks - {k})
  {
    hide Failed;
  }

  lemma LoopSound(f: Files, trees: seq<Tree>, walks: map<nat, Walk>, ix: nat, k: nat)
    requires ix < |trees| && k in walks && walks[k].Loop? && WalkFits(trees, walks[k])
    requires WalksPresent(f, trees[ix], ix, walks)
    ensures WalksPresent(f, trees[ix], ix, Turned(trees, walks, k))
  {
    var w := walks[k];
    assert w.tree == ix ==> WalkPresent(f, trees[ix], w);
    hide Present;
    WalksPresentStill(f, trees[ix], ix, walks, k, Failing(w.tree));
    if w.stack != [] {
      if w.tree == ix { TurnPresent(f, trees[ix], ix, w.stack); }
      WalksPresentStill(f, trees[ix], ix, walks, k, Turn(trees[w.tree], w.tree, w.stack).value);
    }
  }

  lemma {:induction false} EveryRunSound(f: Files, limit: nat, s: State, ix: nat, es: seq<Event>)
    requires Inv(limit, s) && Sound(f, s, ix) && AllAnswered(f, limit, s, ix, es)
    ensures Sound(f, Exec(limit, s, es), ix)
    decreases |es|
  {
    hide Inv, Sound, Next, Answers;
    if es != [] {
      NextKeeps(limit, s, es[0]);
      NextSound(f, limit, s, ix, es[0]);
      EveryRunSound(f, limit, Next(limit, s, es[0]), ix, es[1..]);
    }
  }

  /** Folders that may be entered are listed: what `lstat` finds in one, `readdir` does. */
  ghost predicate ListsAll(f: Files) {
    forall p: Path, dev: nat :: p != [] && Watchable(f, dev, p) ==> Listed(f, p[..|p| - 1], p[|p| - 1])
  }

  lemma {:induction false} PresentIsFindable(f: Files, t: Tree, p: Path)
    requires ListsAll(f) && Present(f, t.root, t.dev, p)
    ensures Findable(f, t, p)
    decreases |p|
  {
    hide Watchable, Listed;
    if p != t.root {
      PresentIsFindable(f, t, p[..|p| - 1]);
    }
  }

  lemma {:induction false} NoneDue(limit: nat, s: State, ix: nat, o: Open, es: seq<Event>)
    requires o.due == {}
    ensures OnwardsAll(limit, s, ix, o, es).due == {}
    decreases |es|
  {
    hide Next;
    if es != [] {
      NoneDue(limit, Next(limit, s, es[0]), ix, Onwards(s, ix, o, es[0]), es[1..]);
    }
  }

  /**
   A tree is never watched in part: over any run from the start in which the files stay as they are, once no
   walk of an open tree is left, it watches each folder that can be found from its root, but for those at or
   below one whose watch failed, and nothing that is not there. With no such failure, and where folders list
   all they hold, these are the same.
   */
  lemma NeverInPart(f: Files, limit: nat, es: seq<Event>, ix: nat)
    requires AllAnswered(f, limit, Init(), ix, es)
    ensures var s := Exec(limit, Init(), es);
            var o := OnwardsAll(limit, Init(), ix, Open({}, {}), es);
            ix < |s.trees| && !s.trees[ix].closed && NoneWalks(s, ix) ==>
              var t := s.trees[ix];
              && (forall p :: Findable(f, t, p) ==> p in t.watchers || BelowLost(o, p))
              && (forall p :: p in t.watchers ==> Present(f, t.root, t.dev, p))
              && (ListsAll(f) && o.lost == {} ==> forall p :: p in t.watchers <==> Findable(f, t, p))
  {
    NoneDue(limit, Init(), ix, Open({}, {}), es);
    Settles(f, limit, [], ix, {}, es);
    EveryRunSound(f, limit, Init(), ix, es);
    hide Next;
    var s := Exec(limit, Init(), es);
    assert Exec(limit, Init(), []) == Init();
    if ix < |s.trees| && ListsAll(f) {
      var t := s.trees[ix];
      forall p | Present(f, t.root, t.dev, p) ensures Findable(f, t, p) { PresentIsFindable(f, t, p); }
    }
  }
}
